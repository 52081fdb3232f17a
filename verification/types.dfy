/** Values shared by the VM lifecycle model of the hyperd daemon: the VM record
    the registry stores, the boot configuration handed to the hypervisor, the
    replies of the collaborators the daemon calls (hypervisor driver, VM pool,
    metadata store, status channel) and the errors the daemon returns. */
module VmTypes {

  datatype Option<+T> = None | Some(value: T)

  /** A Go `(value, error)` pair: either a value or an error, never both. */
  datatype Result<+T> = Success(value: T) | Failure(error: Error)

  /** A hypervisor-backed VM as the daemon sees it (`hypervisor.Vm`): its
      identifier, allocated cpu count, allocated memory in MB and lazy flag. */
  datatype Vm = Vm(id: string, cpu: int, mem: int, lazy: bool)

  /** The daemon-wide settings that StartVm reads: image paths and whether the
      host is darwin (Go's `runtime.GOOS == "darwin"`). */
  datatype HostConfig = HostConfig(
    kernel: string,
    initrd: string,
    bios: string,
    cbfs: string,
    vboxImage: string,
    darwin: bool)

  /** `hypervisor.BootConfig` as StartVm fills it in. */
  datatype BootConfig = BootConfig(
    cpu: int,
    memory: int,
    kernel: string,
    initrd: string,
    bios: string,
    cbfs: string,
    vbox: string)

  /** `pod.UserResource`: the cpu and memory a pod declares. */
  datatype UserResource = UserResource(vcpu: int, memory: int)

  /** One event read from a VM's status channel. */
  datatype VmResponse = VmResponse(vmId: string, code: int, cause: string)

  /** What `WaitVmStart` gets from the VM: either the status channel could not
      be acquired, or the first event read from it. */
  datatype ChanReply = ChanUnavailable(err: Error) | Received(response: VmResponse)

  /** The triple `vm.Kill()` returns. */
  datatype KillReply = KillReply(code: int, cause: string, err: Option<Error>)

  /** The pair `vm.ReleaseVm()` returns. */
  datatype ReleaseReply = ReleaseReply(code: int, err: Option<Error>)

  /** Persisted VM metadata: opaque bytes. */
  type VmData = seq<bv8>

  datatype Error =
    | AlreadyHasVm(pod: string, held: string, wanted: string)  // pod bound to another VM
    | NoSuchVm(id: string)                                      // GetVM on an unregistered id
    | CpuMismatch                                               // GetVM: cpu differs
    | MemMismatch                                               // GetVM: memory differs
    | NotStarted                                                // first status code is not "running"
    | Collaborator(cause: string)                               // passed through from a collaborator

  // The collaborators, each a total function from its arguments to its reply.

  /** `hypervisor.GetVm(vmId, config, false, lazy)`: direct boot. */
  type Hypervisor = (string, BootConfig, bool) -> Result<Vm>
  /** `daemon.Factory.GetVm(cpu, mem)`: the reuse pool. */
  type Pool = (int, int) -> Result<Vm>
  /** `vm.Kill()` on a registered VM. */
  type Killer = Vm -> KillReply
  /** `vm.ReleaseVm()` on a registered VM. */
  type Releaser = Vm -> ReleaseReply
  /** `daemon.db.GetVM(vmId)`: the persisted metadata store. */
  type MetadataStore = string -> Result<VmData>
  /** `vm.AssociateVm(status, data)`: hydration of a reconstructed VM. */
  type Hydrator = (Vm, VmData) -> Option<Error>
  /** `vm.GetResponseChan()` followed by one receive. */
  type Responder = Vm -> ChanReply

  /** Status code of a successful operation (`types.E_OK`, the zero code). */
  const E_OK: int := 0
  /** Status code meaning "the VM is running" (`types.E_VM_RUNNING`); its
      number is defined in runv's types package and no proof depends on it. */
  const E_VM_RUNNING: int
}
