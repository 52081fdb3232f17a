# VM lifecycle and pod association of the hyperd daemon

This project models `daemon/vm.go` of hyperd, the daemon that runs each pod
inside its own hypervisor-isolated VM, and proves properties of that model.

The daemon keeps a process-wide registry, `VmList`, that maps a VM id to its
VM. It changes the registry only through `AddVm`, which stores a VM under its
own id, and `RemoveVm`, which deletes an id. The model has these parts:

- **`VmTypes`** (`types.dfy`) holds the values. `Vm` is the VM record (id,
  cpu, memory, lazy flag). `BootConfig` is the boot configuration. The file
  also defines the replies of the collaborators and the daemon's errors.
- **`VmLifecycle`** (`vm.dfy`) holds the logic. Pure decisions are
  functions: the cpu/memory defaults, the boot-strategy rule, the
  lookup-and-compare path of `GetVM` and the status-code check of
  `WaitVmStart`. The `Daemon` class has a `VmList: map<string, Vm>` field,
  and its methods change that field as the Go code does. The `Pod` class
  has the pod's `vm: Option<Vm>` and status `statusVm` fields, which
  `AssociateVm` assigns and rolls back.

Every outside effect is a function parameter: hypervisor boot, pool fetch,
`vm.Kill`, `vm.ReleaseVm`, the metadata store, hydration and the status
channel. The contracts say which collaborator is called, with which
arguments, and what follows from each possible answer. So every property
holds whatever the driver, pool or store replies.

`Daemon.Valid()` says that every VM is stored under its own id. Every method
preserves it.

Some guarantees a caller might expect do not hold in the code, and the
model follows the code:

- A caller might expect the VM to be absent after any `CreateVm` error.
  When the synchronous wait fails, the code kills the new VM; if that kill
  also fails, the VM stays registered although `CreateVm` returns an error.
- A status code other than "running" gives `WaitVmStart` a fixed error
  without the event's cause.
- A failed metadata fetch in `AssociateVm` returns the store's own error,
  not a dedicated not-found error.
- `AssociateVm` with an empty id calls `NewVm("")`. That generates a fresh
  `vm-` id, so the pod's VM then has an id different from its status field
  (which is `""`). The contract states this case separately, and a second
  association with the empty id is then a conflict (`AssociateEmptyTwice`).

## Model

| member | source | states |
|---|---|---|
| VmLifecycle.BootConfigFor | daemon/vm.go:101-122 | the boot configuration always has positive cpu and memory; a non-positive cpu becomes 1 and a non-positive memory 128; positive values pass through unchanged; kernel, initrd, bios, cbfs and vbox image come from the daemon's settings |
| VmLifecycle.BootStrategy | daemon/vm.go:125-129 | the reuse pool is used exactly when no id is requested, no bios or cbfs image is configured, the host is not darwin and lazy is not set; direct boot in every other case (both directions) |
| VmLifecycle.Daemon.StartVm | daemon/vm.go:101-134 | the result is the hypervisor's answer for (id, defaulted configuration, lazy) or the pool's answer for the defaulted (cpu, mem), as BootStrategy chooses; the registry gains that VM under its id only on success and is unchanged on error |
| VmLifecycle.WaitVmStart | daemon/vm.go:136-149 | success exactly when a response arrived and its code is E_VM_RUNNING; a channel that cannot be acquired returns its own error; any other code gives the not-started error |
| VmLifecycle.Daemon.CreateVm | daemon/vm.go:13-37 | a failed start returns its error and leaves the registry unchanged; async, or a wait that succeeds, returns the started VM, which is registered; a failed synchronous wait returns the wait error and kills the VM, which is deregistered exactly when that kill succeeds |
| VmLifecycle.Daemon.KillVm | daemon/vm.go:39-52 | an unregistered id gives (0, "", nil) and no change; otherwise the driver's (code, cause, err) is returned, and exactly that id is removed when err is nil, with the registry unchanged when the kill fails |
| VmLifecycle.ReleaseSeq | daemon/vm.go:81-99 | releasing in order stops at the first failure: every VM before it released successfully, the failing VM's (ret, err) is returned; when none fails err is nil and ret is the last release's code, or E_OK when there is nothing to release |
| VmLifecycle.ReleaseStopsAtFirstFailure | daemon/vm.go:87-96 | the k-th release is the first to fail exactly when the run stops after k releases with an error |
| VmLifecycle.RemainingAfterPrefix | daemon/vm.go:87-96 | after the first k VMs of the iteration order are removed, exactly the VMs from position k on remain, each with its original value |
| VmLifecycle.Daemon.ReleaseAllVms | daemon/vm.go:81-99 | for any iteration order of the registry, the returned (ret, err) is ReleaseSeq's; the VMs released before the first failure are deregistered and the rest stay; when nothing fails the registry ends empty |
| VmLifecycle.FindCompatibleVm | daemon/vm.go:156-170 | succeeds exactly when the id is registered and its cpu and memory equal the requested ones, returning the registered VM unchanged; an absent id fails with not-found, a cpu difference with the cpu error (checked first), otherwise a memory difference with the memory error |
| VmLifecycle.Daemon.GetVM | daemon/vm.go:151-171 | with an empty id it is StartVm with the resource's cpu and memory and the given lazy flag; with an id its result is FindCompatibleVm on the registry and the registry is unchanged |
| VmLifecycle.Daemon.NewVm | daemon/vm.go:173-185 | a non-empty id is used as given; an empty id yields "vm-" plus the first generated 10-character string whose id is not registered (13 characters, prefix "vm-", not a key of VmList); cpu, memory and lazy are those requested |
| VmLifecycle.Daemon.AddVm | daemon/vm.go:131 | the registry maps the VM's id to the VM and is otherwise unchanged; the id-keyed invariant is kept |
| VmLifecycle.Daemon.RemoveVm | daemon/vm.go:95 | exactly the given id is removed; an absent id is a no-op |
| VmLifecycle.Pod.AssociateVm | daemon/vm.go:54-79 | a pod bound to the same id succeeds with no change; a pod bound to another id fails with a conflict naming the pod and both ids, and nothing changes; a failed metadata fetch returns its error with nothing changed; a failed hydration leaves the pod with no VM, an empty status and the registry unchanged; success binds a VM with the pod's declared cpu and memory, id vmId (when vmId is empty, a fresh unregistered 13-character id starting "vm-"), status vmId, and registers it; with an empty vmId a failed hydration was handed such a fresh VM |
| VmLifecycle.AssociateAgain | daemon/vm.go:54-59 | after a successful association with a non-empty id, associating again with the same id succeeds and the pod stays bound to that registered VM |
| VmLifecycle.AssociateEmptyTwice | daemon/vm.go:54-79 | after a successful association with the empty id the pod holds a non-empty generated id while its status is empty, and a second association with the empty id fails with a conflict naming that id |

## Left out

- The hypervisor driver, the VM pool, `vm.Kill`, `vm.ReleaseVm`, the metadata store (`daemon.db.GetVM`), and hydration (`p.vm.AssociateVm`) are not part of this model. Each is a function parameter whose answer is arbitrary.
- A VM's status state machine (booting, running, failed) lives in the hypervisor package and is not modelled. A VM's cpu and memory are whatever the driver reports, so the model does not promise that a started VM carries the requested values.
- `WaitVmStart`: the blocking receive on the status channel and the deferred `ReleaseResponseChan` are not modelled. The model takes the channel acquisition result and the first event as one input.
- The numeric value of `E_VM_RUNNING` is defined in runv's types package, which is not part of this model. It is an unspecified constant here.
- `runtime.GOOS == "darwin"` is the `darwin` flag of the host settings.
- The random strings of `pod.RandStr(10, "alpha")` are a supplied sequence of 10-character candidates.
- VmLifecycle.Daemon.NewVm: requires that some candidate gives an unregistered id, because the Go loop has no bound and runs until it finds one.
- Go's map iteration order in `ReleaseAllVms` is the `order` parameter: any duplicate-free enumeration of the registered ids.
- `hypervisor.NewVm(id, cpu, memory, lazy)` is assumed to build a VM that carries exactly those four values; `Daemon.NewVm` and `Pod.AssociateVm` rely on that.
- VmLifecycle.Pod.AssociateVm: hydration receives the pod's status in the source (daemon/vm.go:70); the model assumes it leaves the status's `Vm` field as daemon/vm.go:68 set it, and the other fields of the pod status are not modelled.
- The registry stores VM values, not pointers. Go's sharing of one `*hypervisor.Vm` between the pod and the registry, and any later change made through that pointer, are not captured.
- Logging (`glog`) is left out. So is the duplicate `err != nil` check at daemon/vm.go:19-21, which can never be reached.
- The locking that the daemon's callers use around the registry is not modelled, and neither is concurrency in general.
- The HTTP route table (server/router/local/local.go) and the gRPC client demo (client/api/rpc/rpclient_demo.go) are transport glue and are not modelled.
