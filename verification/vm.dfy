/** The VM lifecycle and pod association of the hyperd daemon (daemon/vm.go).
    The registry `VmList` maps a VM id to its VM and is changed only through
    AddVm and RemoveVm. Every outside effect (hypervisor boot, pool fetch,
    kill, release, metadata fetch, hydration, status channel) is a function
    parameter, so every property below holds whatever the collaborators answer. */
module VmLifecycle {
  import opened VmTypes

  const DEFAULT_CPU: int := 1
  const DEFAULT_MEM: int := 128

  // ---------------------------------------------------------------------
  // Pure decisions of StartVm

  /** The boot configuration StartVm builds: a non-positive cpu becomes 1,
      a non-positive memory becomes 128 MB, positive values pass through, and
      the image paths come from the daemon's settings. */
  function BootConfigFor(host: HostConfig, cpu: int, mem: int): (b: BootConfig)
    ensures b.cpu > 0 && b.memory > 0
    ensures cpu > 0 ==> b.cpu == cpu
    ensures cpu <= 0 ==> b.cpu == DEFAULT_CPU
    ensures mem > 0 ==> b.memory == mem
    ensures mem <= 0 ==> b.memory == DEFAULT_MEM
    ensures b.kernel == host.kernel && b.initrd == host.initrd
    ensures b.bios == host.bios && b.cbfs == host.cbfs && b.vbox == host.vboxImage
  {
    BootConfig(
      if cpu <= 0 then DEFAULT_CPU else cpu,
      if mem <= 0 then DEFAULT_MEM else mem,
      host.kernel, host.initrd, host.bios, host.cbfs, host.vboxImage)
  }

  datatype Strategy = DirectBoot | PooledVm

  /** How StartVm obtains a VM: the reuse pool only for an anonymous,
      non-lazy request on a non-darwin host with no custom bios or cbfs image;
      a fresh hypervisor boot in every other case. */
  function BootStrategy(vmId: string, host: HostConfig, lazy: bool): (s: Strategy)
    ensures s == PooledVm <==>
            vmId == "" && host.bios == "" && host.cbfs == "" && !host.darwin && !lazy
    ensures s == DirectBoot <==>
            vmId != "" || host.bios != "" || host.cbfs != "" || host.darwin || lazy
  {
    if vmId != "" || host.bios != "" || host.cbfs != "" || host.darwin || lazy
    then DirectBoot
    else PooledVm
  }

  /** What StartVm's collaborator answers: the hypervisor with the requested
      id, the defaulted configuration and the lazy flag, or the pool with the
      defaulted cpu and memory. */
  function StartOutcome(host: HostConfig, vmId: string, cpu: int, mem: int, lazy: bool,
                        hv: Hypervisor, pool: Pool): Result<Vm>
  {
    var b := BootConfigFor(host, cpu, mem);
    match BootStrategy(vmId, host, lazy)
    case DirectBoot => hv(vmId, b, lazy)
    case PooledVm => pool(b.cpu, b.memory)
  }

  // ---------------------------------------------------------------------
  // The registry

  /** Every registered VM is stored under its own id (AddVm keys by `vm.Id`). */
  ghost predicate KeyedById(m: map<string, Vm>)
  {
    forall id :: id in m ==> m[id].id == id
  }

  /** The registry after a start: the VM is added only when one was obtained. */
  function Registered(m: map<string, Vm>, r: Result<Vm>): map<string, Vm>
  {
    if r.Success? then m[r.value.id := r.value] else m
  }

  /** The existing-VM path of GetVM: the id must be registered and the VM's
      cpu and memory must equal the requested ones exactly; cpu is checked
      first. The registered VM is returned as it is. */
  function FindCompatibleVm(m: map<string, Vm>, vmId: string, res: UserResource): (r: Result<Vm>)
    ensures r.Success? <==> vmId in m && m[vmId].cpu == res.vcpu && m[vmId].mem == res.memory
    ensures r.Success? ==> r.value == m[vmId]
    ensures vmId !in m ==> r == Failure(NoSuchVm(vmId))
    ensures vmId in m && m[vmId].cpu != res.vcpu ==> r == Failure(CpuMismatch)
    ensures vmId in m && m[vmId].cpu == res.vcpu && m[vmId].mem != res.memory ==>
            r == Failure(MemMismatch)
  {
    if vmId !in m then Failure(NoSuchVm(vmId))
    else if res.vcpu != m[vmId].cpu then Failure(CpuMismatch)
    else if res.memory != m[vmId].mem then Failure(MemMismatch)
    else Success(m[vmId])
  }

  // ---------------------------------------------------------------------
  // Boot confirmation

  /** WaitVmStart's classification of what the status channel gave: success
      exactly when a response arrived and its code means "running"; a channel
      that could not be acquired passes its error through. */
  function WaitVmStart(reply: ChanReply): (err: Option<Error>)
    ensures err.None? <==> reply.Received? && reply.response.code == E_VM_RUNNING
    ensures reply.ChanUnavailable? ==> err == Some(reply.err)
    ensures reply.Received? && err.Some? ==> err == Some(NotStarted)
  {
    match reply
    case ChanUnavailable(e) => Some(e)
    case Received(resp) => if resp.code != E_VM_RUNNING then Some(NotStarted) else None
  }

  // ---------------------------------------------------------------------
  // Releasing every VM

  /** `order` lists every registered id exactly once: the order in which Go's
      map iteration happened to visit the registry. */
  ghost predicate IsEnumeration(order: seq<string>, m: map<string, Vm>)
  {
    && (forall i :: 0 <= i < |order| ==> order[i] in m)
    && (forall id :: id in m ==> id in order)
    && (forall i, j :: 0 <= i < j < |order| ==> order[i] != order[j])
  }

  /** The ids of the first `k` VMs of the enumeration. */
  function PrefixIds(order: seq<string>, k: nat): set<string>
    requires k <= |order|
  {
    set j | 0 <= j < k :: order[j]
  }

  /** How a release loop ends: how many VMs it released and the `(ret, err)`
      pair it returns. */
  datatype ReleaseRun = ReleaseRun(released: nat, ret: int, err: Option<Error>)

  /** Releasing the VMs of `order` in turn, starting from status `ret`: the
      loop stops at the first failure and returns that failure's pair; if
      nothing fails it returns the last release's code (or `ret` when there is
      nothing to release) and no error. */
  function ReleaseSeq(m: map<string, Vm>, order: seq<string>, ret: int, release: Releaser): (o: ReleaseRun)
    requires forall i :: 0 <= i < |order| ==> order[i] in m
    ensures o.released <= |order|
    ensures forall j :: 0 <= j < o.released ==> release(m[order[j]]).err.None?
    ensures o.released < |order| ==>
            o.err.Some? && release(m[order[o.released]]) == ReleaseReply(o.ret, o.err)
    ensures o.released == |order| ==>
            o.err.None? && o.ret == (if order == [] then ret else release(m[order[|order| - 1]]).code)
    decreases |order|
  {
    if order == [] then ReleaseRun(0, ret, None)
    else
      var r := release(m[order[0]]);
      if r.err.Some? then ReleaseRun(0, r.code, r.err)
      else
        var o := ReleaseSeq(m, order[1..], r.code, release);
        ReleaseRun(o.released + 1, o.ret, o.err)
  }

  /** The k-th release is the first to fail exactly when the loop stops there
      with that VM's reply. */
  lemma ReleaseStopsAtFirstFailure(m: map<string, Vm>, order: seq<string>, ret: int,
                                   release: Releaser, k: nat)
    requires forall i :: 0 <= i < |order| ==> order[i] in m
    requires k < |order|
    ensures (&& (forall j :: 0 <= j < k ==> release(m[order[j]]).err.None?)
             && release(m[order[k]]).err.Some?)
            <==>
            (&& ReleaseSeq(m, order, ret, release).released == k
             && ReleaseSeq(m, order, ret, release).err.Some?)
  {
  }

  /** After the first `k` VMs of an enumeration are removed, exactly the VMs
      from position `k` on remain, with their values unchanged. */
  lemma RemainingAfterPrefix(m: map<string, Vm>, order: seq<string>, k: nat)
    requires IsEnumeration(order, m)
    requires k <= |order|
    ensures forall j :: k <= j < |order| ==>
            order[j] in m - PrefixIds(order, k) && (m - PrefixIds(order, k))[order[j]] == m[order[j]]
    ensures forall id :: id in m - PrefixIds(order, k) ==> exists j :: k <= j < |order| && order[j] == id
  {
  }

  /** The release loop has released the first `i` VMs with last status
      `ret`: the whole run is what remains of it, shifted by `i`. */
  ghost predicate ReleasedSoFar(m: map<string, Vm>, order: seq<string>, i: nat, ret: int, release: Releaser)
    requires forall j :: 0 <= j < |order| ==> order[j] in m
    requires i <= |order|
  {
    var o := ReleaseSeq(m, order[i..], ret, release);
    ReleaseSeq(m, order, E_OK, release) == o.(released := o.released + i)
  }

  /** One turn of the release loop: the VM at position `i` is still
      registered, and releasing it either ends the run there with its reply
      or deregisters it and continues with the rest. */
  lemma ReleaseStep(m: map<string, Vm>, order: seq<string>, i: nat, ret: int, release: Releaser)
    requires IsEnumeration(order, m)
    requires i < |order|
    requires ReleasedSoFar(m, order, i, ret, release)
    ensures order[i] in m - PrefixIds(order, i)
    ensures (m - PrefixIds(order, i))[order[i]] == m[order[i]]
    ensures var r := release(m[order[i]]);
            r.err.Some? ==> ReleaseSeq(m, order, E_OK, release) == ReleaseRun(i, r.code, r.err)
    ensures var r := release(m[order[i]]);
            r.err.None? ==> ReleasedSoFar(m, order, i + 1, r.code, release)
    ensures (m - PrefixIds(order, i)) - {order[i]} == m - PrefixIds(order, i + 1)
  {
    RemainingAfterPrefix(m, order, i);
    assert order[i..][0] == order[i];
    assert order[i..][1..] == order[i + 1..];
    assert PrefixIds(order, i + 1) == PrefixIds(order, i) + {order[i]};
  }

  // ---------------------------------------------------------------------
  // The daemon and its registry

  class Daemon {
    const host: HostConfig
    var VmList: map<string, Vm>

    ghost predicate Valid()
      reads this
    {
      KeyedById(VmList)
    }

    constructor (host: HostConfig)
      ensures this.host == host && VmList == map[] && Valid()
    {
      this.host := host;
      VmList := map[];
    }

    /** Registers a VM under its own id, replacing any VM stored there. */
    method AddVm(vm: Vm)
      requires Valid()
      modifies this
      ensures Valid()
      ensures VmList == old(VmList)[vm.id := vm]
    {
      VmList := VmList[vm.id := vm];
    }

    /** Deregisters an id; an absent id is a no-op. */
    method RemoveVm(id: string)
      requires Valid()
      modifies this
      ensures Valid()
      ensures VmList == old(VmList) - {id}
    {
      VmList := VmList - {id};
    }

    /** Obtains a VM by direct boot or from the pool and registers it only
        when that succeeded. */
    method StartVm(vmId: string, cpu: int, mem: int, lazy: bool, hv: Hypervisor, pool: Pool)
      returns (r: Result<Vm>)
      requires Valid()
      modifies this
      ensures Valid()
      ensures r == StartOutcome(host, vmId, cpu, mem, lazy, hv, pool)
      ensures VmList == Registered(old(VmList), r)
    {
      var b := BootConfigFor(host, cpu, mem);
      if vmId != "" || host.bios != "" || host.cbfs != "" || host.darwin || lazy {
        r := hv(vmId, b, lazy);
      } else {
        r := pool(b.cpu, b.memory);
      }
      if r.Success? {
        AddVm(r.value);
      }
    }

    /** Starts an anonymous, non-lazy VM; unless `async`, waits for its first
        status event and, when that is not "running", kills the VM (which
        deregisters it only if the kill succeeds) and returns the wait error. */
    method CreateVm(cpu: int, mem: int, async: bool, hv: Hypervisor, pool: Pool,
                    respond: Responder, kill: Killer)
      returns (r: Result<Vm>)
      requires Valid()
      modifies this
      ensures Valid()
      ensures var s := StartOutcome(host, "", cpu, mem, false, hv, pool);
              s.Failure? ==> r == s && VmList == old(VmList)
      ensures var s := StartOutcome(host, "", cpu, mem, false, hv, pool);
              s.Success? && (async || WaitVmStart(respond(s.value)).None?) ==>
              r == s && VmList == old(VmList)[s.value.id := s.value]
      ensures var s := StartOutcome(host, "", cpu, mem, false, hv, pool);
              s.Success? && !async && WaitVmStart(respond(s.value)).Some? ==>
              && r == Failure(WaitVmStart(respond(s.value)).value)
              && VmList == if kill(s.value).err.None?
                           then old(VmList)[s.value.id := s.value] - {s.value.id}
                           else old(VmList)[s.value.id := s.value]
    {
      r := StartVm("", cpu, mem, false, hv, pool);
      if r.Failure? {
        return;
      }
      var vm := r.value;
      if !async {
        var err := WaitVmStart(respond(vm));
        if err.Some? {
          var _, _, _ := KillVm(vm.id, kill);
          r := Failure(err.value);
          return;
        }
      }
    }

    /** Kills a registered VM and deregisters it only when the kill
        succeeded; an unknown id is already gone and yields `(0, "", nil)`. */
    method KillVm(vmId: string, kill: Killer) returns (code: int, cause: string, err: Option<Error>)
      requires Valid()
      modifies this
      ensures Valid()
      ensures vmId !in old(VmList) ==>
              code == 0 && cause == "" && err.None? && VmList == old(VmList)
      ensures vmId in old(VmList) ==>
              && KillReply(code, cause, err) == kill(old(VmList)[vmId])
              && VmList == if err.None? then old(VmList) - {vmId} else old(VmList)
    {
      if vmId !in VmList {
        return 0, "", None;
      }
      var reply := kill(VmList[vmId]);
      code, cause, err := reply.code, reply.cause, reply.err;
      if err.None? {
        RemoveVm(vmId);
      }
    }

    /** Releases the registered VMs in the order `order` and stops at the
        first failure: the VMs released before it are deregistered, that VM
        and all later ones stay, and its `(ret, err)` is returned. */
    method ReleaseAllVms(order: seq<string>, release: Releaser) returns (ret: int, err: Option<Error>)
      requires Valid()
      requires IsEnumeration(order, VmList)
      modifies this
      ensures Valid()
      ensures var o := ReleaseSeq(old(VmList), order, E_OK, release);
              && ret == o.ret && err == o.err
              && VmList == old(VmList) - PrefixIds(order, o.released)
      ensures err.None? ==> VmList == map[]
    {
      ghost var m0 := VmList;
      ret, err := E_OK, None;
      var i := 0;
      while i < |order|
        invariant 0 <= i <= |order|
        invariant Valid()
        invariant err.None?
        invariant VmList == m0 - PrefixIds(order, i)
        invariant ReleasedSoFar(m0, order, i, ret, release)
      {
        ReleaseStep(m0, order, i, ret, release);
        var vm := VmList[order[i]];
        var reply := release(vm);
        ret, err := reply.code, reply.err;
        if err.Some? {
          break;
        }
        RemoveVm(vm.id);
        i := i + 1;
      }
      if err.None? {
        RemainingAfterPrefix(m0, order, |order|);
      }
    }

    /** With no id, starts a fresh VM for the requested resources; with an id,
        returns the registered VM only when its cpu and memory match exactly,
        and never changes the registry on that path. */
    method GetVM(vmId: string, resource: UserResource, lazy: bool, hv: Hypervisor, pool: Pool)
      returns (r: Result<Vm>)
      requires Valid()
      modifies this
      ensures Valid()
      ensures vmId == "" ==>
              && r == StartOutcome(host, "", resource.vcpu, resource.memory, lazy, hv, pool)
              && VmList == Registered(old(VmList), r)
      ensures vmId != "" ==> r == FindCompatibleVm(old(VmList), vmId, resource) && VmList == old(VmList)
    {
      if vmId == "" {
        r := StartVm("", resource.vcpu, resource.memory, lazy, hv, pool);
        return;
      }
      if vmId !in VmList {
        return Failure(NoSuchVm(vmId));
      }
      var vm := VmList[vmId];
      if resource.vcpu != vm.cpu {
        return Failure(CpuMismatch);
      }
      if resource.memory != vm.mem {
        return Failure(MemMismatch);
      }
      r := Success(vm);
    }

    /** A VM record for `id`, or, when `id` is empty, for the first generated
        id "vm-" + candidate that is not registered. `candidates` stands for
        the successive 10-character strings the random generator yields. */
    method NewVm(id: string, cpu: int, memory: int, lazy: bool, candidates: seq<string>)
      returns (vm: Vm)
      requires forall i :: 0 <= i < |candidates| ==> |candidates[i]| == 10
      requires id == "" ==> exists i :: 0 <= i < |candidates| && "vm-" + candidates[i] !in VmList
      ensures vm.cpu == cpu && vm.mem == memory && vm.lazy == lazy
      ensures id != "" ==> vm.id == id
      ensures id == "" ==> vm.id !in VmList && |vm.id| == 13 && vm.id[..3] == "vm-"
      ensures id == "" ==>
              exists k :: 0 <= k < |candidates| && vm.id == "vm-" + candidates[k] &&
                          forall j :: 0 <= j < k ==> "vm-" + candidates[j] in VmList
    {
      var vmId := id;
      if vmId == "" {
        var i := 0;
        while true
          invariant 0 <= i < |candidates|
          invariant forall j :: 0 <= j < i ==> "vm-" + candidates[j] in VmList
          invariant exists k :: i <= k < |candidates| && "vm-" + candidates[k] !in VmList
          decreases |candidates| - i
        {
          vmId := "vm-" + candidates[i];
          if vmId !in VmList {
            break;
          }
          i := i + 1;
        }
        assert vmId[..3] == "vm-";
      }
      vm := Vm(vmId, cpu, memory, lazy);
    }
  }

  // ---------------------------------------------------------------------
  // Pods

  class Pod {
    const id: string
    const vcpu: int
    const memory: int
    var vm: Option<Vm>
    var statusVm: string

    constructor (id: string, vcpu: int, memory: int)
      ensures this.id == id && this.vcpu == vcpu && this.memory == memory
      ensures vm == None && statusVm == ""
    {
      this.id, this.vcpu, this.memory := id, vcpu, memory;
      vm, statusVm := None, "";
    }

    /** Binds the pod to VM `vmId` recovered from the metadata store. A pod
        already bound to that id is left as it is; one bound to another id is
        a conflict. Otherwise a VM record with the pod's declared cpu and
        memory is hydrated from the metadata and registered; a failed
        hydration is rolled back. */
    method AssociateVm(daemon: Daemon, vmId: string, store: MetadataStore, hydrate: Hydrator,
                       candidates: seq<string>)
      returns (err: Option<Error>)
      requires daemon.Valid()
      requires forall i :: 0 <= i < |candidates| ==> |candidates[i]| == 10
      requires vm.None? && vmId == "" && store(vmId).Success? ==>
               exists i :: 0 <= i < |candidates| && "vm-" + candidates[i] !in daemon.VmList
      modifies this, daemon
      ensures daemon.Valid()
      ensures old(vm).Some? && old(vm).value.id == vmId ==>
              err.None? && unchanged(this) && unchanged(daemon)
      ensures old(vm).Some? && old(vm).value.id != vmId ==>
              err == Some(AlreadyHasVm(id, old(vm).value.id, vmId)) && unchanged(this) && unchanged(daemon)
      ensures old(vm).None? && store(vmId).Failure? ==>
              err == Some(store(vmId).error) && unchanged(this) && unchanged(daemon)
      ensures old(vm).None? && store(vmId).Success? && err.Some? ==>
              && vm.None? && statusVm == ""
              && daemon.VmList == old(daemon.VmList)
              && (vmId != "" ==> err == hydrate(Vm(vmId, vcpu, memory, false), store(vmId).value))
              && (vmId == "" ==>
                    exists v: Vm ::
                      && v.id !in old(daemon.VmList) && |v.id| == 13 && v.id[..3] == "vm-"
                      && v.cpu == vcpu && v.mem == memory && !v.lazy
                      && err == hydrate(v, store(vmId).value))
      ensures old(vm).None? && store(vmId).Success? && err.None? ==>
              && vm.Some? && statusVm == vmId
              && vm.value.cpu == vcpu && vm.value.mem == memory && !vm.value.lazy
              && (vmId != "" ==> vm.value.id == vmId)
              && (vmId == "" ==> vm.value.id !in old(daemon.VmList) &&
                                 |vm.value.id| == 13 && vm.value.id[..3] == "vm-")
              && hydrate(vm.value, store(vmId).value).None?
              && daemon.VmList == old(daemon.VmList)[vm.value.id := vm.value]
    {
      if vm.Some? && vm.value.id != vmId {
        return Some(AlreadyHasVm(id, vm.value.id, vmId));
      } else if vm.Some? {
        return None;
      }

      var data := store(vmId);
      if data.Failure? {
        return Some(data.error);
      }

      var recovered := daemon.NewVm(vmId, vcpu, memory, false, candidates);
      vm := Some(recovered);
      statusVm := vmId;

      err := hydrate(recovered, data.value);
      if err.Some? {
        vm := None;
        statusVm := "";
        return;
      }

      daemon.AddVm(recovered);
    }
  }

  /** Association is idempotent: once a pod is bound to `vmId`, associating
      it with `vmId` again succeeds and changes neither the pod nor the
      registry, whatever the collaborators would answer. */
  method AssociateAgain(p: Pod, daemon: Daemon, vmId: string, store: MetadataStore,
                        hydrate: Hydrator, candidates: seq<string>)
    returns (first: Option<Error>, second: Option<Error>)
    requires daemon.Valid()
    requires p.vm.None?
    requires vmId != ""
    requires forall i :: 0 <= i < |candidates| ==> |candidates[i]| == 10
    modifies p, daemon
    ensures first.None? ==> second.None? && p.vm.Some? && p.vm.value.id == vmId && p.statusVm == vmId
    ensures first.None? ==> vmId in daemon.VmList && daemon.VmList[vmId] == p.vm.value
  {
    first := p.AssociateVm(daemon, vmId, store, hydrate, candidates);
    second := p.AssociateVm(daemon, vmId, store, hydrate, candidates);
  }

  /** Associating a pod with the empty id binds it to a freshly generated
      "vm-" id while its status stays empty, so a second association with the
      empty id is a conflict that leaves the pod bound to that generated VM. */
  method AssociateEmptyTwice(p: Pod, daemon: Daemon, store: MetadataStore,
                             hydrate: Hydrator, candidates: seq<string>)
    returns (first: Option<Error>, second: Option<Error>)
    requires daemon.Valid()
    requires p.vm.None?
    requires forall i :: 0 <= i < |candidates| ==> |candidates[i]| == 10
    requires store("").Success? ==>
             exists i :: 0 <= i < |candidates| && "vm-" + candidates[i] !in daemon.VmList
    modifies p, daemon
    ensures first.None? ==> p.vm.Some? && p.vm.value.id != "" && p.statusVm == ""
    ensures first.None? ==> second == Some(AlreadyHasVm(p.id, p.vm.value.id, ""))
  {
    first := p.AssociateVm(daemon, "", store, hydrate, candidates);
    second := p.AssociateVm(daemon, "", store, hydrate, candidates);
  }
}
