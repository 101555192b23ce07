/**
 What the daemon's state mutex protects: the stopping flag, the installed adapter with its controller, and
 the resident instances. Each critical section of the daemon is one function here, one method of the class,
 and one step of the concurrent models built on it.
 */
module DaemonState {
  import opened Wrappers

  type AdapterId = nat
  type InstanceId = string

  datatype Resident = Resident(room: string, workspace: string)

  /** `controller` is the adapter behind the local capability controller. */
  datatype Memory = Memory(
    stopping: bool,
    process: Option<AdapterId>,
    controller: Option<AdapterId>,
    instances: map<InstanceId, Resident>)

  const EMPTY := Memory(false, None, None, map[])

  /** Installs a new adapter, unless the daemon is stopping. */
  function Install(m: Memory, a: AdapterId): Memory {
    if m.stopping then m else m.(process := Some(a), controller := Some(a))
  }

  function Uninstall(m: Memory): Memory {
    m.(process := None, controller := None)
  }

  /** What the watcher of adapter `a` does once its process has exited. */
  function ClearIf(m: Memory, a: AdapterId): Memory {
    if m.process != Some(a) || m.stopping then m else Uninstall(m)
  }

  function Stop(m: Memory): Memory {
    Memory(true, None, None, map[])
  }

  function Admit(m: Memory, id: InstanceId, r: Resident): Memory {
    m.(instances := m.instances[id := r])
  }

  function Discard(m: Memory, id: InstanceId): Memory {
    m.(instances := m.instances - {id})
  }

  /** Every instance but one is listed as before, with the same record. */
  ghost predicate OthersKept(before: map<InstanceId, Resident>, after: map<InstanceId, Resident>, id: InstanceId) {
    forall other | other != id ::
      (other in after <==> other in before) && (other in before ==> after[other] == before[other])
  }

  class Daemon {
    var stopping: bool
    var capabilityProcess: Option<AdapterId>
    var localCapability: Option<AdapterId>
    var instances: map<InstanceId, Resident>

    ghost function View(): Memory reads this {
      Memory(stopping, capabilityProcess, localCapability, instances)
    }

    constructor ()
      ensures View() == EMPTY
    {
      stopping, capabilityProcess, localCapability, instances := false, None, None, map[];
    }

    /** The section of register: the previous adapter is handed back to be closed. */
    method InstallAdapter(a: AdapterId) returns (ok: bool, previous: Option<AdapterId>)
      modifies this
      ensures View() == Install(old(View()), a)
      ensures ok == !old(stopping) && previous == if ok then old(capabilityProcess) else None
      ensures ok ==> capabilityProcess == Some(a) && localCapability == Some(a)
      ensures !ok ==> capabilityProcess == old(capabilityProcess) && localCapability == old(localCapability)
      ensures stopping == old(stopping) && instances == old(instances)
    {
      if stopping {
        return false, None;
      }
      previous := capabilityProcess;
      capabilityProcess, localCapability := Some(a), Some(a);
      return true, previous;
    }

    /** The section of remove. */
    method TakeAdapter() returns (previous: Option<AdapterId>)
      modifies this
      ensures View() == Uninstall(old(View())) && previous == old(capabilityProcess)
      ensures capabilityProcess.None? && localCapability.None?
      ensures stopping == old(stopping) && instances == old(instances)
    {
      previous := capabilityProcess;
      capabilityProcess, localCapability := None, None;
    }

    /** The section of a watcher: it clears the adapter it watched, and no other. */
    method ClearExited(a: AdapterId) returns (cleared: bool)
      modifies this
      ensures View() == ClearIf(old(View()), a)
      ensures cleared <==> old(capabilityProcess) == Some(a) && !old(stopping)
      ensures cleared ==> capabilityProcess.None? && localCapability.None?
      ensures !cleared ==> capabilityProcess == old(capabilityProcess) && localCapability == old(localCapability)
      ensures stopping == old(stopping) && instances == old(instances)
    {
      if capabilityProcess != Some(a) || stopping {
        return false;
      }
      capabilityProcess, localCapability := None, None;
      return true;
    }

    /** The section of stop: everything that is up is handed back to be stopped. */
    method BeginStop() returns (adapter: Option<AdapterId>, taken: map<InstanceId, Resident>)
      modifies this
      ensures View() == Stop(old(View())) && adapter == old(capabilityProcess) && taken == old(instances)
      ensures stopping && capabilityProcess.None? && localCapability.None? && instances == map[]
    {
      stopping := true;
      adapter := capabilityProcess;
      capabilityProcess, localCapability := None, None;
      taken := instances;
      instances := map[];
    }

    method Register(id: InstanceId, r: Resident)
      modifies this
      ensures View() == Admit(old(View()), id, r)
      ensures id in instances && instances[id] == r && OthersKept(old(instances), instances, id)
    {
      instances := instances[id := r];
    }

    method Unregister(id: InstanceId)
      modifies this
      ensures View() == Discard(old(View()), id)
      ensures id !in instances && OthersKept(old(instances), instances, id)
    {
      instances := instances - {id};
    }

    /** The section of leave and self-leave: the record is taken by whoever finds it. */
    method Take(id: InstanceId) returns (r: Option<Resident>)
      modifies this
      ensures View() == Discard(old(View()), id)
      ensures id !in instances && OthersKept(old(instances), instances, id)
      ensures r == if id in old(instances) then Some(old(instances)[id]) else None
    {
      r := if id in instances then Some(instances[id]) else None;
      instances := instances - {id};
    }
  }
}
