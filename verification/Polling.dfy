/** The polling loops of the server and volume services, and the one specification they refine:
    the first observation that is not transient, among the first `max`, decides. */
module Polling {
  import opened Options
  import opened Volumes

  /** What one poll of OpenStack yields. */
  datatype Observation<+T> = Raises | Sees(value: T)

  predicate Transient<T>(o: Observation<T>, isTransient: T -> bool) {
    o.Sees? && isTransient(o.value)
  }

  ghost predicate AllTransient<T>(seen: nat -> Observation<T>, isTransient: T -> bool, n: nat) {
    forall j: nat :: j < n ==> Transient(seen(j), isTransient)
  }

  /** The index of the first deciding observation, or `max` if the first `max` are all transient. */
  function Settles<T>(seen: nat -> Observation<T>, isTransient: T -> bool, max: nat): (k: nat)
    ensures k <= max && AllTransient(seen, isTransient, k)
    ensures k < max ==> !Transient(seen(k), isTransient)
    decreases max
  {
    if max == 0 then 0
    else
      var k := Settles(seen, isTransient, max - 1);
      if k == max - 1 && Transient(seen(k), isTransient) then max else k
  }

  /** Two facts pin that index down, so a loop that establishes them has found it. */
  lemma SettlesUnique<T>(seen: nat -> Observation<T>, isTransient: T -> bool, max: nat, k: nat)
    requires k <= max && AllTransient(seen, isTransient, k)
    requires k < max ==> !Transient(seen(k), isTransient)
    ensures k == Settles(seen, isTransient, max)
  {}

  /** The deciding observation; none means a timeout. */
  function Decisive<T>(seen: nat -> Observation<T>, isTransient: T -> bool, max: nat): Option<Observation<T>> {
    var k := Settles(seen, isTransient, max);
    if k < max then Some(seen(k)) else None
  }

  /** The first `k` polls show what is waited out, and poll `k`, if there is one, does not. */
  ghost predicate FirstOther<T>(seen: nat -> Observation<T>, waited: set<T>, max: nat, k: nat) {
    && k <= max && (forall j: nat :: j < k ==> seen(j).Sees? && seen(j).value in waited)
    && (k < max ==> seen(k).Raises? || seen(k).value !in waited)
  }

  /** A loop that waits out exactly these values is decided by that poll. */
  lemma DecidedByFirstOther<T>(seen: nat -> Observation<T>, isTransient: T -> bool, waited: set<T>, max: nat, k: nat)
    requires FirstOther(seen, waited, max, k)
    requires forall j: nat :: j < max && seen(j).Sees? ==> (isTransient(seen(j).value) <==> seen(j).value in waited)
    ensures Settles(seen, isTransient, max) == k
    ensures Decisive(seen, isTransient, max) == if k < max then Some(seen(k)) else None
  {
    SettlesUnique(seen, isTransient, max, k);
  }

  /** There always is one. */
  lemma {:induction false} FirstOtherExists<T>(seen: nat -> Observation<T>, waited: set<T>, max: nat) returns (k: nat)
    ensures FirstOther(seen, waited, max, k)
    decreases max
  {
    if max == 0 {
      k := 0;
    } else {
      k := FirstOtherExists(seen, waited, max - 1);
      if k == max - 1 && seen(k).Sees? && seen(k).value in waited {
        k := max;
      }
    }
  }

  /** How long a loop ran. `paced` loops sleep before every poll, the others after transient ones. */
  datatype Effort = Effort(polls: nat, slept: nat)

  function Spent(k: nat, max: nat, interval: nat, paced: bool): Effort
    requires k <= max
  {
    var polls := if k < max then k + 1 else max;
    Effort(polls, (if paced then polls else k) * interval)
  }

  /** No loop sleeps longer than `max` intervals, and none polls more often than `max` times. */
  lemma EffortBounded(k: nat, max: nat, interval: nat, paced: bool)
    requires k <= max
    ensures var e := Spent(k, max, interval, paced);
            e.polls <= max && e.slept <= max * interval && (k < max ==> e.polls == k + 1)
  {
    var slept := if !paced then k else if k < max then k + 1 else max;
    assert slept * interval <= max * interval;
  }

  datatype Result = ReturnsTrue | ReturnsFalse | Throws

  // ---- Servers ------------------------------------------------------------------------------------

  /** FAULTY is the source's ERROR, which is also a volume's status. */
  datatype ServerStatus =
    | ACTIVE | BUILD | DELETED | FAULTY | HARD_REBOOT | MIGRATING | PASSWORD | PAUSED | REBOOT
    | REBUILD | RESCUE | RESIZE | REVERT_RESIZE | SHELVED | SHELVED_OFFLOADED | SHUTOFF | SOFT_DELETED
    | SUSPENDED | UNKNOWN | VERIFY_RESIZE

  datatype ServerRow = ServerRow(projectId: nat, status: ServerStatus, deleted: bool)

  class Server {
    const projectId: nat
    var status: ServerStatus
    var deleted: bool

    constructor (row: ServerRow)
      ensures AsRow() == row
    {
      projectId, status, deleted := row.projectId, row.status, row.deleted;
    }

    function AsRow(): ServerRow
      reads this
    {
      ServerRow(projectId, status, deleted)
    }

    method SetStatus(newStatus: ServerStatus)
      modifies this
      ensures AsRow() == old(AsRow()).(status := newStatus)
    {
      status := newStatus;
    }

    method Delete()
      modifies this
      ensures AsRow() == old(AsRow()).(deleted := true, status := DELETED)
    {
      deleted, status := true, DELETED;
    }
  }

  predicate Starting(s: ServerStatus) { s == SHUTOFF || s == FAULTY }

  function StartOutcome(first: Option<Observation<ServerStatus>>, row: ServerRow): (Result, ServerRow) {
    match first
    case None => (ReturnsFalse, row)
    case Some(Raises) => (Throws, row)
    case Some(Sees(status)) => if status == ACTIVE then (ReturnsTrue, row.(status := ACTIVE)) else (ReturnsFalse, row)
  }

  method WaitUntilServerStarted(server: Server, seen: nat -> Observation<ServerStatus>, max: nat, interval: nat)
    returns (result: Result, effort: Effort)
    modifies server
    ensures (result, server.AsRow()) == StartOutcome(Decisive(seen, Starting, max), old(server.AsRow()))
    ensures effort == Spent(Settles(seen, Starting, max), max, interval, true)
  {
    result, effort := ReturnsFalse, Effort(0, 0);
    for i := 0 to max
      invariant AllTransient(seen, Starting, i) && effort == Effort(i, i * interval)
      invariant server.AsRow() == old(server.AsRow())
    {
      effort := Effort(i + 1, effort.slept + interval);
      if Transient(seen(i), Starting) {
        continue;
      }
      SettlesUnique(seen, Starting, max, i);
      if seen(i).Raises? {
        return Throws, effort;
      }
      if seen(i).value == ACTIVE {
        server.SetStatus(ACTIVE);
        return ReturnsTrue, effort;
      }
      return ReturnsFalse, effort;
    }
    SettlesUnique(seen, Starting, max, max);
  }

  predicate Stopping(s: ServerStatus) { s == ACTIVE }

  function StopOutcome(first: Option<Observation<ServerStatus>>, row: ServerRow): (Result, ServerRow) {
    match first
    case None => (ReturnsFalse, row)
    case Some(Raises) => (Throws, row)
    case Some(Sees(status)) => if status == SHUTOFF then (ReturnsTrue, row.(status := SHUTOFF)) else (ReturnsFalse, row)
  }

  method WaitUntilServerStopped(server: Server, seen: nat -> Observation<ServerStatus>, max: nat, interval: nat)
    returns (result: Result, effort: Effort)
    modifies server
    ensures (result, server.AsRow()) == StopOutcome(Decisive(seen, Stopping, max), old(server.AsRow()))
    ensures effort == Spent(Settles(seen, Stopping, max), max, interval, true)
  {
    result, effort := ReturnsFalse, Effort(0, 0);
    for i := 0 to max
      invariant AllTransient(seen, Stopping, i) && effort == Effort(i, i * interval)
      invariant server.AsRow() == old(server.AsRow())
    {
      effort := Effort(i + 1, effort.slept + interval);
      if Transient(seen(i), Stopping) {
        continue;
      }
      SettlesUnique(seen, Stopping, max, i);
      if seen(i).Raises? {
        return Throws, effort;
      }
      if seen(i).value == SHUTOFF {
        server.SetStatus(SHUTOFF);
        return ReturnsTrue, effort;
      }
      return ReturnsFalse, effort;
    }
    SettlesUnique(seen, Stopping, max, max);
  }

  /** What Nova reports of a server: its status and its volumes. */
  datatype OsServer = OsServer(status: ServerStatus, volumeIds: seq<nat>)

  predicate Building(s: OsServer) { s.status == BUILD }

  function RootVolume(projectId: nat, server: nat, size: nat): VolumeRow {
    VolumeRow(projectId, Some(server), AVAILABLE, size, true, false)
  }

  /** An active server gets its root volume, under the first id Nova reports; everything else that
      settles, and a timeout, is a failed creation. */
  function CreationOutcome(first: Option<Observation<OsServer>>, row: ServerRow, server: nat, size: nat)
    : (Result, ServerRow, Option<(nat, VolumeRow)>)
  {
    match first
    case None => (ReturnsFalse, row.(status := FAULTY), None)
    case Some(Raises) => (Throws, row, None)
    case Some(Sees(os)) =>
      if os.status != ACTIVE then (ReturnsFalse, row.(status := FAULTY), None)
      else if os.volumeIds == [] then (Throws, row, None)
      else (ReturnsTrue, row.(status := ACTIVE), Some((os.volumeIds[0], RootVolume(row.projectId, server, size))))
  }

  method FinalizeServerCreation(server: Server, id: nat, size: nat, seen: nat -> Observation<OsServer>, max: nat, interval: nat)
    returns (result: Result, root: Option<(nat, VolumeRow)>, effort: Effort)
    modifies server
    ensures (result, server.AsRow(), root) == CreationOutcome(Decisive(seen, Building, max), old(server.AsRow()), id, size)
    ensures effort == Spent(Settles(seen, Building, max), max, interval, true)
  {
    result, root, effort := ReturnsFalse, None, Effort(0, 0);
    for i := 0 to max
      invariant AllTransient(seen, Building, i) && effort == Effort(i, i * interval)
      invariant server.AsRow() == old(server.AsRow()) && result == ReturnsFalse && root == None
    {
      effort := Effort(i + 1, effort.slept + interval);
      if Transient(seen(i), Building) {
        continue;
      }
      SettlesUnique(seen, Building, max, i);
      if seen(i).Raises? {
        return Throws, None, effort;
      }
      if seen(i).value.status == ACTIVE {
        if seen(i).value.volumeIds == [] {
          return Throws, None, effort;
        }
        server.SetStatus(ACTIVE);
        root := Some((seen(i).value.volumeIds[0], RootVolume(server.projectId, id, size)));
        return ReturnsTrue, root, effort;
      }
      server.SetStatus(FAULTY);
      return ReturnsFalse, None, effort;
    }
    SettlesUnique(seen, Building, max, max);
    server.SetStatus(FAULTY);
  }

  predicate StillThere(found: bool) { found }

  function ServerDeletionOutcome(first: Option<Observation<bool>>, row: ServerRow): (Result, ServerRow) {
    match first
    case None => (Throws, row)
    case Some(Raises) => (Throws, row)
    case Some(Sees(_)) => (ReturnsTrue, row.(deleted := true, status := DELETED))
  }

  method WaitServerUntilDeletedAndFinalize(server: Server, seen: nat -> Observation<bool>, max: nat, interval: nat)
    returns (result: Result, effort: Effort)
    modifies server
    ensures (result, server.AsRow()) == ServerDeletionOutcome(Decisive(seen, StillThere, max), old(server.AsRow()))
    ensures effort == Spent(Settles(seen, StillThere, max), max, interval, false)
  {
    result, effort := Throws, Effort(0, 0);
    for i := 0 to max
      invariant AllTransient(seen, StillThere, i) && effort == Effort(i, i * interval)
      invariant server.AsRow() == old(server.AsRow())
    {
      effort := effort.(polls := i + 1);
      if !Transient(seen(i), StillThere) {
        SettlesUnique(seen, StillThere, max, i);
        if seen(i).Raises? {
          return Throws, effort;
        }
        server.Delete();
        return ReturnsTrue, effort;
      }
      effort := effort.(slept := effort.slept + interval);
    }
    SettlesUnique(seen, StillThere, max, max);
  }

  // ---- Volumes ------------------------------------------------------------------------------------

  predicate Attaching(s: VolumeStatus) { s == RESERVED || s == ATTACHING }

  function AttachOutcome(first: Option<Observation<VolumeStatus>>, row: VolumeRow, server: nat): (Result, VolumeRow) {
    match first
    case None => (ReturnsFalse, row.(status := ERROR))
    case Some(Raises) => (Throws, row)
    case Some(Sees(status)) =>
      if status != IN_USE then (ReturnsFalse, row.(status := status))
      else if row.AttachmentError().Some? then (Throws, row)
      else (ReturnsTrue, row.AttachedTo(server))
  }

  method WaitUntilVolumeAttachmentAndFinalize(
    volume: Volume, server: nat, seen: nat -> Observation<VolumeStatus>, max: nat, interval: nat)
    returns (result: Result, effort: Effort)
    modifies volume
    ensures (result, volume.AsRow()) == AttachOutcome(Decisive(seen, Attaching, max), old(volume.AsRow()), server)
    ensures effort == Spent(Settles(seen, Attaching, max), max, interval, true)
  {
    result, effort := ReturnsFalse, Effort(0, 0);
    for i := 0 to max
      invariant AllTransient(seen, Attaching, i) && effort == Effort(i, i * interval)
      invariant volume.AsRow() == old(volume.AsRow()) && result == ReturnsFalse
    {
      effort := Effort(i + 1, effort.slept + interval);
      if Transient(seen(i), Attaching) {
        continue;
      }
      SettlesUnique(seen, Attaching, max, i);
      if seen(i).Raises? {
        return Throws, effort;
      }
      if seen(i).value == IN_USE {
        var error := volume.AttachToServer(server);
        return if error.Some? then Throws else ReturnsTrue, effort;
      }
      volume.UpdateStatus(seen(i).value);
      return ReturnsFalse, effort;
    }
    SettlesUnique(seen, Attaching, max, max);
    volume.FailAttachment();
  }

  predicate BeingCreated(s: VolumeStatus) { s == CREATING || s == DOWNLOADING }

  function SyncOutcome(first: Option<Observation<VolumeStatus>>, row: VolumeRow): (Result, VolumeRow) {
    match first
    case Some(Raises) => (Throws, row)
    case Some(Sees(AVAILABLE)) => (ReturnsTrue, row.(status := AVAILABLE))
    case _ => (ReturnsTrue, row.(status := ERROR))
  }

  method SyncCreatingVolumeUntilAvailable(volume: Volume, seen: nat -> Observation<VolumeStatus>, max: nat, interval: nat)
    returns (result: Result, effort: Effort)
    modifies volume
    ensures (result, volume.AsRow()) == SyncOutcome(Decisive(seen, BeingCreated, max), old(volume.AsRow()))
    ensures effort == Spent(Settles(seen, BeingCreated, max), max, interval, false)
  {
    result, effort := ReturnsTrue, Effort(0, 0);
    for i := 0 to max
      invariant AllTransient(seen, BeingCreated, i) && effort == Effort(i, i * interval)
      invariant volume.AsRow() == old(volume.AsRow()) && result == ReturnsTrue
    {
      effort := effort.(polls := i + 1);
      if Transient(seen(i), BeingCreated) {
        effort := effort.(slept := effort.slept + interval);
        continue;
      }
      SettlesUnique(seen, BeingCreated, max, i);
      if seen(i).Raises? {
        return Throws, effort;
      }
      if seen(i).value == AVAILABLE {
        volume.CompleteCreation(false);
      } else {
        volume.FailCreation();
      }
      return ReturnsTrue, effort;
    }
    SettlesUnique(seen, BeingCreated, max, max);
    volume.FailCreation();
  }

  function VolumeDeletionOutcome(first: Option<Observation<bool>>, row: VolumeRow): (Result, VolumeRow) {
    match first
    case None => (Throws, row)
    case Some(Raises) => (Throws, row)
    case Some(Sees(_)) => (ReturnsTrue, row.(deleted := true))
  }

  method WaitVolumeUntilDeletedAndFinalize(volume: Volume, seen: nat -> Observation<bool>, max: nat, interval: nat)
    returns (result: Result, effort: Effort)
    modifies volume
    ensures (result, volume.AsRow()) == VolumeDeletionOutcome(Decisive(seen, StillThere, max), old(volume.AsRow()))
    ensures effort == Spent(Settles(seen, StillThere, max), max, interval, false)
  {
    result, effort := ReturnsTrue, Effort(0, 0);
    var i := 0;
    while i < max
      invariant i <= max && AllTransient(seen, StillThere, i) && effort == Effort(i, i * interval)
      invariant volume.AsRow() == old(volume.AsRow())
    {
      effort := effort.(polls := i + 1);
      if !Transient(seen(i), StillThere) {
        SettlesUnique(seen, StillThere, max, i);
        if seen(i).Raises? {
          return Throws, effort;
        }
        break;
      }
      effort := effort.(slept := effort.slept + interval);
      i := i + 1;
    }
    if i == max {
      SettlesUnique(seen, StillThere, max, max);
      return Throws, effort;
    }
    volume.Delete();
  }

  /** `delete_volume`: the guards, the request, the wait, and only then the soft delete. */
  method DeleteVolume(volume: Volume, projectId: nat, answers: bool, seen: nat -> Observation<bool>, max: nat, interval: nat)
    returns (result: Result, effort: Effort)
    modifies volume
    ensures var row := old(volume.AsRow());
            if row.projectId != projectId || row.DeletionError().Some? || !answers
            then result == Throws && volume.AsRow() == row && effort == Effort(0, 0)
            else (result, volume.AsRow()) == VolumeDeletionOutcome(Decisive(seen, StillThere, max), row)
                 && effort == Spent(Settles(seen, StillThere, max), max, interval, false)
    ensures result == ReturnsTrue ==>
              old(volume.serverId).None? && old(volume.status) in DELETABLE_STATUSES
  {
    if volume.projectId != projectId || volume.AsRow().DeletionError().Some? || !answers {
      return Throws, Effort(0, 0);
    }
    result, effort := WaitVolumeUntilDeletedAndFinalize(volume, seen, max, interval);
  }

  datatype OsVolume = OsVolume(status: VolumeStatus, size: nat)

  predicate Extending(v: OsVolume) { v.status == EXTENDING }

  function ExtensionOutcome(first: Option<Observation<OsVolume>>, target: nat): Result {
    match first
    case Some(Sees(v)) => if v.status == AVAILABLE && v.size == target then ReturnsTrue else Throws
    case _ => Throws
  }

  method WaitForVolumeResizeCompletion(seen: nat -> Observation<OsVolume>, target: nat, max: nat, interval: nat)
    returns (result: Result, effort: Effort)
    ensures result == ExtensionOutcome(Decisive(seen, Extending, max), target)
    ensures effort == Spent(Settles(seen, Extending, max), max, interval, true)
  {
    effort := Effort(0, 0);
    for i := 0 to max
      invariant AllTransient(seen, Extending, i) && effort == Effort(i, i * interval)
    {
      effort := Effort(i + 1, effort.slept + interval);
      if Transient(seen(i), Extending) {
        continue;
      }
      SettlesUnique(seen, Extending, max, i);
      if seen(i).Sees? && seen(i).value.status == AVAILABLE && seen(i).value.size == target {
        return ReturnsTrue, effort;
      }
      return Throws, effort;
    }
    SettlesUnique(seen, Extending, max, max);
    return Throws, effort;
  }
}
