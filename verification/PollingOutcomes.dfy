/** What each polling loop comes to, status by status: which statuses it waits out, what each other one
    means for the row and the caller, and how long it polled and slept.  `k` is the first poll that
    shows something else; `k == max` is a timeout. */
module PollingOutcomes {
  import opened Options
  import opened Volumes
  import opened Polling

  // ---- Servers --------------------------------------------------------------------------------------

  lemma StartingServer(seen: nat -> Observation<ServerStatus>, row: ServerRow, max: nat, interval: nat, k: nat)
    requires FirstOther(seen, {SHUTOFF, FAULTY}, max, k)
    ensures StartOutcome(Decisive(seen, Starting, max), row)
            == if k == max then (ReturnsFalse, row)
               else if seen(k) == Raises then (Throws, row)
               else if seen(k) == Sees(ACTIVE) then (ReturnsTrue, ServerRow(row.projectId, ACTIVE, row.deleted))
               else (ReturnsFalse, row)
    ensures Spent(Settles(seen, Starting, max), max, interval, true)
            == if k == max then Effort(max, max * interval) else Effort(k + 1, (k + 1) * interval)
  {
    DecidedByFirstOther(seen, Starting, {SHUTOFF, FAULTY}, max, k);
  }

  lemma StoppingServer(seen: nat -> Observation<ServerStatus>, row: ServerRow, max: nat, interval: nat, k: nat)
    requires FirstOther(seen, {ACTIVE}, max, k)
    ensures StopOutcome(Decisive(seen, Stopping, max), row)
            == if k == max then (ReturnsFalse, row)
               else if seen(k) == Raises then (Throws, row)
               else if seen(k) == Sees(SHUTOFF) then (ReturnsTrue, ServerRow(row.projectId, SHUTOFF, row.deleted))
               else (ReturnsFalse, row)
    ensures Spent(Settles(seen, Stopping, max), max, interval, true)
            == if k == max then Effort(max, max * interval) else Effort(k + 1, (k + 1) * interval)
  {
    DecidedByFirstOther(seen, Stopping, {ACTIVE}, max, k);
  }

  /** The first `k` polls show a server in BUILD, and poll `k` does not. */
  ghost predicate BuildsUntil(seen: nat -> Observation<OsServer>, max: nat, k: nat) {
    && k <= max && (forall j: nat :: j < k ==> seen(j).Sees? && seen(j).value.status == BUILD)
    && (k < max ==> seen(k).Raises? || seen(k).value.status != BUILD)
  }

  /** An active server gets its root volume - AVAILABLE although linked, of the server's project and the
      requested size - under the first id that Nova reports. */
  lemma CreatingServer(seen: nat -> Observation<OsServer>, row: ServerRow, server: nat, size: nat, max: nat, interval: nat, k: nat)
    requires BuildsUntil(seen, max, k)
    ensures CreationOutcome(Decisive(seen, Building, max), row, server, size)
            == if k < max && seen(k) == Raises then (Throws, row, None)
               else if k < max && seen(k).value.status == ACTIVE && seen(k).value.volumeIds == [] then (Throws, row, None)
               else if k < max && seen(k).value.status == ACTIVE then
                 (ReturnsTrue, ServerRow(row.projectId, ACTIVE, row.deleted),
                  Some((seen(k).value.volumeIds[0], VolumeRow(row.projectId, Some(server), AVAILABLE, size, true, false))))
               else (ReturnsFalse, ServerRow(row.projectId, FAULTY, row.deleted), None)
    ensures Spent(Settles(seen, Building, max), max, interval, true)
            == if k == max then Effort(max, max * interval) else Effort(k + 1, (k + 1) * interval)
  {
    SettlesUnique(seen, Building, max, k);
  }

  /** A server or volume that OpenStack has lost is deleted; one that stays raises. */
  lemma DeletingServer(seen: nat -> Observation<bool>, row: ServerRow, max: nat, interval: nat, k: nat)
    requires FirstOther(seen, {true}, max, k)
    ensures ServerDeletionOutcome(Decisive(seen, StillThere, max), row)
            == if k < max && seen(k) == Sees(false) then (ReturnsTrue, ServerRow(row.projectId, DELETED, true)) else (Throws, row)
    ensures Spent(Settles(seen, StillThere, max), max, interval, false)
            == if k == max then Effort(max, max * interval) else Effort(k + 1, k * interval)
  {
    DecidedByFirstOther(seen, StillThere, {true}, max, k);
  }

  // ---- Volumes --------------------------------------------------------------------------------------

  lemma AttachingVolume(seen: nat -> Observation<VolumeStatus>, row: VolumeRow, server: nat, max: nat, interval: nat, k: nat)
    requires FirstOther(seen, {RESERVED, ATTACHING}, max, k)
    ensures AttachOutcome(Decisive(seen, Attaching, max), row, server)
            == if k == max then (ReturnsFalse, VolumeRow(row.projectId, row.serverId, ERROR, row.size, row.isRoot, row.deleted))
               else if seen(k) == Raises then (Throws, row)
               else if seen(k) != Sees(IN_USE) then
                 (ReturnsFalse, VolumeRow(row.projectId, row.serverId, seen(k).value, row.size, row.isRoot, row.deleted))
               else if row.status == IN_USE || row.serverId.Some? then (Throws, row)
               else (ReturnsTrue, VolumeRow(row.projectId, Some(server), IN_USE, row.size, row.isRoot, row.deleted))
    ensures Spent(Settles(seen, Attaching, max), max, interval, true)
            == if k == max then Effort(max, max * interval) else Effort(k + 1, (k + 1) * interval)
  {
    DecidedByFirstOther(seen, Attaching, {RESERVED, ATTACHING}, max, k);
  }

  lemma CreatingVolume(seen: nat -> Observation<VolumeStatus>, row: VolumeRow, max: nat, interval: nat, k: nat)
    requires FirstOther(seen, {CREATING, DOWNLOADING}, max, k)
    ensures SyncOutcome(Decisive(seen, BeingCreated, max), row)
            == if k < max && seen(k) == Raises then (Throws, row)
               else
                 var status := if k < max && seen(k) == Sees(AVAILABLE) then AVAILABLE else ERROR;
                 (ReturnsTrue, VolumeRow(row.projectId, row.serverId, status, row.size, row.isRoot, row.deleted))
    ensures Spent(Settles(seen, BeingCreated, max), max, interval, false)
            == if k == max then Effort(max, max * interval) else Effort(k + 1, k * interval)
  {
    DecidedByFirstOther(seen, BeingCreated, {CREATING, DOWNLOADING}, max, k);
  }

  lemma DeletingVolume(seen: nat -> Observation<bool>, row: VolumeRow, max: nat, interval: nat, k: nat)
    requires FirstOther(seen, {true}, max, k)
    ensures VolumeDeletionOutcome(Decisive(seen, StillThere, max), row)
            == if k < max && seen(k) == Sees(false)
               then (ReturnsTrue, VolumeRow(row.projectId, row.serverId, row.status, row.size, row.isRoot, true))
               else (Throws, row)
    ensures Spent(Settles(seen, StillThere, max), max, interval, false)
            == if k == max then Effort(max, max * interval) else Effort(k + 1, k * interval)
  {
    DecidedByFirstOther(seen, StillThere, {true}, max, k);
  }

  /** The first `k` polls show a volume in EXTENDING, and poll `k` does not. */
  ghost predicate ExtendsUntil(seen: nat -> Observation<OsVolume>, max: nat, k: nat) {
    && k <= max && (forall j: nat :: j < k ==> seen(j).Sees? && seen(j).value.status == EXTENDING)
    && (k < max ==> seen(k).Raises? || seen(k).value.status != EXTENDING)
  }

  lemma ExtendingVolume(seen: nat -> Observation<OsVolume>, target: nat, max: nat, interval: nat, k: nat)
    requires ExtendsUntil(seen, max, k)
    ensures ExtensionOutcome(Decisive(seen, Extending, max), target)
            == if k < max && seen(k) == Sees(OsVolume(AVAILABLE, target)) then ReturnsTrue else Throws
    ensures Spent(Settles(seen, Extending, max), max, interval, true)
            == if k == max then Effort(max, max * interval) else Effort(k + 1, (k + 1) * interval)
  {
    SettlesUnique(seen, Extending, max, k);
  }

  // ---- Guards ---------------------------------------------------------------------------------------

  /** What the guards of a volume let through, and which error they raise otherwise. */
  lemma VolumeGuards(row: VolumeRow, newSize: nat)
    ensures row.AttachmentError() == if row.status == IN_USE || row.serverId.Some? then Some(AlreadyAttached) else None
    ensures row.DetachmentError() ==
              if row.status != IN_USE || row.serverId.None? then Some(NotAttached)
              else if row.isRoot then Some(CannotDetachRoot)
              else None
    ensures row.DeletionError() ==
              if row.serverId.Some? then Some(AttachedDeletion)
              else if row.status == AVAILABLE || row.status == ERROR || row.status == ERROR_RESTORING || row.status == ERROR_EXTENDING
              then (if row.deleted then Some(AlreadyDeleted) else None)
              else Some(StatusInvalidForDeletion)
    ensures row.ResizeError(newSize) ==
              if row.status != AVAILABLE then Some(StatusInvalidForResizing)
              else if newSize > row.size then None
              else Some(ResizeNotAllowed)
  {}
}
