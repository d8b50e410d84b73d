/** Detaching and resizing a volume through the database sessions they really run in.

    A session keeps one entity object per row it has loaded, remembers the loaded column values, and
    on commit writes the columns that differ from them - to the row as it then is.  Objects outlive
    their session; a session knows nothing about the objects of another one. */
module VolumeSessions {
  import opened Options
  import opened Volumes
  import opened Polling
  import opened PollingOutcomes

  class Session {
    var identity: map<nat, Volume>
    var loaded: map<nat, VolumeRow>

    constructor ()
      ensures Valid() && identity == map[]
    {
      identity, loaded := map[], map[];
    }

    ghost predicate Valid()
      reads this
    {
      && identity.Keys == loaded.Keys
      && (forall a, b :: a in identity && b in identity && a != b ==> identity[a] != identity[b])
    }
  }

  /** The columns that were changed in the session, on top of the row as it is now. */
  function Merged(now: VolumeRow, loaded: VolumeRow, current: VolumeRow): VolumeRow {
    now.(serverId := if current.serverId != loaded.serverId then current.serverId else now.serverId,
         status := if current.status != loaded.status then current.status else now.status,
         size := if current.size != loaded.size then current.size else now.size,
         deleted := if current.deleted != loaded.deleted then current.deleted else now.deleted)
  }

  /** A commit writes what the session has changed and nothing else: over an undisturbed row everything,
      of an unchanged object nothing, and two sessions that change different columns both get through,
      in either order. */
  lemma CommitsMerge(loaded: VolumeRow, a: VolumeRow, b: VolumeRow)
    requires a.projectId == loaded.projectId == b.projectId && a.isRoot == loaded.isRoot == b.isRoot
    ensures Merged(loaded, loaded, a) == a
    ensures Merged(b, loaded, loaded) == b
    ensures (a.serverId == loaded.serverId || b.serverId == loaded.serverId) && (a.status == loaded.status || b.status == loaded.status)
            && (a.size == loaded.size || b.size == loaded.size) && (a.deleted == loaded.deleted || b.deleted == loaded.deleted) ==>
              Merged(a, loaded, b) == Merged(b, loaded, a)
  {}

  class Database {
    var rows: map<nat, VolumeRow>
    var ambient: Session?

    constructor (rows: map<nat, VolumeRow>)
      ensures this.rows == rows && ambient == null
    {
      this.rows, ambient := rows, null;
    }

    /** `session_factory`, up to its `yield`. */
    method Enter() returns (session: Session, owner: bool)
      modifies this`ambient
      ensures ambient == session && owner == (old(ambient) == null)
      ensures !owner ==> session == old(ambient)
      ensures owner ==> fresh(session) && session.Valid() && session.identity == map[]
    {
      if ambient != null {
        return ambient, false;
      }
      session := new Session();
      owner, ambient := true, session;
    }

    /** `session_factory`, after its `yield`, for the session's owner.  `commits` is whether the
        database accepts the commit; if not, the exception reaches the caller. */
    method Leave(session: Session, raised: bool, commits: bool) returns (error: bool)
      requires session.Valid()
      modifies this
      ensures ambient == null && error == (raised || !commits)
      ensures error ==> rows == old(rows)
      ensures !error ==> rows.Keys == old(rows).Keys
      ensures !error ==> forall id :: id in rows ==>
                rows[id] == if id in session.identity
                            then Merged(old(rows)[id], session.loaded[id], session.identity[id].AsRow())
                            else old(rows)[id]
    {
      if !raised && commits {
        rows := map id | id in rows ::
          if id in session.identity then Merged(rows[id], session.loaded[id], session.identity[id].AsRow()) else rows[id];
      }
      ambient, error := null, raised || !commits;
    }

    /** The `finally` of `@transactional`: the ambient variable is cleared, whoever owns the session. */
    method Reset()
      modifies this`ambient
      ensures ambient == null
    {
      ambient := null;
    }

    /** A repository lookup in a session: the row must exist and not be deleted, and the object is
        the one the session already holds, if any. */
    method Find(session: Session, id: nat) returns (volume: Volume?)
      requires session.Valid()
      modifies session
      ensures session.Valid()
      ensures volume == null <==> id !in rows || rows[id].deleted
      ensures volume == null ==> session.identity == old(session.identity) && session.loaded == old(session.loaded)
      ensures volume != null && id in old(session.identity) ==>
                && volume == old(session.identity)[id]
                && session.identity == old(session.identity) && session.loaded == old(session.loaded)
      ensures volume != null && id !in old(session.identity) ==>
                && fresh(volume) && volume.AsRow() == rows[id]
                && session.identity == old(session.identity)[id := volume]
                && session.loaded == old(session.loaded)[id := rows[id]]
    {
      if id !in rows || rows[id].deleted {
        return null;
      }
      if id in session.identity {
        return session.identity[id];
      }
      var found := new Volume(rows[id]);
      session.identity := session.identity[id := found];
      session.loaded := session.loaded[id := rows[id]];
      volume := found;
    }
  }

  predicate LiveRow(rows: map<nat, VolumeRow>, id: nat) {
    id in rows && !rows[id].deleted
  }

  lemma OneRowChanged(before: map<nat, VolumeRow>, after: map<nat, VolumeRow>, id: nat, row: VolumeRow)
    requires after.Keys == before.Keys && id in before
    requires forall k :: k in before ==> after[k] == if k == id then row else before[k]
    ensures after == before[id := row]
  {}

  // ---- Detaching ----------------------------------------------------------------------------------

  datatype Detachment = Detachment(
    projectId: nat, server: nat, volume: nat, serverFound: bool, novaAnswers: bool,
    seen: nat -> Observation<VolumeStatus>, max: nat, interval: nat)

  predicate Detaching(s: VolumeStatus) { s == IN_USE || s == DETACHING }

  /** The guards of `_initiate_volume_detachment`, up to and including the call to Nova. */
  predicate CanStart(req: Detachment, rows: map<nat, VolumeRow>) {
    && LiveRow(rows, req.volume)
    && rows[req.volume].projectId == req.projectId && rows[req.volume].serverId == Some(req.server)
    && rows[req.volume].DetachmentError().None?
    && req.serverFound && req.novaAnswers
  }

  /** The volume is live, the project's, IN_USE on this server, and no root volume. */
  predicate DetachableFrom(server: nat, volume: nat, project: nat, rows: map<nat, VolumeRow>) {
    && volume in rows && !rows[volume].deleted
    && rows[volume].projectId == project && rows[volume].serverId == Some(server)
    && rows[volume].status == IN_USE && !rows[volume].isRoot
  }

  /** IN_USE and DETACHING are waited out. */
  lemma DetachmentDecided(req: Detachment)
    ensures forall k: nat :: FirstOther(req.seen, {IN_USE, DETACHING}, req.max, k) ==>
              Decisive(req.seen, Detaching, req.max) == if k < req.max then Some(req.seen(k)) else None
  {
    forall k: nat | FirstOther(req.seen, {IN_USE, DETACHING}, req.max, k)
      ensures Decisive(req.seen, Detaching, req.max) == if k < req.max then Some(req.seen(k)) else None
    {
      DecidedByFirstOther(req.seen, Detaching, {IN_USE, DETACHING}, req.max, k);
    }
  }

  /** What the wait sets, and a started detachment commits, status by status. */
  lemma DetachingVolume(req: Detachment, innerCommits: bool, outerCommits: bool, rows: map<nat, VolumeRow>, k: nat)
    requires FirstOther(req.seen, {IN_USE, DETACHING}, req.max, k)
    ensures forall row :: WaitOutcome(Decisive(req.seen, Detaching, req.max), row) ==
              if k == req.max then (ReturnsFalse, row)
              else if req.seen(k) == Raises then (Throws, row)
              else if req.seen(k) == Sees(AVAILABLE) then (ReturnsTrue, row.(status := AVAILABLE, serverId := None))
              else (ReturnsFalse, row.(status := req.seen(k).value))
    ensures DetachedRows(req, innerCommits, outerCommits, rows) ==
              if k == req.max || req.seen(k) == Raises || req.volume !in rows || rows[req.volume].deleted || !innerCommits then rows
              else if req.seen(k) == Sees(AVAILABLE) then
                rows[req.volume := rows[req.volume].(serverId := None, status := if outerCommits then DETACHING else AVAILABLE)]
              else rows[req.volume := rows[req.volume].(status := req.seen(k).value)]
    ensures Spent(Settles(req.seen, Detaching, req.max), req.max, req.interval, true)
            == if k == req.max then Effort(req.max, req.max * req.interval) else Effort(k + 1, (k + 1) * req.interval)
  {
    DecidedByFirstOther(req.seen, Detaching, {IN_USE, DETACHING}, req.max, k);
    if k < req.max && LiveRow(rows, req.volume) && req.seen(k) == Sees(AVAILABLE) && innerCommits {
      assert rows[req.volume := rows[req.volume].DetachedFromServer()][req.volume := rows[req.volume].DetachedFromServer().(status := DETACHING)]
             == rows[req.volume := rows[req.volume].DetachedFromServer().(status := DETACHING)];
    }
  }

  /** The body of `_initiate_volume_detachment`, in a session of its caller's. */
  method InitiateVolumeDetachment(db: Database, session: Session, req: Detachment) returns (error: bool)
    requires session.Valid() && session.identity == map[]
    modifies session
    ensures session.Valid()
    ensures error == !CanStart(req, db.rows)
    ensures !error ==>
              && session.identity.Keys == {req.volume} && fresh(session.identity[req.volume])
              && session.loaded[req.volume] == db.rows[req.volume]
              && session.identity[req.volume].AsRow() == db.rows[req.volume].(status := DETACHING)
  {
    var volume := db.Find(session, req.volume);
    if volume == null || volume.projectId != req.projectId || volume.serverId != Some(req.server) {
      return true;
    }
    var guard := volume.PrepareForDetachment();
    error := guard.Some? || !req.serverFound || !req.novaAnswers;
  }

  /** What the waiting half does to the object it looks up. */
  function WaitOutcome(first: Option<Observation<VolumeStatus>>, row: VolumeRow): (Result, VolumeRow) {
    match first
    case None => (ReturnsFalse, row)
    case Some(Raises) => (Throws, row)
    case Some(Sees(status)) =>
      if status == AVAILABLE then (ReturnsTrue, row.DetachedFromServer()) else (ReturnsFalse, row.(status := status))
  }

  /** The volume is looked up only once OpenStack has decided, and may be gone by then. */
  predicate LooksUp(first: Option<Observation<VolumeStatus>>) {
    first.Some? && first.value.Sees?
  }

  /** The volume's object in the session, which it is if it was loaded before or could be loaded now. */
  ghost predicate Holds(db: Database, session: Session, id: nat, row: VolumeRow)
    reads db, session, session.identity.Values
  {
    && session.Valid() && session.identity.Keys <= {id}
    && (LiveRow(db.rows, id) ==> row == if id in session.identity then session.identity[id].AsRow() else db.rows[id])
  }

  /** What the waiting half does once OpenStack has shown a status. */
  method FinalizeDetachment(db: Database, session: Session, id: nat, status: VolumeStatus, ghost before: VolumeRow)
    returns (result: Result)
    requires Holds(db, session, id, before)
    modifies session, session.identity.Values
    ensures session.Valid() && session.identity.Keys <= {id} && old(session.identity.Keys) <= session.identity.Keys
    ensures !LiveRow(db.rows, id) ==>
              result == Throws && session.identity == old(session.identity) && session.loaded == old(session.loaded)
    ensures LiveRow(db.rows, id) ==>
              && id in session.identity
              && (result, session.identity[id].AsRow()) == WaitOutcome(Some(Sees(status)), before)
    ensures id in old(session.identity) ==> session.identity == old(session.identity) && session.loaded == old(session.loaded)
    ensures id !in old(session.identity) && id in session.identity ==>
              fresh(session.identity[id]) && session.loaded[id] == db.rows[id]
  {
    var volume := db.Find(session, id);
    if volume == null {
      return Throws;
    }
    if status == AVAILABLE {
      volume.DetachFromServer();
      return ReturnsTrue;
    }
    volume.UpdateStatus(status);
    return ReturnsFalse;
  }

  /** The body of `_wait_until_volume_detachment_and_finalize`. */
  method WaitUntilVolumeDetachment(db: Database, session: Session, req: Detachment, ghost before: VolumeRow)
    returns (result: Result, effort: Effort)
    requires Holds(db, session, req.volume, before)
    modifies session, session.identity.Values
    ensures session.Valid() && session.identity.Keys <= {req.volume} && old(session.identity.Keys) <= session.identity.Keys
    ensures effort == Spent(Settles(req.seen, Detaching, req.max), req.max, req.interval, true)
    ensures var first := Decisive(req.seen, Detaching, req.max);
            && (LooksUp(first) && !LiveRow(db.rows, req.volume) ==> result == Throws)
            && (LooksUp(first) && LiveRow(db.rows, req.volume) ==>
                  req.volume in session.identity && (result, session.identity[req.volume].AsRow()) == WaitOutcome(first, before))
            && (!LooksUp(first) ==> result == WaitOutcome(first, before).0)
            && (req.volume in old(session.identity) || !LooksUp(first) || !LiveRow(db.rows, req.volume) ==>
                  session.identity == old(session.identity) && session.loaded == old(session.loaded))
    ensures req.volume !in old(session.identity) && req.volume in session.identity ==>
              fresh(session.identity[req.volume]) && session.loaded[req.volume] == db.rows[req.volume]
  {
    result, effort := ReturnsFalse, Effort(0, 0);
    for i := 0 to req.max
      invariant AllTransient(req.seen, Detaching, i) && effort == Effort(i, i * req.interval)
      invariant session.identity == old(session.identity) && session.loaded == old(session.loaded)
      invariant Holds(db, session, req.volume, before)
    {
      effort := Effort(i + 1, effort.slept + req.interval);
      if Transient(req.seen(i), Detaching) {
        continue;
      }
      SettlesUnique(req.seen, Detaching, req.max, i);
      if req.seen(i).Raises? {
        return Throws, effort;
      }
      result := FinalizeDetachment(db, session, req.volume, req.seen(i).value, before);
      return;
    }
    SettlesUnique(req.seen, Detaching, req.max, req.max);
  }

  /** Whether the waiting half, in a session of its own, changes and commits the row. */
  predicate WaitCommits(req: Detachment, commits: bool, rows: map<nat, VolumeRow>) {
    LooksUp(Decisive(req.seen, Detaching, req.max)) && LiveRow(rows, req.volume) && commits
  }

  function WaitedRows(req: Detachment, commits: bool, rows: map<nat, VolumeRow>): map<nat, VolumeRow> {
    if WaitCommits(req, commits, rows)
    then rows[req.volume := WaitOutcome(Decisive(req.seen, Detaching, req.max), rows[req.volume]).1]
    else rows
  }

  /** The waiting half with no session ambient: it opens, and commits, its own. */
  method WaitInOwnSession(db: Database, req: Detachment, commits: bool) returns (detached: bool)
    requires db.ambient == null
    modifies db
    ensures db.ambient == null
    ensures db.rows == WaitedRows(req, commits, old(db.rows))
    ensures detached <==> WaitCommits(req, commits, old(db.rows)) && Decisive(req.seen, Detaching, req.max) == Some(Sees(AVAILABLE))
  {
    var session, _ := db.Enter();
    ghost var row := if LiveRow(db.rows, req.volume) then db.rows[req.volume] else VolumeRow(0, None, ERROR, 0, false, true);
    var result, _ := WaitUntilVolumeDetachment(db, session, req, row);
    var error := db.Leave(session, result == Throws, commits);
    detached := result == ReturnsTrue && !error;
    if !error && LooksUp(Decisive(req.seen, Detaching, req.max)) {
      OneRowChanged(old(db.rows), db.rows, req.volume, WaitOutcome(Decisive(req.seen, Detaching, req.max), row).1);
    } else {
      assert db.rows == old(db.rows);
    }
  }

  /** `_initiate_volume_detachment` called inside another transaction: it joins the session and, on
      leaving, resets the ambient variable all the same. */
  method InitiateInside(db: Database, req: Detachment) returns (error: bool)
    requires db.ambient != null && db.ambient.Valid() && db.ambient.identity == map[]
    modifies db`ambient, db.ambient
    ensures db.ambient == null
    ensures var outer := old(db.ambient);
            && outer.Valid() && error == !CanStart(req, db.rows)
            && (!error ==>
                  && outer.identity.Keys == {req.volume} && fresh(outer.identity[req.volume])
                  && outer.loaded[req.volume] == db.rows[req.volume]
                  && outer.identity[req.volume].AsRow() == db.rows[req.volume].(status := DETACHING))
  {
    var session, _ := db.Enter();
    error := InitiateVolumeDetachment(db, session, req);
    db.Reset();
  }

  /** `detach_volume_from_server` as written: a `@transactional` function calling two `@transactional`
      helpers.  The first resets the ambient variable, so the second runs in a session of its own;
      the outer session commits last and only knows that it marked the volume DETACHING.
      `meanwhile` are the committed rows once OpenStack has decided: other requests may have changed
      anything.  Alone, a successful detachment commits (DETACHING, no server), an unexpected status
      commits (that status, server kept), and a timeout commits nothing. */
  method DetachVolumeFromServer(db: Database, req: Detachment, meanwhile: map<nat, VolumeRow>, innerCommits: bool, outerCommits: bool)
    returns (ok: bool)
    requires db.ambient == null
    modifies db
    ensures db.ambient == null
    ensures ok <==> && CanStart(req, old(db.rows)) && Decisive(req.seen, Detaching, req.max) == Some(Sees(AVAILABLE))
                    && WaitCommits(req, innerCommits, meanwhile) && outerCommits
    ensures db.rows == if CanStart(req, old(db.rows)) then DetachedRows(req, innerCommits, outerCommits, meanwhile) else old(db.rows)
    ensures forall k: nat :: FirstOther(req.seen, {IN_USE, DETACHING}, req.max, k) ==>
              (ok <==> && DetachableFrom(req.server, req.volume, req.projectId, old(db.rows)) && req.serverFound && req.novaAnswers
                       && k < req.max && req.seen(k) == Sees(AVAILABLE)
                       && LiveRow(meanwhile, req.volume) && innerCommits && outerCommits)
  {
    var outer, _ := db.Enter();
    var raised := InitiateInside(db, req);
    if !raised {
      db.rows := meanwhile;
      var detached := WaitInOwnSession(db, req, innerCommits);
      raised := !detached;
    }
    ghost var waited := db.rows;
    raised := db.Leave(outer, raised, outerCommits);
    ok := !raised;
    if ok {
      OneRowChanged(waited, db.rows, req.volume, waited[req.volume].(status := DETACHING));
    }
    DetachmentSucceedsIff(req, old(db.rows), meanwhile, innerCommits);
  }

  lemma DetachmentSucceedsIff(req: Detachment, rows: map<nat, VolumeRow>, meanwhile: map<nat, VolumeRow>, innerCommits: bool)
    ensures forall k: nat :: FirstOther(req.seen, {IN_USE, DETACHING}, req.max, k) ==>
              (CanStart(req, rows) && Decisive(req.seen, Detaching, req.max) == Some(Sees(AVAILABLE)) && WaitCommits(req, innerCommits, meanwhile)
               <==> && DetachableFrom(req.server, req.volume, req.projectId, rows) && req.serverFound && req.novaAnswers
                    && k < req.max && req.seen(k) == Sees(AVAILABLE)
                    && LiveRow(meanwhile, req.volume) && innerCommits)
  {
    DetachmentDecided(req);
  }

  /** The rows a started detachment leaves of those it finds after the wait. */
  function DetachedRows(req: Detachment, innerCommits: bool, outerCommits: bool, rows: map<nat, VolumeRow>): map<nat, VolumeRow> {
    var waited := WaitedRows(req, innerCommits, rows);
    if WaitCommits(req, innerCommits, rows) && Decisive(req.seen, Detaching, req.max) == Some(Sees(AVAILABLE)) && outerCommits
    then waited[req.volume := waited[req.volume].(status := DETACHING)]
    else waited
  }

  /** What a client is left with after a detachment that was reported as successful: a volume without
      a server that can be neither deleted nor resized nor detached again, only attached. */
  lemma ReportedDetachmentLeavesDetaching(req: Detachment, rows: map<nat, VolumeRow>)
    requires LiveRow(rows, req.volume) && Decisive(req.seen, Detaching, req.max) == Some(Sees(AVAILABLE))
    ensures var row := DetachedRows(req, true, true, rows)[req.volume];
            && row == rows[req.volume].DetachedFromServer().(status := DETACHING)
            && row.DeletionError() == Some(StatusInvalidForDeletion)
            && row.DetachmentError() == Some(NotAttached)
            && (forall size :: row.ResizeError(size) == Some(StatusInvalidForResizing))
            && row.AttachmentError() == None
  {}

  /** The same function when leaving a joined session lets it stay ambient: one session, so the
      detachment commits (AVAILABLE, no server) or nothing at all. */
  method DetachInOneSession(db: Database, req: Detachment, commits: bool) returns (ok: bool)
    requires db.ambient == null
    modifies db
    ensures db.ambient == null
    ensures ok <==> && CanStart(req, old(db.rows)) && Decisive(req.seen, Detaching, req.max) == Some(Sees(AVAILABLE))
                    && commits
    ensures db.rows == if ok then old(db.rows)[req.volume := old(db.rows)[req.volume].DetachedFromServer()] else old(db.rows)
    ensures forall k: nat :: FirstOther(req.seen, {IN_USE, DETACHING}, req.max, k) ==>
              (ok <==> && DetachableFrom(req.server, req.volume, req.projectId, old(db.rows)) && req.serverFound && req.novaAnswers
                       && k < req.max && req.seen(k) == Sees(AVAILABLE) && commits)
  {
    DetachmentDecided(req);
    var outer, _ := db.Enter();
    var raised := InitiateVolumeDetachment(db, outer, req);
    if !raised {
      var session, _ := db.Enter();
      ghost var marked := db.rows[req.volume].(status := DETACHING);
      var result, _ := WaitUntilVolumeDetachment(db, session, req, marked);
      raised := result != ReturnsTrue;
    }
    raised := db.Leave(outer, raised, commits);
    ok := !raised;
  }

  // ---- Attaching ----------------------------------------------------------------------------------

  datatype Attachment = Attachment(
    projectId: nat, server: nat, volume: nat, serverFound: bool, novaAnswers: bool,
    seen: nat -> Observation<VolumeStatus>, max: nat, interval: nat)

  predicate CanAttach(req: Attachment, rows: map<nat, VolumeRow>) {
    && req.serverFound && LiveRow(rows, req.volume) && rows[req.volume].projectId == req.projectId
    && rows[req.volume].AttachmentError().None? && req.novaAnswers
  }

  /** The volume is live, not IN_USE and on no server. */
  predicate Attachable(volume: nat, rows: map<nat, VolumeRow>) {
    volume in rows && !rows[volume].deleted && rows[volume].status != IN_USE && rows[volume].serverId == None
  }

  /** `_initiate_volume_attachment`, in a session of its own. */
  method InitiateVolumeAttachment(db: Database, req: Attachment, commits: bool) returns (error: bool)
    requires db.ambient == null
    modifies db
    ensures db.ambient == null && error == !(CanAttach(req, old(db.rows)) && commits)
    ensures db.rows == if error then old(db.rows) else old(db.rows)[req.volume := old(db.rows)[req.volume].(status := ATTACHING)]
  {
    var session, _ := db.Enter();
    error := !req.serverFound;
    if !error {
      var volume := db.Find(session, req.volume);
      error := volume == null || volume.projectId != req.projectId;
      if !error {
        var guard := volume.PrepareForAttachment();
        error := guard.Some? || !req.novaAnswers;
      }
    }
    error := db.Leave(session, error, commits);
  }

  /** What the waiting half makes of the row it finds: the server must still be there to be linked. */
  function AttachmentOutcome(req: Attachment, serverLive: bool, rows: map<nat, VolumeRow>): (Result, VolumeRow)
    requires LiveRow(rows, req.volume)
  {
    var first := Decisive(req.seen, Attaching, req.max);
    if first == Some(Sees(IN_USE)) && !serverLive then (Throws, rows[req.volume])
    else AttachOutcome(first, rows[req.volume], req.server)
  }

  /** `_wait_until_volume_attachment_and_finalize`, in a session of its own. */
  method FinalizeVolumeAttachment(db: Database, req: Attachment, serverLive: bool, commits: bool) returns (attached: bool)
    requires db.ambient == null
    modifies db
    ensures db.ambient == null && db.rows == AttachedRows(req, serverLive, commits, old(db.rows))
    ensures attached <==> && LiveRow(old(db.rows), req.volume)
                          && AttachmentOutcome(req, serverLive, old(db.rows)).0 == ReturnsTrue && commits
  {
    var session, _ := db.Enter();
    ghost var before := db.rows;
    var volume := db.Find(session, req.volume);
    var result := Throws;
    if volume != null && (serverLive || Decisive(req.seen, Attaching, req.max) != Some(Sees(IN_USE))) {
      var waited, _ := WaitUntilVolumeAttachmentAndFinalize(volume, req.server, req.seen, req.max, req.interval);
      result := waited;
    }
    var error := db.Leave(session, result == Throws, commits);
    attached := result == ReturnsTrue && !error;
    if !error {
      OneRowChanged(before, db.rows, req.volume, AttachmentOutcome(req, serverLive, before).1);
    }
  }

  function AttachedRows(req: Attachment, serverLive: bool, commits: bool, rows: map<nat, VolumeRow>): map<nat, VolumeRow> {
    if !LiveRow(rows, req.volume) || !commits || AttachmentOutcome(req, serverLive, rows).0 == Throws then rows
    else rows[req.volume := AttachmentOutcome(req, serverLive, rows).1]
  }

  /** What a started attachment commits, status by status, to the row it finds: an exception - also that of
      a volume that may no longer be attached, or of a missing server - commits nothing. */
  lemma AttachingRows(req: Attachment, serverLive: bool, commits: bool, rows: map<nat, VolumeRow>, k: nat)
    requires FirstOther(req.seen, {RESERVED, ATTACHING}, req.max, k)
    ensures AttachedRows(req, serverLive, commits, rows) ==
              if req.volume !in rows || rows[req.volume].deleted || !commits then rows
              else if k == req.max then rows[req.volume := rows[req.volume].(status := ERROR)]
              else if req.seen(k) == Raises then rows
              else if req.seen(k) != Sees(IN_USE) then rows[req.volume := rows[req.volume].(status := req.seen(k).value)]
              else if serverLive && Attachable(req.volume, rows)
              then rows[req.volume := rows[req.volume].(status := IN_USE, serverId := Some(req.server))]
              else rows
  {
    DecidedByFirstOther(req.seen, Attaching, {RESERVED, ATTACHING}, req.max, k);
  }

  /** `attach_volume_to_server` is not `@transactional`, so both halves commit what they mean to: a
      success has seen OpenStack report IN_USE and leaves the volume linked and IN_USE. */
  method AttachVolumeToServer(db: Database, req: Attachment, meanwhile: map<nat, VolumeRow>, serverLive: bool,
                              firstCommits: bool, lastCommits: bool) returns (ok: bool)
    requires db.ambient == null
    modifies db
    ensures db.ambient == null
    ensures ok <==> && CanAttach(req, old(db.rows)) && firstCommits
                    && Decisive(req.seen, Attaching, req.max) == Some(Sees(IN_USE)) && serverLive
                    && LiveRow(meanwhile, req.volume) && meanwhile[req.volume].AttachmentError().None? && lastCommits
    ensures db.rows == if CanAttach(req, old(db.rows)) && firstCommits
                       then AttachedRows(req, serverLive, lastCommits, meanwhile) else old(db.rows)
    ensures ok ==> db.rows == meanwhile[req.volume := meanwhile[req.volume].AttachedTo(req.server)]
    ensures forall k: nat :: FirstOther(req.seen, {RESERVED, ATTACHING}, req.max, k) ==>
              (ok <==> && Attachable(req.volume, old(db.rows)) && old(db.rows)[req.volume].projectId == req.projectId
                       && req.serverFound && req.novaAnswers && firstCommits
                       && k < req.max && req.seen(k) == Sees(IN_USE)
                       && Attachable(req.volume, meanwhile) && serverLive && lastCommits)
  {
    forall k: nat | FirstOther(req.seen, {RESERVED, ATTACHING}, req.max, k)
      ensures Decisive(req.seen, Attaching, req.max) == if k < req.max then Some(req.seen(k)) else None
    {
      DecidedByFirstOther(req.seen, Attaching, {RESERVED, ATTACHING}, req.max, k);
    }
    var error := InitiateVolumeAttachment(db, req, firstCommits);
    if error {
      return false;
    }
    db.rows := meanwhile;
    ok := FinalizeVolumeAttachment(db, req, serverLive, lastCommits);
  }

  // ---- Resizing -----------------------------------------------------------------------------------

  datatype Extension = Extension(
    projectId: nat, volume: nat, newSize: nat, cinderAnswers: bool,
    seen: nat -> Observation<OsVolume>, max: nat, interval: nat)

  predicate CanExtend(req: Extension, rows: map<nat, VolumeRow>) {
    && LiveRow(rows, req.volume) && rows[req.volume].projectId == req.projectId
    && rows[req.volume].ResizeError(req.newSize).None?
  }

  /** The volume is live, AVAILABLE and smaller. */
  predicate Extensible(volume: nat, newSize: nat, rows: map<nat, VolumeRow>) {
    volume in rows && !rows[volume].deleted && rows[volume].status == AVAILABLE && rows[volume].size < newSize
  }

  lemma ExtensionDecided(req: Extension)
    ensures forall k: nat :: ExtendsUntil(req.seen, req.max, k) ==>
              Decisive(req.seen, Extending, req.max) == if k < req.max then Some(req.seen(k)) else None
  {
    forall k: nat | ExtendsUntil(req.seen, req.max, k)
      ensures Decisive(req.seen, Extending, req.max) == if k < req.max then Some(req.seen(k)) else None
    {
      SettlesUnique(req.seen, Extending, req.max, k);
    }
  }

  /** `_prepare_volume_for_resize`: the object it returns belongs to a session that is over. */
  method PrepareVolumeForResize(db: Database, req: Extension, commits: bool) returns (volume: Volume?)
    requires db.ambient == null
    modifies db
    ensures db.ambient == null && db.rows == old(db.rows)
    ensures volume != null <==> CanExtend(req, db.rows) && commits
    ensures volume != null ==> fresh(volume) && volume.AsRow() == db.rows[req.volume]
  {
    var session, _ := db.Enter();
    volume := db.Find(session, req.volume);
    var raised := volume == null || volume.projectId != req.projectId || volume.AsRow().ResizeError(req.newSize).Some?;
    raised := db.Leave(session, raised, commits);
    if raised {
      volume := null;
    }
  }

  /** `_resize_and_persist_volume` as written: the object it changes is in no open session. */
  method ResizeAndPersistVolume(db: Database, volume: Volume, newSize: nat, commits: bool) returns (error: bool)
    requires db.ambient == null
    modifies db, volume
    ensures db.ambient == null && db.rows == old(db.rows)
    ensures error == (old(volume.AsRow()).ResizeError(newSize).Some? || !commits)
    ensures !error ==> volume.AsRow() == old(volume.AsRow()).(size := newSize)
  {
    var session, _ := db.Enter();
    var guard := volume.Resize(newSize);
    error := db.Leave(session, guard.Some?, commits);
  }

  /** The same step when it reads the row again in its own session. */
  method RereadAndResizeVolume(db: Database, id: nat, newSize: nat, commits: bool) returns (error: bool, volume: Volume?)
    requires db.ambient == null
    modifies db
    ensures db.ambient == null
    ensures error <==> !(LiveRow(old(db.rows), id) && old(db.rows)[id].ResizeError(newSize).None? && commits)
    ensures db.rows == if error then old(db.rows) else old(db.rows)[id := old(db.rows)[id].(size := newSize)]
    ensures !error ==> volume != null && volume.AsRow() == db.rows[id]
  {
    var session, _ := db.Enter();
    volume := db.Find(session, id);
    error := volume == null;
    if volume != null {
      var guard := volume.Resize(newSize);
      error := guard.Some?;
    }
    error := db.Leave(session, error, commits);
  }

  /** `update_volume_size` as written.  `meanwhile` are the committed rows once Cinder is done: other
      requests may have changed anything.  A successful call has seen Cinder report AVAILABLE at
      exactly the requested size and returns that strictly larger size - and has committed nothing:
      the rows stay what the others made them. */
  method UpdateVolumeSize(db: Database, req: Extension, meanwhile: map<nat, VolumeRow>, firstCommits: bool, lastCommits: bool)
    returns (response: Option<VolumeRow>)
    requires db.ambient == null
    modifies db
    ensures response.Some? <==> && CanExtend(req, old(db.rows)) && firstCommits && req.cinderAnswers && lastCommits
                                && Decisive(req.seen, Extending, req.max) == Some(Sees(OsVolume(AVAILABLE, req.newSize)))
    ensures response.Some? ==>
              && response.value == old(db.rows)[req.volume].(size := req.newSize)
              && response.value.size > old(db.rows)[req.volume].size
    ensures db.rows == if CanExtend(req, old(db.rows)) && firstCommits && req.cinderAnswers then meanwhile else old(db.rows)
    ensures forall k: nat :: ExtendsUntil(req.seen, req.max, k) ==>
              (response.Some? <==>
                       && Extensible(req.volume, req.newSize, old(db.rows)) && old(db.rows)[req.volume].projectId == req.projectId
                       && req.cinderAnswers && k < req.max && req.seen(k) == Sees(OsVolume(AVAILABLE, req.newSize))
                       && firstCommits && lastCommits)
  {
    ExtensionDecided(req);
    var volume := PrepareVolumeForResize(db, req, firstCommits);
    if volume == null || !req.cinderAnswers {
      return None;
    }
    var result, _ := WaitForVolumeResizeCompletion(req.seen, req.newSize, req.max, req.interval);
    db.rows := meanwhile;
    if result != ReturnsTrue {
      return None;
    }
    var error := ResizeAndPersistVolume(db, volume, req.newSize, lastCommits);
    response := if error then None else Some(volume.AsRow());
  }

  /** With the final step reading the row again, the committed size is the requested one: a success
      means that the row, as the others had left it, still allowed the new size. */
  method UpdateVolumeSizeRereading(db: Database, req: Extension, meanwhile: map<nat, VolumeRow>, firstCommits: bool, lastCommits: bool)
    returns (response: Option<VolumeRow>)
    requires db.ambient == null
    modifies db
    ensures response.Some? <==> && CanExtend(req, old(db.rows)) && firstCommits && req.cinderAnswers && lastCommits
                                && Decisive(req.seen, Extending, req.max) == Some(Sees(OsVolume(AVAILABLE, req.newSize)))
                                && LiveRow(meanwhile, req.volume) && meanwhile[req.volume].ResizeError(req.newSize).None?
    ensures response.Some? ==> response.value == meanwhile[req.volume].(size := req.newSize)
    ensures db.rows == if response.Some? then meanwhile[req.volume := meanwhile[req.volume].(size := req.newSize)]
                       else if CanExtend(req, old(db.rows)) && firstCommits && req.cinderAnswers then meanwhile
                       else old(db.rows)
    ensures forall k: nat :: ExtendsUntil(req.seen, req.max, k) ==>
              (response.Some? <==>
                       && Extensible(req.volume, req.newSize, old(db.rows)) && old(db.rows)[req.volume].projectId == req.projectId
                       && req.cinderAnswers && k < req.max && req.seen(k) == Sees(OsVolume(AVAILABLE, req.newSize))
                       && Extensible(req.volume, req.newSize, meanwhile)
                       && firstCommits && lastCommits)
  {
    ExtensionDecided(req);
    var volume := PrepareVolumeForResize(db, req, firstCommits);
    if volume == null || !req.cinderAnswers {
      return None;
    }
    var result, _ := WaitForVolumeResizeCompletion(req.seen, req.newSize, req.max, req.interval);
    db.rows := meanwhile;
    if result != ReturnsTrue {
      return None;
    }
    var error, reread := RereadAndResizeVolume(db, req.volume, req.newSize, lastCommits);
    response := if error then None else Some(reread.AsRow());
  }
}
