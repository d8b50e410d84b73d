/** What runs of the lifecycle guarantee beyond the invariant: who may set which status or link, what
    a server deletion leaves behind, and the windows in which a volume can still be lost. */
module LifecycleRuns {
  import opened Options
  import opened Volumes
  import opened Polling
  import opened Networking
  import opened ServerDeletion
  import opened Lifecycle
  import opened Sequences

  function Empty(iteration: Iteration): System {
    System(iteration, Tables(map[], map[], map[], map[], {}, map[]), [], [], [])
  }

  /** Every state reachable from empty tables, spelled out per table. */
  lemma ReachableStates(events: seq<Event>, iteration: Iteration)
    ensures var t := After(events, Empty(iteration)).tables;
            && (forall link :: link in t.links ==> t.LiveNic(link.0) && t.LiveGroup(link.1))
            && (forall f :: f in t.floatingIps ==> (t.floatingIps[f].status == UP <==> t.floatingIps[f].interface.Some?))
            && (forall f, n :: t.On(f, n) ==> t.LiveNic(n) && !t.floatingIps[f].deleted)
            && (forall s :: s in t.servers ==> (t.servers[s].status == ServerStatus.DELETED <==> t.servers[s].deleted))
            && (forall v :: v in t.volumes && t.volumes[v].status == IN_USE ==> t.volumes[v].serverId.Some?)
  {
    RunKeepsInv(events, Empty(iteration));
  }

  /** DELETED is final. */
  lemma {:induction false} DeletedServersStay(events: seq<Event>, y: System, s: nat)
    requires Inv(y) && s in y.tables.servers && y.tables.servers[s].status == ServerStatus.DELETED
    ensures s in After(events, y).tables.servers
    ensures After(events, y).tables.servers[s] == y.tables.servers[s]
    decreases |events|
  {
    if events == [] {
    } else {
      var front := events[..|events| - 1];
      DeletedServersStay(front, y, s);
      RunKeepsInv(front, y);
      StepKeepsInv(events[|events| - 1], After(front, y));
    }
  }

  // ---- Volumes ------------------------------------------------------------------------------------

  /** The step from `y` to `y'` turns the volume IN_USE. */
  ghost predicate TurnsInUse(y: System, y': System, v: nat) {
    && v in y'.tables.volumes && y'.tables.volumes[v].status == IN_USE
    && (v in y.tables.volumes ==> y.tables.volumes[v].status != IN_USE)
  }

  /** Only a finished attachment sets IN_USE, and only on an unlinked volume, which it links. */
  lemma OnlyAttachmentSetsInUse(e: Event, y: System, v: nat)
    requires TurnsInUse(y, Apply(e, y), v)
    ensures e.WatchAttachment? && e.volume == v && y.tables.LiveServer(e.server) && y.tables.LiveVolume(v)
    ensures Decisive(e.seen, Attaching, e.max) == Some(Sees(IN_USE))
    ensures y.tables.volumes[v].serverId == None && Apply(e, y).tables.Linked(v, e.server)
  {
    if e.RunJob? {
      if e.job < |y.jobs| { JobNeverSetsInUse(y.jobs[e.job], e, y.tables, y.iteration, v); }
    } else if e.FinishDetachment? {
      if e.detachment < |y.detachments| {
        DetachmentNeverSetsInUse(y.tables, y.detachments[e.detachment].req, e.innerCommits, e.outerCommits, v);
      }
    } else if !e.WatchAttachment? && !e.FinishVolumeDeletion? {
      OthersNeverSetInUse(e, y.tables, v);
    }
  }

  lemma JobNeverSetsInUse(j: Job, e: Event, t: Tables, iteration: Iteration, v: nat)
    requires e.RunJob?
    ensures var t' := JobStep(j, e, t, iteration).0;
            v in t'.volumes && t'.volumes[v].status == IN_USE ==> v in t.volumes && t.volumes[v].status == IN_USE
  {}

  lemma DetachmentNeverSetsInUse(t: Tables, req: VolumeSessions.Detachment, inner: bool, outer: bool, v: nat)
    ensures var t' := VolumeDetached(t, req, inner, outer);
            v in t'.volumes && t'.volumes[v].status == IN_USE ==> v in t.volumes && t.volumes[v].status == IN_USE
  {}

  lemma OthersNeverSetInUse(e: Event, t: Tables, v: nat)
    requires !e.WatchAttachment?
    ensures var t' := Commit(e, t);
            v in t'.volumes && t'.volumes[v].status == IN_USE ==> v in t.volumes && t.volumes[v].status == IN_USE
  {}

  /** The event really links the volume to the server: an attachment that finds Nova done and both rows
      fit, or a server creation that comes to its root volume. */
  predicate Links(e: Event, t: Tables, v: nat, s: nat) {
    match e
    case WatchAttachment(server, volume, seen, max) =>
      && server == s && volume == v && Decisive(seen, Attaching, max) == Some(Sees(IN_USE))
      && t.LiveServer(s) && t.LiveVolume(v) && t.volumes[v].AttachmentError().None?
    case FinishServerCreation(server, newVolume, _, os, max) =>
      && server == s && newVolume == v && v !in t.volumes && t.LiveServer(s)
      && (match Decisive(os, Building, max)
          case Some(Sees(found)) => found.status == ACTIVE && found.volumeIds != []
          case _ => false)
    case _ => false
  }

  /** The removal of the server's resources gets through and comes to the volume. */
  predicate Releases(e: Event, y: System, v: nat, s: nat) {
    && e.RunJob? && e.job < |y.jobs| && y.jobs[e.job].server == s && y.jobs[e.job].stage == Removing
    && y.tables.LiveServer(s) && e.portsDeleted
    && Lists(e.loaded, VolumesOf(y.tables, s)) && v in Released(y.iteration, e.loaded)
  }

  /** The event really unlinks it: a detachment that finds Cinder done and the row still there, or the
      removal that the deletion of its server begins with - unless it skips the volume. */
  predicate Unlinks(e: Event, y: System, v: nat, s: nat) {
    && y.tables.Linked(v, s)
    && match e
       case FinishDetachment(i, innerCommits, _) =>
         && i < |y.detachments| && !y.detachments[i].over && y.detachments[i].req.volume == v
         && VolumeSessions.WaitCommits(y.detachments[i].req, innerCommits, y.tables.volumes)
         && Decisive(y.detachments[i].req.seen, VolumeSessions.Detaching, y.detachments[i].req.max) == Some(Sees(AVAILABLE))
       case RunJob(_, _, _, _, _) => Releases(e, y, v, s)
       case _ => false
  }

  /** The exact effect of every event on the links. */
  ghost predicate LinksExactly(e: Event, y: System, v: nat, s: nat) {
    var before, after := y.tables.Linked(v, s), Apply(e, y).tables.Linked(v, s);
    && (!before && after <==> Links(e, y.tables, v, s))
    && (before && !after <==> Unlinks(e, y, v, s))
  }

  lemma LinkChanges(e: Event, y: System, v: nat, s: nat)
    ensures LinksExactly(e, y, v, s)
  {
    if e.RunJob? {
      JobLinks(e, y, v, s);
    } else if e.FinishDetachment? {
      FinishedDetachmentLinks(e, y, v, s);
    } else if e.WatchAttachment? || e.FinishServerCreation? {
      LinkingAndLinks(e, y.tables, v, s);
    } else {
      OthersKeepLinks(e, y, v, s);
    }
  }

  lemma JobLinks(e: Event, y: System, v: nat, s: nat)
    requires e.RunJob?
    ensures LinksExactly(e, y, v, s)
  {
    if e.job < |y.jobs| {
      JobAndLinks(y.jobs[e.job], e, y.tables, y.iteration, v, s);
    }
  }

  lemma FinishedDetachmentLinks(e: Event, y: System, v: nat, s: nat)
    requires e.FinishDetachment?
    ensures LinksExactly(e, y, v, s)
  {
    if e.detachment < |y.detachments| {
      DetachmentAndLinks(y.tables, y.detachments[e.detachment].req, e.innerCommits, e.outerCommits, v, s);
    }
  }

  lemma JobAndLinks(j: Job, e: Event, t: Tables, iteration: Iteration, v: nat, s: nat)
    requires e.RunJob?
    ensures JobStep(j, e, t, iteration).0.Linked(v, s) <==>
              t.Linked(v, s) && !(&& j.stage == Removing && j.server == s && t.LiveServer(s) && e.portsDeleted
                                  && Lists(e.loaded, VolumesOf(t, s)) && v in Released(iteration, e.loaded))
  {
    ReleasedAmong(iteration, e.loaded);
  }

  lemma DetachmentAndLinks(t: Tables, req: VolumeSessions.Detachment, inner: bool, outer: bool, v: nat, s: nat)
    ensures VolumeDetached(t, req, inner, outer).Linked(v, s) <==>
              t.Linked(v, s) && !(&& req.volume == v && VolumeSessions.WaitCommits(req, inner, t.volumes)
                                  && Decisive(req.seen, VolumeSessions.Detaching, req.max) == Some(Sees(AVAILABLE)))
  {}

  lemma LinkingAndLinks(e: Event, t: Tables, v: nat, s: nat)
    requires e.WatchAttachment? || e.FinishServerCreation?
    ensures Commit(e, t).Linked(v, s) <==> t.Linked(v, s) || Links(e, t, v, s)
    ensures Links(e, t, v, s) ==> !t.Linked(v, s)
  {}

  lemma OthersKeepLinks(e: Event, y: System, v: nat, s: nat)
    requires !e.WatchAttachment? && !e.FinishServerCreation? && !e.FinishDetachment? && !e.RunJob?
    ensures Apply(e, y).tables.Linked(v, s) == y.tables.Linked(v, s)
  {}

  /** A root volume, linked from its creation on although AVAILABLE, leaves its server exactly if the
      removal comes to it. */
  lemma RootVolumeStays(e: Event, y: System, v: nat, s: nat)
    requires Inv(y) && y.tables.Linked(v, s) && y.tables.volumes[v].isRoot
    ensures !Apply(e, y).tables.Linked(v, s) <==> Releases(e, y, v, s)
  {
    LinkChanges(e, y, v, s);
  }

  // ---- Links over runs ------------------------------------------------------------------------------

  /** Something is switched on at some point before `n`, and not switched off at any later one. */
  ghost predicate LeftOn(on: nat -> bool, off: nat -> bool, n: nat) {
    exists k: nat :: k < n && on(k) && NeverFrom(off, k + 1, n)
  }

  ghost predicate NeverFrom(off: nat -> bool, from: nat, n: nat) {
    forall j: nat :: from <= j < n ==> !off(j)
  }

  lemma {:induction false} LastSwitch(state: nat -> bool, on: nat -> bool, off: nat -> bool, n: nat)
    requires forall k: nat :: k < n ==> (!state(k) && state(k + 1) <==> on(k))
    requires forall k: nat :: k < n ==> (state(k) && !state(k + 1) <==> off(k))
    ensures state(n) <==> (state(0) && NeverFrom(off, 0, n)) || LeftOn(on, off, n)
    decreases n
  {
    if n == 0 {
    } else {
      LastSwitch(state, on, off, n - 1);
      assert !state(n - 1) && state(n - 1 + 1) <==> on(n - 1);
      assert state(n - 1) && !state(n - 1 + 1) <==> off(n - 1);
      if k: nat :| k < n - 1 && on(k) && NeverFrom(off, k + 1, n - 1) {
        assert !off(n - 1) ==> NeverFrom(off, k + 1, n);
      }
      if k: nat :| k < n && on(k) && NeverFrom(off, k + 1, n) {
        assert k < n - 1 ==> NeverFrom(off, k + 1, n - 1);
      }
      assert on(n - 1) ==> NeverFrom(off, n, n);
    }
  }

  ghost function LinkedAt(events: seq<Event>, y: System, v: nat, s: nat): nat -> bool {
    (k: nat) => k <= |events| && After(events[..k], y).tables.Linked(v, s)
  }

  ghost function LinksAt(events: seq<Event>, y: System, v: nat, s: nat): nat -> bool {
    (k: nat) => k < |events| && Links(events[k], After(events[..k], y).tables, v, s)
  }

  ghost function UnlinksAt(events: seq<Event>, y: System, v: nat, s: nat): nat -> bool {
    (k: nat) => k < |events| && Unlinks(events[k], After(events[..k], y), v, s)
  }

  /** Some event really links the volume to the server, and none after it really unlinks it. */
  ghost predicate LinkedDuring(events: seq<Event>, y: System, v: nat, s: nat) {
    LeftOn(LinksAt(events, y, v, s), UnlinksAt(events, y, v, s), |events|)
  }

  /** Some event really unlinks it. */
  ghost predicate UnlinkedDuring(events: seq<Event>, y: System, v: nat, s: nat) {
    !NeverFrom(UnlinksAt(events, y, v, s), 0, |events|)
  }

  lemma NextState(events: seq<Event>, y: System, n: nat)
    requires n < |events|
    ensures After(events[..n + 1], y) == Apply(events[n], After(events[..n], y))
  {
    assert events[..n + 1][..n] == events[..n];
  }

  /** Which volumes are linked after a run, from the events alone: those linked before it that no event
      unlinks, and those that an event links and no later one unlinks. */
  lemma LinkedIff(events: seq<Event>, y: System, v: nat, s: nat)
    ensures After(events, y).tables.Linked(v, s) <==>
              (y.tables.Linked(v, s) && !UnlinkedDuring(events, y, v, s)) || LinkedDuring(events, y, v, s)
  {
    var linked, on, off := LinkedAt(events, y, v, s), LinksAt(events, y, v, s), UnlinksAt(events, y, v, s);
    forall k: nat | k < |events|
      ensures (!linked(k) && linked(k + 1) <==> on(k)) && (linked(k) && !linked(k + 1) <==> off(k))
    {
      NextState(events, y, k);
      LinkChanges(events[k], After(events[..k], y), v, s);
    }
    LastSwitch(linked, on, off, |events|);
    Endpoints(events, y, v, s);
  }

  lemma Endpoints(events: seq<Event>, y: System, v: nat, s: nat)
    ensures LinkedAt(events, y, v, s)(0) == y.tables.Linked(v, s)
    ensures LinkedAt(events, y, v, s)(|events|) == After(events, y).tables.Linked(v, s)
  {
    assert events[..0] == [] && events[..|events|] == events;
  }

  // ---- Deleting a volume ----------------------------------------------------------------------------

  /** Who deletes volumes: the last step of an accepted deletion, and the last task of a server deletion,
      both only once Cinder has lost the volume. */
  lemma VolumeDeletedIff(e: Event, y: System, v: nat)
    requires y.tables.LiveVolume(v)
    ensures !Apply(e, y).tables.LiveVolume(v) <==>
              || (&& e.FinishVolumeDeletion? && e.deletion < |y.deletions| && !y.deletions[e.deletion].over
                  && y.deletions[e.deletion].volume == v && Decisive(e.stillThere, StillThere, e.max) == Some(Sees(false)))
              || (&& e.RunJob? && e.job < |y.jobs| && y.jobs[e.job].stage == Deleting && y.jobs[e.job].root == Some(v)
                  && Decisive(e.stillThere, StillThere, e.max) == Some(Sees(false)))
  {
    if e.RunJob? {
      if e.job < |y.jobs| { JobAndDeletion(y.jobs[e.job], e, y.tables, y.iteration, v); }
    } else if e.FinishDetachment? {
      if e.detachment < |y.detachments| {
        DetachmentKeepsLive(y.tables, y.detachments[e.detachment].req, e.innerCommits, e.outerCommits, v);
      }
    } else if !e.FinishVolumeDeletion? {
      OthersDeleteNoVolume(e, y.tables, v);
    }
  }

  lemma JobAndDeletion(j: Job, e: Event, t: Tables, iteration: Iteration, v: nat)
    requires e.RunJob? && t.LiveVolume(v)
    ensures !JobStep(j, e, t, iteration).0.LiveVolume(v) <==>
              j.stage == Deleting && j.root == Some(v) && Decisive(e.stillThere, StillThere, e.max) == Some(Sees(false))
  {}

  lemma DetachmentKeepsLive(t: Tables, req: VolumeSessions.Detachment, inner: bool, outer: bool, v: nat)
    requires t.LiveVolume(v)
    ensures VolumeDetached(t, req, inner, outer).LiveVolume(v)
  {}

  lemma OthersDeleteNoVolume(e: Event, t: Tables, v: nat)
    requires t.LiveVolume(v)
    ensures Commit(e, t).LiveVolume(v)
  {}

  /** What `delete_volume` checks before it asks Cinder. */
  predicate Deletable(t: Tables, v: nat) {
    t.LiveVolume(v) && t.volumes[v].DeletionError().None?
  }

  /** The event spoils a deletable volume for its deletion: it begins to be attached, is attached after
      all, ends a detachment or an attachment in some other status, or is deleted by somebody else. */
  predicate Spoils(e: Event, y: System, v: nat) {
    var t := y.tables;
    match e
    case RequestAttachment(project, s, volume) =>
      volume == v && t.LiveServer(s) && t.servers[s].projectId == project && t.LiveVolume(v) && t.volumes[v].projectId == project
    case WatchAttachment(s, volume, seen, max) =>
      && volume == v
      && (match Decisive(seen, Attaching, max)
          case Some(Sees(status)) => if status == IN_USE then t.LiveServer(s) else status !in DELETABLE_STATUSES
          case _ => false)
    case FinishDetachment(i, inner, outer) =>
      && i < |y.detachments| && !y.detachments[i].over && y.detachments[i].req.volume == v
      && VolumeSessions.WaitCommits(y.detachments[i].req, inner, t.volumes)
      && (match Decisive(y.detachments[i].req.seen, VolumeSessions.Detaching, y.detachments[i].req.max)
          case Some(Sees(status)) => if status == AVAILABLE then outer else status !in DELETABLE_STATUSES
          case _ => false)
    case FinishVolumeDeletion(i, stillThere, max) =>
      && i < |y.deletions| && !y.deletions[i].over && y.deletions[i].volume == v
      && Decisive(stillThere, StillThere, max) == Some(Sees(false))
    case RunJob(i, _, _, stillThere, max) =>
      && i < |y.jobs| && y.jobs[i].stage == Deleting && y.jobs[i].root == Some(v)
      && Decisive(stillThere, StillThere, max) == Some(Sees(false))
    case _ => false
  }

  lemma DeletableStep(e: Event, y: System, v: nat)
    requires Deletable(y.tables, v)
    ensures Deletable(Apply(e, y).tables, v) <==> !Spoils(e, y, v)
  {
    if e.RunJob? {
      if e.job < |y.jobs| { JobAndDeletable(y.jobs[e.job], e, y.tables, y.iteration, v); }
    } else if e.FinishDetachment? {
      if e.detachment < |y.detachments| {
        DetachmentAndDeletable(y.tables, y.detachments[e.detachment].req, e.innerCommits, e.outerCommits, v);
      }
    } else if e.WatchAttachment? || e.RequestAttachment? {
      AttachmentAndDeletable(e, y, v);
    } else if !e.FinishVolumeDeletion? {
      OthersKeepDeletable(e, y.tables, v);
    }
  }

  lemma JobAndDeletable(j: Job, e: Event, t: Tables, iteration: Iteration, v: nat)
    requires e.RunJob? && Deletable(t, v)
    ensures Deletable(JobStep(j, e, t, iteration).0, v) <==>
              !(j.stage == Deleting && j.root == Some(v) && Decisive(e.stillThere, StillThere, e.max) == Some(Sees(false)))
  {}

  lemma DetachmentAndDeletable(t: Tables, req: VolumeSessions.Detachment, inner: bool, outer: bool, v: nat)
    requires Deletable(t, v)
    ensures Deletable(VolumeDetached(t, req, inner, outer), v) <==>
              !(&& req.volume == v && VolumeSessions.WaitCommits(req, inner, t.volumes)
                && match Decisive(req.seen, VolumeSessions.Detaching, req.max)
                   case Some(Sees(status)) => if status == AVAILABLE then outer else status !in DELETABLE_STATUSES
                   case _ => false)
  {}

  lemma AttachmentAndDeletable(e: Event, y: System, v: nat)
    requires (e.WatchAttachment? || e.RequestAttachment?) && Deletable(y.tables, v)
    ensures Deletable(Commit(e, y.tables), v) <==> !Spoils(e, y, v)
  {}

  lemma OthersKeepDeletable(e: Event, t: Tables, v: nat)
    requires !e.WatchAttachment? && !e.RequestAttachment? && Deletable(t, v)
    ensures Deletable(Commit(e, t), v)
  {}

  ghost function DeletableAt(events: seq<Event>, y: System, v: nat): nat -> bool {
    (k: nat) => k <= |events| && Deletable(After(events[..k], y).tables, v)
  }

  ghost function SpoilsAt(events: seq<Event>, y: System, v: nat): nat -> bool {
    (k: nat) => k < |events| && Spoils(events[k], After(events[..k], y), v)
  }

  lemma {:induction false} HoldsThroughout(state: nat -> bool, spoils: nat -> bool, n: nat)
    requires state(0) && forall k: nat :: k < n && state(k) ==> (state(k + 1) <==> !spoils(k))
    ensures (forall k: nat :: k <= n ==> state(k)) <==> NeverFrom(spoils, 0, n)
    decreases n
  {
    if n == 0 {
    } else {
      HoldsThroughout(state, spoils, n - 1);
      assert state(n - 1) ==> (state(n - 1 + 1) <==> !spoils(n - 1));
    }
  }

  /** What `delete_volume` checked still holds at every moment of its wait, up to its commit, exactly if
      no transaction in between spoils the volume. */
  lemma StillDeletableIff(events: seq<Event>, y: System, v: nat)
    requires Deletable(y.tables, v)
    ensures (forall k: nat :: k <= |events| ==> DeletableAt(events, y, v)(k)) <==> NeverFrom(SpoilsAt(events, y, v), 0, |events|)
  {
    var state, spoils := DeletableAt(events, y, v), SpoilsAt(events, y, v);
    assert events[..0] == [];
    forall k: nat | k < |events| && state(k) ensures state(k + 1) <==> !spoils(k) {
      NextState(events, y, k);
      DeletableStep(events[k], After(events[..k], y), v);
    }
    HoldsThroughout(state, spoils, |events|);
  }

  /** The deletion's own commit does not look again: what it deletes is linked to a server exactly if an
      attachment during the wait linked it and none of the later events unlinked it. */
  lemma DeletedWhileLinkedIff(y: System, request: Event, between: seq<Event>, finish: Event, s: nat)
    requires Inv(y) && request.RequestVolumeDeletion? && |Apply(request, y).deletions| > |y.deletions|
    requires var y2 := After(between, Apply(request, y));
             && finish.FinishVolumeDeletion? && finish.deletion == |y.deletions| < |y2.deletions|
             && y2.deletions[finish.deletion] == Deletion(request.volume, false)
             && Decisive(finish.stillThere, StillThere, finish.max) == Some(Sees(false))
    ensures var v, y1 := request.volume, Apply(request, y);
            var end := Apply(finish, After(between, y1)).tables;
            && v in end.volumes && end.volumes[v].deleted
            && (end.Linked(v, s) <==> LinkedDuring(between, y1, v, s))
  {
    StepKeepsInv(request, y);
    RunKeepsInv(between, Apply(request, y));
    LinkedIff(between, Apply(request, y), request.volume, s);
  }

  // ---- Server deletion ------------------------------------------------------------------------------

  /** The removal of job `i` has just been committed. */
  ghost predicate RemovedBy(e: Event, y: System, i: nat) {
    && i < |y.jobs| && y.jobs[i].stage == Removing
    && e.RunJob? && e.job == i && Apply(e, y).jobs[i].stage == Waiting
  }

  /** The server of job `i` has just been found gone, and finalized. */
  ghost predicate FinalizedBy(e: Event, y: System, i: nat) {
    && i < |y.jobs| && y.jobs[i].stage == Waiting
    && e.RunJob? && e.job == i && Apply(e, y).jobs[i].stage == Deleting
  }

  /** The volumes of the server of job `i` that its removal does not come to. */
  function SkippedBy(remove: Event, y: System): set<nat>
    requires remove.RunJob?
  {
    Skipped(y.iteration, remove.loaded)
  }

  /** What the removal leaves at once: the volumes it comes to are AVAILABLE and unlinked - over a copy
      of the list all of them, over the list itself every second one, so that others stay exactly if
      there are two or more -, the floating IPs that were on its interfaces are DOWN, and a group that
      only they used can be deleted. */
  lemma RemovalFreesIff(y: System, i: nat, remove: Event)
    requires Inv(y) && RemovedBy(remove, y, i)
    ensures var s, nics := y.jobs[i].server, NicsOf(y.tables, y.jobs[i].server);
            var before, removed, skipped := y.tables, Apply(remove, y).tables, SkippedBy(remove, y);
            && VolumesOf(removed, s) == skipped <= VolumesOf(before, s)
            && (skipped == {} <==> y.iteration == OverCopy || |VolumesOf(before, s)| <= 1)
            && (forall v :: before.Linked(v, s) && v !in skipped ==>
                  removed.volumes[v] == before.volumes[v].(status := AVAILABLE, serverId := None))
            && (forall v :: v in skipped ==> removed.volumes[v] == before.volumes[v])
            && (forall f, n :: before.On(f, n) && n in nics ==>
                  removed.floatingIps[f] == before.floatingIps[f].(status := DOWN, interface := None))
            && (forall g :: removed.GroupUnused(g) <==> forall link :: link in before.links && link.1 == g ==> link.0 in nics)
  {
    var s := y.jobs[i].server;
    assert JobSound(y.jobs[i], y.tables);
    RemovalClearsIff(y.tables, s, y.iteration, remove.loaded, NicsOf(y.tables, s));
    assert Apply(remove, y).tables == Removed(y.tables, Released(y.iteration, remove.loaded), NicsOf(y.tables, s));
  }

  /** The cascade, with any other transactions between its tasks: when the server is finalized it is
      DELETED, its interfaces are deleted and off every group and floating IP - and the volumes still
      linked to it are exactly those that the removal skipped and no transaction in between unlinked,
      and those that one in between really linked and none after it unlinked. */
  lemma Cascade(y: System, i: nat, remove: Event, between: seq<Event>, finalize: Event)
    requires Inv(y) && RemovedBy(remove, y, i)
    requires FinalizedBy(finalize, After(between, Apply(remove, y)), i)
    ensures var s, nics := y.jobs[i].server, NicsOf(y.tables, y.jobs[i].server);
            var end := Apply(finalize, After(between, Apply(remove, y))).tables;
            && s in end.servers && end.servers[s].deleted && end.servers[s].status == ServerStatus.DELETED
            && (forall n :: n in nics ==> n in end.nics && end.nics[n].deleted)
            && (forall link :: link in end.links ==> link.0 !in nics)
            && (forall f, n :: n in nics ==> !end.On(f, n))
            && (forall v :: v in VolumesOf(end, s) <==> StaysLinked(y, remove, between, v, s))
  {
    var s := y.jobs[i].server;
    var y1 := Apply(remove, y);
    StepKeepsInv(remove, y);
    RunKeepsInv(between, y1);
    RunKeepsJobs(between, y1, i);
    Finalized(finalize, After(between, y1), i);
    LinkedSinceRemoval(y, i, remove, between);
  }

  /** The removal skips the volume and no later event unlinks it, or one links it and none after that one
      unlinks it. */
  ghost predicate StaysLinked(y: System, remove: Event, events: seq<Event>, v: nat, s: nat)
    requires remove.RunJob?
  {
    var y1 := Apply(remove, y);
    (v in SkippedBy(remove, y) && !UnlinkedDuring(events, y1, v, s)) || LinkedDuring(events, y1, v, s)
  }

  lemma LinkedSinceRemoval(y: System, i: nat, remove: Event, events: seq<Event>)
    requires Inv(y) && RemovedBy(remove, y, i)
    ensures var s := y.jobs[i].server;
            forall v: nat :: v in VolumesOf(After(events, Apply(remove, y)).tables, s) <==> StaysLinked(y, remove, events, v, s)
  {
    var s, y1 := y.jobs[i].server, Apply(remove, y);
    RemovalFreesIff(y, i, remove);
    forall v: nat ensures v in VolumesOf(After(events, y1).tables, s) <==> StaysLinked(y, remove, events, v, s) {
      LinkedIff(events, y1, v, s);
      assert y1.tables.Linked(v, s) <==> v in VolumesOf(y1.tables, s);
    }
  }

  lemma Finalized(e: Event, y: System, i: nat)
    requires Inv(y) && FinalizedBy(e, y, i)
    ensures var s, end := y.jobs[i].server, Apply(e, y).tables;
            && s in end.servers && end.servers[s].deleted && end.servers[s].status == ServerStatus.DELETED
            && VolumesOf(end, s) == VolumesOf(y.tables, s)
            && (forall n :: n in y.jobs[i].nics ==> n in end.nics && end.nics[n].deleted)
            && (forall link :: link in end.links ==> link.0 !in y.jobs[i].nics)
            && (forall f, n :: n in y.jobs[i].nics ==> !end.On(f, n))
  {
    StepKeepsInv(e, y);
    var end := Apply(e, y).tables;
    assert y.tables.LiveServer(y.jobs[i].server);
    JobAchieved(Apply(e, y), i);
  }

  /** What holds in every state in which the server of a job has been finalized; once the job has
      finished, also of its root volume. */
  lemma JobAchieved(y: System, i: nat)
    requires Inv(y) && i < |y.jobs| && (y.jobs[i].stage == Deleting || y.jobs[i].stage == Finished)
    ensures var t, j := y.tables, y.jobs[i];
            && j.server in t.servers && t.servers[j.server].deleted && t.servers[j.server].status == ServerStatus.DELETED
            && j.nics == NicsOf(t, j.server) && (forall n :: n in j.nics ==> t.nics[n].deleted)
            && (forall link :: link in t.links ==> link.0 !in j.nics)
            && (forall f, n :: n in j.nics ==> !t.On(f, n))
            && (j.stage == Finished ==> j.root.Some? && j.root.value in t.volumes && t.volumes[j.root.value].deleted)
  {
    var t, j := y.tables, y.jobs[i];
    assert JobSound(j, t);
    forall n | n in j.nics ensures t.nics[n].deleted {
      assert n in NicsOf(t, j.server);
    }
  }

  lemma StepKeepsJob(e: Event, y: System, i: nat)
    requires i < |y.jobs|
    ensures i < |Apply(e, y).jobs| && Apply(e, y).jobs[i] == y.jobs[i].(stage := Apply(e, y).jobs[i].stage)
  {}

  /** A job stays the job of its server, interfaces and root volume. */
  lemma {:induction false} RunKeepsJobs(events: seq<Event>, y: System, i: nat)
    requires i < |y.jobs|
    ensures i < |After(events, y).jobs|
    ensures After(events, y).jobs[i] == y.jobs[i].(stage := After(events, y).jobs[i].stage)
    decreases |events|
  {
    if events == [] {
    } else {
      var front := events[..|events| - 1];
      RunKeepsJobs(front, y, i);
      StepKeepsJob(events[|events| - 1], After(front, y), i);
    }
  }

  // ---- After the server is gone ---------------------------------------------------------------------

  /** No detachment of a volume of the server is under way. */
  ghost predicate NoDetachmentOpen(y: System, s: nat) {
    forall i :: 0 <= i < |y.detachments| && !y.detachments[i].over ==> !y.tables.Linked(y.detachments[i].req.volume, s)
  }

  lemma StepFreezes(e: Event, y: System, s: nat)
    requires Inv(y) && s in y.tables.servers && y.tables.servers[s].deleted && NoDetachmentOpen(y, s)
    ensures VolumesOf(Apply(e, y).tables, s) == VolumesOf(y.tables, s) && NoDetachmentOpen(Apply(e, y), s)
  {
    var y' := Apply(e, y);
    forall v: nat ensures y'.tables.Linked(v, s) <==> y.tables.Linked(v, s) {
      LinkChanges(e, y, v, s);
    }
    assert forall v: nat :: v in VolumesOf(y'.tables, s) <==> v in VolumesOf(y.tables, s);
    DetachmentsGrow(e, y, s);
  }

  /** Detachments of a deleted server's volumes are not accepted. */
  lemma DetachmentsGrow(e: Event, y: System, s: nat)
    requires s in y.tables.servers && y.tables.servers[s].deleted
    ensures var y' := Apply(e, y);
            forall i :: 0 <= i < |y'.detachments| && !y'.detachments[i].over ==>
              || (i < |y.detachments| && !y.detachments[i].over && y'.detachments[i].req == y.detachments[i].req)
              || !y.tables.Linked(y'.detachments[i].req.volume, s)
  {}

  /** Once a server is deleted, and the detachments under way are over, its links are out of reach. */
  lemma {:induction false} LinksOfDeletedServersFreeze(events: seq<Event>, y: System, s: nat)
    requires Inv(y) && s in y.tables.servers && y.tables.servers[s].deleted && NoDetachmentOpen(y, s)
    ensures VolumesOf(After(events, y).tables, s) == VolumesOf(y.tables, s) && NoDetachmentOpen(After(events, y), s)
    decreases |events|
  {
    if events == [] {
    } else {
      var front := events[..|events| - 1];
      LinksOfDeletedServersFreeze(front, y, s);
      RunKeepsInv(front, y);
      ServersStayDeleted(front, y, s);
      StepFreezes(events[|events| - 1], After(front, y), s);
    }
  }

  /** Which volumes stay linked to a deleted server, in every continuation: those that no detachment
      still under way unlinks.  None is added. */
  lemma LinksOfDeletedServersIff(events: seq<Event>, y: System, v: nat, s: nat)
    requires Inv(y) && s in y.tables.servers && y.tables.servers[s].deleted
    ensures After(events, y).tables.Linked(v, s) <==> y.tables.Linked(v, s) && !UnlinkedDuring(events, y, v, s)
  {
    LinkedIff(events, y, v, s);
    forall k: nat ensures !LinksAt(events, y, v, s)(k) {
      if k < |events| { ServersStayDeleted(events[..k], y, s); }
    }
  }

  lemma ServersStayDeleted(events: seq<Event>, y: System, s: nat)
    requires Inv(y) && s in y.tables.servers && y.tables.servers[s].deleted
    ensures s in After(events, y).tables.servers && After(events, y).tables.servers[s].deleted
  {
    DeletedServersStay(events, y, s);
  }

  /** Exactly when a deletion frees every volume for good.  From the removal on, through the
      finalization and whatever follows: every volume that the removal skips is unlinked by some
      transaction, and none really links a volume to the server without a later one unlinking it. */
  lemma CascadeFreesIff(y: System, i: nat, remove: Event, events: seq<Event>)
    requires Inv(y) && RemovedBy(remove, y, i)
    ensures var s, y1 := y.jobs[i].server, Apply(remove, y);
            VolumesOf(After(events, y1).tables, s) == {} <==>
              && (forall v :: v in SkippedBy(remove, y) ==> UnlinkedDuring(events, y1, v, s))
              && (forall v: nat :: !LinkedDuring(events, y1, v, s))
  {
    var s, y1 := y.jobs[i].server, Apply(remove, y);
    var left, skipped := VolumesOf(After(events, y1).tables, s), SkippedBy(remove, y);
    LinkedSinceRemoval(y, i, remove, events);
    if left == {} {
      forall v: nat ensures !LinkedDuring(events, y1, v, s) && (v in skipped ==> UnlinkedDuring(events, y1, v, s)) {
        assert v !in left;
      }
    } else {
      var v :| v in left;
      assert StaysLinked(y, remove, events, v, s);
    }
  }

  /** No event really links a volume to the server or unlinks one from it. */
  ghost predicate Undisturbed(events: seq<Event>, y: System, s: nat) {
    forall v: nat, k: nat :: !LinksAt(events, y, v, s)(k) && !UnlinksAt(events, y, v, s)(k)
  }

  /** If nobody else attaches or detaches, a deletion frees every volume exactly if the removal iterates
      over a copy of the list, or the server has at most one volume. */
  lemma UndisturbedCascadeFreesIff(y: System, i: nat, remove: Event, events: seq<Event>)
    requires Inv(y) && RemovedBy(remove, y, i) && Undisturbed(events, Apply(remove, y), y.jobs[i].server)
    ensures var s, end := y.jobs[i].server, After(events, Apply(remove, y)).tables;
            && VolumesOf(end, s) == SkippedBy(remove, y)
            && (VolumesOf(end, s) == {} <==> y.iteration == OverCopy || |VolumesOf(y.tables, s)| <= 1)
  {
    var s, y1 := y.jobs[i].server, Apply(remove, y);
    RemovalFreesIff(y, i, remove);
    LinkedSinceRemoval(y, i, remove, events);
    forall v: nat ensures StaysLinked(y, remove, events, v, s) <==> v in SkippedBy(remove, y) {
      if k: nat :| k < |events| && LinksAt(events, y1, v, s)(k) {}
    }
  }

  /** As written, every second volume of a deleted server stays linked to it, with no attachment in
      between and whatever happens later. */
  lemma SkippedInDeletion(y: System, i: nat, loaded: seq<nat>, k: nat, gone: nat -> Observation<bool>, later: seq<Event>)
    requires Inv(y) && y.iteration == OverList && i < |y.jobs| && y.jobs[i].stage == Removing
    requires y.tables.LiveServer(y.jobs[i].server) && Lists(loaded, VolumesOf(y.tables, y.jobs[i].server))
    requires k < |loaded| && k % 2 == 1
    requires gone(0) == Sees(false) && NoDetachmentOpen(y, y.jobs[i].server)
    ensures var s, remove, finalize := y.jobs[i].server, RunJob(i, loaded, true, gone, 1), RunJob(i, [], true, gone, 1);
            && loaded[k] in y.tables.volumes && loaded[k] in Apply(remove, y).tables.volumes
            && Apply(remove, y).tables.volumes[loaded[k]] == y.tables.volumes[loaded[k]]
            && var end := After(later, After([remove, finalize], y)).tables;
               s in end.servers && end.servers[s].status == ServerStatus.DELETED && end.Linked(loaded[k], s)
  {
    var s, v, remove, finalize := y.jobs[i].server, loaded[k], RunJob(i, loaded, true, gone, 1), RunJob(i, [], true, gone, 1);
    var y1 := Apply(remove, y);
    assert RemovedBy(remove, y, i);
    SkippedIff(loaded);
    RemovalFreesIff(y, i, remove);
    assert v in VolumesOf(y1.tables, s);
    StepKeepsInv(remove, y);
    TwoSteps(remove, finalize, y);
    GoneAtOnce(y1, i, gone, later, v);
  }

  /** A server with a root volume and an attached one. */
  function TwoVolumes(iteration: Iteration): System {
    var server, root, data := ServerRow(7, ACTIVE, false), VolumeRow(7, Some(1), AVAILABLE, 20, true, false),
                              VolumeRow(7, Some(1), IN_USE, 50, false, false);
    System(iteration, Tables(map[1 := server], map[4 := root, 5 := data], map[], map[], {}, map[]),
           [Job(1, {}, Some(4), Removing)], [], [])
  }

  /** Loaded in this order, the attached one stays IN_USE on the deleted server; over a copy it is freed. */
  lemma SecondVolumeStays(gone: nat -> Observation<bool>, iteration: Iteration)
    requires gone(0) == Sees(false)
    ensures Inv(TwoVolumes(iteration))
    ensures var end := After([RunJob(0, [4, 5], true, gone, 1), RunJob(0, [], true, gone, 1)], TwoVolumes(iteration)).tables;
            && 1 in end.servers && end.servers[1].status == ServerStatus.DELETED
            && var rows := TwoVolumes(iteration).tables.volumes;
               end.volumes == map[4 := rows[4].DetachedFromServer(),
                                  5 := if iteration == OverList then rows[5] else rows[5].DetachedFromServer()]
  {
    var y, remove, finalize := TwoVolumes(iteration), RunJob(0, [4, 5], true, gone, 1), RunJob(0, [], true, gone, 1);
    TwoSteps(remove, finalize, y);
    TwoVolumesSound(iteration);
    TwoVolumesRemoved(remove, iteration);
    TwoVolumesFinalized(gone, Apply(remove, y));
    VolumesThen(iteration);
  }

  lemma TwoVolumesFinalized(gone: nat -> Observation<bool>, y: System)
    requires gone(0) == Sees(false) && y.jobs == [Job(1, {}, Some(4), Waiting)] && y.tables.LiveServer(1)
    ensures var t := Apply(RunJob(0, [], true, gone, 1), y).tables;
            && t.volumes == y.tables.volumes
            && 1 in t.servers && t.servers[1].status == ServerStatus.DELETED
  {
    OnePoll(gone, StillThere);
  }

  /** The removal over the list comes to the first volume only. */
  lemma VolumesThen(iteration: Iteration)
    ensures var rows := TwoVolumes(iteration).tables.volumes;
            VolumesReleased(rows, Released(iteration, [4, 5]))
            == map[4 := rows[4].DetachedFromServer(), 5 := if iteration == OverList then rows[5] else rows[5].DetachedFromServer()]
  {
    SecondVolumeSkipped(iteration);
  }

  lemma SecondVolumeSkipped(iteration: Iteration)
    ensures Lists([4, 5], VolumesOf(TwoVolumes(iteration).tables, 1))
    ensures Released(iteration, [4, 5]) == if iteration == OverList then {4} else {4, 5}
  {
    SkippedIff([4, 5]);
    assert [4, 5][0] == 4 && [4, 5][1] == 5;
    assert VolumesOf(TwoVolumes(iteration).tables, 1) == {4, 5} == Elements([4, 5]);
  }

  lemma TwoVolumesRemoved(remove: Event, iteration: Iteration)
    requires remove.RunJob? && remove.job == 0 && remove.loaded == [4, 5] && remove.portsDeleted
    ensures var y, y1 := TwoVolumes(iteration), Apply(remove, TwoVolumes(iteration));
            && y1.jobs == [Job(1, {}, Some(4), Waiting)] && y1.tables.servers == y.tables.servers
            && y1.tables.volumes == VolumesReleased(y.tables.volumes, Released(iteration, [4, 5]))
  {
    SecondVolumeSkipped(iteration);
  }

  lemma TwoVolumesSound(iteration: Iteration)
    ensures Inv(TwoVolumes(iteration))
  {
    var y := TwoVolumes(iteration);
    assert forall f, n :: !y.tables.On(f, n);
  }

  /** The window: nothing stops an attachment between the removal and the finalization, and the volume
      it attaches - any attachable volume of the project - is linked to a deleted server for good. */
  lemma AttachedDuringDeletion(
    y: System, i: nat, v: nat, seen: nat -> Observation<VolumeStatus>, gone: nat -> Observation<bool>, later: seq<Event>)
    requires Inv(y) && i < |y.jobs| && y.jobs[i].stage == Waiting && y.tables.LiveServer(y.jobs[i].server)
    requires y.tables.LiveVolume(v) && y.tables.volumes[v].AttachmentError().None?
    requires y.tables.volumes[v].projectId == y.tables.servers[y.jobs[i].server].projectId
    requires seen(0) == Sees(IN_USE) && gone(0) == Sees(false)
    requires NoDetachmentOpen(y, y.jobs[i].server)
    requires forall d :: 0 <= d < |y.detachments| && !y.detachments[d].over ==> y.detachments[d].req.volume != v
    ensures var s, project := y.jobs[i].server, y.tables.volumes[v].projectId;
            var window := [RequestAttachment(project, s, v), WatchAttachment(s, v, seen, 1), RunJob(i, [], true, gone, 1)];
            var end := After(later, After(window, y)).tables;
            && s in end.servers && end.servers[s].status == ServerStatus.DELETED
            && end.Linked(v, s)
  {
    var s, project := y.jobs[i].server, y.tables.volumes[v].projectId;
    var request, watch, job := RequestAttachment(project, s, v), WatchAttachment(s, v, seen, 1), RunJob(i, [], true, gone, 1);
    Steps(request, watch, job, y);
    RunKeepsInv([request, watch], y);
    Attached(y, s, v, seen);
    assert NoDetachmentOpen(Apply(watch, Apply(request, y)), s);
    GoneAtOnce(Apply(watch, Apply(request, y)), i, gone, later, v);
  }

  /** The same window in a volume deletion: an attachment during the wait is not noticed, and the row
      ends up deleted and linked. */
  lemma AttachedDuringVolumeDeletion(
    y: System, v: nat, s: nat, seen: nat -> Observation<VolumeStatus>, gone: nat -> Observation<bool>)
    requires y.tables.LiveServer(s) && Deletable(y.tables, v)
    requires y.tables.volumes[v].projectId == y.tables.servers[s].projectId
    requires seen(0) == Sees(IN_USE) && gone(0) == Sees(false)
    ensures var project := y.tables.volumes[v].projectId;
            var window := [RequestAttachment(project, s, v), WatchAttachment(s, v, seen, 1),
                           FinishVolumeDeletion(|y.deletions|, gone, 1)];
            var end := After(window, Apply(RequestVolumeDeletion(project, v), y)).tables;
            end.Linked(v, s) && end.volumes[v].deleted
  {
    var project := y.tables.volumes[v].projectId;
    var request, watch := RequestAttachment(project, s, v), WatchAttachment(s, v, seen, 1);
    var finish := FinishVolumeDeletion(|y.deletions|, gone, 1);
    var y1 := Apply(RequestVolumeDeletion(project, v), y);
    Steps(request, watch, finish, y1);
    Attached(y1, s, v, seen);
    OnePoll(gone, StillThere);
    assert y1.deletions[|y.deletions|] == Deletion(v, false);
  }

  lemma Attached(y: System, s: nat, v: nat, seen: nat -> Observation<VolumeStatus>)
    requires y.tables.LiveServer(s) && y.tables.LiveVolume(v) && y.tables.volumes[v].AttachmentError().None?
    requires y.tables.volumes[v].projectId == y.tables.servers[s].projectId
    requires seen(0) == Sees(IN_USE)
    ensures var y' := Apply(WatchAttachment(s, v, seen, 1), Apply(RequestAttachment(y.tables.volumes[v].projectId, s, v), y));
            y' == y.(tables := SetVolume(y.tables, v, y.tables.volumes[v].AttachedTo(s)))
  {
    var row := y.tables.volumes[v];
    OnePoll(seen, Attaching);
    var y1 := Apply(RequestAttachment(row.projectId, s, v), y);
    assert y1.tables.volumes == y.tables.volumes[v := row.(status := ATTACHING)];
    assert y1.tables.volumes[v := row.AttachedTo(s)] == y.tables.volumes[v := row.AttachedTo(s)];
  }

  lemma GoneAtOnce(y: System, i: nat, gone: nat -> Observation<bool>, later: seq<Event>, v: nat)
    requires Inv(y) && i < |y.jobs| && y.jobs[i].stage == Waiting && y.tables.LiveServer(y.jobs[i].server)
    requires y.tables.Linked(v, y.jobs[i].server) && gone(0) == Sees(false)
    requires NoDetachmentOpen(y, y.jobs[i].server)
    ensures var s, end := y.jobs[i].server, After(later, Apply(RunJob(i, [], true, gone, 1), y)).tables;
            s in end.servers && end.servers[s].status == ServerStatus.DELETED && end.Linked(v, s)
  {
    var s, job := y.jobs[i].server, RunJob(i, [], true, gone, 1);
    FinalizedAtOnce(y, i, gone);
    Finalized(job, y, i);
    StepKeepsInv(job, y);
    assert v in VolumesOf(y.tables, s);
    LinksOfDeletedServersFreeze(later, Apply(job, y), s);
    DeletedServersStay(later, Apply(job, y), s);
  }

  lemma FinalizedAtOnce(y: System, i: nat, gone: nat -> Observation<bool>)
    requires i < |y.jobs| && y.jobs[i].stage == Waiting && y.tables.LiveServer(y.jobs[i].server)
    requires gone(0) == Sees(false)
    ensures FinalizedBy(RunJob(i, [], true, gone, 1), y, i)
  {
    OnePoll(gone, StillThere);
  }

  lemma OnePoll<T>(seen: nat -> Observation<T>, isTransient: T -> bool)
    requires !Transient(seen(0), isTransient)
    ensures Decisive(seen, isTransient, 1) == Some(seen(0))
  {
    SettlesUnique(seen, isTransient, 1, 0);
  }

  lemma Steps(a: Event, b: Event, c: Event, y: System)
    ensures After([a, b], y) == Apply(b, Apply(a, y))
    ensures After([a, b, c], y) == Apply(c, Apply(b, Apply(a, y)))
  {
    TwoSteps(a, b, y);
    assert [a, b, c][..2] == [a, b];
  }

  lemma TwoSteps(a: Event, b: Event, y: System)
    ensures After([a, b], y) == Apply(b, Apply(a, y))
  {
    OneStep(a, y);
    assert [a, b][..1] == [a];
  }

  lemma OneStep(a: Event, y: System)
    ensures After([a], y) == Apply(a, y)
  {
    assert [a][..0] == [];
    assert After([], y) == y;
  }
}
