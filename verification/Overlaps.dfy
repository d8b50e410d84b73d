/** Transactions that look rows up, call OpenStack and commit while others commit in between.  In
    `Lifecycle` such a transaction is one step.  Here its lookup stands at the beginning of an
    arbitrary run and its commit, which writes the changed columns only, at the end; for each kind the
    theorem says exactly when the tables are still consistent afterwards. */
module Overlaps {
  import opened Options
  import opened Polling
  import opened Networking
  import opened ServerDeletion
  import opened Lifecycle
  import opened LifecycleRuns
  import TwoStores

  // ---- What happens in between ----------------------------------------------------------------------

  /** No event of the run spoils it. */
  ghost predicate Unspoiled(events: seq<Event>, y: System, spoils: (Event, System) -> bool) {
    NeverFrom(SpoiledAt(events, y, spoils), 0, |events|)
  }

  ghost function SpoiledAt(events: seq<Event>, y: System, spoils: (Event, System) -> bool): nat -> bool {
    (k: nat) => k < |events| && spoils(events[k], After(events[..k], y))
  }

  ghost predicate EndedAt(known: nat -> bool, holds: nat -> bool, spoils: nat -> bool, k: nat) {
    known(k) ==> known(k + 1) && (holds(k + 1) <==> holds(k) && !spoils(k))
  }

  lemma {:induction false} LastsTo(known: nat -> bool, holds: nat -> bool, spoils: nat -> bool, n: nat)
    requires known(0) && forall k: nat :: k < n ==> EndedAt(known, holds, spoils, k)
    ensures known(n) && (holds(n) <==> holds(0) && NeverFrom(spoils, 0, n))
    decreases n
  {
    if n == 0 {
    } else {
      LastsTo(known, holds, spoils, n - 1);
      assert EndedAt(known, holds, spoils, n - 1);
    }
  }

  ghost function At(events: seq<Event>, y: System, holds: System -> bool): nat -> bool {
    (k: nat) => k <= |events| && holds(After(events[..k], y))
  }

  /** In this step, of a state that knows what it is about, it ends exactly if the event spoils it. */
  ghost predicate EndedOnlyBy(known: System -> bool, holds: System -> bool, spoils: (Event, System) -> bool, e: Event, z: System) {
    known(z) ==> known(Apply(e, z)) && (holds(Apply(e, z)) <==> holds(z) && !spoils(e, z))
  }

  /** What only certain events end, and nothing begins again, lasts exactly if none of them happens. */
  lemma LastsIff(events: seq<Event>, y: System, known: System -> bool, holds: System -> bool, spoils: (Event, System) -> bool)
    requires known(y)
    requires forall e, z :: EndedOnlyBy(known, holds, spoils, e, z)
    ensures known(After(events, y)) && (holds(After(events, y)) <==> holds(y) && Unspoiled(events, y, spoils))
  {
    var spoilsAt := SpoiledAt(events, y, spoils);
    forall k: nat | k < |events| ensures EndedAt(At(events, y, known), At(events, y, holds), spoilsAt, k) {
      NextState(events, y, k);
      assert EndedOnlyBy(known, holds, spoils, events[k], After(events[..k], y));
    }
    assert events[..0] == [] && events[..|events|] == events;
    assert After(events[..0], y) == y;
    LastsTo(At(events, y, known), At(events, y, holds), spoilsAt, |events|);
  }

  /** Deletions and detachments of volumes that end here write volumes only. */
  lemma OthersCommit(e: Event, y: System)
    requires !e.RunJob?
    ensures var t, t' := y.tables, Apply(e, y).tables;
            t' == Commit(e, t) || (t' == t.(volumes := t'.volumes) && (e.FinishVolumeDeletion? || e.FinishDetachment?))
  {}

  /** The removal of the resources of the interface's server gets through. */
  predicate DeletesNic(e: Event, y: System, n: nat) {
    && e.RunJob? && e.job < |y.jobs| && y.jobs[e.job].stage == Removing && n in y.jobs[e.job].nics
    && y.tables.LiveServer(y.jobs[e.job].server) && e.portsDeleted
    && Lists(e.loaded, VolumesOf(y.tables, y.jobs[e.job].server))
  }

  lemma NicStep(e: Event, y: System, n: nat)
    requires n in y.tables.nics
    ensures n in Apply(e, y).tables.nics
    ensures Apply(e, y).tables.LiveNic(n) <==> y.tables.LiveNic(n) && !DeletesNic(e, y, n)
  {
    if e.RunJob? {
      if e.job < |y.jobs| { JobAndNic(y.jobs[e.job], e, y.tables, y.iteration, n); }
    } else {
      OthersCommit(e, y);
      CommitKeepsNic(e, y.tables, n);
    }
  }

  lemma JobAndNic(j: Job, e: Event, t: Tables, iteration: Iteration, n: nat)
    requires e.RunJob? && n in t.nics
    ensures var t' := JobStep(j, e, t, iteration).0;
            && n in t'.nics
            && (t'.LiveNic(n) <==>
                  && t.LiveNic(n)
                  && !(&& j.stage == Removing && n in j.nics && t.LiveServer(j.server) && e.portsDeleted
                       && Lists(e.loaded, VolumesOf(t, j.server))))
  {}

  lemma CommitKeepsNic(e: Event, t: Tables, n: nat)
    requires n in t.nics
    ensures n in Commit(e, t).nics && Commit(e, t).nics[n].deleted == t.nics[n].deleted
  {}

  predicate DeletesFloatingIp(e: Event, y: System, f: nat) {
    && e.DeleteFloatingIp? && e.floatingIp == f && f in y.tables.floatingIps
    && y.tables.floatingIps[f].projectId == e.projectId && y.tables.floatingIps[f].interface.None?
  }

  lemma FloatingIpStep(e: Event, y: System, f: nat)
    requires f in y.tables.floatingIps
    ensures f in Apply(e, y).tables.floatingIps
    ensures !Apply(e, y).tables.floatingIps[f].deleted <==> !y.tables.floatingIps[f].deleted && !DeletesFloatingIp(e, y, f)
  {
    if e.RunJob? {
      if e.job < |y.jobs| { JobKeepsFloatingIp(y.jobs[e.job], e, y.tables, y.iteration, f); }
    } else {
      OthersCommit(e, y);
      if e.ChangeFloatingIp? || e.DeleteFloatingIp? {
        CommitAndFloatingIp(e, y.tables, f);
      } else {
        CommitKeepsFloatingIps(e, y.tables);
      }
    }
  }

  lemma JobKeepsFloatingIp(j: Job, e: Event, t: Tables, iteration: Iteration, f: nat)
    requires e.RunJob? && f in t.floatingIps
    ensures var t' := JobStep(j, e, t, iteration).0;
            f in t'.floatingIps && t'.floatingIps[f].deleted == t.floatingIps[f].deleted
  {}

  lemma CommitAndFloatingIp(e: Event, t: Tables, f: nat)
    requires (e.ChangeFloatingIp? || e.DeleteFloatingIp?) && f in t.floatingIps
    ensures f in Commit(e, t).floatingIps
    ensures !Commit(e, t).floatingIps[f].deleted <==>
              && !t.floatingIps[f].deleted
              && !(&& e.DeleteFloatingIp? && e.floatingIp == f && t.floatingIps[f].projectId == e.projectId
                   && t.floatingIps[f].interface.None?)
  {}

  lemma CommitKeepsFloatingIps(e: Event, t: Tables)
    requires !e.ChangeFloatingIp? && !e.DeleteFloatingIp?
    ensures Commit(e, t).floatingIps == t.floatingIps
  {}

  /** A deletion job finds the server gone. */
  predicate FinalizesServer(e: Event, y: System, s: nat) {
    && e.RunJob? && e.job < |y.jobs| && y.jobs[e.job].server == s && y.jobs[e.job].stage == Waiting
    && Decisive(e.stillThere, StillThere, e.max) == Some(Sees(false))
  }

  lemma ServerStep(e: Event, y: System, s: nat)
    requires s in y.tables.servers
    ensures s in Apply(e, y).tables.servers
    ensures Apply(e, y).tables.LiveServer(s) <==> y.tables.LiveServer(s) && !FinalizesServer(e, y, s)
  {
    if e.RunJob? {
      if e.job < |y.jobs| { JobAndServer(y.jobs[e.job], e, y.tables, y.iteration, s); }
    } else {
      OthersKeepServer(e, y, s);
    }
  }

  lemma JobAndServer(j: Job, e: Event, t: Tables, iteration: Iteration, s: nat)
    requires e.RunJob? && s in t.servers
    ensures var t' := JobStep(j, e, t, iteration).0;
            && s in t'.servers
            && (t'.LiveServer(s) <==>
                  && t.LiveServer(s)
                  && !(j.server == s && j.stage == Waiting && Decisive(e.stillThere, StillThere, e.max) == Some(Sees(false))))
  {}

  lemma OthersKeepServer(e: Event, y: System, s: nat)
    requires !e.RunJob? && s in y.tables.servers
    ensures s in Apply(e, y).tables.servers && (Apply(e, y).tables.LiveServer(s) <==> y.tables.LiveServer(s))
  {
    OthersCommit(e, y);
    if e.CreateServer? || e.FinishServerCreation? || e.WatchStart? || e.WatchStop? {
      CommitKeepsServer(e, y.tables, s);
    } else {
      OthersLeaveServers(e, y.tables);
    }
  }

  lemma CommitKeepsServer(e: Event, t: Tables, s: nat)
    requires (e.CreateServer? || e.FinishServerCreation? || e.WatchStart? || e.WatchStop?) && s in t.servers
    ensures s in Commit(e, t).servers && (Commit(e, t).LiveServer(s) <==> t.LiveServer(s))
  {}

  predicate DeletesGroup(e: Event, y: System, g: nat) {
    && e.DeleteGroup? && e.group == g && g in y.tables.groups
    && y.tables.groups[g].projectId == e.projectId && y.tables.GroupUnused(g)
  }

  lemma GroupStep(e: Event, y: System, g: nat)
    requires g in y.tables.groups
    ensures g in Apply(e, y).tables.groups
    ensures Apply(e, y).tables.LiveGroup(g) <==> y.tables.LiveGroup(g) && !DeletesGroup(e, y, g)
  {
    if e.RunJob? {
      if e.job < |y.jobs| { JobKeepsGroups(y.jobs[e.job], e, y.tables, y.iteration); }
    } else {
      OthersCommit(e, y);
      CommitAndGroup(e, y.tables, g);
    }
  }

  lemma JobKeepsGroups(j: Job, e: Event, t: Tables, iteration: Iteration)
    requires e.RunJob?
    ensures JobStep(j, e, t, iteration).0.groups == t.groups
  {}

  lemma CommitAndGroup(e: Event, t: Tables, g: nat)
    requires g in t.groups
    ensures g in Commit(e, t).groups
    ensures Commit(e, t).LiveGroup(g) <==>
              && t.LiveGroup(g)
              && !(e.DeleteGroup? && e.group == g && t.groups[g].projectId == e.projectId && t.GroupUnused(g))
  {}

  // ---- Attaching a floating IP ----------------------------------------------------------------------

  function AttachmentCommitted(t: Tables, f: nat, n: nat): Tables
    requires f in t.floatingIps
  {
    t.(floatingIps := t.floatingIps[f := t.floatingIps[f].AttachedTo(n)])
  }

  /** An attachment that others overlap: the floating IP ends up on the interface, UP.  The tables are
      consistent exactly if in the meantime neither the interface has been removed with its server
      nor the floating IP deleted. */
  lemma AttachmentOverlapIff(y: System, project: nat, f: nat, n: nat, between: seq<Event>)
    requires Inv(y) && TwoStores.Allowed(TwoStores.AttachFloatingIp(project, f, n), NetworkView(y.tables))
    requires forall g :: g != f ==> !After(between, y).tables.On(g, n)
    ensures var t := After(between, y).tables;
            && f in t.floatingIps
            && var t' := AttachmentCommitted(t, f, n);
               && t'.On(f, n) && t'.floatingIps[f].status == UP
               && (TablesConsistent(t') <==>
                     && Unspoiled(between, y, (e, z) => DeletesNic(e, z, n))
                     && Unspoiled(between, y, (e, z) => DeletesFloatingIp(e, z, f)))
  {
    assert n in NetworkView(y.tables).interfaces && f in TwoStores.Live(NetworkView(y.tables).floatingIps);
    NicLasts(between, y, n);
    FloatingIpLasts(between, y, f);
    RunKeepsInv(between, y);
    var t := After(between, y).tables;
    var t' := AttachmentCommitted(t, f, n);
    assert t'.On(f, n);
    if t.LiveNic(n) && !t.floatingIps[f].deleted {
      FloatingIpRowChange(t, f, t'.floatingIps[f]);
    }
  }

  lemma NicLasts(events: seq<Event>, y: System, n: nat)
    requires y.tables.LiveNic(n)
    ensures After(events, y).tables.LiveNic(n) <==> Unspoiled(events, y, (e, z) => DeletesNic(e, z, n))
  {
    var known, holds, spoils := (z: System) => n in z.tables.nics, (z: System) => z.tables.LiveNic(n), (e, z) => DeletesNic(e, z, n);
    forall e, z ensures EndedOnlyBy(known, holds, spoils, e, z) {
      if known(z) { NicStep(e, z, n); }
    }
    LastsIff(events, y, known, holds, spoils);
  }

  lemma FloatingIpLasts(events: seq<Event>, y: System, f: nat)
    requires f in y.tables.floatingIps && !y.tables.floatingIps[f].deleted
    ensures f in After(events, y).tables.floatingIps
    ensures !After(events, y).tables.floatingIps[f].deleted <==> Unspoiled(events, y, (e, z) => DeletesFloatingIp(e, z, f))
  {
    var known, spoils := (z: System) => f in z.tables.floatingIps, (e, z) => DeletesFloatingIp(e, z, f);
    var holds := (z: System) => f in z.tables.floatingIps && !z.tables.floatingIps[f].deleted;
    forall e, z ensures EndedOnlyBy(known, holds, spoils, e, z) {
      if known(z) { FloatingIpStep(e, z, f); }
    }
    LastsIff(events, y, known, holds, spoils);
  }

  /** A detachment cannot be overtaken: whatever it overlaps, the tables stay consistent. */
  lemma DetachmentOverlaps(y: System, f: nat, between: seq<Event>)
    requires Inv(y) && f in After(between, y).tables.floatingIps
    ensures var t := After(between, y).tables;
            TablesConsistent(t.(floatingIps := t.floatingIps[f := t.floatingIps[f].Detached()]))
  {
    RunKeepsInv(between, y);
    var t := After(between, y).tables;
    FloatingIpRowChange(t, f, t.floatingIps[f].Detached());
  }

  // ---- Server status --------------------------------------------------------------------------------

  /** A status other than DELETED, written to a server that was live at the lookup: it is the status
      of a deleted server exactly if a deletion job finalized the server in the meantime. */
  lemma StatusOverlapIff(y: System, s: nat, status: ServerStatus, between: seq<Event>)
    requires Inv(y) && y.tables.LiveServer(s) && status != ServerStatus.DELETED
    ensures var t := After(between, y).tables;
            && s in t.servers
            && (TablesConsistent(SetServer(t, s, t.servers[s].(status := status))) <==>
                  Unspoiled(between, y, (e, z) => FinalizesServer(e, z, s)))
  {
    ServerLasts(between, y, s);
    RunKeepsInv(between, y);
    var t := After(between, y).tables;
    if t.LiveServer(s) {
      ServerRowChange(t, s, t.servers[s].(status := status));
    } else {
      assert SetServer(t, s, t.servers[s].(status := status)).servers[s].deleted;
    }
  }

  lemma ServerLasts(events: seq<Event>, y: System, s: nat)
    requires y.tables.LiveServer(s)
    ensures s in After(events, y).tables.servers
    ensures After(events, y).tables.LiveServer(s) <==> Unspoiled(events, y, (e, z) => FinalizesServer(e, z, s))
  {
    var known, holds, spoils :=
      (z: System) => s in z.tables.servers, (z: System) => z.tables.LiveServer(s), (e, z) => FinalizesServer(e, z, s);
    forall e, z ensures EndedOnlyBy(known, holds, spoils, e, z) {
      if known(z) { ServerStep(e, z, s); }
    }
    LastsIff(events, y, known, holds, spoils);
  }

  /** The finalization itself looks its server up before it polls Nova, and may be overlapped by
      anything: the interfaces stay deleted, so the tables stay consistent. */
  lemma FinalizationOverlaps(y: System, i: nat, between: seq<Event>)
    requires Inv(y) && i < |y.jobs| && y.jobs[i].stage == Waiting
    ensures var t, s := After(between, y).tables, y.jobs[i].server;
            s in t.servers && TablesConsistent(SetServer(t, s, t.servers[s].(status := ServerStatus.DELETED, deleted := true)))
  {
    var s := y.jobs[i].server;
    RunKeepsInv(between, y);
    RunMonotone(between, y);
    var t := After(between, y).tables;
    assert NicsOf(t, s) == NicsOf(y.tables, s);
    ServerRowChange(t, s, t.servers[s].(status := ServerStatus.DELETED, deleted := true));
  }

  lemma {:induction false} RunMonotone(events: seq<Event>, y: System)
    requires Inv(y)
    ensures Monotone(y.tables, After(events, y).tables)
    decreases |events|
  {
    if events == [] {
    } else {
      var front := events[..|events| - 1];
      RunMonotone(front, y);
      RunKeepsInv(front, y);
      StepKeepsInv(events[|events| - 1], After(front, y));
    }
  }

  // ---- Creating a server ----------------------------------------------------------------------------

  /** The rows a server creation inserts, with the groups it found at its beginning. */
  function CreationCommitted(t: Tables, project: nat, server: nat, nic: nat, groups: set<nat>): Tables {
    t.(servers := t.servers[server := ServerRow(project, BUILD, false)],
       nics := t.nics[nic := NicRow(project, Some(server), false)],
       links := t.links + set g | g in groups :: (nic, g))
  }

  /** A server creation calls Neutron and Nova between finding the groups and linking them.  Its link
      rows join live rows exactly if none of the groups has been deleted in the meantime. */
  lemma CreationOverlapIff(y: System, project: nat, server: nat, nic: nat, groups: set<nat>, between: seq<Event>)
    requires Inv(y) && forall g :: g in groups ==> y.tables.LiveGroup(g)
    requires server !in After(between, y).tables.servers && nic !in After(between, y).tables.nics
    ensures TablesConsistent(CreationCommitted(After(between, y).tables, project, server, nic, groups)) <==>
              forall g :: g in groups ==> Unspoiled(between, y, (e, z) => DeletesGroup(e, z, g))
  {
    RunKeepsInv(between, y);
    var t := After(between, y).tables;
    var t' := CreationCommitted(t, project, server, nic, groups);
    forall g | g in groups
      ensures t.LiveGroup(g) <==> Unspoiled(between, y, (e, z) => DeletesGroup(e, z, g))
    {
      GroupLasts(between, y, g);
    }
    CreationConsistentIff(t, project, server, nic, groups);
  }

  lemma GroupLasts(events: seq<Event>, y: System, g: nat)
    requires y.tables.LiveGroup(g)
    ensures After(events, y).tables.LiveGroup(g) <==> Unspoiled(events, y, (e, z) => DeletesGroup(e, z, g))
  {
    var known, holds, spoils :=
      (z: System) => g in z.tables.groups, (z: System) => z.tables.LiveGroup(g), (e, z) => DeletesGroup(e, z, g);
    forall e, z ensures EndedOnlyBy(known, holds, spoils, e, z) {
      if known(z) { GroupStep(e, z, g); }
    }
    LastsIff(events, y, known, holds, spoils);
  }

  lemma CreationConsistentIff(t: Tables, project: nat, server: nat, nic: nat, groups: set<nat>)
    requires TablesConsistent(t) && server !in t.servers && nic !in t.nics
    ensures TablesConsistent(CreationCommitted(t, project, server, nic, groups)) <==> forall g :: g in groups ==> t.LiveGroup(g)
  {
    var t' := CreationCommitted(t, project, server, nic, groups);
    forall g | g in groups ensures (nic, g) in t'.links {}
    assert forall f, n :: t'.On(f, n) ==> t.On(f, n);
    if TablesConsistent(t') {
      forall g | g in groups ensures t.LiveGroup(g) { assert (nic, g) in t'.links; }
    }
  }
}
