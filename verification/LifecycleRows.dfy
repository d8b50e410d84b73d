/** Where rows come from and whose they are: which transactions insert servers, interfaces and volumes,
    with which columns; that links and floating IPs never cross projects; and what becomes of the root
    volume that a server creation inserts. */
module LifecycleRows {
  import opened Options
  import opened Volumes
  import opened Polling
  import opened PollingOutcomes
  import opened Networking
  import opened ServerDeletion
  import opened Lifecycle
  import opened LifecycleRuns
  import TwoStores
  import VolumeSessions

  // ---- Insertions -----------------------------------------------------------------------------------

  /** Every group found is the requester's, so that the server may use it. */
  predicate GroupsUsable(t: Tables, groups: set<nat>, project: nat) {
    forall g :: g in groups && g in t.groups && !t.groups[g].deleted ==> t.groups[g].projectId == project
  }

  /** A server appears exactly by a creation whose groups are all of its project; with it one interface of
      the same project, linked to exactly the live groups asked for. */
  lemma ServerInserted(e: Event, y: System, s: nat)
    requires s !in y.tables.servers
    ensures s in Apply(e, y).tables.servers <==>
              e.CreateServer? && e.server == s && e.nic !in y.tables.nics && GroupsUsable(y.tables, e.groups, e.projectId)
    ensures s in Apply(e, y).tables.servers ==>
              var t, t' := y.tables, Apply(e, y).tables;
              && t'.servers == t.servers[s := ServerRow(e.projectId, BUILD, false)]
              && t'.nics == t.nics[e.nic := NicRow(e.projectId, Some(s), false)]
              && (forall link :: link in t'.links <==>
                    link in t.links || (link.0 == e.nic && link.1 in e.groups && link.1 in t.groups && !t.groups[link.1].deleted))
              && t'.volumes == t.volumes && t'.floatingIps == t.floatingIps && t'.groups == t.groups
  {}

  /** The server creation finds Nova done at poll `k`, and the root volume's row is a new one. */
  ghost predicate ComesToItsRoot(e: Event, t: Tables, k: nat) {
    && e.FinishServerCreation? && BuildsUntil(e.os, e.max, k) && k < e.max && e.os(k).Sees?
    && e.os(k).value.status == ACTIVE && e.os(k).value.volumeIds != []
    && e.server in t.servers && !t.servers[e.server].deleted && e.newVolume !in t.volumes
  }

  /** A volume appears exactly by a volume creation - CREATING, on no server - or as the root volume of a
      server whose creation has come to an end, of the server's project and on it from the start. */
  lemma VolumeInserted(e: Event, y: System, v: nat, k: nat)
    requires v !in y.tables.volumes && (e.FinishServerCreation? ==> BuildsUntil(e.os, e.max, k))
    ensures v in Apply(e, y).tables.volumes <==>
              (e.CreateVolume? && e.volume == v) || (ComesToItsRoot(e, y.tables, k) && e.newVolume == v)
    ensures e.CreateVolume? && e.volume == v ==>
              Apply(e, y).tables == y.tables.(volumes := y.tables.volumes[v := VolumeRow(e.projectId, None, CREATING, e.size, false, false)])
    ensures ComesToItsRoot(e, y.tables, k) && e.newVolume == v ==>
              var server := y.tables.servers[e.server];
              Apply(e, y).tables == y.tables.(
                servers := y.tables.servers[e.server := ServerRow(server.projectId, ACTIVE, false)],
                volumes := y.tables.volumes[v := VolumeRow(server.projectId, Some(e.server), AVAILABLE, e.size, true, false)])
  {
    if e.FinishServerCreation? {
      if y.tables.LiveServer(e.server) {
        CreatingServer(e.os, y.tables.servers[e.server], e.server, e.size, e.max, 0, k);
      }
    } else {
      OthersInsertNoVolume(e, y, v);
    }
  }

  lemma OthersInsertNoVolume(e: Event, y: System, v: nat)
    requires !e.FinishServerCreation? && v !in y.tables.volumes
    ensures v in Apply(e, y).tables.volumes <==> e.CreateVolume? && e.volume == v
  {}

  /** The volume that a server creation inserts is a root volume: whatever happens later, it never leaves
      a server but through a removal that comes to it. */
  lemma RootVolumeNeverDetached(e: Event, y: System, k: nat, events: seq<Event>, n: nat, s: nat)
    requires Inv(y) && ComesToItsRoot(e, y.tables, k) && n < |events|
    ensures var v, before, after := e.newVolume, After(events[..n], Apply(e, y)), After(events[..n + 1], Apply(e, y));
            before.tables.Linked(v, s) && !after.tables.Linked(v, s) ==> Releases(events[n], before, v, s)
    ensures Apply(e, y).tables.Linked(e.newVolume, e.server)
  {
    var v := e.newVolume;
    VolumeInserted(e, y, v, k);
    StepKeepsInv(e, y);
    RunKeepsInv(events[..n], Apply(e, y));
    RunKeepsVolumes(events[..n], Apply(e, y));
    NextState(events, Apply(e, y), n);
    var before := After(events[..n], Apply(e, y));
    if before.tables.Linked(v, s) {
      RootVolumeStays(events[n], before, v, s);
    }
  }

  lemma {:induction false} RunKeepsVolumes(events: seq<Event>, y: System)
    requires Inv(y)
    ensures VolumesPersist(y.tables, After(events, y).tables)
    decreases |events|
  {
    if events == [] {
    } else {
      var front := events[..|events| - 1];
      RunKeepsVolumes(front, y);
      RunKeepsInv(front, y);
      StepKeepsInv(events[|events| - 1], After(front, y));
    }
  }

  // ---- Requests -------------------------------------------------------------------------------------

  /** A server deletion is accepted exactly from the server's project while the server is live; it notes
      all its interfaces, and a root volume exactly if one is linked to it. */
  lemma DeletionRequested(e: Event, y: System)
    requires e.RequestServerDeletion?
    ensures var t, y' := y.tables, Apply(e, y);
            var accepted := && e.server in t.servers && !t.servers[e.server].deleted && t.servers[e.server].projectId == e.projectId
                            && (e.root == None ==> forall v :: v in t.volumes && t.volumes[v].serverId == Some(e.server) ==> !t.volumes[v].isRoot)
                            && (e.root != None ==> && e.root.value in t.volumes && t.volumes[e.root.value].serverId == Some(e.server)
                                                   && t.volumes[e.root.value].isRoot);
            && (!accepted ==> y' == y)
            && (accepted ==> |y'.jobs| == |y.jobs| + 1
                             && var job := y'.jobs[|y.jobs|];
                                && job.server == e.server && job.root == e.root && job.stage == Removing
                                && (forall n :: n in job.nics <==> n in t.nics && t.nics[n].server == Some(e.server))
                                && y' == y.(jobs := y.jobs + [job]))
  {}

  /** Who may start what with a volume, and what is committed before OpenStack has done it. */
  lemma VolumeRequested(e: Event, y: System)
    ensures e.RequestAttachment? ==>
              var t, v := y.tables, e.volume;
              Apply(e, y) ==
                if && e.server in t.servers && !t.servers[e.server].deleted && t.servers[e.server].projectId == e.projectId
                   && v in t.volumes && !t.volumes[v].deleted && t.volumes[v].projectId == e.projectId
                   && t.volumes[v].status != IN_USE && t.volumes[v].serverId == None
                then y.(tables := t.(volumes := t.volumes[v := t.volumes[v].(status := ATTACHING)])) else y
    ensures e.RequestVolumeDeletion? ==>
              var t, v := y.tables, e.volume;
              Apply(e, y) ==
                if && v in t.volumes && !t.volumes[v].deleted && t.volumes[v].projectId == e.projectId && t.volumes[v].serverId == None
                   && t.volumes[v].status in {AVAILABLE, ERROR, ERROR_RESTORING, ERROR_EXTENDING}
                then y.(deletions := y.deletions + [Deletion(v, false)]) else y
    ensures e.RequestDetachment? ==>
              var t, v := y.tables, e.req.volume;
              Apply(e, y) ==
                if && v in t.volumes && !t.volumes[v].deleted && t.volumes[v].projectId == e.req.projectId
                   && t.volumes[v].serverId == Some(e.req.server) && t.volumes[v].status == IN_USE && !t.volumes[v].isRoot
                   && e.req.server in t.servers && !t.servers[e.req.server].deleted && e.req.novaAnswers
                then y.(detachments := y.detachments + [Detachment(e.req, false)]) else y
  {}

  /** The statuses that the waits of a server, or of a volume being created, commit. */
  lemma StatusCommitted(e: Event, y: System, k: nat)
    ensures e.WatchStart? && FirstOther(e.status, {SHUTOFF, ServerStatus.FAULTY}, e.max, k) ==>
              Apply(e, y) ==
                if e.server in y.tables.servers && !y.tables.servers[e.server].deleted && k < e.max && e.status(k) == Sees(ACTIVE)
                then y.(tables := SetServer(y.tables, e.server, y.tables.servers[e.server].(status := ACTIVE))) else y
    ensures e.WatchStop? && FirstOther(e.status, {ACTIVE}, e.max, k) ==>
              Apply(e, y) ==
                if e.server in y.tables.servers && !y.tables.servers[e.server].deleted && k < e.max && e.status(k) == Sees(SHUTOFF)
                then y.(tables := SetServer(y.tables, e.server, y.tables.servers[e.server].(status := SHUTOFF))) else y
    ensures e.SyncVolume? && FirstOther(e.seen, {CREATING, DOWNLOADING}, e.max, k) ==>
              Apply(e, y) ==
                if e.volume !in y.tables.volumes || y.tables.volumes[e.volume].deleted || (k < e.max && e.seen(k) == Raises) then y
                else y.(tables := SetVolume(y.tables, e.volume, y.tables.volumes[e.volume].(
                       status := if k < e.max && e.seen(k) == Sees(AVAILABLE) then AVAILABLE else ERROR)))
  {
    if e.WatchStart? && FirstOther(e.status, {SHUTOFF, ServerStatus.FAULTY}, e.max, k) {
      if y.tables.LiveServer(e.server) { StartingServer(e.status, y.tables.servers[e.server], e.max, 0, k); }
      SameRowsSame(y.tables, e.server);
    }
    if e.WatchStop? && FirstOther(e.status, {ACTIVE}, e.max, k) {
      if y.tables.LiveServer(e.server) { StoppingServer(e.status, y.tables.servers[e.server], e.max, 0, k); }
      SameRowsSame(y.tables, e.server);
    }
    if e.SyncVolume? && FirstOther(e.seen, {CREATING, DOWNLOADING}, e.max, k) {
      if y.tables.LiveVolume(e.volume) {
        CreatingVolume(e.seen, y.tables.volumes[e.volume], e.max, 0, k);
        assert y.tables.volumes[e.volume := y.tables.volumes[e.volume]] == y.tables.volumes;
      }
    }
  }

  lemma SameRowsSame(t: Tables, s: nat)
    ensures s in t.servers ==> t.servers[s := t.servers[s]] == t.servers
  {}

  // ---- Projects -------------------------------------------------------------------------------------

  /** Nothing crosses projects: a link row joins an interface and a group of one project, an interface is
      in its server's project, and a floating IP is on an interface of its own project. */
  ghost predicate WithinProjects(t: Tables) {
    && (forall link :: link in t.links ==>
          link.0 in t.nics && link.1 in t.groups && t.nics[link.0].projectId == t.groups[link.1].projectId)
    && (forall n :: n in t.nics && t.nics[n].server.Some? ==>
          t.nics[n].server.value in t.servers && t.servers[t.nics[n].server.value].projectId == t.nics[n].projectId)
    && (forall f, n :: t.On(f, n) ==> n in t.nics && t.nics[n].projectId == t.floatingIps[f].projectId)
  }

  /** Rows never change hands. */
  ghost predicate OwnersStay(t: Tables, t': Tables) {
    && (forall s :: s in t.servers ==> s in t'.servers && t'.servers[s].projectId == t.servers[s].projectId)
    && (forall n :: n in t.nics ==> n in t'.nics && t'.nics[n].projectId == t.nics[n].projectId && t'.nics[n].server == t.nics[n].server)
    && (forall g :: g in t.groups ==> g in t'.groups && t'.groups[g].projectId == t.groups[g].projectId)
    && (forall v :: v in t.volumes ==> v in t'.volumes && t'.volumes[v].projectId == t.volumes[v].projectId)
    && (forall f :: f in t.floatingIps ==> f in t'.floatingIps && t'.floatingIps[f].projectId == t.floatingIps[f].projectId)
  }

  lemma StepKeepsProjects(e: Event, y: System)
    requires WithinProjects(y.tables)
    ensures WithinProjects(Apply(e, y).tables) && OwnersStay(y.tables, Apply(e, y).tables)
  {
    if e.RunJob? {
      if e.job < |y.jobs| { JobKeepsProjects(y.jobs[e.job], e, y.tables, y.iteration); }
    } else if e.CreateServer? {
      CreationKeepsProjects(e, y.tables);
    } else if e.ChangeFloatingIp? || e.DeleteFloatingIp? {
      FloatingIpsKeepProjects(e, y.tables);
    } else {
      OthersKeepProjects(e, y);
    }
  }

  lemma JobKeepsProjects(j: Job, e: Event, t: Tables, iteration: Iteration)
    requires e.RunJob? && WithinProjects(t)
    ensures var t' := JobStep(j, e, t, iteration).0; WithinProjects(t') && OwnersStay(t, t')
  {
    var t' := JobStep(j, e, t, iteration).0;
    if j.stage == Removing {
      if t' != t { RemovalKeepsProjects(t, Released(iteration, e.loaded), j.nics); }
    } else {
      assert t'.nics == t.nics && t'.links == t.links && t'.floatingIps == t.floatingIps && t'.groups == t.groups;
      assert forall f, n :: t'.On(f, n) ==> t.On(f, n);
    }
  }

  lemma RemovalKeepsProjects(t: Tables, released: set<nat>, nics: set<nat>)
    requires WithinProjects(t)
    ensures var t' := Removed(t, released, nics); WithinProjects(t') && OwnersStay(t, t')
  {
    var t' := Removed(t, released, nics);
    assert t'.links <= t.links && t'.groups == t.groups && t'.servers == t.servers;
    assert forall f, n :: t'.On(f, n) ==> t.On(f, n);
  }

  lemma CreationKeepsProjects(e: Event, t: Tables)
    requires e.CreateServer? && WithinProjects(t)
    ensures WithinProjects(Commit(e, t)) && OwnersStay(t, Commit(e, t))
  {
    var t' := Commit(e, t);
    assert forall f, n :: t'.On(f, n) ==> t.On(f, n);
  }

  lemma FloatingIpsKeepProjects(e: Event, t: Tables)
    requires (e.ChangeFloatingIp? || e.DeleteFloatingIp?) && WithinProjects(t)
    ensures WithinProjects(Commit(e, t)) && OwnersStay(t, Commit(e, t))
  {
    if e.DeleteFloatingIp? {
      DeletionKeepsProjects(e, t);
    } else {
      ChangeKeepsProjects(e.change, t);
    }
  }

  lemma DeletionKeepsProjects(e: Event, t: Tables)
    requires e.DeleteFloatingIp? && WithinProjects(t)
    ensures WithinProjects(Commit(e, t)) && OwnersStay(t, Commit(e, t))
  {
    var t' := Commit(e, t);
    DeletionOnlyMarks(e, t);
    assert forall f, n :: t'.On(f, n) ==> t.On(f, n);
  }

  lemma DeletionOnlyMarks(e: Event, t: Tables)
    requires e.DeleteFloatingIp?
    ensures var t' := Commit(e, t);
            && t' == t.(floatingIps := t'.floatingIps) && t'.floatingIps.Keys == t.floatingIps.Keys
            && forall f :: f in t.floatingIps ==> t'.floatingIps[f] == t.floatingIps[f].(deleted := t'.floatingIps[f].deleted)
  {}

  lemma ChangeKeepsProjects(change: TwoStores.Request, t: Tables)
    requires WithinProjects(t)
    ensures WithinProjects(FloatingIpChanged(change, t)) && OwnersStay(t, FloatingIpChanged(change, t))
  {
    var t' := FloatingIpChanged(change, t);
    if t' != t {
      var f := if change.CreateFloatingIp? then change.newId else change.floatingIp;
      assert t' == t.(floatingIps := t.floatingIps[f := t'.floatingIps[f]]);
      assert forall g, n :: g != f && t'.On(g, n) ==> t.On(g, n);
      assert forall n: nat :: t'.On(f, n) ==> n in t.nics && t.nics[n].projectId == t'.floatingIps[f].projectId;
      assert f in t.floatingIps ==> t'.floatingIps[f].projectId == t.floatingIps[f].projectId;
    }
  }

  lemma OthersKeepProjects(e: Event, y: System)
    requires WithinProjects(y.tables)
    requires !e.RunJob? && !e.CreateServer? && !e.ChangeFloatingIp? && !e.DeleteFloatingIp?
    ensures WithinProjects(Apply(e, y).tables) && OwnersStay(y.tables, Apply(e, y).tables)
  {
    var t, t' := y.tables, Apply(e, y).tables;
    OnlyRows(e, y);
    assert forall f, n :: t'.On(f, n) ==> t.On(f, n);
  }

  lemma OnlyRows(e: Event, y: System)
    requires !e.RunJob? && !e.CreateServer? && !e.ChangeFloatingIp? && !e.DeleteFloatingIp?
    ensures var t, t' := y.tables, Apply(e, y).tables;
            t'.nics == t.nics && t'.links == t.links && t'.floatingIps == t.floatingIps && OwnersStay(t, t')
  {
    var t, t' := y.tables, Apply(e, y).tables;
    if e.FinishDetachment? {
      if e.detachment < |y.detachments| {
        DetachmentKeepsOwners(t, y.detachments[e.detachment].req, e.innerCommits, e.outerCommits);
      }
    } else if !e.FinishVolumeDeletion? {
      CommitKeepsOwners(e, t);
    }
  }

  lemma DetachmentKeepsOwners(t: Tables, req: VolumeSessions.Detachment, inner: bool, outer: bool)
    ensures var t' := VolumeDetached(t, req, inner, outer);
            forall v :: v in t.volumes ==> v in t'.volumes && t'.volumes[v].projectId == t.volumes[v].projectId
  {}

  lemma CommitKeepsOwners(e: Event, t: Tables)
    requires !e.CreateServer? && !e.ChangeFloatingIp? && !e.DeleteFloatingIp?
    ensures var t' := Commit(e, t);
            t'.nics == t.nics && t'.links == t.links && t'.floatingIps == t.floatingIps && OwnersStay(t, t')
  {
    if e.FinishServerCreation? || e.WatchStart? || e.WatchStop? {
      ServerCommitKeepsOwners(e, t);
    } else if e.CreateGroup? || e.DeleteGroup? {
      GroupCommitKeepsOwners(e, t);
    } else {
      VolumeCommitKeepsOwners(e, t);
    }
  }

  lemma ServerCommitKeepsOwners(e: Event, t: Tables)
    requires e.FinishServerCreation? || e.WatchStart? || e.WatchStop?
    ensures var t' := Commit(e, t);
            && t' == t.(servers := t'.servers, volumes := t'.volumes)
            && (forall s :: s in t.servers ==> s in t'.servers && t'.servers[s].projectId == t.servers[s].projectId)
            && (forall v :: v in t.volumes ==> v in t'.volumes && t'.volumes[v] == t.volumes[v])
  {}

  lemma GroupCommitKeepsOwners(e: Event, t: Tables)
    requires e.CreateGroup? || e.DeleteGroup?
    ensures var t' := Commit(e, t);
            && t' == t.(groups := t'.groups)
            && forall g :: g in t.groups ==> g in t'.groups && t'.groups[g].projectId == t.groups[g].projectId
  {}

  lemma VolumeCommitKeepsOwners(e: Event, t: Tables)
    requires !e.CreateServer? && !e.ChangeFloatingIp? && !e.DeleteFloatingIp?
    requires !e.FinishServerCreation? && !e.WatchStart? && !e.WatchStop? && !e.CreateGroup? && !e.DeleteGroup?
    ensures var t' := Commit(e, t);
            && t' == t.(volumes := t'.volumes)
            && forall v :: v in t.volumes ==> v in t'.volumes && t'.volumes[v].projectId == t.volumes[v].projectId
  {}

  lemma {:induction false} ProjectsStayApart(events: seq<Event>, y: System)
    requires WithinProjects(y.tables)
    ensures WithinProjects(After(events, y).tables) && OwnersStay(y.tables, After(events, y).tables)
    decreases |events|
  {
    if events == [] {
    } else {
      var front := events[..|events| - 1];
      ProjectsStayApart(front, y);
      StepKeepsProjects(events[|events| - 1], After(front, y));
    }
  }
}
