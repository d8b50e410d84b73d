/** Servers, volumes, interfaces, security groups and floating IPs over whole runs: every committed
    transaction of the services, in any order, with any observation of OpenStack.

    A transaction that raises leaves the tables alone, so here it is a step that changes nothing;
    remote calls and permission checks that only decide whether a transaction happens at all are left
    to the choice of events.  What checks a row, waits for OpenStack and writes long afterwards -
    deleting a server or a volume, attaching or detaching a volume - is split at the wait. */
module Lifecycle {
  import opened Options
  import opened Volumes
  import opened Polling
  import opened Networking
  import opened ServerDeletion
  import VolumeSessions
  import TwoStores

  /** The background work of an accepted server deletion. */
  datatype Stage = Removing | Waiting | Deleting | Finished | Aborted

  datatype Job = Job(server: nat, nics: set<nat>, root: Option<nat>, stage: Stage)

  /** A volume deletion that Cinder has accepted. */
  datatype Deletion = Deletion(volume: nat, over: bool)

  /** A detachment that Nova has accepted. */
  datatype Detachment = Detachment(req: VolumeSessions.Detachment, over: bool)

  /** `iteration` says how the removal iterates over a server's volumes; as written, over the list itself. */
  datatype System = System(
    iteration: Iteration, tables: Tables, jobs: seq<Job>, deletions: seq<Deletion>, detachments: seq<Detachment>)

  datatype Event =
    | CreateServer(projectId: nat, server: nat, nic: nat, groups: set<nat>)
    | FinishServerCreation(server: nat, newVolume: nat, size: nat, os: nat -> Observation<OsServer>, max: nat)
    | WatchStart(server: nat, status: nat -> Observation<ServerStatus>, max: nat)
    | WatchStop(server: nat, status: nat -> Observation<ServerStatus>, max: nat)
    | CreateVolume(projectId: nat, volume: nat, size: nat)
    | SyncVolume(volume: nat, seen: nat -> Observation<VolumeStatus>, max: nat)
    | RequestVolumeDeletion(projectId: nat, volume: nat)
    | FinishVolumeDeletion(deletion: nat, stillThere: nat -> Observation<bool>, max: nat)
    | RequestAttachment(projectId: nat, server: nat, volume: nat)
    | WatchAttachment(server: nat, volume: nat, seen: nat -> Observation<VolumeStatus>, max: nat)
    | RequestDetachment(req: VolumeSessions.Detachment)
    | FinishDetachment(detachment: nat, innerCommits: bool, outerCommits: bool)
    | CreateGroup(projectId: nat, group: nat)
    | DeleteGroup(projectId: nat, group: nat)
    | ChangeFloatingIp(change: TwoStores.Request)
    | DeleteFloatingIp(projectId: nat, floatingIp: nat)
    | RequestServerDeletion(projectId: nat, server: nat, root: Option<nat>)
    | RunJob(job: nat, loaded: seq<nat>, portsDeleted: bool, stillThere: nat -> Observation<bool>, max: nat)

  // ---- Transactions -------------------------------------------------------------------------------

  function SetServer(t: Tables, id: nat, row: ServerRow): Tables { t.(servers := t.servers[id := row]) }

  function SetVolume(t: Tables, id: nat, row: VolumeRow): Tables { t.(volumes := t.volumes[id := row]) }

  function ServerCreated(e: Event, t: Tables): Tables
    requires e.CreateServer?
  {
    var found := set g | g in e.groups && t.LiveGroup(g);
    if e.server in t.servers || e.nic in t.nics || (exists g :: g in found && t.groups[g].projectId != e.projectId) then t
    else
      t.(servers := t.servers[e.server := ServerRow(e.projectId, BUILD, false)],
         nics := t.nics[e.nic := NicRow(e.projectId, Some(e.server), false)],
         links := t.links + set g | g in found :: (e.nic, g))
  }

  function ServerCreationFinished(e: Event, t: Tables): Tables
    requires e.FinishServerCreation?
  {
    if !t.LiveServer(e.server) || e.newVolume in t.volumes then t
    else
      var (_, row, root) := CreationOutcome(Decisive(e.os, Building, e.max), t.servers[e.server], e.server, e.size);
      var t' := SetServer(t, e.server, row);
      if root.Some? then SetVolume(t', e.newVolume, root.value.1) else t'
  }

  function AttachmentWatched(e: Event, t: Tables): Tables
    requires e.WatchAttachment?
  {
    var first := Decisive(e.seen, Attaching, e.max);
    if !t.LiveVolume(e.volume) || (first == Some(Sees(IN_USE)) && !t.LiveServer(e.server)) then t
    else SetVolume(t, e.volume, AttachOutcome(first, t.volumes[e.volume], e.server).1)
  }

  /** `delete_volume` writes the one column it has changed, whatever the row has become since its check. */
  function VolumeDeleted(t: Tables, v: nat, stillThere: nat -> Observation<bool>, max: nat): Tables
    requires v in t.volumes
  {
    SetVolume(t, v, VolumeDeletionOutcome(Decisive(stillThere, StillThere, max), t.volumes[v]).1)
  }

  function VolumeDetached(t: Tables, req: VolumeSessions.Detachment, innerCommits: bool, outerCommits: bool): Tables {
    t.(volumes := VolumeSessions.DetachedRows(req, innerCommits, outerCommits, t.volumes))
  }

  /** What `floating_ip/service.py` and `network_interface/service.py` see of the tables. */
  function NetworkView(t: Tables): TwoStores.Local {
    TwoStores.Local({}, {}, {}, map n | n in t.nics && t.LiveNic(n) :: t.nics[n].projectId, t.floatingIps)
  }

  /** Neutron lets only one floating IP onto an interface, and hands out new ids. */
  predicate NeutronAccepts(change: TwoStores.Request, t: Tables) {
    && (change.AttachFloatingIp? ==> forall f :: f in t.floatingIps ==> !t.On(f, change.interface))
    && (change.CreateFloatingIp? ==> change.newId !in t.floatingIps)
  }

  function FloatingIpChanged(change: TwoStores.Request, t: Tables): Tables {
    if TwoStores.Allowed(change, NetworkView(t)) && NeutronAccepts(change, t)
    then t.(floatingIps := TwoStores.LocalEffect(change, NetworkView(t)).floatingIps)
    else t
  }

  /** What one committed transaction does, if nothing has to be remembered for another one. */
  function Commit(e: Event, t: Tables): Tables {
    match e
    case CreateServer(_, _, _, _) => ServerCreated(e, t)
    case FinishServerCreation(_, _, _, _, _) => ServerCreationFinished(e, t)
    case WatchStart(s, status, max) =>
      if t.LiveServer(s) then SetServer(t, s, StartOutcome(Decisive(status, Starting, max), t.servers[s]).1) else t
    case WatchStop(s, status, max) =>
      if t.LiveServer(s) then SetServer(t, s, StopOutcome(Decisive(status, Stopping, max), t.servers[s]).1) else t
    case CreateVolume(project, v, size) =>
      if v in t.volumes then t else SetVolume(t, v, VolumeRow(project, None, CREATING, size, false, false))
    case SyncVolume(v, seen, max) =>
      if t.LiveVolume(v) then SetVolume(t, v, SyncOutcome(Decisive(seen, BeingCreated, max), t.volumes[v]).1) else t
    case RequestAttachment(project, s, v) =>
      if t.LiveServer(s) && t.servers[s].projectId == project && t.LiveVolume(v) && t.volumes[v].projectId == project
         && t.volumes[v].AttachmentError().None?
      then SetVolume(t, v, t.volumes[v].(status := ATTACHING))
      else t
    case WatchAttachment(_, _, _, _) => AttachmentWatched(e, t)
    case CreateGroup(project, g) =>
      if g in t.groups then t else t.(groups := t.groups[g := GroupRow(project, false)])
    case DeleteGroup(project, g) =>
      if t.LiveGroup(g) && t.groups[g].projectId == project && t.GroupUnused(g)
      then t.(groups := t.groups[g := t.groups[g].(deleted := true)])
      else t
    case ChangeFloatingIp(change) => FloatingIpChanged(change, t)
    case DeleteFloatingIp(project, f) =>
      if f in t.floatingIps && !t.floatingIps[f].deleted && t.floatingIps[f].projectId == project
         && t.floatingIps[f].DeletionError().None?
      then t.(floatingIps := t.floatingIps[f := t.floatingIps[f].(deleted := true)])
      else t
    case _ => t
  }

  // ---- Server deletion ----------------------------------------------------------------------------

  function NicsOf(t: Tables, server: nat): set<nat> {
    set n | n in t.nics && t.nics[n].server == Some(server)
  }

  /** The request: the interfaces and the root volume are noted before anything happens. */
  predicate DeletionAccepted(e: Event, t: Tables)
    requires e.RequestServerDeletion?
  {
    && t.LiveServer(e.server) && t.servers[e.server].projectId == e.projectId
    && match e.root
       case Some(v) => t.Linked(v, e.server) && t.volumes[v].isRoot
       case None => forall v :: v in t.volumes && t.Linked(v, e.server) ==> !t.volumes[v].isRoot
  }

  /** The job's next transaction, and the stage after it.  The removal loads the server's volumes in some
      order; an event with anything else for them is not a step. */
  function JobStep(j: Job, e: Event, t: Tables, iteration: Iteration): (Tables, Stage)
    requires e.RunJob?
  {
    match j.stage
    case Removing =>
      if !Lists(e.loaded, VolumesOf(t, j.server)) then (t, Removing)
      else if t.LiveServer(j.server) && e.portsDeleted then (Removed(t, Released(iteration, e.loaded), j.nics), Waiting)
      else (t, Aborted)
    case Waiting =>
      if !t.LiveServer(j.server) then (t, Aborted)
      else
        var (result, row) := ServerDeletionOutcome(Decisive(e.stillThere, StillThere, e.max), t.servers[j.server]);
        if result == ReturnsTrue then (SetServer(t, j.server, row), Deleting) else (t, Aborted)
    case Deleting =>
      if j.root.None? || !t.LiveVolume(j.root.value) then (t, Aborted)
      else
        var v := j.root.value;
        var (result, row) := VolumeDeletionOutcome(Decisive(e.stillThere, StillThere, e.max), t.volumes[v]);
        if result == ReturnsTrue then (SetVolume(t, v, row), Finished) else (t, Aborted)
    case Finished => (t, Finished)
    case Aborted => (t, Aborted)
  }

  predicate DetachmentAccepted(req: VolumeSessions.Detachment, t: Tables) {
    VolumeSessions.CanStart(req.(serverFound := t.LiveServer(req.server)), t.volumes)
  }

  /** The checks of `delete_volume`, before it asks Cinder. */
  predicate DeletionStarted(projectId: nat, v: nat, t: Tables) {
    t.LiveVolume(v) && t.volumes[v].projectId == projectId && t.volumes[v].DeletionError().None?
  }

  function Apply(e: Event, y: System): System {
    var t := y.tables;
    match e
    case RequestServerDeletion(_, server, root) =>
      if DeletionAccepted(e, t) then y.(jobs := y.jobs + [Job(server, NicsOf(t, server), root, Removing)]) else y
    case RunJob(i, _, _, _, _) =>
      if i < |y.jobs| then
        var (t', stage) := JobStep(y.jobs[i], e, t, y.iteration);
        y.(tables := t', jobs := y.jobs[i := y.jobs[i].(stage := stage)])
      else y
    case RequestVolumeDeletion(project, v) =>
      if DeletionStarted(project, v, t) then y.(deletions := y.deletions + [Deletion(v, false)]) else y
    case FinishVolumeDeletion(i, stillThere, max) =>
      if i < |y.deletions| && !y.deletions[i].over && y.deletions[i].volume in t.volumes then
        y.(tables := VolumeDeleted(t, y.deletions[i].volume, stillThere, max),
           deletions := y.deletions[i := y.deletions[i].(over := true)])
      else y
    case RequestDetachment(req) =>
      if DetachmentAccepted(req, t) then y.(detachments := y.detachments + [Detachment(req, false)]) else y
    case FinishDetachment(i, inner, outer) =>
      if i < |y.detachments| && !y.detachments[i].over then
        y.(tables := VolumeDetached(t, y.detachments[i].req, inner, outer),
           detachments := y.detachments[i := y.detachments[i].(over := true)])
      else y
    case _ => y.(tables := Commit(e, t))
  }

  function After(events: seq<Event>, y: System): System
    decreases |events|
  {
    if events == [] then y else Apply(events[|events| - 1], After(events[..|events| - 1], y))
  }

  // ---- The invariant ------------------------------------------------------------------------------

  /** A link row joins a live interface and a live group. */
  ghost predicate LinksJoinLive(t: Tables) {
    forall link :: link in t.links ==> t.LiveNic(link.0) && t.LiveGroup(link.1)
  }

  /** A floating IP is up exactly when it is on an interface, which is then live, as it is itself. */
  ghost predicate FloatingIpsConsistent(t: Tables) {
    && (forall f :: f in t.floatingIps ==> (t.floatingIps[f].status == UP <==> t.floatingIps[f].interface.Some?))
    && (forall f, n :: t.On(f, n) ==> t.LiveNic(n) && !t.floatingIps[f].deleted)
    && OnePerNic(t)
  }

  /** A server is DELETED exactly when it is soft-deleted, and then all its interfaces are. */
  ghost predicate ServersConsistent(t: Tables) {
    && (forall s :: s in t.servers ==> (t.servers[s].status == ServerStatus.DELETED <==> t.servers[s].deleted))
    && (forall n :: n in t.nics && t.nics[n].server.Some? ==>
          && t.nics[n].server.value in t.servers
          && (t.servers[t.nics[n].server.value].deleted ==> t.nics[n].deleted))
  }

  ghost predicate VolumesConsistent(t: Tables) {
    forall v :: v in t.volumes ==>
      && (t.volumes[v].status == IN_USE ==> t.volumes[v].serverId.Some?)
      && (t.volumes[v].serverId.Some? ==> t.volumes[v].serverId.value in t.servers)
  }

  ghost predicate TablesConsistent(t: Tables) {
    LinksJoinLive(t) && FloatingIpsConsistent(t) && ServersConsistent(t) && VolumesConsistent(t)
  }

  /** What a job has achieved so far. */
  ghost predicate JobSound(j: Job, t: Tables) {
    && j.server in t.servers
    && NicsOf(t, j.server) == j.nics
    && (j.root.Some? ==> j.root.value in t.volumes)
    && (j.stage == Waiting ==> forall n :: n in j.nics ==> t.nics[n].deleted)
    && (j.stage == Deleting || j.stage == Finished ==> t.servers[j.server].deleted)
    && (j.stage == Finished ==> j.root.Some? && t.volumes[j.root.value].deleted)
  }

  /** Volumes are deleted and detached by their own; root volumes are never detached. */
  ghost predicate PendingSound(y: System) {
    && (forall i :: 0 <= i < |y.deletions| ==> y.deletions[i].volume in y.tables.volumes)
    && (forall i :: 0 <= i < |y.detachments| ==>
          var v := y.detachments[i].req.volume; v in y.tables.volumes && !y.tables.volumes[v].isRoot)
  }

  ghost predicate Inv(y: System) {
    TablesConsistent(y.tables) && PendingSound(y) && forall i :: 0 <= i < |y.jobs| ==> JobSound(y.jobs[i], y.tables)
  }

  // ---- Single-row changes -------------------------------------------------------------------------

  lemma ServerRowChange(t: Tables, id: nat, row: ServerRow)
    requires TablesConsistent(t) && id in t.servers
    requires row.status == ServerStatus.DELETED <==> row.deleted
    requires row.deleted ==> forall n :: n in NicsOf(t, id) ==> t.nics[n].deleted
    ensures TablesConsistent(SetServer(t, id, row))
  {
    var t' := SetServer(t, id, row);
    assert forall f, n :: t'.On(f, n) ==> t.On(f, n);
    forall n | n in t'.nics && t'.nics[n].server.Some?
      ensures t'.servers[t'.nics[n].server.value].deleted ==> t'.nics[n].deleted
    {
      if t'.nics[n].server.value == id { assert n in NicsOf(t, id) || !row.deleted; }
    }
  }

  lemma VolumeRowChange(t: Tables, id: nat, row: VolumeRow)
    requires TablesConsistent(t)
    requires row.status == IN_USE ==> row.serverId.Some?
    requires row.serverId.Some? ==> row.serverId.value in t.servers
    ensures TablesConsistent(SetVolume(t, id, row))
  {
    var t' := SetVolume(t, id, row);
    assert forall f, n :: t'.On(f, n) ==> t.On(f, n);
  }

  lemma FloatingIpRowChange(t: Tables, id: nat, row: FloatingIpRow)
    requires TablesConsistent(t)
    requires row.status == UP <==> row.interface.Some?
    requires row.interface.Some? ==> t.LiveNic(row.interface.value) && !row.deleted
    requires row.interface.Some? ==> forall f :: f != id ==> !t.On(f, row.interface.value)
    ensures TablesConsistent(t.(floatingIps := t.floatingIps[id := row]))
  {
    var t' := t.(floatingIps := t.floatingIps[id := row]);
    assert forall f, n :: f != id && t'.On(f, n) ==> t.On(f, n);
    assert forall n: nat :: t'.On(id, n) ==> row.interface == Some(n);
    forall a, b, n | t'.On(a, n) && t'.On(b, n)
      ensures a == b
    {
      if a != id && b != id { assert t.On(a, n) && t.On(b, n); }
    }
  }

  // ---- The transactions keep it -------------------------------------------------------------------

  lemma ServerCreatedKeeps(e: Event, t: Tables)
    requires e.CreateServer? && TablesConsistent(t)
    ensures TablesConsistent(ServerCreated(e, t))
  {
    var t' := ServerCreated(e, t);
    assert forall f, n :: t'.On(f, n) ==> t.On(f, n);
  }

  lemma ServerCreationFinishedKeeps(e: Event, t: Tables)
    requires e.FinishServerCreation? && TablesConsistent(t)
    ensures TablesConsistent(ServerCreationFinished(e, t))
  {
    if t.LiveServer(e.server) && e.newVolume !in t.volumes {
      var (_, row, root) := CreationOutcome(Decisive(e.os, Building, e.max), t.servers[e.server], e.server, e.size);
      ServerRowChange(t, e.server, row);
      if root.Some? {
        VolumeRowChange(SetServer(t, e.server, row), e.newVolume, root.value.1);
      }
    }
  }

  lemma VolumeDetachedKeeps(t: Tables, req: VolumeSessions.Detachment, innerCommits: bool, outerCommits: bool)
    requires TablesConsistent(t)
    ensures TablesConsistent(VolumeDetached(t, req, innerCommits, outerCommits))
  {
    var t' := VolumeDetached(t, req, innerCommits, outerCommits);
    var v := req.volume;
    if VolumeSessions.WaitCommits(req, innerCommits, t.volumes) {
      assert t' == SetVolume(t, v, t'.volumes[v]);
      VolumeRowChange(t, v, t'.volumes[v]);
    } else {
      assert t' == t;
    }
  }

  lemma FloatingIpChangedKeeps(change: TwoStores.Request, t: Tables)
    requires TablesConsistent(t)
    ensures TablesConsistent(FloatingIpChanged(change, t))
  {
    var t' := FloatingIpChanged(change, t);
    if TwoStores.Allowed(change, NetworkView(t)) && NeutronAccepts(change, t) {
      match change
      case AssignUser(_, _, _) => assert false;
      case UnassignUser(_, _, _) => assert false;
      case CreateFloatingIp(_, id) => FloatingIpRowChange(t, id, t'.floatingIps[id]);
      case AttachFloatingIp(_, id, n) => FloatingIpRowChange(t, id, t'.floatingIps[id]);
      case DetachFloatingIp(_, id, _) => FloatingIpRowChange(t, id, t'.floatingIps[id]);
    }
  }

  lemma GroupChangeKeeps(t: Tables, g: nat, row: GroupRow)
    requires TablesConsistent(t)
    requires row.deleted ==> t.GroupUnused(g)
    ensures TablesConsistent(t.(groups := t.groups[g := row]))
  {
    var t' := t.(groups := t.groups[g := row]);
    assert forall f, n :: t'.On(f, n) ==> t.On(f, n);
  }

  lemma CommitKeeps(e: Event, t: Tables)
    requires TablesConsistent(t)
    ensures TablesConsistent(Commit(e, t))
  {
    match e
    case CreateServer(_, _, _, _) => ServerCreatedKeeps(e, t);
    case FinishServerCreation(_, _, _, _, _) => ServerCreationFinishedKeeps(e, t);
    case WatchStart(s, _, _) => if t.LiveServer(s) { ServerRowChange(t, s, Commit(e, t).servers[s]); }
    case WatchStop(s, _, _) => if t.LiveServer(s) { ServerRowChange(t, s, Commit(e, t).servers[s]); }
    case CreateGroup(_, g) => if g !in t.groups { GroupChangeKeeps(t, g, Commit(e, t).groups[g]); }
    case DeleteGroup(_, g) => if Commit(e, t) != t { GroupChangeKeeps(t, g, Commit(e, t).groups[g]); }
    case ChangeFloatingIp(change) => FloatingIpChangedKeeps(change, t);
    case DeleteFloatingIp(_, f) => if Commit(e, t) != t { FloatingIpRowChange(t, f, Commit(e, t).floatingIps[f]); }
    case _ => VolumeEventKeeps(e, t);
  }

  lemma VolumeEventKeeps(e: Event, t: Tables)
    requires !e.CreateServer? && !e.FinishServerCreation? && !e.WatchStart? && !e.WatchStop?
    requires !e.CreateGroup? && !e.DeleteGroup? && !e.ChangeFloatingIp? && !e.DeleteFloatingIp?
    requires TablesConsistent(t)
    ensures TablesConsistent(Commit(e, t))
  {
    if Commit(e, t) != t {
      VolumeRowChange(t, e.volume, Commit(e, t).volumes[e.volume]);
    }
  }

  lemma RemovedKeeps(t: Tables, server: nat, released: set<nat>)
    requires TablesConsistent(t)
    ensures TablesConsistent(Removed(t, released, NicsOf(t, server)))
  {
    var nics := NicsOf(t, server);
    var t' := Removed(t, released, nics);
    NicsAfterRemoval(t, released, nics);
    assert forall f, n :: t'.On(f, n) ==> t.On(f, n) && n !in nics;
  }

  // ---- Jobs ---------------------------------------------------------------------------------------

  /** What no transaction but a job's ever does: delete a server, or change which interfaces it has
      or had; and nothing brings a server, an interface or a volume back, or makes a root volume. */
  ghost predicate Monotone(t: Tables, t': Tables) {
    && (forall s :: s in t.servers ==> s in t'.servers && (t.servers[s].deleted ==> t'.servers[s] == t.servers[s]))
    && (forall n :: n in t.nics ==> n in t'.nics && t'.nics[n].server == t.nics[n].server && (t.nics[n].deleted ==> t'.nics[n].deleted))
    && (forall n :: n in t'.nics && n !in t.nics ==> t'.nics[n].server.None? || t'.nics[n].server.value !in t.servers)
    && VolumesPersist(t, t')
  }

  ghost predicate VolumesPersist(t: Tables, t': Tables) {
    forall v :: v in t.volumes ==>
      v in t'.volumes && t'.volumes[v].isRoot == t.volumes[v].isRoot && (t.volumes[v].deleted ==> t'.volumes[v].deleted)
  }

  lemma CommitMonotone(e: Event, t: Tables)
    ensures Monotone(t, Commit(e, t))
  {
    CommitKeepsVolumes(e, t);
    match e
    case CreateServer(_, _, _, _) => assert Commit(e, t).nics.Keys >= t.nics.Keys;
    case FinishServerCreation(_, _, _, _, _) => StatusOnly(e, t);
    case WatchStart(_, _, _) => StatusOnly(e, t);
    case WatchStop(_, _, _) => StatusOnly(e, t);
    case _ => OthersLeaveServers(e, t);
  }

  lemma CommitKeepsVolumes(e: Event, t: Tables)
    ensures VolumesPersist(t, Commit(e, t))
  {
    if e.SyncVolume? || e.RequestAttachment? || e.WatchAttachment? {
      VolumeEventPersists(e, t);
    } else {
      OthersLeaveVolumes(e, t);
    }
  }

  lemma VolumeEventPersists(e: Event, t: Tables)
    requires e.SyncVolume? || e.RequestAttachment? || e.WatchAttachment?
    ensures VolumesPersist(t, Commit(e, t))
  {
    if Commit(e, t) != t {
      var row := Commit(e, t).volumes[e.volume];
      assert Commit(e, t) == SetVolume(t, e.volume, row);
      VolumeWriteMonotone(t, e.volume, row);
    }
  }

  lemma OthersLeaveVolumes(e: Event, t: Tables)
    requires !e.SyncVolume? && !e.RequestAttachment? && !e.WatchAttachment?
    ensures forall v :: v in t.volumes ==> v in Commit(e, t).volumes && Commit(e, t).volumes[v] == t.volumes[v]
  {}

  lemma StatusOnly(e: Event, t: Tables)
    requires e.FinishServerCreation? || e.WatchStart? || e.WatchStop?
    ensures var t' := Commit(e, t);
            && t'.nics == t.nics
            && (forall s :: s in t.servers ==> s in t'.servers && (t.servers[s].deleted ==> t'.servers[s] == t.servers[s]))
  {
    var t' := Commit(e, t);
    assert t'.nics == t.nics;
    assert t'.servers == if t.LiveServer(e.server) && e.server in t'.servers
                         then t.servers[e.server := t'.servers[e.server]] else t.servers;
  }

  lemma OthersLeaveServers(e: Event, t: Tables)
    requires !e.CreateServer? && !e.FinishServerCreation? && !e.WatchStart? && !e.WatchStop?
    ensures Commit(e, t).servers == t.servers && Commit(e, t).nics == t.nics
  {}

  lemma RemovalStepKeeps(j: Job, t: Tables, released: set<nat>)
    requires TablesConsistent(t) && JobSound(j, t)
    ensures var t' := Removed(t, released, j.nics);
            TablesConsistent(t') && Monotone(t, t') && JobSound(j.(stage := Waiting), t')
  {
    RemovedKeeps(t, j.server, released);
    NicsAfterRemoval(t, released, j.nics);
    assert NicsOf(Removed(t, released, j.nics), j.server) == NicsOf(t, j.server);
  }

  lemma WaitingStepKeeps(j: Job, e: Event, t: Tables, iteration: Iteration)
    requires e.RunJob? && TablesConsistent(t) && JobSound(j, t) && j.stage == Waiting
    ensures var (t', stage) := JobStep(j, e, t, iteration);
            TablesConsistent(t') && Monotone(t, t') && JobSound(j.(stage := stage), t')
  {
    var t' := JobStep(j, e, t, iteration).0;
    if t' != t {
      ServerRowChange(t, j.server, t'.servers[j.server]);
      assert NicsOf(t', j.server) == NicsOf(t, j.server);
    }
  }

  lemma DeletingStepKeeps(j: Job, e: Event, t: Tables, iteration: Iteration)
    requires e.RunJob? && TablesConsistent(t) && JobSound(j, t) && j.stage == Deleting
    ensures var (t', stage) := JobStep(j, e, t, iteration);
            TablesConsistent(t') && Monotone(t, t') && JobSound(j.(stage := stage), t')
  {
    var t' := JobStep(j, e, t, iteration).0;
    if t' != t {
      VolumeRowChange(t, j.root.value, t'.volumes[j.root.value]);
      VolumeWriteMonotone(t, j.root.value, t'.volumes[j.root.value]);
      assert NicsOf(t', j.server) == NicsOf(t, j.server);
    }
  }

  lemma JobStepKeeps(j: Job, e: Event, t: Tables, iteration: Iteration)
    requires e.RunJob? && TablesConsistent(t) && JobSound(j, t)
    ensures var (t', stage) := JobStep(j, e, t, iteration);
            TablesConsistent(t') && Monotone(t, t') && JobSound(j.(stage := stage), t')
  {
    match j.stage
    case Removing => RemovalStepKeeps(j, t, Released(iteration, e.loaded));
    case Waiting => WaitingStepKeeps(j, e, t, iteration);
    case Deleting => DeletingStepKeeps(j, e, t, iteration);
    case _ =>
  }

  lemma JobStaysSound(j: Job, t: Tables, t': Tables)
    requires JobSound(j, t) && Monotone(t, t')
    ensures JobSound(j, t')
  {
    assert NicsOf(t', j.server) == NicsOf(t, j.server);
  }

  /** All jobs but `i`, which has taken the step. */
  lemma JobsStaySound(y: System, y': System, i: nat)
    requires Inv(y) && Monotone(y.tables, y'.tables) && |y'.jobs| == |y.jobs|
    requires forall k :: 0 <= k < |y.jobs| && k != i ==> y'.jobs[k] == y.jobs[k]
    ensures forall k :: 0 <= k < |y.jobs| && k != i ==> JobSound(y'.jobs[k], y'.tables)
  {
    forall k | 0 <= k < |y.jobs| && k != i
      ensures JobSound(y'.jobs[k], y'.tables)
    {
      JobStaysSound(y.jobs[k], y.tables, y'.tables);
    }
  }

  lemma PendingStaysSound(y: System, y': System)
    requires PendingSound(y) && VolumesPersist(y.tables, y'.tables)
    requires |y'.deletions| == |y.deletions| && |y'.detachments| == |y.detachments|
    requires forall i :: 0 <= i < |y.deletions| ==> y'.deletions[i].volume == y.deletions[i].volume
    requires forall i :: 0 <= i < |y.detachments| ==> y'.detachments[i].req == y.detachments[i].req
    ensures PendingSound(y')
  {}

  /** A step that changes the tables as one transaction would, and at most marks something as over. */
  lemma TransactionKeepsInv(y: System, y': System)
    requires Inv(y) && TablesConsistent(y'.tables) && Monotone(y.tables, y'.tables) && y'.jobs == y.jobs
    requires |y'.deletions| == |y.deletions| && |y'.detachments| == |y.detachments|
    requires forall i :: 0 <= i < |y.deletions| ==> y'.deletions[i].volume == y.deletions[i].volume
    requires forall i :: 0 <= i < |y.detachments| ==> y'.detachments[i].req == y.detachments[i].req
    ensures Inv(y')
  {
    JobsStaySound(y, y', |y.jobs|);
    PendingStaysSound(y, y');
  }

  lemma VolumeWriteMonotone(t: Tables, v: nat, row: VolumeRow)
    requires v in t.volumes && row.isRoot == t.volumes[v].isRoot && (t.volumes[v].deleted ==> row.deleted)
    ensures Monotone(t, SetVolume(t, v, row))
  {}

  lemma FinishedDeletionKeeps(e: Event, y: System)
    requires e.FinishVolumeDeletion? && Inv(y)
    ensures Inv(Apply(e, y)) && Monotone(y.tables, Apply(e, y).tables)
  {
    var i := e.deletion;
    if i < |y.deletions| && !y.deletions[i].over && y.deletions[i].volume in y.tables.volumes {
      var v := y.deletions[i].volume;
      var row := Apply(e, y).tables.volumes[v];
      VolumeRowChange(y.tables, v, row);
      VolumeWriteMonotone(y.tables, v, row);
    }
    TransactionKeepsInv(y, Apply(e, y));
  }

  lemma VolumeDetachedMonotone(t: Tables, req: VolumeSessions.Detachment, innerCommits: bool, outerCommits: bool)
    ensures Monotone(t, VolumeDetached(t, req, innerCommits, outerCommits))
  {
    var t' := VolumeDetached(t, req, innerCommits, outerCommits);
    assert t'.servers == t.servers && t'.nics == t.nics;
  }

  lemma FinishedDetachmentKeeps(e: Event, y: System)
    requires e.FinishDetachment? && Inv(y)
    ensures Inv(Apply(e, y)) && Monotone(y.tables, Apply(e, y).tables)
  {
    var i := e.detachment;
    if i < |y.detachments| && !y.detachments[i].over {
      VolumeDetachedKeeps(y.tables, y.detachments[i].req, e.innerCommits, e.outerCommits);
      VolumeDetachedMonotone(y.tables, y.detachments[i].req, e.innerCommits, e.outerCommits);
    }
    TransactionKeepsInv(y, Apply(e, y));
  }

  lemma RunJobKeeps(e: Event, y: System)
    requires e.RunJob? && Inv(y)
    ensures Inv(Apply(e, y)) && Monotone(y.tables, Apply(e, y).tables)
  {
    if e.job < |y.jobs| {
      JobStepKeeps(y.jobs[e.job], e, y.tables, y.iteration);
      JobsStaySound(y, Apply(e, y), e.job);
      PendingStaysSound(y, Apply(e, y));
    }
  }

  lemma RequestKeeps(e: Event, y: System)
    requires (e.RequestServerDeletion? || e.RequestVolumeDeletion? || e.RequestDetachment?) && Inv(y)
    ensures Inv(Apply(e, y)) && Apply(e, y).tables == y.tables
  {}

  /** Every step of every run keeps the link invariants and what the jobs have achieved. */
  lemma StepKeepsInv(e: Event, y: System)
    requires Inv(y)
    ensures Inv(Apply(e, y)) && Monotone(y.tables, Apply(e, y).tables)
  {
    if e.RunJob? {
      RunJobKeeps(e, y);
    } else if e.FinishVolumeDeletion? {
      FinishedDeletionKeeps(e, y);
    } else if e.FinishDetachment? {
      FinishedDetachmentKeeps(e, y);
    } else if e.RequestServerDeletion? || e.RequestVolumeDeletion? || e.RequestDetachment? {
      RequestKeeps(e, y);
    } else {
      CommitKeeps(e, y.tables);
      CommitMonotone(e, y.tables);
      TransactionKeepsInv(y, Apply(e, y));
    }
  }

  lemma {:induction false} RunKeepsInv(events: seq<Event>, y: System)
    requires Inv(y)
    ensures Inv(After(events, y))
    decreases |events|
  {
    if events == [] {
    } else {
      var front := events[..|events| - 1];
      RunKeepsInv(front, y);
      StepKeepsInv(events[|events| - 1], After(front, y));
    }
  }
}
