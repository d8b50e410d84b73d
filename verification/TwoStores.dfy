/** Operations that keep the local rows in step with Keystone and Neutron: project membership
    (`project/service.py`) and floating IPs (`floating_ip/service.py`, `network_interface/service.py`).

    Each runs as one database transaction inside one compensating scope.  Rows and OpenStack objects
    carry the same ids here. */
module TwoStores {
  import opened Options
  import opened Compensation
  import opened Networking

  /** The database: live projects, users and interfaces (with their project), membership rows,
      floating-IP rows. */
  datatype Local = Local(
    projects: set<nat>, users: set<nat>, members: set<(nat, nat)>,
    interfaces: map<nat, nat>, floatingIps: map<nat, FloatingIpRow>)

  /** Keystone's roles as (project, user), and Neutron's floating IPs with the port each is on. */
  datatype Remote = Remote(roles: set<(nat, nat)>, floatingIps: map<nat, Option<nat>>)

  datatype Stores = Stores(local: Local, remote: Remote)

  function Live(rows: map<nat, FloatingIpRow>): map<nat, Option<nat>> {
    map id | id in rows && !rows[id].deleted :: rows[id].interface
  }

  /** Membership rows are Keystone's roles; live floating-IP rows, with their interface, are Neutron's. */
  ghost predicate Agree(s: Stores) {
    s.local.members == s.remote.roles && Live(s.local.floatingIps) == s.remote.floatingIps
  }

  datatype Request =
    | AssignUser(requester: nat, project: nat, user: nat)
    | UnassignUser(requester: nat, project: nat, user: nat)
    | CreateFloatingIp(project: nat, newId: nat)
    | AttachFloatingIp(project: nat, floatingIp: nat, interface: nat)
    | DetachFloatingIp(project: nat, floatingIp: nat, interface: nat)

  /** Which steps answer: the remote call, the flushed write, the commit, and the compensating call. */
  datatype Faults = Faults(remote: bool, flush: bool, commit: bool, compensation: bool)

  /** When the compensating tasks of attaching and detaching read the floating IP's id: from the entity
      when they are called, as written, or when they are registered, as all other tasks do. */
  datatype IdReading = WhenCalled | WhenRegistered

  datatype Undo =
    | Unassign(project: nat, user: nat)
    | Assign(project: nat, user: nat)
    | Release(floatingIp: nat)
    | Disconnect(floatingIp: nat)
    | Connect(floatingIp: nat, port: nat)

  /** The remote calls.  Assigning is idempotent; a port takes one floating IP. */
  function Run(task: Undo, r: Remote): Reply<Remote> {
    match task
    case Unassign(project, user) =>
      if (project, user) in r.roles then Done(r.(roles := r.roles - {(project, user)})) else Raised
    case Assign(project, user) =>
      Done(r.(roles := r.roles + {(project, user)}))
    case Release(ip) =>
      if ip in r.floatingIps then Done(r.(floatingIps := r.floatingIps - {ip})) else Raised
    case Disconnect(ip) =>
      if ip in r.floatingIps then Done(r.(floatingIps := r.floatingIps[ip := None])) else Raised
    case Connect(ip, port) =>
      if ip in r.floatingIps && PortFree(r, ip, port) then Done(r.(floatingIps := r.floatingIps[ip := Some(port)])) else Raised
  }

  predicate PortFree(r: Remote, ip: nat, port: nat) {
    forall other :: other in r.floatingIps && other != ip ==> r.floatingIps[other] != Some(port)
  }

  // ---- What a request should do -------------------------------------------------------------------

  /** The guards of the service and the entities. */
  predicate Allowed(req: Request, l: Local) {
    match req
    case AssignUser(requester, project, user) =>
      project in l.projects && (project, requester) in l.members && user in l.users && (project, user) !in l.members
    case UnassignUser(requester, project, user) =>
      project in l.projects && (project, requester) in l.members && user in l.users && (project, user) in l.members
    case CreateFloatingIp(_, _) => true
    case AttachFloatingIp(project, ip, interface) =>
      && interface in l.interfaces && l.interfaces[interface] == project
      && ip in Live(l.floatingIps) && l.floatingIps[ip].projectId == project && l.floatingIps[ip].interface.None?
    case DetachFloatingIp(project, ip, interface) =>
      ip in Live(l.floatingIps) && l.floatingIps[ip].projectId == project && l.floatingIps[ip].interface == Some(interface)
  }

  /** The one thing the local store cannot know: whether another floating IP holds the port. */
  predicate RemotelyPossible(req: Request, r: Remote) {
    req.AttachFloatingIp? ==> PortFree(r, req.floatingIp, req.interface)
  }

  function LocalEffect(req: Request, l: Local): Local
    requires Allowed(req, l)
  {
    match req
    case AssignUser(_, project, user) => l.(members := l.members + {(project, user)})
    case UnassignUser(_, project, user) => l.(members := l.members - {(project, user)})
    case CreateFloatingIp(project, id) => l.(floatingIps := l.floatingIps[id := FloatingIpRow(project, None, DOWN, false)])
    case AttachFloatingIp(_, ip, interface) => l.(floatingIps := l.floatingIps[ip := l.floatingIps[ip].AttachedTo(interface)])
    case DetachFloatingIp(_, ip, _) => l.(floatingIps := l.floatingIps[ip := l.floatingIps[ip].Detached()])
  }

  function RemoteEffect(req: Request, r: Remote): Remote {
    match req
    case AssignUser(_, project, user) => r.(roles := r.roles + {(project, user)})
    case UnassignUser(_, project, user) => r.(roles := r.roles - {(project, user)})
    case CreateFloatingIp(_, id) => r.(floatingIps := r.floatingIps[id := None])
    case AttachFloatingIp(_, ip, interface) => r.(floatingIps := r.floatingIps[ip := Some(interface)])
    case DetachFloatingIp(_, ip, _) => r.(floatingIps := r.floatingIps[ip := None])
  }

  /** The steps a request takes before it commits, all of them or not. */
  predicate Completes(req: Request, f: Faults, s: Stores) {
    Allowed(req, s.local) && RemotelyPossible(req, s.remote) && f.remote && f.flush && f.commit
  }

  /** Whether the remote call goes through although the request fails.  A membership row is flushed
      before the call, a floating-IP row after it; attaching and detaching flush with the commit. */
  predicate RemoteOnly(req: Request, f: Faults, s: Stores) {
    && Allowed(req, s.local) && RemotelyPossible(req, s.remote) && f.remote
    && match req
       case AssignUser(_, _, _) => f.flush && !f.commit
       case UnassignUser(_, _, _) => f.flush && !f.commit
       case _ => !f.flush || !f.commit
  }

  /** Whether a task of the request is able to undo its remote call.  It is called after the failed
      transaction has been rolled back, which expires the entities, and its session has been closed:
      reading an entity's id then raises. */
  predicate CanUndo(req: Request, reading: IdReading, f: Faults) {
    f.compensation && (reading.WhenRegistered? || !(req.AttachFloatingIp? || req.DetachFloatingIp?))
  }

  function Outcome(req: Request, reading: IdReading, f: Faults, s: Stores): Stores {
    if Completes(req, f, s) then Stores(LocalEffect(req, s.local), RemoteEffect(req, s.remote))
    else if RemoteOnly(req, f, s) && !CanUndo(req, reading, f) then s.(remote := RemoteEffect(req, s.remote))
    else s
  }

  /** A new floating IP gets an id that neither store has seen. */
  predicate NewIdUnseen(req: Request, s: Stores) {
    req.CreateFloatingIp? ==> req.newId !in s.local.floatingIps && req.newId !in s.remote.floatingIps
  }

  // ---- The services -------------------------------------------------------------------------------

  /** Leaving the compensating scope: the staged rows are committed, or the tasks are called. */
  method Close(s: Stores, staged: Local, remote: Remote, manager: CompensationManager<Undo>,
               raised: bool, commits: bool, undoes: bool)
    returns (ok: bool, s': Stores)
    requires |manager.tasks| <= 1
    ensures ok == (!raised && commits)
    ensures s' == if ok then Stores(staged, remote) else Stores(s.local, Undone(manager.tasks, undoes, remote))
  {
    ok := !raised && commits;
    if ok {
      s' := Stores(staged, remote);
    } else {
      UnwindOne(manager.tasks, undoes, remote);
      var back, _ := manager.Rollback(Run, Compensates(undoes), remote);
      s' := Stores(s.local, back);
    }
  }

  /** No request registers more than one task. */
  function Compensates(undoes: bool): nat -> bool {
    (_: nat) => undoes
  }

  function Undone(tasks: seq<Undo>, undoes: bool, r: Remote): Remote
    requires |tasks| <= 1
  {
    if tasks != [] && undoes then Settled(Run(tasks[0], r), r) else r
  }

  lemma UnwindOne(tasks: seq<Undo>, undoes: bool, r: Remote)
    requires |tasks| <= 1
    ensures Unwind(Answering(tasks, 0, Compensates(undoes)), Run, r) == Undone(tasks, undoes, r)
  {
    if tasks != [] {
      assert tasks[..0] == [] && Answering(tasks[..0], 0, Compensates(undoes)) == [];
      assert Answering(tasks, 0, Compensates(undoes)) == if undoes then [tasks[0]] else [];
      assert [tasks[0]][..0] == [] && Unwind([], Run, r) == r;
    }
  }

  lemma UnassignRestores(r: Remote, project: nat, user: nat)
    requires (project, user) !in r.roles
    ensures Run(Unassign(project, user), r.(roles := r.roles + {(project, user)})) == Done(r)
  {
    assert r.roles + {(project, user)} - {(project, user)} == r.roles;
  }

  lemma AssignRestores(r: Remote, project: nat, user: nat)
    requires (project, user) in r.roles
    ensures Run(Assign(project, user), r.(roles := r.roles - {(project, user)})) == Done(r)
  {
    assert r.roles - {(project, user)} + {(project, user)} == r.roles;
  }

  method AssignUserOnProject(s: Stores, requester: nat, project: nat, user: nat, ghost reading: IdReading, f: Faults)
    returns (ok: bool, s': Stores)
    requires Agree(s)
    ensures var req := AssignUser(requester, project, user);
            s' == Outcome(req, reading, f, s) && ok == Completes(req, f, s)
    ensures var may := && project in s.local.projects && (project, requester) in s.local.members
                       && user in s.local.users && (project, user) !in s.local.members;
            && (ok <==> may && f.remote && f.flush && f.commit)
            && s'.local == (if ok then s.local.(members := s.local.members + {(project, user)}) else s.local)
            && s'.remote == if may && f.remote && f.flush && (f.commit || !f.compensation)
                            then s.remote.(roles := s.remote.roles + {(project, user)}) else s.remote
  {
    var manager := new CompensationManager<Undo>();
    var staged, remote, raised := s.local, s.remote, true;
    if project in staged.projects && (project, requester) in staged.members && user in staged.users
       && (project, user) !in staged.members && f.flush {
      staged := staged.(members := staged.members + {(project, user)});
      if f.remote {
        var reply := Run(Assign(project, user), remote);
        remote := Settled(reply, remote);
        manager.AddTask(Unassign(project, user));
        raised := false;
        UnassignRestores(s.remote, project, user);
      }
    }
    ok, s' := Close(s, staged, remote, manager, raised, f.commit, f.compensation);
  }

  method UnassignUserFromProject(s: Stores, requester: nat, project: nat, user: nat, ghost reading: IdReading, f: Faults)
    returns (ok: bool, s': Stores)
    requires Agree(s)
    ensures var req := UnassignUser(requester, project, user);
            s' == Outcome(req, reading, f, s) && ok == Completes(req, f, s)
    ensures var may := && project in s.local.projects && (project, requester) in s.local.members
                       && user in s.local.users && (project, user) in s.local.members;
            && (ok <==> may && f.remote && f.flush && f.commit)
            && s'.local == (if ok then s.local.(members := s.local.members - {(project, user)}) else s.local)
            && s'.remote == if may && f.remote && f.flush && (f.commit || !f.compensation)
                            then s.remote.(roles := s.remote.roles - {(project, user)}) else s.remote
  {
    var manager := new CompensationManager<Undo>();
    var staged, remote, raised := s.local, s.remote, true;
    if project in staged.projects && (project, requester) in staged.members && user in staged.users
       && (project, user) in staged.members && f.flush {
      staged := staged.(members := staged.members - {(project, user)});
      var reply := if f.remote then Run(Unassign(project, user), remote) else Raised;
      if reply.Done? {
        remote := reply.after;
        manager.AddTask(Assign(project, user));
        raised := false;
        AssignRestores(s.remote, project, user);
      }
    }
    ok, s' := Close(s, staged, remote, manager, raised, f.commit, f.compensation);
  }

  method CreateNewFloatingIp(s: Stores, project: nat, newId: nat, ghost reading: IdReading, f: Faults)
    returns (ok: bool, s': Stores)
    requires Agree(s) && NewIdUnseen(CreateFloatingIp(project, newId), s)
    ensures var req := CreateFloatingIp(project, newId);
            s' == Outcome(req, reading, f, s) && ok == Completes(req, f, s)
    ensures ok <==> f.remote && f.flush && f.commit
    ensures s'.local == if ok then s.local.(floatingIps := s.local.floatingIps[newId := FloatingIpRow(project, None, DOWN, false)])
                        else s.local
    ensures s'.remote == if f.remote && (ok || !f.compensation)
                         then s.remote.(floatingIps := s.remote.floatingIps[newId := None]) else s.remote
  {
    var manager := new CompensationManager<Undo>();
    var staged, remote, raised := s.local, s.remote, true;
    if f.remote {
      remote := remote.(floatingIps := remote.floatingIps[newId := None]);
      manager.AddTask(Release(newId));
      assert remote.floatingIps - {newId} == s.remote.floatingIps;
      if f.flush {
        staged := staged.(floatingIps := staged.floatingIps[newId := FloatingIpRow(project, None, DOWN, false)]);
        raised := false;
      }
    }
    ok, s' := Close(s, staged, remote, manager, raised, f.commit, f.compensation);
  }

  method AttachFloatingIpToNetworkInterface(s: Stores, project: nat, id: nat, interface: nat, reading: IdReading, f: Faults)
    returns (ok: bool, s': Stores)
    requires Agree(s)
    ensures var req := AttachFloatingIp(project, id, interface);
            s' == Outcome(req, reading, f, s) && ok == Completes(req, f, s)
    ensures var rows, ports := s.local.floatingIps, s.remote.floatingIps;
            var may := && interface in s.local.interfaces && s.local.interfaces[interface] == project
                       && id in rows && !rows[id].deleted && rows[id].projectId == project && rows[id].interface == None
                       && forall other :: other in ports && other != id ==> ports[other] != Some(interface);
            && (ok <==> may && f.remote && f.flush && f.commit)
            && s'.local == (if ok then s.local.(floatingIps := rows[id := rows[id].(interface := Some(interface), status := UP)]) else s.local)
            && s'.remote == if may && f.remote && (ok || !f.compensation || reading == WhenCalled)
                            then s.remote.(floatingIps := ports[id := Some(interface)]) else s.remote
  {
    var manager := new CompensationManager<Undo>();
    var staged, remote, raised := s.local, s.remote, true;
    var undoes := f.compensation && reading.WhenRegistered?;
    if interface in staged.interfaces && staged.interfaces[interface] == project
       && id in staged.floatingIps && !staged.floatingIps[id].deleted && staged.floatingIps[id].projectId == project {
      var floatingIp := new FloatingIp(staged.floatingIps[id]);
      var error := floatingIp.AttachToNetworkInterface(interface);
      if error.None? {
        var reply := if f.remote then Run(Connect(id, interface), remote) else Raised;
        assert id in Live(s.local.floatingIps);
        assert s.remote.floatingIps[id] == None;
        if reply.Done? {
          remote := reply.after;
          manager.AddTask(Disconnect(id));
          DisconnectRestores(s.remote, id, interface);
          staged := staged.(floatingIps := staged.floatingIps[id := floatingIp.AsRow()]);
          raised := !f.flush;
        }
      }
    }
    ok, s' := Close(s, staged, remote, manager, raised, f.commit, undoes);
  }

  lemma DisconnectRestores(r: Remote, id: nat, port: nat)
    requires id in r.floatingIps && r.floatingIps[id] == None
    ensures Run(Disconnect(id), r.(floatingIps := r.floatingIps[id := Some(port)])) == Done(r)
  {
    assert r.floatingIps[id := Some(port)][id := None] == r.floatingIps;
  }

  lemma ConnectRestores(r: Remote, id: nat, port: nat)
    requires id in r.floatingIps && r.floatingIps[id] == Some(port) && OnePerPort(r)
    ensures Run(Connect(id, port), r.(floatingIps := r.floatingIps[id := None])) == Done(r)
  {
    assert r.floatingIps[id := None][id := Some(port)] == r.floatingIps;
  }

  method DetachFloatingIpFromNetworkInterface(s: Stores, project: nat, id: nat, interface: nat, reading: IdReading, f: Faults)
    returns (ok: bool, s': Stores)
    requires Agree(s) && OnePerPort(s.remote)
    ensures var req := DetachFloatingIp(project, id, interface);
            s' == Outcome(req, reading, f, s) && ok == Completes(req, f, s)
    ensures var rows, ports := s.local.floatingIps, s.remote.floatingIps;
            var may := && id in rows && !rows[id].deleted && rows[id].projectId == project
                       && rows[id].interface == Some(interface);
            && (ok <==> may && f.remote && f.flush && f.commit)
            && s'.local == (if ok then s.local.(floatingIps := rows[id := rows[id].(interface := None, status := DOWN)]) else s.local)
            && s'.remote == if may && f.remote && (ok || !f.compensation || reading == WhenCalled)
                            then s.remote.(floatingIps := ports[id := None]) else s.remote
  {
    var manager := new CompensationManager<Undo>();
    var staged, remote, raised := s.local, s.remote, true;
    var undoes := f.compensation && reading.WhenRegistered?;
    if id in staged.floatingIps && !staged.floatingIps[id].deleted && staged.floatingIps[id].projectId == project
       && staged.floatingIps[id].interface == Some(interface) {
      var floatingIp := new FloatingIp(staged.floatingIps[id]);
      floatingIp.DetachFromNetworkInterface();
      assert id in Live(s.local.floatingIps);
      var reply := if f.remote then Run(Disconnect(id), remote) else Raised;
      if reply.Done? {
        remote := reply.after;
        manager.AddTask(Connect(id, interface));
        ConnectRestores(s.remote, id, interface);
        staged := staged.(floatingIps := staged.floatingIps[id := floatingIp.AsRow()]);
        raised := !f.flush;
      }
    }
    ok, s' := Close(s, staged, remote, manager, raised, f.commit, undoes);
  }

  /** Neutron never has two floating IPs on one port. */
  ghost predicate OnePerPort(r: Remote) {
    forall a, b :: a in r.floatingIps && b in r.floatingIps && a != b && r.floatingIps[a].Some? ==>
      r.floatingIps[a] != r.floatingIps[b]
  }

  // ---- Agreement ----------------------------------------------------------------------------------

  /** The request fails after its remote call, and that call is not undone. */
  predicate Strands(req: Request, reading: IdReading, f: Faults, s: Stores) {
    RemoteOnly(req, f, s) && !CanUndo(req, reading, f)
  }

  /** Where a request stops does not matter: the stores agree afterwards, except exactly when it failed
      after its remote call and the compensating call failed as well - which it always does for
      attaching and detaching as written. */
  lemma AgreementKeptIff(req: Request, reading: IdReading, f: Faults, s: Stores)
    requires Agree(s) && OnePerPort(s.remote) && NewIdUnseen(req, s)
    ensures Agree(Outcome(req, reading, f, s)) <==> !Strands(req, reading, f, s)
    ensures OnePerPort(Outcome(req, reading, f, s).remote)
  {
    if Allowed(req, s.local) && RemotelyPossible(req, s.remote) {
      EffectsCorrespond(req, s);
    }
  }

  /** The two halves of a request are the same change, and not an empty one. */
  lemma EffectsCorrespond(req: Request, s: Stores)
    requires Agree(s) && OnePerPort(s.remote) && NewIdUnseen(req, s)
    requires Allowed(req, s.local) && RemotelyPossible(req, s.remote)
    ensures Agree(Stores(LocalEffect(req, s.local), RemoteEffect(req, s.remote)))
    ensures OnePerPort(RemoteEffect(req, s.remote))
    ensures RemoteEffect(req, s.remote) != s.remote
  {
    var rows, ips := s.local.floatingIps, s.remote.floatingIps;
    var rows', ips' := LocalEffect(req, s.local).floatingIps, RemoteEffect(req, s.remote).floatingIps;
    match req
    case AssignUser(_, p, u) => assert (p, u) in RemoteEffect(req, s.remote).roles;
    case UnassignUser(_, p, u) => assert (p, u) !in RemoteEffect(req, s.remote).roles;
    case CreateFloatingIp(_, id) =>
      assert id in ips';
      assert Live(rows') == ips';
    case AttachFloatingIp(_, id, interface) =>
      assert ips[id] == Live(rows)[id] && ips'[id] == Some(interface);
      assert Live(rows') == ips';
    case DetachFloatingIp(_, id, interface) =>
      assert ips[id] == Live(rows)[id] && ips'[id] == None;
      assert Live(rows') == ips';
  }

  datatype Event = Event(req: Request, faults: Faults)

  function After(events: seq<Event>, reading: IdReading, s: Stores): Stores
    decreases |events|
  {
    if events == [] then s
    else
      var last := |events| - 1;
      Outcome(events[last].req, reading, events[last].faults, After(events[..last], reading, s))
  }

  ghost predicate NewIdsUnseen(events: seq<Event>, reading: IdReading, s: Stores) {
    forall i :: 0 <= i < |events| ==> NewIdUnseen(events[i].req, After(events[..i], reading, s))
  }

  ghost predicate AgreeAt(events: seq<Event>, reading: IdReading, s: Stores, k: nat)
    requires k <= |events|
  {
    Agree(After(events[..k], reading, s))
  }

  ghost predicate AgreeThroughout(events: seq<Event>, reading: IdReading, s: Stores) {
    forall k :: 0 <= k <= |events| ==> AgreeAt(events, reading, s, k)
  }

  predicate StrandsAt(events: seq<Event>, reading: IdReading, s: Stores, k: nat)
    requires k < |events|
  {
    Strands(events[k].req, reading, events[k].faults, After(events[..k], reading, s))
  }

  ghost predicate NoneStrands(events: seq<Event>, reading: IdReading, s: Stores) {
    forall k :: 0 <= k < |events| ==> !StrandsAt(events, reading, s, k)
  }

  /** Over every run of requests, with a failure at any remote call, write, commit or compensating call,
      the stores agree at every moment exactly if no request strands its remote change. */
  lemma {:induction false} RunsAgreeIff(events: seq<Event>, reading: IdReading, s: Stores)
    requires Agree(s) && OnePerPort(s.remote) && NewIdsUnseen(events, reading, s)
    ensures AgreeThroughout(events, reading, s) <==> NoneStrands(events, reading, s)
    ensures AgreeThroughout(events, reading, s) ==> OnePerPort(After(events, reading, s).remote)
    decreases |events|
  {
    if events == [] {
      assert AgreeAt(events, reading, s, 0) <==> Agree(s);
    } else {
      var last := |events| - 1;
      var before := events[..last];
      assert forall k :: 0 <= k <= last ==> before[..k] == events[..k];
      RunsAgreeIff(before, reading, s);
      LongerAgreement(events, reading, s);
      LongerStrands(events, reading, s);
      if AgreeThroughout(before, reading, s) {
        assert AgreeAt(before, reading, s, last) && before[..last] == before;
        AgreementKeptIff(events[last].req, reading, events[last].faults, After(before, reading, s));
      }
    }
  }

  lemma LongerAgreement(events: seq<Event>, reading: IdReading, s: Stores)
    requires events != []
    ensures AgreeThroughout(events, reading, s) <==>
              AgreeThroughout(events[..|events| - 1], reading, s) && Agree(After(events, reading, s))
  {
    var last := |events| - 1;
    var before := events[..last];
    assert AgreeAt(events, reading, s, |events|) == Agree(After(events, reading, s)) by {
      assert events[..|events|] == events;
    }
    forall k | 0 <= k <= last ensures AgreeAt(before, reading, s, k) == AgreeAt(events, reading, s, k) {
      assert before[..k] == events[..k];
    }
  }

  lemma LongerStrands(events: seq<Event>, reading: IdReading, s: Stores)
    requires events != []
    ensures var last := |events| - 1;
            NoneStrands(events, reading, s) <==> NoneStrands(events[..last], reading, s) && !StrandsAt(events, reading, s, last)
  {
    var last := |events| - 1;
    var before := events[..last];
    forall k | 0 <= k < last ensures StrandsAt(before, reading, s, k) == StrandsAt(events, reading, s, k) {
      assert before[..k] == events[..k];
    }
  }

  /** In particular, if whatever fails can be undone - for attaching and detaching as written: if none fails
      after its remote call. */
  lemma RunsAgree(events: seq<Event>, reading: IdReading, s: Stores)
    requires Agree(s) && OnePerPort(s.remote) && NewIdsUnseen(events, reading, s)
    requires forall i :: 0 <= i < |events| ==> Recovers(events[i], reading)
    ensures Agree(After(events, reading, s)) && OnePerPort(After(events, reading, s).remote)
  {
    RunsAgreeIff(events, reading, s);
    assert forall k :: 0 <= k < |events| ==> Recovers(events[k], reading) && !StrandsAt(events, reading, s, k);
    assert AgreeAt(events, reading, s, |events|) && events[..|events|] == events;
  }

  /** Either nothing goes wrong after the remote call, or the call can be undone. */
  predicate Recovers(e: Event, reading: IdReading) {
    (e.faults.flush && e.faults.commit) || CanUndo(e.req, reading, e.faults)
  }

  /** Requests are atomic over the run: leaving the failed ones out changes nothing. */
  function Successes(events: seq<Event>, reading: IdReading, s: Stores): seq<Event>
    decreases |events|
  {
    if events == [] then []
    else
      var last := |events| - 1;
      var before := Successes(events[..last], reading, s);
      if Completes(events[last].req, events[last].faults, After(events[..last], reading, s)) then before + [events[last]] else before
  }

  lemma {:induction false} FailuresLeaveNoTrace(events: seq<Event>, reading: IdReading, s: Stores)
    requires forall i :: 0 <= i < |events| ==> Recovers(events[i], reading)
    ensures After(Successes(events, reading, s), reading, s) == After(events, reading, s)
    ensures Successes(Successes(events, reading, s), reading, s) == Successes(events, reading, s)
    decreases |events|
  {
    if events == [] {
    } else {
      var last := |events| - 1;
      FailuresLeaveNoTrace(events[..last], reading, s);
      assert Recovers(events[last], reading);
      var before := Successes(events[..last], reading, s);
      assert (before + [events[last]])[..|before|] == before;
    }
  }

  const ROW: FloatingIpRow := FloatingIpRow(7, None, DOWN, false)

  /** An attachment as written whose commit fails, although every compensating call would get through:
      the row says detached, Neutron says attached. */
  lemma StrandedAttachment()
    ensures var s := Stores(Local({}, {}, {}, map[3 := 7], map[5 := ROW]), Remote({}, map[5 := None]));
            var fails := Faults(true, true, false, true);
            && Agree(s) && OnePerPort(s.remote)
            && Outcome(AttachFloatingIp(7, 5, 3), WhenCalled, fails, s) == s.(remote := Remote({}, map[5 := Some(3)]))
            && Outcome(AttachFloatingIp(7, 5, 3), WhenRegistered, fails, s) == s
  {
    var s := Stores(Local({}, {}, {}, map[3 := 7], map[5 := ROW]), Remote({}, map[5 := None]));
    assert Live(s.local.floatingIps) == map[5 := None];
    assert 5 in Live(s.local.floatingIps);
  }
}
