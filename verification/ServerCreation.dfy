/** `create_server`: a port, then a server that uses it, then the rows - compensated newest first. */
module ServerCreation {
  import opened Options
  import opened Compensation
  import opened Networking

  /** Neutron's ports and Nova's servers, each with the port it uses. */
  datatype Cloud = Cloud(ports: set<nat>, servers: map<nat, nat>)

  datatype Undo = DeletePort(port: nat) | DeleteServer(server: nat)

  /** A port in use cannot be deleted. */
  function Run(task: Undo, c: Cloud): Reply<Cloud> {
    match task
    case DeletePort(port) =>
      if port in c.ports && port !in c.servers.Values then Done(c.(ports := c.ports - {port})) else Raised
    case DeleteServer(server) =>
      if server in c.servers then Done(c.(servers := c.servers - {server})) else Raised
  }

  /** Which remote calls answer, and with which new id; whether the inserts and the commit succeed. */
  datatype Plan = Plan(nameTaken: bool, groupsAccessible: bool, port: Option<nat>, server: Option<nat>, inserts: bool, commits: bool)

  function Steps(plan: Plan): seq<Step<Undo, Cloud>> {
    [Step((c: Cloud) => if plan.port.Some? then Done(c.(ports := c.ports + {plan.port.value})) else Raised,
          (_, _) => DeletePort(plan.port.GetOr(0))),
     Step((c: Cloud) => if plan.server.Some? then Done(c.(servers := c.servers[plan.server.value := plan.port.GetOr(0)])) else Raised,
          (_, _) => DeleteServer(plan.server.GetOr(0)))]
  }

  /** The ids a remote service hands out are new, and nobody else uses a port just created. */
  predicate FreshIds(plan: Plan, c: Cloud) {
    && (plan.port.Some? ==> plan.port.value !in c.ports && plan.port.value !in c.servers.Values)
    && (plan.server.Some? ==> plan.server.value !in c.servers)
  }

  lemma StepsAreInvertible(plan: Plan, c: Cloud)
    requires FreshIds(plan, c)
    ensures ExactInverses(Steps(plan), Run, c)
  {
    var steps := Steps(plan);
    if plan.port.Some? {
      var c1 := c.(ports := c.ports + {plan.port.value});
      assert c1.ports - {plan.port.value} == c.ports;
      assert steps[0].act(c) == Done(c1) && Run(DeletePort(plan.port.value), c1) == Done(c);
      if plan.server.Some? {
        var c2 := c1.(servers := c1.servers[plan.server.value := plan.port.value]);
        assert c2.servers - {plan.server.value} == c1.servers;
        assert steps[1..][0].act(c1) == Done(c2) && Run(DeleteServer(plan.server.value), c2) == Done(c1);
      }
    }
  }

  /** What a failed creation leaves, if the calls at positions 0 (the port) and 1 (the server) of the
      log get through as `answers` says.  A server that stays keeps its port. */
  function Leftover(plan: Plan, answers: nat -> bool, c: Cloud): Cloud {
    if plan.nameTaken || !plan.groupsAccessible || plan.port.None? then c
    else
      var withPort := c.(ports := c.ports + {plan.port.value});
      if plan.server.Some? && !answers(1) then withPort.(servers := c.servers[plan.server.value := plan.port.value])
      else if !answers(0) then withPort
      else c
  }

  /** On success there is a new port and a server using it; on a failure at any point neither, as far
      as the compensating calls get through. */
  method CreateServer(plan: Plan, answers: nat -> bool, c: Cloud, groups: seq<nat>) returns (ok: bool, c': Cloud, nic: NetworkInterface)
    requires FreshIds(plan, c)
    ensures ok <==> !plan.nameTaken && plan.groupsAccessible && plan.port.Some? && plan.server.Some? && plan.inserts && plan.commits
    ensures ok ==> c' == Cloud(c.ports + {plan.port.value}, c.servers[plan.server.value := plan.port.value])
    ensures ok ==> nic.server == plan.server && nic.groups == groups && !nic.deleted
    ensures !ok ==> c' == Leftover(plan, answers, c)
    ensures !ok && answers(0) && answers(1) ==> c' == c
  {
    var manager := new CompensationManager<Undo>();
    ok, c' := false, c;
    nic := new NetworkInterface(plan.server);
    if plan.nameTaken || !plan.groupsAccessible {
      return;
    }
    var raised := true;
    if plan.port.Some? {
      c' := c'.(ports := c'.ports + {plan.port.value});
      manager.AddTask(DeletePort(plan.port.value));
      if plan.server.Some? {
        c' := c'.(servers := c'.servers[plan.server.value := plan.port.value]);
        manager.AddTask(DeleteServer(plan.server.value));
        if plan.inserts {
          nic.AddSecurityGroups(groups);
          raised := !plan.commits;
        }
      }
    }
    ok := !raised;
    if raised {
      CreationLog(plan, c);
      UnwindCreation(plan, answers, c);
      var back, _ := manager.Rollback(Run, answers, c');
      c' := back;
    }
  }

  lemma UnwindCreation(plan: Plan, answers: nat -> bool, c: Cloud)
    requires FreshIds(plan, c) && !plan.nameTaken && plan.groupsAccessible
    ensures var end := Advance(Steps(plan), c, []);
            Unwind(Answering(end.tasks, 0, answers), Run, end.state) == Leftover(plan, answers, c)
  {
    CreationLog(plan, c);
    if plan.port.Some? && plan.server.Some? {
      UnwindBoth(c, plan.port.value, plan.server.value, answers);
    } else if plan.port.Some? {
      UnwindPort(c, plan.port.value, answers);
    }
  }

  lemma UnwindPort(c: Cloud, port: nat, answers: nat -> bool)
    requires port !in c.ports && port !in c.servers.Values
    ensures var withPort := c.(ports := c.ports + {port});
            Unwind(Answering([DeletePort(port)], 0, answers), Run, withPort) == if answers(0) then c else withPort
  {
    var task := DeletePort(port);
    assert [task][..0] == [] && Answering([task], 0, answers) == if answers(0) then [task] else [];
    OneTask(task, c.(ports := c.ports + {port}));
    assert c.ports + {port} - {port} == c.ports;
  }

  lemma UnwindBoth(c: Cloud, port: nat, server: nat, answers: nat -> bool)
    requires port !in c.ports && port !in c.servers.Values && server !in c.servers
    ensures var withPort := c.(ports := c.ports + {port});
            var full := withPort.(servers := c.servers[server := port]);
            Unwind(Answering([DeletePort(port), DeleteServer(server)], 0, answers), Run, full)
            == if !answers(1) then full else if !answers(0) then withPort else c
  {
    var full := Cloud(c.ports + {port}, c.servers[server := port]);
    TwoTasks(DeletePort(port), DeleteServer(server), full, answers);
    assert full.servers[server] in full.servers.Values;
    assert full.servers - {server} == c.servers;
    assert c.ports + {port} - {port} == c.ports;
  }

  lemma CreationLog(plan: Plan, c: Cloud)
    requires FreshIds(plan, c)
    ensures var end := Advance(Steps(plan), c, []);
            if plan.port.None? then end.tasks == [] && end.state == c
            else if plan.server.None? then
              end.tasks == [DeletePort(plan.port.value)] && end.state == c.(ports := c.ports + {plan.port.value})
            else
              && end.tasks == [DeletePort(plan.port.value), DeleteServer(plan.server.value)]
              && end.state == Cloud(c.ports + {plan.port.value}, c.servers[plan.server.value := plan.port.value])
  {
    var steps := Steps(plan);
    assert steps[1..] == [steps[1]] && [steps[1]][1..] == [];
  }

  lemma TwoTasks(older: Undo, newer: Undo, c: Cloud, answers: nat -> bool)
    ensures var mid := if answers(1) then Settled(Run(newer, c), c) else c;
            Unwind(Answering([older, newer], 0, answers), Run, c) == if answers(0) then Settled(Run(older, mid), mid) else mid
  {
    assert [older, newer][..1] == [older] && [older][..0] == [];
    assert Answering([older], 0, answers) == if answers(0) then [older] else [];
    assert [older, newer] == [older] + [newer];
    var first := Answering([older], 0, answers);
    var all := Answering([older, newer], 0, answers);
    assert all == if answers(1) then first + [newer] else first;
    if answers(1) { UnwindConcat(first, [newer], Run, c); }
    OneTask(newer, c);
    OneTask(older, if answers(1) then Settled(Run(newer, c), c) else c);
  }

  /** The order matters: oldest first, the port is still in use when it is its turn, and stays. */
  lemma OldestFirstLeavesThePort(c: Cloud, port: nat, server: nat)
    requires FreshIds(Plan(false, true, Some(port), Some(server), true, false), c)
    ensures var full := Cloud(c.ports + {port}, c.servers[server := port]);
            && Unwind([DeleteServer(server), DeletePort(port)], Run, full) == c.(ports := c.ports + {port})
            && Unwind([DeletePort(port), DeleteServer(server)], Run, full) == c
  {
    var full := Cloud(c.ports + {port}, c.servers[server := port]);
    assert full.servers[server] in full.servers.Values;
    assert full.servers - {server} == c.servers;
    assert c.ports + {port} - {port} == c.ports;
    var wrong, right := [DeleteServer(server), DeletePort(port)], [DeletePort(port), DeleteServer(server)];
    var portOnly := c.(ports := c.ports + {port});
    assert wrong[..1] == [DeleteServer(server)] && right[..1] == [DeletePort(port)];
    OneTask(DeleteServer(server), full);
    OneTask(DeletePort(port), portOnly);
    assert Run(DeletePort(port), full) == Raised;
    assert Run(DeleteServer(server), full) == Done(portOnly);
    assert Run(DeletePort(port), portOnly) == Done(c);
    assert Unwind(wrong, Run, full) == Unwind([DeleteServer(server)], Run, full);
    assert Unwind(right, Run, full) == Unwind([DeletePort(port)], Run, portOnly);
  }

  lemma OneTask(task: Undo, c: Cloud)
    ensures Unwind([task], Run, c) == Settled(Run(task, c), c)
  {
    assert [task][..0] == [];
  }
}
