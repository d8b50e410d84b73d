/** `update_security_group_detail`: one request's saga over the database row and Neutron, with its
    retries, its gathered deletes and its compensations.

    Everything outside the service is an oracle, one `Plan` per try: what the row read returns,
    which remote calls raise, in which order the gathered deletes complete and how the commit ends.
    A raising remote call changes nothing. */
module SecurityGroupUpdate {
  import opened Options
  import opened Compensation
  import opened SecurityGroupRules

  const MAX_TRIES: nat := 3

  // ---- The remote side ------------------------------------------------------------------------

  /** Neutron's copy of the group, and the `for rule in created_rules` variables of the frames that
      registered tasks: a task that closes over such a variable looks it up when it is called. */
  datatype World = World(groupId: nat, name: string, rules: seq<Rule>, nextId: nat, loopVars: seq<Rule>)

  ghost predicate Valid(w: World) {
    DistinctIds(w.rules) && forall r :: r in w.rules ==> r.id < w.nextId
  }

  function NewRules(w: World, contents: seq<Content>): seq<Rule> {
    seq(|contents|, i requires 0 <= i < |contents| => Rule(w.nextId + i, w.groupId, contents[i]))
  }

  function Created(w: World, contents: seq<Content>): World {
    w.(rules := w.rules + NewRules(w, contents), nextId := w.nextId + |contents|)
  }

  function Deleted(w: World, id: nat): Reply<World> {
    if id in Ids(w.rules) then Done(w.(rules := Without(w.rules, {id}))) else Raised
  }

  datatype Undo =
    | RestoreName(name: string)
    | Recreate(content: Content)
    | DeleteLoopVar(frame: nat)   // the lambda that captured the loop variable
    | DeleteBound(id: nat)        // what a lambda bound per iteration would have captured

  function Run(task: Undo, w: World): Reply<World> {
    match task
    case RestoreName(name) => Done(w.(name := name))
    case Recreate(content) => Done(Created(w, [content]))
    case DeleteLoopVar(frame) => if frame < |w.loopVars| then Deleted(w, w.loopVars[frame].id) else Raised
    case DeleteBound(id) => Deleted(w, id)
  }

  // ---- Requests, rows and oracles ---------------------------------------------------------------

  datatype Request = Request(projectId: nat, name: string, description: Option<string>, rules: seq<Content>)

  datatype Row = Row(projectId: nat, name: string, description: Option<string>, version: nat)

  datatype Error =
    | NotFound | UpdatePermissionDenied | NameDuplicated
    | OpenStack | RuleDeletionFailed | Transport | Database

  /** How one gathered delete ends: done, answered with an `OpenStackException`, or cut short by any
      other exception, which `asyncio.gather` passes on at once while the other deletes run on. */
  datatype Fate = Succeeds | Refused | Broken

  datatype CommitFault = Commits | FindsStale | Breaks

  /** `pick` and `fate` decide the completion order of the gathered deletes and how each ends;
      `grace` is how many more complete between a `Broken` one and the start of the rollback. */
  datatype Plan = Plan(
    row: Option<Row>, nameTaken: bool, renames: bool, lists: bool,
    pick: nat -> nat, fate: nat -> Fate, grace: nat, creates: bool, commit: CommitFault)

  datatype Completion = Completion(rule: Rule, fate: Fate)

  /** The entity of the row a try has read. */
  class SecurityGroup {
    const projectId: nat
    var name: string
    var description: Option<string>
    var version: nat

    constructor (row: Row)
      ensures AsRow() == row
    {
      projectId, name, description, version := row.projectId, row.name, row.description, row.version;
    }

    function AsRow(): Row
      reads this
    {
      Row(projectId, name, description, version)
    }

    method UpdateInfo(newName: string, newDescription: Option<string>)
      modifies this
      ensures AsRow() == old(AsRow()).(name := newName, description := newDescription)
    {
      name, description := newName, newDescription;
    }
  }

  // ---- The gathered deletes ---------------------------------------------------------------------

  function Schedule(pending: seq<Rule>, plan: Plan, k: nat): seq<Completion>
    decreases |pending|
  {
    if pending == [] then []
    else
      var i := plan.pick(k) % |pending|;
      [Completion(pending[i], plan.fate(k))] + Schedule(pending[..i] + pending[i + 1..], plan, k + 1)
  }

  function FirstBroken(order: seq<Completion>): (b: nat)
    ensures b <= |order|
    ensures forall k :: 0 <= k < b ==> !order[k].fate.Broken?
    ensures b < |order| ==> order[b].fate.Broken?
  {
    if order == [] || order[0].fate.Broken? then 0 else 1 + FirstBroken(order[1..])
  }

  /** How many completions have registered their task by the time a rollback can start. */
  function InTime(order: seq<Completion>, grace: nat): (n: nat)
    ensures n <= |order|
  {
    var b := FirstBroken(order);
    if b == |order| || b + 1 + grace >= |order| then |order| else b + 1 + grace
  }

  function Gone(order: seq<Completion>): seq<Rule> {
    if order == [] then []
    else
      var last := |order| - 1;
      var front := Gone(order[..last]);
      if order[last].fate.Succeeds? then front + [order[last].rule] else front
  }

  function Lacking(w: World, gone: seq<Rule>): World {
    w.(rules := Without(w.rules, Ids(gone)))
  }

  function Recreations(rules: seq<Rule>): seq<Undo> {
    seq(|rules|, i requires 0 <= i < |rules| => Recreate(rules[i].content))
  }

  function GatherError(order: seq<Completion>): Option<Error> {
    if FirstBroken(order) < |order| then Some(Transport)
    else if exists c :: c in order && c.fate.Refused? then Some(RuleDeletionFailed)
    else None
  }

  /** Every order is a permutation of the pending deletes. */
  lemma {:induction false} ScheduleIsPermutation(pending: seq<Rule>, plan: Plan, k: nat)
    ensures var order := Schedule(pending, plan, k);
            && |order| == |pending|
            && (forall c :: c in order ==> c.rule in pending)
            && (forall r :: r in pending ==> exists c :: c in order && c.rule == r)
    decreases |pending|
  {
    if pending == [] {
    } else {
      var i := plan.pick(k) % |pending|;
      var rest := pending[..i] + pending[i + 1..];
      var order := Schedule(pending, plan, k);
      var tail := Schedule(rest, plan, k + 1);
      ScheduleIsPermutation(rest, plan, k + 1);
      assert order == [order[0]] + tail;
      forall r | r in pending ensures exists c :: c in order && c.rule == r {
        if r == pending[i] {
          assert order[0] in order;
        } else {
          assert r in rest;
          var c :| c in tail && c.rule == r;
          assert c in order;
        }
      }
    }
  }

  lemma OthersDistinct(pending: seq<Rule>, i: nat)
    requires DistinctIds(pending) && i < |pending|
    ensures var rest := pending[..i] + pending[i + 1..];
            DistinctIds(rest) && forall r :: r in rest ==> r.id != pending[i].id
  {
    var rest := pending[..i] + pending[i + 1..];
    forall m | 0 <= m < |rest| ensures rest[m] == pending[if m < i then m else m + 1] {}
    forall m, n | 0 <= m < n < |rest| ensures rest[m].id != rest[n].id {
      assert pending[if m < i then m else m + 1].id != pending[if n < i then n else n + 1].id;
    }
  }

  lemma {:induction false} ScheduleKeepsDistinct(pending: seq<Rule>, plan: Plan, k: nat)
    requires DistinctIds(pending)
    ensures var order := Schedule(pending, plan, k);
            forall i, j :: 0 <= i < j < |order| ==> order[i].rule.id != order[j].rule.id
    decreases |pending|
  {
    if pending == [] {
    } else {
      var i := plan.pick(k) % |pending|;
      var rest := pending[..i] + pending[i + 1..];
      var tail := Schedule(rest, plan, k + 1);
      OthersDistinct(pending, i);
      ScheduleKeepsDistinct(rest, plan, k + 1);
      ScheduleIsPermutation(rest, plan, k + 1);
      OthersAvoid(tail, rest, pending[i].id);
      FirstDistinct(Completion(pending[i], plan.fate(k)), tail);
    }
  }

  lemma OthersAvoid(order: seq<Completion>, rules: seq<Rule>, id: nat)
    requires (forall c :: c in order ==> c.rule in rules) && forall r :: r in rules ==> r.id != id
    ensures forall b :: 0 <= b < |order| ==> order[b].rule.id != id
  {
    forall b | 0 <= b < |order| ensures order[b].rule.id != id { assert order[b] in order; }
  }

  lemma FirstDistinct(first: Completion, tail: seq<Completion>)
    requires forall b :: 0 <= b < |tail| ==> tail[b].rule.id != first.rule.id
    requires forall a, b :: 0 <= a < b < |tail| ==> tail[a].rule.id != tail[b].rule.id
    ensures var order := [first] + tail; forall a, b :: 0 <= a < b < |order| ==> order[a].rule.id != order[b].rule.id
  {
    var order := [first] + tail;
    forall a, b | 0 <= a < b < |order| ensures order[a].rule.id != order[b].rule.id {
      assert order[b] == tail[b - 1];
      if a > 0 { assert order[a] == tail[a - 1]; }
    }
  }

  lemma {:induction false} GoneFromOrder(order: seq<Completion>)
    requires forall i, j :: 0 <= i < j < |order| ==> order[i].rule.id != order[j].rule.id
    ensures DistinctIds(Gone(order))
    ensures forall r :: r in Gone(order) ==> exists c :: c in order && c.rule == r
  {
    if order == [] {
    } else {
      var last := |order| - 1;
      GoneFromOrder(order[..last]);
      var front := Gone(order[..last]);
      forall r | r in front ensures exists c :: c in order && c.rule == r && r.id != order[last].rule.id {
        var c :| c in order[..last] && c.rule == r;
        var m :| 0 <= m < last && order[m] == c;
      }
      assert order[last] in order;
    }
  }

  lemma {:induction false} AllGone(order: seq<Completion>)
    requires forall c :: c in order ==> c.fate.Succeeds?
    ensures |Gone(order)| == |order|
    ensures forall i :: 0 <= i < |order| ==> Gone(order)[i] == order[i].rule
  {
    if order == [] {
    } else {
      var last := |order| - 1;
      forall c | c in order[..last] ensures c.fate.Succeeds? { assert c in order; }
      AllGone(order[..last]);
      assert order[last] in order;
    }
  }

  /** `_delete_security_group_rules`.  `late` are the deletes that reach Neutron only after the
      rollback has begun: their tasks are registered too late to be called. */
  method DeleteSecurityGroupRules(manager: CompensationManager<Undo>, w: World, toDelete: seq<Rule>, plan: Plan)
    returns (error: Option<Error>, w': World, late: seq<Rule>)
    requires Valid(w) && DistinctIds(toDelete) && forall r :: r in toDelete ==> r in w.rules
    modifies manager
    ensures var order := Schedule(toDelete, plan, 0);
            var n := InTime(order, plan.grace);
            && error == GatherError(order)
            && w' == Lacking(w, Gone(order[..n]))
            && late == Gone(order[n..])
            && manager.tasks == old(manager.tasks) + Recreations(Gone(order[..n]))
  {
    var order := Schedule(toDelete, plan, 0);
    ScheduleIsPermutation(toDelete, plan, 0);
    ScheduleKeepsDistinct(toDelete, plan, 0);
    var n := InTime(order, plan.grace);
    forall i | 0 <= i < n ensures order[..n][i].rule in w.rules {
      assert order[i] in order;
    }
    w' := CompleteInTime(manager, w, order[..n]);
    late := CompleteLate(order[n..]);
    error := GatherError(order);
  }

  method CompleteInTime(manager: CompensationManager<Undo>, w: World, order: seq<Completion>) returns (w': World)
    requires forall i :: 0 <= i < |order| ==> order[i].rule in w.rules
    requires forall i, j :: 0 <= i < j < |order| ==> order[i].rule.id != order[j].rule.id
    modifies manager
    ensures w' == Lacking(w, Gone(order))
    ensures manager.tasks == old(manager.tasks) + Recreations(Gone(order))
  {
    NoDeletes(w);
    w' := w;
    for k := 0 to |order|
      invariant w' == Lacking(w, Gone(order[..k]))
      invariant manager.tasks == old(manager.tasks) + Recreations(Gone(order[..k]))
    {
      GoneNext(order, k);
      if order[k].fate.Succeeds? {
        OneMoreRecreation(Gone(order[..k]), order[k].rule);
        AppendAssociates(old(manager.tasks), Recreations(Gone(order[..k])), [Recreate(order[k].rule.content)]);
        w' := DeleteInTime(manager, order, k, w, w');
      }
    }
    assert order[..|order|] == order;
  }

  lemma GoneNext(order: seq<Completion>, k: nat)
    requires k < |order|
    ensures Gone(order[..k + 1]) == if order[k].fate.Succeeds? then Gone(order[..k]) + [order[k].rule] else Gone(order[..k])
  {
    assert order[..k + 1][..k] == order[..k];
  }

  method CompleteLate(rest: seq<Completion>) returns (late: seq<Rule>)
    ensures late == Gone(rest)
  {
    late := [];
    for k := 0 to |rest|
      invariant late == Gone(rest[..k])
    {
      GoneNext(rest, k);
      if rest[k].fate.Succeeds? {
        late := late + [rest[k].rule];
      }
    }
    assert rest[..|rest|] == rest;
  }

  lemma OneMoreRecreation(rules: seq<Rule>, r: Rule)
    ensures Recreations(rules + [r]) == Recreations(rules) + [Recreate(r.content)]
  {}

  /** One delete completing in time: the rule is still listed, goes, and its task is registered. */
  method DeleteInTime(manager: CompensationManager<Undo>, order: seq<Completion>, k: nat, w: World, before: World)
    returns (after: World)
    requires k < |order| && order[k].fate.Succeeds?
    requires before == Lacking(w, Gone(order[..k]))
    requires order[k].rule in w.rules
    requires forall i, j :: 0 <= i < j < |order| ==> order[i].rule.id != order[j].rule.id
    modifies manager
    ensures after == Lacking(w, Gone(order[..k]) + [order[k].rule])
    ensures manager.tasks == old(manager.tasks) + [Recreate(order[k].rule.content)]
  {
    var rule := order[k].rule;
    GoneFromOrder(order[..k]);
    forall r | r in Gone(order[..k]) ensures r.id != rule.id {
      var c :| c in order[..k] && c.rule == r;
      var m :| 0 <= m < k && order[m] == c;
    }
    assert rule.id !in Ids(Gone(order[..k]));
    assert rule in before.rules;
    after := Settled(Deleted(before, rule.id), before);
    WithoutTwice(w.rules, Ids(Gone(order[..k])), {rule.id});
    assert Ids(Gone(order[..k]) + [rule]) == Ids(Gone(order[..k])) + {rule.id};
    manager.AddTask(Recreate(rule.content));
  }

  // ---- The bulk creation ------------------------------------------------------------------------

  /** `SharedLoopVar` is the code as written; `PerIteration` is the code it was meant to be. */
  datatype Binding = SharedLoopVar | PerIteration

  function CreationTasks(w: World, contents: seq<Content>, binding: Binding): seq<Undo> {
    match binding
    case SharedLoopVar => seq(|contents|, _ => DeleteLoopVar(|w.loopVars|))
    case PerIteration => seq(|contents|, i requires 0 <= i < |contents| => DeleteBound(w.nextId + i))
  }

  function AfterCreation(w: World, contents: seq<Content>): World
    requires contents != []
  {
    Created(w, contents).(loopVars := w.loopVars + [NewRules(w, contents)[|contents| - 1]])
  }

  /** `_create_security_group_rules`: every registered task shares the loop variable. */
  method CreateSecurityGroupRules(manager: CompensationManager<Undo>, w: World, toAdd: seq<Content>, answers: bool)
    returns (error: Option<Error>, created: seq<Rule>, w': World)
    requires toAdd != []
    modifies manager
    ensures !answers ==> error == Some(OpenStack) && w' == w && manager.tasks == old(manager.tasks)
    ensures answers ==>
              && error == None && created == NewRules(w, toAdd) && w' == AfterCreation(w, toAdd)
              && manager.tasks == old(manager.tasks) + CreationTasks(w, toAdd, SharedLoopVar)
  {
    if !answers {
      return Some(OpenStack), [], w;
    }
    created := NewRules(w, toAdd);
    w' := Created(w, toAdd);
    var frame := |w'.loopVars|;
    w' := w'.(loopVars := w'.loopVars + [created[0]]);
    for i := 0 to |created|
      invariant w' == Created(w, toAdd).(loopVars := w.loopVars + [created[if i == 0 then 0 else i - 1]])
      invariant manager.tasks == old(manager.tasks) + seq(i, _ => DeleteLoopVar(frame))
    {
      w' := w'.(loopVars := w'.loopVars[frame := created[i]]);
      manager.AddTask(DeleteLoopVar(frame));
    }
    error := None;
  }

  // ---- The rule phase -----------------------------------------------------------------------------

  datatype RulePhase = RulePhase(error: Option<Error>, response: seq<Rule>, world: World, tasks: seq<Undo>, late: seq<Rule>)

  function UpdateRules(wanted: seq<Content>, plan: Plan, w: World, tasks: seq<Undo>, binding: Binding): RulePhase {
    if !plan.lists then RulePhase(Some(OpenStack), [], w, tasks, [])
    else
      var missing := Missing(w.rules, wanted);
      var order := Schedule(Surplus(w.rules, wanted), plan, 0);
      var n := InTime(order, plan.grace);
      var w1 := Lacking(w, Gone(order[..n]));
      var tasks1 := tasks + Recreations(Gone(order[..n]));
      if GatherError(order).Some? then RulePhase(GatherError(order), [], w1, tasks1, Gone(order[n..]))
      else if missing == [] then RulePhase(None, Kept(w.rules, wanted), w1, tasks1, [])
      else if !plan.creates then RulePhase(Some(OpenStack), [], w1, tasks1, [])
      else RulePhase(None, Kept(w.rules, wanted) + NewRules(w1, missing), AfterCreation(w1, missing),
                     tasks1 + CreationTasks(w1, missing, binding), [])
  }

  /** Nothing is called if nothing is surplus. */
  method DeleteSurplus(manager: CompensationManager<Undo>, w: World, toDelete: seq<Rule>, plan: Plan)
    returns (error: Option<Error>, w': World, late: seq<Rule>)
    requires Valid(w) && DistinctIds(toDelete) && forall r :: r in toDelete ==> r in w.rules
    modifies manager
    ensures var order := Schedule(toDelete, plan, 0);
            var n := InTime(order, plan.grace);
            && error == GatherError(order)
            && w' == Lacking(w, Gone(order[..n]))
            && late == Gone(order[n..])
            && manager.tasks == old(manager.tasks) + Recreations(Gone(order[..n]))
  {
    if toDelete == [] {
      NoDeletes(w);
      assert manager.tasks + [] == manager.tasks;
      return None, w, [];
    }
    error, w', late := DeleteSecurityGroupRules(manager, w, toDelete, plan);
  }

  /** The rule phase once the difference is known. */
  method ApplyDifference(manager: CompensationManager<Undo>, w: World, ghost wanted: seq<Content>,
                         toDelete: seq<Rule>, toAdd: seq<Content>, plan: Plan)
    returns (error: Option<Error>, created: seq<Rule>, w': World, late: seq<Rule>)
    requires Valid(w) && plan.lists && toDelete == Surplus(w.rules, wanted) && toAdd == Missing(w.rules, wanted)
    modifies manager
    ensures var e := UpdateRules(wanted, plan, w, old(manager.tasks), SharedLoopVar);
            && error == e.error && w' == e.world && late == e.late && manager.tasks == e.tasks
            && (error.None? ==> Kept(w.rules, wanted) + created == e.response)
  {
    SurplusGoneIsKept(w.rules, wanted);
    error, w', late := DeleteSurplus(manager, w, toDelete, plan);
    created := [];
    if error.Some? {
      return;
    }
    NoErrorNoneLate(Schedule(toDelete, plan, 0), plan.grace);
    assert Kept(w.rules, wanted) + [] == Kept(w.rules, wanted);
    if toAdd != [] {
      error, created, w' := CreateSecurityGroupRules(manager, w', toAdd, plan.creates);
    }
  }

  lemma InStepDifference(wanted: seq<Content>, plan: Plan, w: World, tasks: seq<Undo>, binding: Binding)
    requires Valid(w) && plan.lists && Surplus(w.rules, wanted) == [] && Missing(w.rules, wanted) == []
    ensures UpdateRules(wanted, plan, w, tasks, binding) == RulePhase(None, w.rules, w, tasks, [])
  {
    NoDeletes(w);
    SurplusGoneIsKept(w.rules, wanted);
    assert Schedule([], plan, 0) == [] && Ids([]) == {};
    assert tasks + [] == tasks;
  }

  method UpdateSecurityGroupRules(manager: CompensationManager<Undo>, w: World, wanted: seq<Content>, plan: Plan)
    returns (error: Option<Error>, response: seq<Rule>, w': World, late: seq<Rule>)
    requires Valid(w)
    modifies manager
    ensures RulePhase(error, if error.None? then response else [], w', manager.tasks, late)
            == UpdateRules(wanted, plan, w, old(manager.tasks), SharedLoopVar)
  {
    if !plan.lists {
      return Some(OpenStack), [], w, [];
    }
    var existing := w.rules;
    var toDelete, toKeep := SplitExisting(existing, wanted);
    var toAdd := SelectMissing(existing, wanted);
    if toDelete == [] && toAdd == [] {
      InStepDifference(wanted, plan, w, manager.tasks, SharedLoopVar);
      return None, existing, w, [];
    }
    var created;
    error, created, w', late := ApplyDifference(manager, w, wanted, toDelete, toAdd, plan);
    response := toKeep + created;
  }

  lemma NoDeletes(w: World)
    ensures Ids(Gone([])) == {} && Without(w.rules, {}) == w.rules && Recreations([]) == []
  {
    WithoutNothing(w.rules, {});
  }

  lemma NoErrorNoneLate(order: seq<Completion>, grace: nat)
    requires GatherError(order).None?
    ensures InTime(order, grace) == |order| && Gone(order[InTime(order, grace)..]) == []
    ensures forall c :: c in order ==> c.fate.Succeeds?
  {}

  // ---- One try, the retries and the request ------------------------------------------------------

  datatype TryEnd =
    | Returned(response: seq<Rule>, committed: Row)
    | Stale
    | Failed(error: Error, late: seq<Rule>)

  datatype Try = Try(end: TryEnd, world: World, tasks: seq<Undo>)

  /** The guards before any remote work. */
  function Guard(req: Request, plan: Plan): Option<Error> {
    if plan.row.None? then Some(NotFound)
    else if plan.row.value.projectId != req.projectId then Some(UpdatePermissionDenied)
    else if plan.row.value.name != req.name && plan.nameTaken then Some(NameDuplicated)
    else None
  }

  /** The row a successful commit leaves.  The version moves only if some column really changed. */
  function Committed(req: Request, row: Row): Row {
    if (row.name, row.description) == (req.name, req.description) then row
    else row.(name := req.name, description := req.description, version := row.version + 1)
  }

  /** The version check runs only for a changed row: an unchanged one issues no UPDATE at all. */
  function CommitEnd(req: Request, row: Row, commit: CommitFault, response: seq<Rule>): TryEnd {
    match commit
    case Breaks => Failed(Database, [])
    case FindsStale => if Committed(req, row) == row then Returned(response, row) else Stale
    case Commits => Returned(response, Committed(req, row))
  }

  function RenameTasks(req: Request, plan: Plan): seq<Undo> {
    if Guard(req, plan).None? && plan.row.value.name != req.name && plan.renames
    then [RestoreName(plan.row.value.name)] else []
  }

  function TryOnce(req: Request, plan: Plan, w: World, tasks: seq<Undo>, binding: Binding): Try {
    if Guard(req, plan).Some? then Try(Failed(Guard(req, plan).value, []), w, tasks)
    else
      var row := plan.row.value;
      if row.name != req.name && !plan.renames then Try(Failed(OpenStack, []), w, tasks)
      else
        var w1 := if row.name != req.name then w.(name := req.name) else w;
        var phase := UpdateRules(req.rules, plan, w1, tasks + RenameTasks(req, plan), binding);
        if phase.error.Some? then Try(Failed(phase.error.value, phase.late), phase.world, phase.tasks)
        else
          Try(CommitEnd(req, row, plan.commit, phase.response), phase.world, phase.tasks)
  }

  /** `backoff.on_exception(..., StaleDataError, max_tries=3)`: every try shares the manager. */
  function Retry(req: Request, plans: seq<Plan>, w: World, tasks: seq<Undo>, binding: Binding): Try
    requires plans != []
  {
    var first := TryOnce(req, plans[0], w, tasks, binding);
    if first.end.Stale? && |plans| > 1 then Retry(req, plans[1..], first.world, first.tasks, binding) else first
  }

  /** Neutron once the whole request is over: after a failure, the log unwound as far as its calls
      get through, and then the late deletes. */
  function Aftermath(end: Try, answers: nat -> bool): World {
    var back := Unwind(Answering(end.tasks, 0, answers), Run, end.world);
    match end.end
    case Returned(_, _) => end.world
    case Stale => back
    case Failed(_, late) => Lacking(back, late)
  }

  method UpdateSecurityGroupInfo(manager: CompensationManager<Undo>, group: SecurityGroup, w: World, req: Request, answers: bool)
    returns (error: Option<Error>, w': World)
    modifies manager, group
    ensures group.AsRow() == old(group.AsRow()).(name := req.name, description := req.description)
    ensures old(group.name) == req.name ==> error == None && w' == w && manager.tasks == old(manager.tasks)
    ensures old(group.name) != req.name && answers ==>
              && error == None && w' == w.(name := req.name)
              && manager.tasks == old(manager.tasks) + [RestoreName(old(group.name))]
    ensures old(group.name) != req.name && !answers ==>
              error == Some(OpenStack) && w' == w && manager.tasks == old(manager.tasks)
  {
    var existingName := group.name;
    error, w' := None, w;
    group.UpdateInfo(req.name, req.description);
    if req.name != existingName {
      if !answers {
        return Some(OpenStack), w;
      }
      w' := w.(name := req.name);
      manager.AddTask(RestoreName(existingName));
    }
  }

  /** The end of the transaction: a changed row is updated under its version, an unchanged one is
      not touched. */
  method Commit(group: SecurityGroup, req: Request, loaded: Row, commit: CommitFault, response: seq<Rule>) returns (end: TryEnd)
    requires group.AsRow() == loaded.(name := req.name, description := req.description)
    modifies group
    ensures end == CommitEnd(req, loaded, commit, response)
    ensures end.Returned? ==> group.AsRow() == end.committed
  {
    var dirty := group.AsRow() != loaded;
    if commit.Breaks? {
      return Failed(Database, []);
    }
    if dirty {
      if commit.FindsStale? {
        return Stale;
      }
      group.version := group.version + 1;
    }
    end := Returned(response, group.AsRow());
  }

  /** One `@transactional` try, up to and including its commit. */
  method UpdateSecurityGroupDetail(manager: CompensationManager<Undo>, req: Request, plan: Plan, w: World)
    returns (end: TryEnd, w': World)
    requires Valid(w)
    modifies manager
    ensures Try(end, w', manager.tasks) == TryOnce(req, plan, w, old(manager.tasks), SharedLoopVar)
  {
    if plan.row.None? {
      return Failed(NotFound, []), w;
    }
    var group := new SecurityGroup(plan.row.value);
    if group.projectId != req.projectId {
      return Failed(UpdatePermissionDenied, []), w;
    }
    if group.name != req.name && plan.nameTaken {
      return Failed(NameDuplicated, []), w;
    }
    end, w' := UpdateRemoteAndCommit(manager, group, req, plan, w);
  }

  method UpdateRemoteAndCommit(manager: CompensationManager<Undo>, group: SecurityGroup, req: Request, plan: Plan, w: World)
    returns (end: TryEnd, w': World)
    requires Valid(w) && Guard(req, plan).None? && group.AsRow() == plan.row.value
    modifies manager, group
    ensures Try(end, w', manager.tasks) == TryOnce(req, plan, w, old(manager.tasks), SharedLoopVar)
  {
    var error;
    error, w' := UpdateSecurityGroupInfo(manager, group, w, req, plan.renames);
    if error.Some? {
      return Failed(error.value, []), w';
    }
    assert manager.tasks == old(manager.tasks) + RenameTasks(req, plan);
    var response, late;
    error, response, w', late := UpdateSecurityGroupRules(manager, w', req.rules, plan);
    if error.Some? {
      return Failed(error.value, late), w';
    }
    end := Commit(group, req, plan.row.value, plan.commit, response);
  }

  /** Up to `MAX_TRIES` tries with one manager. */
  method UpdateWithRetries(manager: CompensationManager<Undo>, req: Request, plans: seq<Plan>, w: World) returns (end: TryEnd, w': World)
    requires Valid(w) && |plans| == MAX_TRIES
    modifies manager
    ensures Try(end, w', manager.tasks) == Retry(req, plans, w, old(manager.tasks), SharedLoopVar)
  {
    end, w' := Stale, w;
    ghost var tasks := manager.tasks;
    var tries := 0;
    while tries < MAX_TRIES && (tries == 0 || end.Stale?)
      invariant 0 <= tries <= MAX_TRIES && Valid(w')
      invariant tries == 0 ==> w' == w && manager.tasks == tasks
      invariant tries > 0 && (!end.Stale? || tries == MAX_TRIES) ==>
                  Try(end, w', manager.tasks) == Retry(req, plans, w, tasks, SharedLoopVar)
      invariant tries < MAX_TRIES && end.Stale? ==>
                  Retry(req, plans, w, tasks, SharedLoopVar) == Retry(req, plans[tries..], w', manager.tasks, SharedLoopVar)
      decreases MAX_TRIES - tries
    {
      assert plans[tries..][0] == plans[tries] && plans[tries..][1..] == plans[tries + 1..];
      TryKeepsValid(req, plans[tries], w', manager.tasks, SharedLoopVar);
      end, w' := UpdateSecurityGroupDetail(manager, req, plans[tries], w');
      tries := tries + 1;
    }
  }

  /** The route: the compensating scope around the tries. */
  method HandleUpdate(req: Request, plans: seq<Plan>, answers: nat -> bool, w: World) returns (end: TryEnd, w': World, called: seq<Undo>)
    requires Valid(w) && |plans| == MAX_TRIES
    ensures var whole := Retry(req, plans, w, [], SharedLoopVar);
            && end == whole.end && w' == Aftermath(whole, answers)
            && (end.Returned? ==> called == [])
            && (!end.Returned? ==> multiset(called) == multiset(whole.tasks))
  {
    var manager := new CompensationManager<Undo>();
    end, w' := UpdateWithRetries(manager, req, plans, w);
    called := [];
    if !end.Returned? {
      w', called := UndoRequest(manager, end, answers, w');
    }
  }

  /** Leaving the scope with an exception; deletes that are still running go through afterwards. */
  method UndoRequest(manager: CompensationManager<Undo>, end: TryEnd, answers: nat -> bool, w: World)
    returns (w': World, called: seq<Undo>)
    requires !end.Returned?
    ensures w' == Aftermath(Try(end, w, manager.tasks), answers)
    ensures multiset(called) == multiset(manager.tasks)
  {
    w', called := manager.Rollback(Run, answers, w);
    MirrorKeepsMultiset(called, manager.tasks);
    if end.Failed? {
      w' := Lacking(w', end.late);
    }
  }

  lemma CreatedKeepsValid(w: World, contents: seq<Content>)
    requires Valid(w)
    ensures Valid(Created(w, contents))
    ensures ContentList(NewRules(w, contents)) == contents
    ensures Contents(Created(w, contents).rules) == Contents(w.rules) + multiset(contents)
  {
    var added := NewRules(w, contents);
    assert ContentList(added) == contents;
    ContentsConcat(w.rules, added);
    var all := w.rules + added;
    forall i, j | 0 <= i < j < |all| ensures all[i].id != all[j].id {
      if i < |w.rules| { assert all[i] in w.rules; }
    }
  }

  lemma PhaseKeepsValid(wanted: seq<Content>, plan: Plan, w: World, tasks: seq<Undo>, binding: Binding)
    requires Valid(w)
    ensures Valid(UpdateRules(wanted, plan, w, tasks, binding).world)
  {
    if plan.lists {
      var order := Schedule(Surplus(w.rules, wanted), plan, 0);
      var n := InTime(order, plan.grace);
      var w1 := Lacking(w, Gone(order[..n]));
      WithoutKeepsIdsDistinct(w.rules, Ids(Gone(order[..n])));
      CreatedKeepsValid(w1, Missing(w.rules, wanted));
    }
  }

  lemma TryKeepsValid(req: Request, plan: Plan, w: World, tasks: seq<Undo>, binding: Binding)
    requires Valid(w)
    ensures Valid(TryOnce(req, plan, w, tasks, binding).world)
  {
    if Guard(req, plan).None? {
      var w1 := if plan.row.value.name != req.name then w.(name := req.name) else w;
      PhaseKeepsValid(req.rules, plan, w1, tasks + RenameTasks(req, plan), binding);
    }
  }
}
