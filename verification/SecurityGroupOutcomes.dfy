/** What a whole `update_security_group_detail` request leaves behind in Neutron, for every rule
    list, every request, every completion order, every fault on the way - and whichever of the
    compensating calls get through. */
module SecurityGroupOutcomes {
  import opened Options
  import opened Compensation
  import opened SecurityGroupRules
  import opened SecurityGroupUpdate

  // ---- Unwinding each kind of task ------------------------------------------------------------

  lemma {:induction false} UnwindRecreations(rules: seq<Rule>, w: World)
    requires Valid(w)
    ensures var back := Unwind(Recreations(rules), Run, w);
            && Valid(back) && back.name == w.name
            && Contents(back.rules) == Contents(w.rules) + Contents(rules)
            && (forall r :: r in w.rules ==> r in back.rules)
    decreases |rules|
  {
    if rules == [] {
      assert Recreations(rules) == [];
    } else {
      var last := |rules| - 1;
      var next := Created(w, [rules[last].content]);
      CreatedKeepsValid(w, [rules[last].content]);
      assert Recreations(rules)[..last] == Recreations(rules[..last]);
      UnwindRecreations(rules[..last], next);
      ContentsOfLast(rules);
    }
  }

  lemma AnsweringRecreations(rules: seq<Rule>, from: nat, answers: nat -> bool)
    ensures Answering(Recreations(rules), from, answers) == Recreations(Answering(rules, from, answers))
  {
    AnsweringMapped(rules, Recreations(rules), (r: Rule) => Recreate(r.content), from, answers);
  }

  function Deletions(rules: seq<Rule>): seq<Undo> {
    seq(|rules|, i requires 0 <= i < |rules| => DeleteBound(rules[i].id))
  }

  lemma {:induction false} UnwindDeletions(rules: seq<Rule>, w: World)
    requires DistinctIds(rules) && forall r :: r in rules ==> r in w.rules
    ensures Unwind(Deletions(rules), Run, w) == Lacking(w, rules)
    decreases |rules|
  {
    if rules == [] {
      assert Deletions(rules) == [];
      NothingLacking(w);
    } else {
      var last := |rules| - 1;
      var front, newest := rules[..last], rules[last];
      var next := w.(rules := Without(w.rules, {newest.id}));
      assert newest in rules;
      assert Run(DeleteBound(newest.id), w) == Done(next);
      assert Deletions(rules)[..last] == Deletions(front);
      forall r | r in front ensures r in next.rules {
        assert r in rules && r.id != newest.id;
      }
      UnwindDeletions(front, next);
      WithoutTwice(w.rules, {newest.id}, Ids(front));
      assert Ids(rules) == {newest.id} + Ids(front);
    }
  }

  /** However often the same task is called, only the first call does anything. */
  lemma {:induction false} UnwindSame(tasks: seq<Undo>, task: Undo, w: World, once: World)
    requires forall t :: t in tasks ==> t == task
    requires Run(task, w) == Done(once) && Run(task, once) == Raised
    ensures Unwind(tasks, Run, w) == if tasks == [] then w else once
  {
    if tasks == [] {
    } else {
      var front := tasks[..|tasks| - 1];
      assert tasks[|tasks| - 1] in tasks;
      forall t | t in front ensures t in tasks {}
      UnwindRaising(front, task, once);
    }
  }

  lemma {:induction false} UnwindRaising(tasks: seq<Undo>, task: Undo, w: World)
    requires (forall t :: t in tasks ==> t == task) && Run(task, w) == Raised
    ensures Unwind(tasks, Run, w) == w
    decreases |tasks|
  {
    if tasks == [] {
    } else {
      var front := tasks[..|tasks| - 1];
      assert tasks[|tasks| - 1] in tasks;
      forall t | t in front ensures t in tasks {}
      UnwindRaising(front, task, w);
    }
  }

  lemma NothingLacking(w: World)
    ensures Lacking(w, []) == w && Contents([]) == multiset{}
  {
    WithoutNothing(w.rules, {});
    assert Ids([]) == {};
  }

  ghost predicate OnlyRenames(tasks: seq<Undo>) {
    forall t :: t in tasks ==> t.RestoreName?
  }

  ghost predicate NoRenames(tasks: seq<Undo>) {
    forall t :: t in tasks ==> !t.RestoreName?
  }

  /** The name that unwinding the log sets last. */
  function FirstRename(tasks: seq<Undo>): Option<string> {
    if tasks == [] then None
    else if tasks[0].RestoreName? then Some(tasks[0].name)
    else FirstRename(tasks[1..])
  }

  lemma {:induction false} FirstRenameConcat(a: seq<Undo>, b: seq<Undo>)
    ensures FirstRename(a + b) == if FirstRename(a).Some? then FirstRename(a) else FirstRename(b)
    decreases |a|
  {
    if a == [] {
      assert a + b == b;
    } else {
      assert (a + b)[1..] == a[1..] + b;
      FirstRenameConcat(a[1..], b);
    }
  }

  lemma {:induction false} NoFirstRename(tasks: seq<Undo>)
    requires NoRenames(tasks)
    ensures FirstRename(tasks) == None
    decreases |tasks|
  {
    if tasks == [] {
    } else {
      assert tasks[0] in tasks;
      NoFirstRename(tasks[1..]);
    }
  }

  lemma {:induction false} UnwindRenames(tasks: seq<Undo>, w: World)
    requires OnlyRenames(tasks)
    ensures Unwind(tasks, Run, w) == w.(name := FirstRename(tasks).GetOr(w.name))
    decreases |tasks|
  {
    if tasks == [] {
    } else {
      var last := |tasks| - 1;
      var newest := tasks[last];
      assert newest in tasks && tasks == tasks[..last] + [newest];
      UnwindRenames(tasks[..last], w.(name := newest.name));
      FirstRenameConcat(tasks[..last], [newest]);
    }
  }

  // ---- Unwinding the creation -------------------------------------------------------------------

  /** The created contents that are not taken back.  Tasks that share the loop variable all delete
      the last rule, so one that gets through is as good as all; bound tasks delete a rule each. */
  function Leftover(contents: seq<Content>, from: nat, binding: Binding, answers: nat -> bool): seq<Content>
    requires contents != []
  {
    match binding
    case SharedLoopVar => if Answering(contents, from, answers) == [] then contents else contents[..|contents| - 1]
    case PerIteration => Answering(contents, from, Failing(answers))
  }

  /** When nothing of it is left over. */
  predicate TakenBack(n: nat, from: nat, binding: Binding, answers: nat -> bool) {
    match binding
    case SharedLoopVar => n == 1 && answers(from)
    case PerIteration => AllAnswer(from, n, answers)
  }

  function LeftoverIf(creates: bool, contents: seq<Content>, from: nat, binding: Binding, answers: nat -> bool): seq<Content>
    requires creates ==> contents != []
  {
    if creates then Leftover(contents, from, binding, answers) else []
  }

  predicate TakenBackIf(creates: bool, n: nat, from: nat, binding: Binding, answers: nat -> bool) {
    creates ==> TakenBack(n, from, binding, answers)
  }

  lemma NothingLeftIff(creates: bool, contents: seq<Content>, from: nat, binding: Binding, answers: nat -> bool)
    requires creates ==> contents != []
    ensures LeftoverIf(creates, contents, from, binding, answers) == [] <==> TakenBackIf(creates, |contents|, from, binding, answers)
  {
    match binding
    case SharedLoopVar =>
      NoneAnswering(contents, from, answers);
      assert |contents| == 1 && !answers(from) ==> forall k :: from <= k < from + |contents| ==> !answers(k);
    case PerIteration =>
      NoneFailing(contents, from, answers);
  }

  lemma LeftoverAmong(contents: seq<Content>, from: nat, binding: Binding, answers: nat -> bool)
    requires contents != []
    ensures forall c :: c in Leftover(contents, from, binding, answers) ==> c in contents
  {
    AnsweringAmong(contents, from, Failing(answers));
  }

  lemma CreationKeepsValid(w: World, contents: seq<Content>, after: World)
    requires Valid(w) && contents != [] && after == AfterCreation(w, contents).(name := after.name)
    ensures Valid(after) && Contents(after.rules) == Contents(w.rules) + multiset(contents)
    ensures DistinctIds(NewRules(w, contents)) && forall r :: r in NewRules(w, contents) ==> r in after.rules && r !in w.rules
  {
    CreatedKeepsValid(w, contents);
    assert after.rules == Created(w, contents).rules;
  }

  /** Taking distinct rules out keeps the world valid and the others where they are. */
  lemma LackingKeeps(w: World, gone: seq<Rule>)
    requires Valid(w) && DistinctIds(gone) && forall r :: r in gone ==> r in w.rules
    ensures Valid(Lacking(w, gone))
    ensures Contents(Lacking(w, gone).rules) + Contents(gone) == Contents(w.rules)
    ensures forall r :: r in w.rules && r !in gone ==> r in Lacking(w, gone).rules
  {
    WithoutKeepsIdsDistinct(w.rules, Ids(gone));
    WithoutBatch(w.rules, gone);
    forall r | r in w.rules && r !in gone ensures r.id !in Ids(gone) {
      if g :| g in gone && g.id == r.id {
        SameIdSameRule(w.rules, r, g);
      }
    }
  }

  lemma SameIdSameRule(rules: seq<Rule>, a: Rule, b: Rule)
    requires DistinctIds(rules) && a in rules && b in rules && a.id == b.id
    ensures a == b
  {
    var i :| 0 <= i < |rules| && rules[i] == a;
    var j :| 0 <= j < |rules| && rules[j] == b;
  }

  /** What unwinding the create phase gives back, whichever calls get through. */
  ghost predicate CreationUndone(w: World, after: World, back: World, left: seq<Content>) {
    && Valid(back) && back.name == after.name
    && (forall r :: r in w.rules ==> r in back.rules)
    && Contents(back.rules) == Contents(w.rules) + multiset(left)
  }

  /** The first call of a task that shares the loop variable deletes the newest rule, any other raises. */
  lemma NewestGoes(w: World, contents: seq<Content>, after: World) returns (newest: Rule, once: World)
    requires Valid(w) && contents != [] && after == AfterCreation(w, contents).(name := after.name)
    ensures newest.content == contents[|contents| - 1] && once == Lacking(after, [newest])
    ensures Valid(once) && (forall r :: r in w.rules ==> r in once.rules)
    ensures Contents(once.rules) + multiset{newest.content} == Contents(w.rules) + multiset(contents)
    ensures Run(DeleteLoopVar(|w.loopVars|), after) == Done(once)
    ensures Run(DeleteLoopVar(|w.loopVars|), once) == Raised
  {
    newest := NewRules(w, contents)[|contents| - 1];
    once := Lacking(after, [newest]);
    CreationKeepsValid(w, contents, after);
    assert newest in NewRules(w, contents);
    LackingKeeps(after, [newest]);
    assert ContentList([newest]) == [newest.content] && Ids([newest]) == {newest.id};
    assert after.loopVars[|w.loopVars|] == newest;
  }

  lemma UnwindSharedCreation(w: World, contents: seq<Content>, after: World, from: nat, answers: nat -> bool)
    requires Valid(w) && contents != [] && after == AfterCreation(w, contents).(name := after.name)
    ensures var tasks := Answering(CreationTasks(w, contents, SharedLoopVar), from, answers);
            CreationUndone(w, after, Unwind(tasks, Run, after), Leftover(contents, from, SharedLoopVar, answers))
  {
    var n, task := |contents|, DeleteLoopVar(|w.loopVars|);
    var all := CreationTasks(w, contents, SharedLoopVar);
    var newest, once := NewestGoes(w, contents, after);
    CreationKeepsValid(w, contents, after);
    AnsweringAmong(all, from, answers);
    UnwindSame(Answering(all, from, answers), task, after, once);
    NoneAnswering(all, from, answers);
    NoneAnswering(contents, from, answers);
    WithoutLast(Contents(once.rules), Contents(w.rules), contents);
  }

  lemma WithoutLast(x: multiset<Content>, y: multiset<Content>, contents: seq<Content>)
    requires contents != [] && x + multiset{contents[|contents| - 1]} == y + multiset(contents)
    ensures x == y + multiset(contents[..|contents| - 1])
  {
    var last := |contents| - 1;
    assert contents == contents[..last] + [contents[last]];
    assert x + multiset{contents[last]} == y + multiset(contents[..last]) + multiset{contents[last]};
    assert x == x + multiset{contents[last]} - multiset{contents[last]};
  }

  lemma UnwindBoundCreation(w: World, contents: seq<Content>, after: World, from: nat, answers: nat -> bool)
    requires Valid(w) && contents != [] && after == AfterCreation(w, contents).(name := after.name)
    ensures var tasks := Answering(CreationTasks(w, contents, PerIteration), from, answers);
            CreationUndone(w, after, Unwind(tasks, Run, after), Leftover(contents, from, PerIteration, answers))
  {
    var created := NewRules(w, contents);
    CreationKeepsValid(w, contents, after);
    assert CreationTasks(w, contents, PerIteration) == Deletions(created);
    assert ContentList(created) == contents;
    DeletionsUnwound(created, after, from, answers);
    assert multiset(contents) == Contents(created);
    var back := Lacking(after, Answering(created, from, answers));
    SameWithout(Contents(back.rules), Contents(w.rules), multiset(Leftover(contents, from, PerIteration, answers)), Contents(created));
  }

  lemma SameWithout<T>(x: multiset<T>, y: multiset<T>, z: multiset<T>, both: multiset<T>)
    requires x + both == y + both + z
    ensures x == y + z
  {
    forall c ensures x[c] == (y + z)[c] {
      assert (x + both)[c] == (y + both + z)[c];
    }
  }

  /** Deleting some rules by id, as far as the calls get through. */
  lemma DeletionsUnwound(rules: seq<Rule>, w: World, from: nat, answers: nat -> bool)
    requires Valid(w) && DistinctIds(rules) && forall r :: r in rules ==> r in w.rules
    ensures var back := Unwind(Answering(Deletions(rules), from, answers), Run, w);
            && back == Lacking(w, Answering(rules, from, answers)) && Valid(back)
            && (forall r :: r in w.rules && r !in rules ==> r in back.rules)
            && Contents(back.rules) + Contents(rules)
               == Contents(w.rules) + multiset(Answering(ContentList(rules), from, Failing(answers)))
  {
    var taken := Answering(rules, from, answers);
    AnsweringKeepsDistinct(rules, from, answers);
    AnsweringAmong(rules, from, answers);
    AnsweringMapped(rules, Deletions(rules), (r: Rule) => DeleteBound(r.id), from, answers);
    assert Answering(Deletions(rules), from, answers) == Deletions(taken);
    UnwindDeletions(taken, w);
    LackingKeeps(w, taken);
    AnsweringMapped(rules, ContentList(rules), (r: Rule) => r.content, from, answers);
    assert ContentList(taken) == Answering(ContentList(rules), from, answers);
    AnsweringOrNot(ContentList(rules), from, answers);
  }

  lemma {:induction false} AnsweringKeepsDistinct(rules: seq<Rule>, from: nat, answers: nat -> bool)
    requires DistinctIds(rules)
    ensures DistinctIds(Answering(rules, from, answers))
    decreases |rules|
  {
    if rules == [] {
    } else {
      var last := |rules| - 1;
      var front := Answering(rules[..last], from, answers);
      AnsweringKeepsDistinct(rules[..last], from, answers);
      AnsweringAmong(rules[..last], from, answers);
      forall i | 0 <= i < |front| ensures front[i].id != rules[last].id {
        assert front[i] in rules[..last];
        var k :| 0 <= k < last && rules[k] == front[i];
      }
    }
  }

  lemma UnwindCreation(w: World, contents: seq<Content>, binding: Binding, after: World, from: nat, answers: nat -> bool)
    requires Valid(w) && contents != [] && after == AfterCreation(w, contents).(name := after.name)
    ensures var tasks := Answering(CreationTasks(w, contents, binding), from, answers);
            CreationUndone(w, after, Unwind(tasks, Run, after), Leftover(contents, from, binding, answers))
  {
    match binding
    case SharedLoopVar => UnwindSharedCreation(w, contents, after, from, answers);
    case PerIteration => UnwindBoundCreation(w, contents, after, from, answers);
  }

  // ---- One rule phase ---------------------------------------------------------------------------

  /** The order in which the surplus of the listed rules completes, and how much of it in time. */
  function Order(wanted: seq<Content>, plan: Plan, listed: seq<Rule>): seq<Completion> {
    Schedule(Surplus(listed, wanted), plan, 0)
  }

  /** The rules deleted before a rollback can start. */
  function DeletedInTime(wanted: seq<Content>, plan: Plan, listed: seq<Rule>): seq<Rule> {
    var order := Order(wanted, plan, listed);
    if plan.lists then Gone(order[..InTime(order, plan.grace)]) else []
  }

  /** The rules deleted after it has started. */
  function DeletedLate(wanted: seq<Content>, plan: Plan, listed: seq<Rule>): seq<Rule> {
    var order := Order(wanted, plan, listed);
    if plan.lists then Gone(order[InTime(order, plan.grace)..]) else []
  }

  /** Some delete succeeds although `asyncio.gather` has given up on it. */
  predicate DeletesLate(wanted: seq<Content>, plan: Plan, listed: seq<Rule>) {
    var order := Order(wanted, plan, listed);
    plan.lists && exists k :: InTime(order, plan.grace) <= k < |order| && order[k].fate.Succeeds?
  }

  lemma {:induction false} GoneIff(order: seq<Completion>)
    ensures Gone(order) == [] <==> forall k :: 0 <= k < |order| ==> !order[k].fate.Succeeds?
    decreases |order|
  {
    if order == [] {
    } else {
      GoneIff(order[..|order| - 1]);
    }
  }

  lemma DeletedLateIff(wanted: seq<Content>, plan: Plan, listed: seq<Rule>)
    ensures DeletedLate(wanted, plan, listed) != [] <==> DeletesLate(wanted, plan, listed)
  {
    var order := Order(wanted, plan, listed);
    var n := InTime(order, plan.grace);
    GoneIff(order[n..]);
    if k :| n <= k < |order| && order[k].fate.Succeeds? {
      assert order[n..][k - n] == order[k];
    }
  }

  /** The try gets as far as creating rules, and Neutron creates them. */
  predicate CreatesRules(wanted: seq<Content>, plan: Plan, listed: seq<Rule>) {
    plan.lists && GatherError(Order(wanted, plan, listed)).None? && Missing(listed, wanted) != [] && plan.creates
  }

  function CreationLog(wanted: seq<Content>, plan: Plan, w: World, binding: Binding): seq<Undo> {
    if CreatesRules(wanted, plan, w.rules)
    then CreationTasks(Lacking(w, DeletedInTime(wanted, plan, w.rules)), Missing(w.rules, wanted), binding)
    else []
  }

  /** A rule phase in terms of what it deleted and created. */
  lemma PhaseShape(wanted: seq<Content>, plan: Plan, w: World, tasks: seq<Undo>, binding: Binding)
    ensures var e := UpdateRules(wanted, plan, w, tasks, binding);
            var w1 := Lacking(w, DeletedInTime(wanted, plan, w.rules));
            && e.tasks == tasks + (Recreations(DeletedInTime(wanted, plan, w.rules)) + CreationLog(wanted, plan, w, binding))
            && e.world == (if CreatesRules(wanted, plan, w.rules) then AfterCreation(w1, Missing(w.rules, wanted)) else w1)
            && e.late == DeletedLate(wanted, plan, w.rules)
            && (e.late != [] ==> e.error.Some?)
  {
    var gone := Recreations(DeletedInTime(wanted, plan, w.rules));
    var more := CreationLog(wanted, plan, w, binding);
    AppendAssociates(tasks, gone, more);
    assert more == [] ==> gone + more == gone;
    if plan.lists {
      if GatherError(Order(wanted, plan, w.rules)).None? {
        NoErrorNoneLate(Order(wanted, plan, w.rules), plan.grace);
      }
    } else {
      NothingLacking(w);
      assert Recreations([]) == [] && tasks + [] == tasks;
    }
  }

  lemma PartsDistinct(order: seq<Completion>, n: nat)
    requires n <= |order|
    requires forall i, j :: 0 <= i < j < |order| ==> order[i].rule.id != order[j].rule.id
    ensures DistinctIds(Gone(order[..n])) && DistinctIds(Gone(order[n..]))
    ensures forall r :: r in Gone(order[..n]) || r in Gone(order[n..]) ==> exists c :: c in order && c.rule == r
    ensures forall r, g :: r in Gone(order[n..]) && g in Gone(order[..n]) ==> r.id != g.id
  {
    var head, tail := order[..n], order[n..];
    GoneFromOrder(head);
    GoneFromOrder(tail);
    forall r | r in Gone(head) || r in Gone(tail) ensures exists c :: c in order && c.rule == r {
      var c :| (c in head || c in tail) && c.rule == r;
      assert c in order;
    }
    forall r, g | r in Gone(tail) && g in Gone(head) ensures r.id != g.id {
      var c :| c in tail && c.rule == r;
      var d :| d in head && d.rule == g;
      var i :| 0 <= i < |tail| && tail[i] == c;
      var j :| 0 <= j < n && head[j] == d;
      assert order[j] == d && order[n + i] == c;
    }
  }

  lemma OrderIsDistinct(wanted: seq<Content>, plan: Plan, w: World)
    requires Valid(w)
    ensures var order := Order(wanted, plan, w.rules);
            && (forall i, j :: 0 <= i < j < |order| ==> order[i].rule.id != order[j].rule.id)
            && (forall c :: c in order ==> c.rule in w.rules && c.rule.content !in wanted)
  {
    var surplus := Surplus(w.rules, wanted);
    SurplusGoneIsKept(w.rules, wanted);
    ScheduleIsPermutation(surplus, plan, 0);
    ScheduleKeepsDistinct(surplus, plan, 0);
  }

  /** The deletes that took effect, in time or late, removed distinct listed rules nobody wanted. */
  lemma DeletedRules(wanted: seq<Content>, plan: Plan, w: World)
    requires Valid(w)
    ensures var gone, late := DeletedInTime(wanted, plan, w.rules), DeletedLate(wanted, plan, w.rules);
            && DistinctIds(gone) && DistinctIds(late)
            && (forall r :: r in gone ==> r in w.rules && r.content !in wanted)
            && (forall r :: r in late ==> r in w.rules && r.content !in wanted && r !in gone)
  {
    var order := Order(wanted, plan, w.rules);
    OrderIsDistinct(wanted, plan, w);
    PartsDistinct(order, InTime(order, plan.grace));
  }

  /** The contents of deleted rules that are not recreated. */
  function NotRecreated(deleted: seq<Rule>, from: nat, answers: nat -> bool): seq<Content> {
    Answering(ContentList(deleted), from, Failing(answers))
  }

  function Lost(wanted: seq<Content>, plan: Plan, listed: seq<Rule>, from: nat, answers: nat -> bool): seq<Content> {
    NotRecreated(DeletedInTime(wanted, plan, listed), from, answers)
  }

  function PhaseLeftover(wanted: seq<Content>, plan: Plan, listed: seq<Rule>, binding: Binding, from: nat, answers: nat -> bool)
    : seq<Content>
  {
    LeftoverIf(CreatesRules(wanted, plan, listed), Missing(listed, wanted),
               from + |DeletedInTime(wanted, plan, listed)|, binding, answers)
  }

  predicate PhaseTakenBack(wanted: seq<Content>, plan: Plan, listed: seq<Rule>, binding: Binding, from: nat, answers: nat -> bool) {
    TakenBackIf(CreatesRules(wanted, plan, listed), |Missing(listed, wanted)|,
                from + |DeletedInTime(wanted, plan, listed)|, binding, answers)
  }

  lemma UnwindDeletePhase(w: World, gone: seq<Rule>, mid: World, left: seq<Content>, from: nat, answers: nat -> bool)
    requires Valid(w) && DistinctIds(gone) && forall r :: r in gone ==> r in w.rules
    requires Valid(mid) && (forall r :: r in Lacking(w, gone).rules ==> r in mid.rules)
    requires Contents(mid.rules) == Contents(Lacking(w, gone).rules) + multiset(left)
    ensures var back := Unwind(Answering(Recreations(gone), from, answers), Run, mid);
            && Valid(back) && back.name == mid.name
            && (forall r :: r in Lacking(w, gone).rules ==> r in back.rules)
            && Contents(back.rules) + multiset(NotRecreated(gone, from, answers)) == Contents(w.rules) + multiset(left)
  {
    var kept := Answering(gone, from, answers);
    AnsweringRecreations(gone, from, answers);
    UnwindRecreations(kept, mid);
    LackingKeeps(w, gone);
    AnsweringMapped(gone, ContentList(gone), (r: Rule) => r.content, from, answers);
    assert ContentList(kept) == Answering(ContentList(gone), from, answers);
    AnsweringOrNot(ContentList(gone), from, answers);
  }

  /** The create phase: what it creates, whether it gets that far, and the tasks it registers. */
  datatype Creation = Creation(contents: seq<Content>, happens: bool, binding: Binding, log: seq<Undo>)
  {
    ghost predicate From(w1: World, start: World) {
      if happens then
        && contents != [] && log == CreationTasks(w1, contents, binding)
        && start == AfterCreation(w1, contents).(name := start.name)
      else log == [] && start == w1.(name := start.name)
    }

    ghost predicate Leaves(left: seq<Content>, from: nat, answers: nat -> bool) {
      (happens ==> contents != []) && left == LeftoverIf(happens, contents, from, binding, answers)
    }
  }

  function CreationOf(wanted: seq<Content>, plan: Plan, w: World, binding: Binding): Creation {
    Creation(Missing(w.rules, wanted), CreatesRules(wanted, plan, w.rules), binding, CreationLog(wanted, plan, w, binding))
  }

  /** Distinct listed rules, some deleted in time and some late. */
  ghost predicate Deletes(w: World, gone: seq<Rule>, late: seq<Rule>) {
    && Valid(w) && DistinctIds(gone) && DistinctIds(late)
    && (forall r :: r in gone ==> r in w.rules) && (forall r :: r in late ==> r in w.rules && r !in gone)
  }

  /** With the late deletes done as well, `back` has the original multiset of rule contents, but for the
      late ones and the lost ones on one side and the ones left over on the other. */
  ghost predicate BackUpTo(w: World, back: World, late: seq<Rule>, lost: seq<Content>, left: seq<Content>) {
    Contents(Lacking(back, late).rules) + Contents(late) + multiset(lost) == Contents(w.rules) + multiset(left)
  }

  /** What unwinding a rule phase gives, with Neutron's name set to `name` by then. */
  ghost predicate PhaseUndone(e: RulePhase, w: World, name: string, lost: seq<Content>, left: seq<Content>,
                              from: nat, answers: nat -> bool) {
    var back := Unwind(Answering(e.tasks, from, answers), Run, e.world.(name := name));
    back.name == name && BackUpTo(w, back, e.late, lost, left)
  }

  /** A rule phase in terms of what it deleted and created. */
  ghost predicate PhaseParts(e: RulePhase, w: World, gone: seq<Rule>, creation: Creation, name: string, left: seq<Content>,
                             from: nat, answers: nat -> bool) {
    && Deletes(w, gone, e.late) && e.tasks == Recreations(gone) + creation.log
    && creation.From(Lacking(w, gone), e.world.(name := name)) && creation.Leaves(left, from + |gone|, answers)
  }

  /** Unwinding a rule phase, wherever it stopped, restores the multiset of contents but for the
      rules deleted too late, the contents not recreated and the created contents not taken back. */
  lemma PhaseUnwinds(wanted: seq<Content>, plan: Plan, w: World, binding: Binding, name: string, from: nat, answers: nat -> bool)
    requires Valid(w)
    ensures PhaseUndone(UpdateRules(wanted, plan, w, [], binding), w, name, Lost(wanted, plan, w.rules, from, answers),
                        PhaseLeftover(wanted, plan, w.rules, binding, from, answers), from, answers)
  {
    PhaseHasParts(wanted, plan, w, binding, name, from, answers);
    UnwindParts(UpdateRules(wanted, plan, w, [], binding), w, DeletedInTime(wanted, plan, w.rules), CreationOf(wanted, plan, w, binding),
                name, PhaseLeftover(wanted, plan, w.rules, binding, from, answers), from, answers);
  }

  lemma PhaseHasParts(wanted: seq<Content>, plan: Plan, w: World, binding: Binding, name: string, from: nat, answers: nat -> bool)
    requires Valid(w)
    ensures PhaseParts(UpdateRules(wanted, plan, w, [], binding), w,
                       DeletedInTime(wanted, plan, w.rules), CreationOf(wanted, plan, w, binding), name, PhaseLeftover(wanted, plan, w.rules, binding, from, answers), from, answers)
  {
    PhaseDeletes(wanted, plan, w, binding);
    PhaseTasks(wanted, plan, w, binding);
    CreatedFrom(wanted, plan, w, binding, name);
    CreationLeaves(wanted, plan, w, binding, from, answers);
  }

  lemma PhaseDeletes(wanted: seq<Content>, plan: Plan, w: World, binding: Binding)
    requires Valid(w)
    ensures Deletes(w, DeletedInTime(wanted, plan, w.rules), UpdateRules(wanted, plan, w, [], binding).late)
  {
    DeletedRules(wanted, plan, w);
    PhaseShape(wanted, plan, w, [], binding);
  }

  lemma PhaseTasks(wanted: seq<Content>, plan: Plan, w: World, binding: Binding)
    ensures UpdateRules(wanted, plan, w, [], binding).tasks
            == Recreations(DeletedInTime(wanted, plan, w.rules)) + CreationOf(wanted, plan, w, binding).log
  {
    PhaseShape(wanted, plan, w, [], binding);
    FromTheStart(Recreations(DeletedInTime(wanted, plan, w.rules)) + CreationLog(wanted, plan, w, binding));
  }

  lemma CreatedFrom(wanted: seq<Content>, plan: Plan, w: World, binding: Binding, name: string)
    ensures CreationOf(wanted, plan, w, binding).From(
              Lacking(w, DeletedInTime(wanted, plan, w.rules)), UpdateRules(wanted, plan, w, [], binding).world.(name := name))
  {
    PhaseShape(wanted, plan, w, [], binding);
  }

  lemma CreationLeaves(wanted: seq<Content>, plan: Plan, w: World, binding: Binding, from: nat, answers: nat -> bool)
    ensures CreationOf(wanted, plan, w, binding).Leaves(
              PhaseLeftover(wanted, plan, w.rules, binding, from, answers), from + |DeletedInTime(wanted, plan, w.rules)|, answers)
  {}

  lemma FromTheStart<T>(tasks: seq<T>)
    ensures [] + tasks == tasks
  {
  }

  lemma UnwindParts(e: RulePhase, w: World, gone: seq<Rule>, creation: Creation, name: string, left: seq<Content>,
                    from: nat, answers: nat -> bool)
    requires PhaseParts(e, w, gone, creation, name, left, from, answers)
    ensures PhaseUndone(e, w, name, NotRecreated(gone, from, answers), left, from, answers)
  {
    var start, second := e.world.(name := name), from + |gone|;
    var a, b := Answering(Recreations(gone), from, answers), Answering(creation.log, second, answers);
    assert Unwind(Answering(e.tasks, from, answers), Run, start) == Unwind(a, Run, Unwind(b, Run, start)) by {
      AnsweringConcat(Recreations(gone), creation.log, from, answers);
      UnwindConcat(a, b, Run, start);
    }
    UnwindTheCreation(w, gone, e.late, creation, start, left, second, answers);
    UnwindDeletes(w, gone, e.late, Unwind(b, Run, start), left, from, answers);
  }

  lemma UnwindTheCreation(w: World, gone: seq<Rule>, late: seq<Rule>, creation: Creation, start: World, left: seq<Content>,
                          from: nat, answers: nat -> bool)
    requires Deletes(w, gone, late)
    requires creation.From(Lacking(w, gone), start) && creation.Leaves(left, from, answers)
    ensures CreationUndone(Lacking(w, gone), start, Unwind(Answering(creation.log, from, answers), Run, start), left)
  {
    LackingKeeps(w, gone);
    MiddleWorld(Lacking(w, gone), creation, start, left, from, answers);
  }

  /** Undoing the deletes in time, and then losing the late ones. */
  lemma UnwindDeletes(w: World, gone: seq<Rule>, late: seq<Rule>, mid: World, left: seq<Content>, from: nat, answers: nat -> bool)
    requires Deletes(w, gone, late)
    requires Valid(mid) && (forall r :: r in Lacking(w, gone).rules ==> r in mid.rules)
    requires Contents(mid.rules) == Contents(Lacking(w, gone).rules) + multiset(left)
    ensures var back := Unwind(Answering(Recreations(gone), from, answers), Run, mid);
            && back.name == mid.name
            && BackUpTo(w, back, late, NotRecreated(gone, from, answers), left)
  {
    var back := Unwind(Answering(Recreations(gone), from, answers), Run, mid);
    UnwindDeletePhase(w, gone, mid, left, from, answers);
    LackingKeeps(w, gone);
    LackingKeeps(back, late);
  }

  /** Neutron when the create phase has been unwound. */
  lemma MiddleWorld(w1: World, creation: Creation, start: World, left: seq<Content>, from: nat, answers: nat -> bool)
    requires Valid(w1) && creation.From(w1, start) && creation.Leaves(left, from, answers)
    ensures CreationUndone(w1, start, Unwind(Answering(creation.log, from, answers), Run, start), left)
  {
    if creation.happens {
      UnwindCreation(w1, creation.contents, creation.binding, start, from, answers);
    }
  }

  // ---- A rule phase that raises nothing -----------------------------------------------------------

  ghost predicate RulesInStep(w: World, wanted: seq<Content>) {
    forall c :: c in Contents(w.rules) <==> c in wanted
  }

  lemma SameIds(order: seq<Completion>, pending: seq<Rule>)
    requires |Gone(order)| == |order| && forall i :: 0 <= i < |order| ==> Gone(order)[i] == order[i].rule
    requires forall c :: c in order ==> c.rule in pending
    requires forall r :: r in pending ==> exists c :: c in order && c.rule == r
    ensures Ids(Gone(order)) == Ids(pending)
  {
    forall r ensures r in Gone(order) <==> r in pending {
      if r in Gone(order) {
        var i :| 0 <= i < |order| && Gone(order)[i] == r;
        assert order[i] in order;
      }
      if r in pending {
        var c :| c in order && c.rule == r;
        var i :| 0 <= i < |order| && order[i] == c;
        assert Gone(order)[i] == r;
      }
    }
  }

  /** Gathered deletes that all succeed leave exactly the kept rules. */
  lemma AllDeleted(wanted: seq<Content>, plan: Plan, w: World)
    requires Valid(w) && plan.lists && GatherError(Order(wanted, plan, w.rules)).None?
    ensures Lacking(w, DeletedInTime(wanted, plan, w.rules)).rules == Kept(w.rules, wanted)
    ensures Without(w.rules, Ids(Surplus(w.rules, wanted))) == Kept(w.rules, wanted)
  {
    var surplus := Surplus(w.rules, wanted);
    var order := Order(wanted, plan, w.rules);
    NoErrorNoneLate(order, plan.grace);
    assert order[..|order|] == order;
    SurplusGoneIsKept(w.rules, wanted);
    ScheduleIsPermutation(surplus, plan, 0);
    AllGone(order);
    SameIds(order, surplus);
  }

  /** A rule phase that raises nothing leaves Neutron with the requested contents and answers with
      exactly what is there. */
  lemma PhaseReconciles(wanted: seq<Content>, plan: Plan, w: World, tasks: seq<Undo>, binding: Binding)
    requires Valid(w)
    requires UpdateRules(wanted, plan, w, tasks, binding).error.None?
    ensures var e := UpdateRules(wanted, plan, w, tasks, binding);
            && RulesInStep(e.world, wanted)
            && Contents(e.response) == Contents(e.world.rules)
            && e.world.name == w.name && e.late == []
  {
    var missing := Missing(w.rules, wanted);
    PhaseShape(wanted, plan, w, tasks, binding);
    AllDeleted(wanted, plan, w);
    var w1 := Lacking(w, DeletedInTime(wanted, plan, w.rules));
    var created := NewRules(w1, missing);
    assert ContentList(created) == missing;
    Reconciled(w.rules, wanted, created);
    if missing == [] {
      assert w1.rules + created == w1.rules;
    }
  }

  // ---- The retries ------------------------------------------------------------------------------

  /** The guards pass and, if the name changes, Neutron accepts it: the try reaches its rule phase. */
  predicate Proceeds(req: Request, plan: Plan) {
    Guard(req, plan).None? && (plan.row.value.name == req.name || plan.renames)
  }

  function AtRulePhase(req: Request, plan: Plan, w: World): World
    requires Proceeds(req, plan)
  {
    if plan.row.value.name != req.name then w.(name := req.name) else w
  }

  function RulePhaseOf(req: Request, plan: Plan, w: World, tasks: seq<Undo>, binding: Binding): RulePhase
    requires Proceeds(req, plan)
  {
    UpdateRules(req.rules, plan, AtRulePhase(req, plan, w), tasks + RenameTasks(req, plan), binding)
  }

  /** A try in terms of its rule phase. */
  lemma TryShape(req: Request, plan: Plan, w: World, tasks: seq<Undo>, binding: Binding)
    ensures var first := TryOnce(req, plan, w, tasks, binding);
            && (!Proceeds(req, plan) ==> first.end.Failed? && first.end.late == [] && first.world == w && first.tasks == tasks)
            && (Proceeds(req, plan) ==>
                  var e := RulePhaseOf(req, plan, w, tasks, binding);
                  && first.world == e.world && first.tasks == e.tasks
                  && (e.error.Some? ==> first.end == Failed(e.error.value, e.late))
                  && (e.error.None? ==> first.end == CommitEnd(req, plan.row.value, plan.commit, e.response)))
  {}

  /** A stale version can only surface at the commit, when the remote work is done: the next try
      finds the rules in step. */
  lemma StaleTryIsReconciled(req: Request, plan: Plan, w: World, tasks: seq<Undo>, binding: Binding)
    requires Valid(w)
    requires TryOnce(req, plan, w, tasks, binding).end.Stale? || TryOnce(req, plan, w, tasks, binding).end.Returned?
    ensures RulesInStep(TryOnce(req, plan, w, tasks, binding).world, req.rules)
  {
    TryShape(req, plan, w, tasks, binding);
    PhaseReconciles(req.rules, plan, AtRulePhase(req, plan, w), tasks + RenameTasks(req, plan), binding);
  }

  lemma InStepPhase(wanted: seq<Content>, plan: Plan, w: World, tasks: seq<Undo>, binding: Binding)
    requires Surplus(w.rules, wanted) == [] && Missing(w.rules, wanted) == []
    ensures var e := UpdateRules(wanted, plan, w, tasks, binding);
            e.world == w && e.tasks == tasks && e.late == []
  {
    NothingLacking(w);
    var order := Schedule([], plan, 0);
    assert order == [] && Gone([]) == [];
    assert Recreations([]) == [] && tasks + [] == tasks;
  }

  /** Between `tasks` and `t` Neutron was at most renamed, and only how to set the name back registered. */
  ghost predicate OnlyNamed(req: Request, w: World, tasks: seq<Undo>, t: Try, more: seq<Undo>) {
    && t.tasks == tasks + more && OnlyRenames(more)
    && t.world == (if more == [] then w else w.(name := req.name))
  }

  lemma OnlyNamedTwice(req: Request, w: World, tasks: seq<Undo>, t: Try, more: seq<Undo>, u: Try, rest: seq<Undo>)
    requires OnlyNamed(req, w, tasks, t, more) && OnlyNamed(req, t.world, t.tasks, u, rest)
    ensures OnlyNamed(req, w, tasks, u, more + rest)
  {
    AppendAssociates(tasks, more, rest);
  }

  lemma InStepTry(req: Request, plan: Plan, w: World, tasks: seq<Undo>, binding: Binding)
    requires Surplus(w.rules, req.rules) == [] && Missing(w.rules, req.rules) == []
    ensures var first := TryOnce(req, plan, w, tasks, binding);
            OnlyNamed(req, w, tasks, first, RenameTasks(req, plan)) && (first.end.Failed? ==> first.end.late == [])
  {
    TryShape(req, plan, w, tasks, binding);
    if Proceeds(req, plan) {
      InStepPhase(req.rules, plan, AtRulePhase(req, plan, w), tasks + RenameTasks(req, plan), binding);
    } else {
      assert tasks + [] == tasks;
    }
  }

  /** Tries that start in step never touch a rule: all they do to Neutron is set the name, and all
      they register is how to set it back. */
  lemma {:induction false} LaterTriesOnlyRename(req: Request, plans: seq<Plan>, w: World, tasks: seq<Undo>, binding: Binding)
    returns (more: seq<Undo>)
    requires plans != [] && Valid(w) && RulesInStep(w, req.rules)
    ensures var whole := Retry(req, plans, w, tasks, binding);
            OnlyNamed(req, w, tasks, whole, more) && (whole.end.Failed? ==> whole.end.late == [])
    decreases |plans|
  {
    var first := TryOnce(req, plans[0], w, tasks, binding);
    more := RenameTasks(req, plans[0]);
    assert OnlyNamed(req, w, tasks, first, more) && (first.end.Failed? ==> first.end.late == []) by {
      InStep(w.rules, req.rules);
      InStepTry(req, plans[0], w, tasks, binding);
    }
    if first.end.Stale? && |plans| > 1 {
      var rest := LaterTriesOnlyRename(req, plans[1..], first.world, first.tasks, binding);
      OnlyNamedTwice(req, w, tasks, first, more, Retry(req, plans[1..], first.world, first.tasks, binding), rest);
      more := more + rest;
    }
  }

  /** What the tries after the first add. */
  lemma LaterTasks(req: Request, plans: seq<Plan>, w: World, tasks: seq<Undo>, binding: Binding) returns (later: seq<Undo>)
    requires plans != [] && Valid(w)
    ensures var first, whole := TryOnce(req, plans[0], w, tasks, binding), Retry(req, plans, w, tasks, binding);
            && OnlyNamed(req, first.world, first.tasks, whole, later)
            && (!first.end.Stale? ==> whole == first)
            && (first.end.Stale? && whole.end.Failed? ==> whole.end.late == [])
  {
    var first := TryOnce(req, plans[0], w, tasks, binding);
    later := [];
    assert first.tasks + [] == first.tasks;
    if first.end.Stale? && |plans| > 1 {
      TryKeepsValid(req, plans[0], w, tasks, binding);
      StaleTryIsReconciled(req, plans[0], w, tasks, binding);
      later := LaterTriesOnlyRename(req, plans[1..], first.world, first.tasks, binding);
    }
  }

  // ---- The request as a whole -------------------------------------------------------------------

  /** Where the rule phase's tasks start in the log. */
  function PhaseStart(req: Request, plan: Plan): nat {
    |RenameTasks(req, plan)|
  }

  function RequestLate(req: Request, plan: Plan, w: World): seq<Rule> {
    if Proceeds(req, plan) then DeletedLate(req.rules, plan, w.rules) else []
  }

  function RequestLost(req: Request, plan: Plan, w: World, answers: nat -> bool): seq<Content> {
    if Proceeds(req, plan) then Lost(req.rules, plan, w.rules, PhaseStart(req, plan), answers) else []
  }

  function RequestLeftover(req: Request, plan: Plan, w: World, binding: Binding, answers: nat -> bool): seq<Content> {
    if Proceeds(req, plan) then PhaseLeftover(req.rules, plan, w.rules, binding, PhaseStart(req, plan), answers) else []
  }

  /** The exact aftermath of a failed request, over all its tries and whichever compensating calls get
      through.  Neutron has the name of the oldest restoring call that did, or else the last name
      set; and the original multiset of rule contents, plus the created contents not taken back,
      minus the contents not recreated and the rules deleted too late. */
  lemma FailedRequest(req: Request, plans: seq<Plan>, w: World, binding: Binding, answers: nat -> bool)
    requires plans != [] && Valid(w)
    requires !Retry(req, plans, w, [], binding).end.Returned?
    ensures var whole := Retry(req, plans, w, [], binding);
            var after := Aftermath(whole, answers);
            && after.name == FirstRename(Answering(whole.tasks, 0, answers)).GetOr(whole.world.name)
            && Contents(after.rules) + Contents(RequestLate(req, plans[0], w)) + multiset(RequestLost(req, plans[0], w, answers))
               == Contents(w.rules) + multiset(RequestLeftover(req, plans[0], w, binding, answers))
  {
    var whole := Retry(req, plans, w, [], binding);
    TryShape(req, plans[0], w, [], binding);
    if Proceeds(req, plans[0]) {
      RequestUnwinds(req, plans, w, binding, answers);
      NothingLacking(Unwind(Answering(whole.tasks, 0, answers), Run, whole.world));
    } else {
      NothingLacking(w);
    }
  }

  /** Tasks registered before a rule phase do not influence it. */
  lemma PhaseAppends(wanted: seq<Content>, plan: Plan, w: World, tasks: seq<Undo>, binding: Binding)
    ensures var e := UpdateRules(wanted, plan, w, [], binding);
            UpdateRules(wanted, plan, w, tasks, binding) == e.(tasks := tasks + e.tasks)
  {
    PhaseShape(wanted, plan, w, [], binding);
    PhaseShape(wanted, plan, w, tasks, binding);
    FromTheStart(Recreations(DeletedInTime(wanted, plan, w.rules)) + CreationLog(wanted, plan, w, binding));
  }

  lemma PhaseHasNoRenames(wanted: seq<Content>, plan: Plan, w: World, binding: Binding)
    ensures NoRenames(UpdateRules(wanted, plan, w, [], binding).tasks)
  {
    PhaseShape(wanted, plan, w, [], binding);
  }

  /** The log of a request that proceeds: at most one rename, the rule phase, later renames. */
  lemma RequestLog(req: Request, plans: seq<Plan>, w: World, binding: Binding) returns (e: RulePhase, later: seq<Undo>)
    requires plans != [] && Valid(w) && Proceeds(req, plans[0])
    ensures var whole := Retry(req, plans, w, [], binding);
            && e == UpdateRules(req.rules, plans[0], AtRulePhase(req, plans[0], w), [], binding)
            && whole.tasks == RenameTasks(req, plans[0]) + e.tasks + later && OnlyRenames(later) && NoRenames(e.tasks)
            && whole.world == e.world.(name := whole.world.name) && (later == [] ==> whole.world.name == e.world.name)
            && (whole.end.Failed? ==> whole.end.late == e.late)
            && (whole.end.Stale? ==> e.late == [])
  {
    var plan := plans[0];
    var w1 := AtRulePhase(req, plan, w);
    e := UpdateRules(req.rules, plan, w1, [], binding);
    TryShape(req, plan, w, [], binding);
    PhaseAppends(req.rules, plan, w1, RenameTasks(req, plan), binding);
    PhaseHasNoRenames(req.rules, plan, w1, binding);
    NoErrorNothingLate(req.rules, plan, w1, binding);
    FromTheStart(RenameTasks(req, plan));
    later := LaterTasks(req, plans, w, [], binding);
  }

  lemma NoErrorNothingLate(wanted: seq<Content>, plan: Plan, w: World, binding: Binding)
    ensures var e := UpdateRules(wanted, plan, w, [], binding);
            e.error.None? ==> e.late == []
  {
    PhaseShape(wanted, plan, w, [], binding);
  }

  lemma AnsweringKinds(tasks: seq<Undo>, from: nat, answers: nat -> bool)
    ensures OnlyRenames(tasks) ==> OnlyRenames(Answering(tasks, from, answers))
    ensures NoRenames(tasks) ==> NoRenames(Answering(tasks, from, answers))
  {
    AnsweringAmong(tasks, from, answers);
  }

  /** A log of renames, tasks that do not touch the name, and renames, unwound. */
  lemma UnwindLog(a: seq<Undo>, b: seq<Undo>, c: seq<Undo>, w: World, mid: World)
    requires OnlyRenames(a) && NoRenames(b) && OnlyRenames(c)
    requires mid == w.(name := mid.name) && mid.name == FirstRename(c).GetOr(w.name) && Unwind(b, Run, mid).name == mid.name
    ensures var back := Unwind(a + b + c, Run, w);
            back == Unwind(b, Run, mid).(name := FirstRename(a + b + c).GetOr(w.name))
  {
    UnwindConcat(a + b, c, Run, w);
    UnwindConcat(a, b, Run, mid);
    UnwindRenames(c, w);
    UnwindRenames(a, Unwind(b, Run, mid));
    FirstRenameConcat(a + b, c);
    FirstRenameConcat(a, b);
    NoFirstRename(b);
  }

  lemma RequestUnwinds(req: Request, plans: seq<Plan>, w: World, binding: Binding, answers: nat -> bool)
    requires plans != [] && Valid(w) && Proceeds(req, plans[0])
    ensures var whole, late := Retry(req, plans, w, [], binding), RequestLate(req, plans[0], w);
            var log := Answering(whole.tasks, 0, answers);
            var back := Unwind(log, Run, whole.world);
            && (whole.end.Failed? ==> whole.end.late == late) && (whole.end.Stale? ==> late == [])
            && back.name == FirstRename(log).GetOr(whole.world.name)
            && BackUpTo(w, back, late, RequestLost(req, plans[0], w, answers), RequestLeftover(req, plans[0], w, binding, answers))
  {
    var plan := plans[0];
    var reached := Retry(req, plans, w, [], binding).world;
    var e, later := RequestLog(req, plans, w, binding);
    var second := PhaseStart(req, plan);
    var third := second + |e.tasks|;
    var a, b, c := Answering(RenameTasks(req, plan), 0, answers), Answering(e.tasks, second, answers), Answering(later, third, answers);
    AnsweringParts(RenameTasks(req, plan), e.tasks, later, second, third, answers);
    AnsweringKinds(RenameTasks(req, plan), 0, answers);
    AnsweringKinds(e.tasks, second, answers);
    AnsweringKinds(later, third, answers);
    var mid := e.world.(name := FirstRename(c).GetOr(reached.name));
    PhaseUnwindsForRequest(req, plan, w, binding, mid.name, answers);
    assert mid == reached.(name := mid.name);
    UnwindLog(a, b, c, reached, mid);
  }

  /** The name does not matter to the rule phase. */
  lemma PhaseUnwindsForRequest(req: Request, plan: Plan, w: World, binding: Binding, name: string, answers: nat -> bool)
    requires Valid(w) && Proceeds(req, plan)
    ensures var e := UpdateRules(req.rules, plan, AtRulePhase(req, plan, w), [], binding);
            && e.late == RequestLate(req, plan, w)
            && PhaseUndone(e, w, name, RequestLost(req, plan, w, answers), RequestLeftover(req, plan, w, binding, answers),
                           PhaseStart(req, plan), answers)
  {
    var w1 := AtRulePhase(req, plan, w);
    assert w1.rules == w.rules;
    PhaseShape(req.rules, plan, w1, [], binding);
    PhaseUnwinds(req.rules, plan, w1, binding, name, PhaseStart(req, plan), answers);
  }

  // ---- Exact conditions ---------------------------------------------------------------------------

  /** No delete of the try succeeds too late. */
  predicate NoneDeletedLate(req: Request, plan: Plan, w: World) {
    Proceeds(req, plan) ==> !DeletesLate(req.rules, plan, w.rules)
  }

  /** Every rule that the try deletes is recreated. */
  predicate AllRecreated(req: Request, plan: Plan, w: World, answers: nat -> bool) {
    Proceeds(req, plan) ==> AllAnswer(PhaseStart(req, plan), |DeletedInTime(req.rules, plan, w.rules)|, answers)
  }

  /** What the try creates is taken back. */
  predicate AllTakenBack(req: Request, plan: Plan, w: World, binding: Binding, answers: nat -> bool) {
    Proceeds(req, plan) ==> PhaseTakenBack(req.rules, plan, w.rules, binding, PhaseStart(req, plan), answers)
  }

  /** What a failed request needs to give the rules back, in terms of its first try. */
  predicate RestoresRules(req: Request, plan: Plan, w: World, binding: Binding, answers: nat -> bool) {
    NoneDeletedLate(req, plan, w) && AllRecreated(req, plan, w, answers) && AllTakenBack(req, plan, w, binding, answers)
  }

  lemma LateIff(req: Request, plan: Plan, w: World)
    ensures RequestLate(req, plan, w) == [] <==> NoneDeletedLate(req, plan, w)
  {
    if Proceeds(req, plan) {
      DeletedLateIff(req.rules, plan, w.rules);
    }
  }

  lemma LostIff(req: Request, plan: Plan, w: World, answers: nat -> bool)
    ensures RequestLost(req, plan, w, answers) == [] <==> AllRecreated(req, plan, w, answers)
  {
    if Proceeds(req, plan) {
      NoneFailing(ContentList(DeletedInTime(req.rules, plan, w.rules)), PhaseStart(req, plan), answers);
    }
  }

  lemma LeftIff(req: Request, plan: Plan, w: World, binding: Binding, answers: nat -> bool)
    ensures RequestLeftover(req, plan, w, binding, answers) == [] <==> AllTakenBack(req, plan, w, binding, answers)
  {
    PhaseLeftIff(req.rules, plan, w.rules, binding, PhaseStart(req, plan), answers);
  }

  lemma PhaseLeftIff(wanted: seq<Content>, plan: Plan, listed: seq<Rule>, binding: Binding, from: nat, answers: nat -> bool)
    ensures PhaseLeftover(wanted, plan, listed, binding, from, answers) == []
            <==> PhaseTakenBack(wanted, plan, listed, binding, from, answers)
  {
    NothingLeftIff(CreatesRules(wanted, plan, listed), Missing(listed, wanted), from + |DeletedInTime(wanted, plan, listed)|, binding, answers);
  }

  lemma NothingMissingIff(req: Request, plan: Plan, w: World, binding: Binding, answers: nat -> bool)
    ensures RestoresRules(req, plan, w, binding, answers) <==>
              && RequestLate(req, plan, w) == [] && RequestLost(req, plan, w, answers) == []
              && RequestLeftover(req, plan, w, binding, answers) == []
  {
    LateIff(req, plan, w);
    LostIff(req, plan, w, answers);
    LeftIff(req, plan, w, binding, answers);
  }

  /** What is missing nobody wanted, what is left over somebody did. */
  lemma MissingAndLeftoverDisjoint(req: Request, plan: Plan, w: World, binding: Binding, answers: nat -> bool)
    requires Valid(w)
    ensures forall c :: c in ContentList(RequestLate(req, plan, w)) + RequestLost(req, plan, w, answers) ==> c !in req.rules
    ensures forall c :: c in RequestLeftover(req, plan, w, binding, answers) ==> c in req.rules
  {
    if Proceeds(req, plan) {
      var gone, late := DeletedInTime(req.rules, plan, w.rules), DeletedLate(req.rules, plan, w.rules);
      var start := PhaseStart(req, plan);
      DeletedRules(req.rules, plan, w);
      UnwantedContents(gone, late, req.rules, start, answers);
      if CreatesRules(req.rules, plan, w.rules) {
        LeftoverAmong(Missing(w.rules, req.rules), start + |gone|, binding, answers);
      }
    }
  }

  lemma UnwantedContents(gone: seq<Rule>, late: seq<Rule>, wanted: seq<Content>, from: nat, answers: nat -> bool)
    requires (forall r :: r in gone ==> r.content !in wanted) && (forall r :: r in late ==> r.content !in wanted)
    ensures forall c :: c in ContentList(late) + Answering(ContentList(gone), from, Failing(answers)) ==> c !in wanted
  {
    AnsweringAmong(ContentList(gone), from, Failing(answers));
    forall c | c in ContentList(late) + Answering(ContentList(gone), from, Failing(answers)) ensures c !in wanted {
      ContentListed(late, c);
      ContentListed(gone, c);
      var r: Rule :| (r in gone || r in late) && r.content == c;
    }
  }

  lemma DisjointSums<T>(x: multiset<T>, y: multiset<T>, lacking: multiset<T>, extra: multiset<T>)
    requires x + lacking == y + extra && lacking !! extra
    ensures x == y <==> lacking == multiset{} && extra == multiset{}
  {
    if x == y {
      forall c ensures lacking[c] == 0 && extra[c] == 0 {
        assert (x + lacking)[c] == (y + extra)[c];
        assert c !in lacking || c !in extra;
      }
    }
    assert x + multiset{} == x && y + multiset{} == y;
  }

  /** When a failed request restores the rules.  As written, with compensating calls that get
      through: exactly when no delete succeeded too late and at most one rule was created. */
  lemma RulesRestoredIff(req: Request, plans: seq<Plan>, w: World, binding: Binding, answers: nat -> bool)
    requires plans != [] && Valid(w)
    requires !Retry(req, plans, w, [], binding).end.Returned?
    ensures Contents(Aftermath(Retry(req, plans, w, [], binding), answers).rules) == Contents(w.rules)
            <==> RestoresRules(req, plans[0], w, binding, answers)
  {
    var late, lost := RequestLate(req, plans[0], w), RequestLost(req, plans[0], w, answers);
    var left := RequestLeftover(req, plans[0], w, binding, answers);
    var now, before := Contents(Aftermath(Retry(req, plans, w, [], binding), answers).rules), Contents(w.rules);
    FailedRequest(req, plans, w, binding, answers);
    NothingMissingIff(req, plans[0], w, binding, answers);
    MissingAndLeftoverDisjoint(req, plans[0], w, binding, answers);
    var lacking, extra := Contents(late) + multiset(lost), multiset(left);
    assert now + lacking == before + extra;
    forall c | c in lacking ensures c !in extra {
      assert c in ContentList(late) + lost;
    }
    DisjointSums(now, before, lacking, extra);
    assert |Contents(late)| == |late| && |multiset(lost)| == |lost| && |extra| == |left|;
    assert |lacking| == |late| + |lost|;
  }

  ghost predicate HasRename(tasks: seq<Undo>) {
    exists t :: t in tasks && t.RestoreName?
  }

  ghost predicate RenamesOnlyTo(tasks: seq<Undo>, name: string) {
    forall t :: t in tasks && t.RestoreName? ==> t.name == name
  }

  lemma {:induction false} FirstRenameAmong(tasks: seq<Undo>, name: string)
    requires RenamesOnlyTo(tasks, name)
    ensures FirstRename(tasks) == if HasRename(tasks) then Some(name) else None
  {
    if tasks == [] {
    } else {
      assert tasks[0] in tasks;
      forall t | t in tasks[1..] ensures t in tasks {}
      FirstRenameAmong(tasks[1..], name);
      if t :| t in tasks && t.RestoreName? {
        assert t == tasks[0] || t in tasks[1..];
      }
    }
  }

  /** What one try does to the name and to the renames in the log. */
  lemma TryAndName(req: Request, plan: Plan, w: World, tasks: seq<Undo>, binding: Binding) returns (more: seq<Undo>)
    ensures var first := TryOnce(req, plan, w, tasks, binding);
            && first.tasks == tasks + more
            && (HasRename(more) <==> RenameTasks(req, plan) != [])
            && (HasRename(more) ==> plan.row.Some? && plan.row.value.name != req.name)
            && (plan.row.Some? ==> RenamesOnlyTo(more, plan.row.value.name))
            && first.world.name == (if HasRename(more) then req.name else w.name)
  {
    TryShape(req, plan, w, tasks, binding);
    more := [];
    assert tasks + [] == tasks;
    if Proceeds(req, plan) {
      var w1, renames := AtRulePhase(req, plan, w), RenameTasks(req, plan);
      PhaseShape(req.rules, plan, w1, tasks + renames, binding);
      var rest := Recreations(DeletedInTime(req.rules, plan, w1.rules)) + CreationLog(req.rules, plan, w1, binding);
      AppendAssociates(tasks, renames, rest);
      more := renames + rest;
      assert NoRenames(rest);
      assert renames != [] ==> renames[0] in more;
    }
  }

  /** The log's renames all lead to `name`; Neutron has been renamed exactly if there are any. */
  ghost predicate Renamed(req: Request, tasks: seq<Undo>, w: World, before: World, name: string) {
    && RenamesOnlyTo(tasks, name)
    && w.name == (if HasRename(tasks) then req.name else before.name)
    && (HasRename(tasks) ==> req.name != name)
  }

  lemma TryRenames(req: Request, plan: Plan, w: World, tasks: seq<Undo>, binding: Binding, before: World, name: string)
    requires Renamed(req, tasks, w, before, name) && (plan.row.Some? ==> plan.row.value.name == name)
    ensures var first := TryOnce(req, plan, w, tasks, binding);
            Renamed(req, first.tasks, first.world, before, name)
  {
    var more := TryAndName(req, plan, w, tasks, binding);
    SplitRenames(tasks, more);
  }

  lemma {:induction false} RenamesRememberRows(req: Request, plans: seq<Plan>, w: World, tasks: seq<Undo>, binding: Binding,
                                               before: World, name: string)
    requires plans != [] && Renamed(req, tasks, w, before, name)
    requires forall p :: p in plans && p.row.Some? ==> p.row.value.name == name
    ensures var whole := Retry(req, plans, w, tasks, binding);
            Renamed(req, whole.tasks, whole.world, before, name)
    decreases |plans|
  {
    assert plans[0] in plans;
    TryRenames(req, plans[0], w, tasks, binding, before, name);
    var first := TryOnce(req, plans[0], w, tasks, binding);
    if first.end.Stale? && |plans| > 1 {
      forall p | p in plans[1..] ensures p in plans {}
      RenamesRememberRows(req, plans[1..], first.world, first.tasks, binding, before, name);
    }
  }

  lemma SplitRenames(a: seq<Undo>, b: seq<Undo>)
    ensures HasRename(a + b) <==> HasRename(a) || HasRename(b)
  {
    if t :| t in a && t.RestoreName? { assert t in a + b; }
    if t :| t in b && t.RestoreName? { assert t in a + b; }
  }

  /** Some restoring call in the log gets through. */
  ghost predicate SomeRenameAnswers(tasks: seq<Undo>, answers: nat -> bool) {
    exists k :: 0 <= k < |tasks| && tasks[k].RestoreName? && answers(k)
  }

  lemma {:induction false} AnsweringRenames(tasks: seq<Undo>, answers: nat -> bool)
    ensures HasRename(Answering(tasks, 0, answers)) <==> SomeRenameAnswers(tasks, answers)
    decreases |tasks|
  {
    if tasks == [] {
    } else {
      var last := |tasks| - 1;
      var front := Answering(tasks[..last], 0, answers);
      AnsweringRenames(tasks[..last], answers);
      SplitRenames(front, [tasks[last]]);
      if SomeRenameAnswers(tasks[..last], answers) {
        var k :| 0 <= k < last && tasks[..last][k].RestoreName? && answers(k);
        assert tasks[k].RestoreName?;
      }
      if SomeRenameAnswers(tasks, answers) {
        var k :| 0 <= k < |tasks| && tasks[k].RestoreName? && answers(k);
        assert k < last ==> tasks[..last][k].RestoreName?;
        assert tasks[last] in [tasks[last]];
      }
    }
  }

  /** The commit of the try finds the row stale, if its rule phase gets through. */
  predicate MeetsStale(req: Request, plan: Plan) {
    Proceeds(req, plan) && plan.lists && plan.commit.FindsStale?
  }

  /** All gathered deletes of the try succeed, and so does the creation if there is anything to create. */
  predicate AppliesRules(req: Request, plan: Plan, listed: seq<Rule>) {
    GatherError(Order(req.rules, plan, listed)).None? && (Missing(listed, req.rules) == [] || plan.creates)
  }

  /** The restoring call of one of these later tries gets through; each registers one, from position
      `from` of the log on, and the next try is made only if this one meets a stale row. */
  predicate LaterRestores(req: Request, plans: seq<Plan>, from: nat, answers: nat -> bool) {
    && plans != []
    && (|| (RenameTasks(req, plans[0]) != [] && answers(from))
        || (MeetsStale(req, plans[0]) && LaterRestores(req, plans[1..], from + 1, answers)))
  }

  /** What a failed request needs to give the name back: its first try does not rename the group; or the
      restoring call of that try, which is the first task, gets through; or the try meets a stale row
      and that of a later one gets through, whose tasks follow those of the first. */
  predicate RestoresName(req: Request, plans: seq<Plan>, listed: seq<Rule>, answers: nat -> bool)
    requires plans != []
  {
    || RenameTasks(req, plans[0]) == []
    || answers(0)
    || (&& MeetsStale(req, plans[0]) && AppliesRules(req, plans[0], listed)
        && LaterRestores(req, plans[1..], 1 + |Surplus(listed, req.rules)| + |Missing(listed, req.rules)|, answers))
  }

  lemma AppendedRenames(tasks: seq<Undo>, more: seq<Undo>, answers: nat -> bool)
    ensures NoRenames(more) ==> (SomeRenameAnswers(tasks + more, answers) <==> SomeRenameAnswers(tasks, answers))
    ensures |more| == 1 && more[0].RestoreName? ==>
              (SomeRenameAnswers(tasks + more, answers) <==> SomeRenameAnswers(tasks, answers) || answers(|tasks|))
  {
    var all := tasks + more;
    forall k | 0 <= k < |tasks| && tasks[k].RestoreName? && answers(k) ensures SomeRenameAnswers(all, answers) {
      assert all[k] == tasks[k];
    }
    if SomeRenameAnswers(all, answers) {
      var k :| 0 <= k < |all| && all[k].RestoreName? && answers(k);
      assert k >= |tasks| ==> all[k] in more;
    }
    if |more| == 1 { assert all[|tasks|] == more[0]; }
  }

  /** The commit of a try that has renamed the group finds a changed row. */
  lemma StaleAfterRename(req: Request, plan: Plan, w: World, tasks: seq<Undo>, binding: Binding)
    requires RenameTasks(req, plan) != []
    ensures TryOnce(req, plan, w, tasks, binding).end.Stale? <==> MeetsStale(req, plan) && AppliesRules(req, plan, w.rules)
  {
    assert Committed(req, plan.row.value).name == req.name;
  }

  lemma LaterTry(req: Request, plan: Plan, w: World, tasks: seq<Undo>, binding: Binding, answers: nat -> bool)
    requires Valid(w) && RulesInStep(w, req.rules) && (plan.row.Some? ==> plan.row.value.name != req.name)
    ensures var first, renames := TryOnce(req, plan, w, tasks, binding), RenameTasks(req, plan);
            && Valid(first.world)
            && (SomeRenameAnswers(first.tasks, answers) <==> SomeRenameAnswers(tasks, answers) || (renames != [] && answers(|tasks|)))
            && (first.end.Stale? <==> MeetsStale(req, plan))
            && (first.end.Stale? ==> |first.tasks| == |tasks| + 1 && RulesInStep(first.world, req.rules))
  {
    InStep(w.rules, req.rules);
    InStepTry(req, plan, w, tasks, binding);
    AppendedRenames(tasks, RenameTasks(req, plan), answers);
    NothingToApply(req, plan, w.rules);
    TryKeepsValid(req, plan, w, tasks, binding);
    if RenameTasks(req, plan) != [] {
      StaleAfterRename(req, plan, w, tasks, binding);
      if TryOnce(req, plan, w, tasks, binding).end.Stale? {
        StaleTryIsReconciled(req, plan, w, tasks, binding);
      }
    } else {
      TryShape(req, plan, w, tasks, binding);
    }
  }

  ghost predicate NoneReads(plans: seq<Plan>, name: string) {
    forall p :: p in plans && p.row.Some? ==> p.row.value.name != name
  }

  lemma NoneReadsTail(plans: seq<Plan>, name: string)
    requires plans != [] && NoneReads(plans, name)
    ensures NoneReads(plans[1..], name) && (plans[0].row.Some? ==> plans[0].row.value.name != name)
  {
    assert plans[0] in plans;
    forall p | p in plans[1..] ensures p in plans {}
  }

  lemma {:induction false} LaterRenames(req: Request, plans: seq<Plan>, w: World, tasks: seq<Undo>, binding: Binding, answers: nat -> bool)
    requires plans != [] && Valid(w) && RulesInStep(w, req.rules)
    requires NoneReads(plans, req.name)
    ensures SomeRenameAnswers(Retry(req, plans, w, tasks, binding).tasks, answers)
            <==> SomeRenameAnswers(tasks, answers) || LaterRestores(req, plans, |tasks|, answers)
    decreases |plans|
  {
    NoneReadsTail(plans, req.name);
    LaterTry(req, plans[0], w, tasks, binding, answers);
    var first, tail := TryOnce(req, plans[0], w, tasks, binding), plans[1..];
    if first.end.Stale? && tail != [] {
      assert Retry(req, plans, w, tasks, binding) == Retry(req, tail, first.world, first.tasks, binding);
      LaterRenames(req, tail, first.world, first.tasks, binding, answers);
    } else {
      assert Retry(req, plans, w, tasks, binding) == first;
    }
  }

  lemma NothingToApply(req: Request, plan: Plan, listed: seq<Rule>)
    requires Surplus(listed, req.rules) == [] && Missing(listed, req.rules) == []
    ensures AppliesRules(req, plan, listed)
  {
    assert Order(req.rules, plan, listed) == [];
  }

  /** A try whose rules all apply registers a task for each rule it deletes or creates. */
  lemma AppliedLog(req: Request, plan: Plan, w: World, binding: Binding)
    requires plan.lists && AppliesRules(req, plan, w.rules)
    ensures |UpdateRules(req.rules, plan, w, [], binding).tasks| == |Surplus(w.rules, req.rules)| + |Missing(w.rules, req.rules)|
  {
    var order := Order(req.rules, plan, w.rules);
    PhaseShape(req.rules, plan, w, [], binding);
    NoErrorNoneLate(order, plan.grace);
    assert order[..|order|] == order;
    AllGone(order);
    ScheduleIsPermutation(Surplus(w.rules, req.rules), plan, 0);
  }

  lemma FirstTry(req: Request, plan: Plan, w: World, binding: Binding, answers: nat -> bool)
    requires Valid(w) && RenameTasks(req, plan) != []
    ensures var first := TryOnce(req, plan, w, [], binding);
            && (SomeRenameAnswers(first.tasks, answers) <==> answers(0))
            && (first.end.Stale? ==> |first.tasks| == 1 + |Surplus(w.rules, req.rules)| + |Missing(w.rules, req.rules)|)
  {
    var w1, renames := AtRulePhase(req, plan, w), RenameTasks(req, plan);
    var e := UpdateRules(req.rules, plan, w1, [], binding);
    TryShape(req, plan, w, [], binding);
    FromTheStart(renames);
    PhaseAppends(req.rules, plan, w1, renames, binding);
    PhaseHasNoRenames(req.rules, plan, w1, binding);
    AppendedRenames([], renames, answers);
    AppendedRenames(renames, e.tasks, answers);
    StaleAfterRename(req, plan, w, [], binding);
    if TryOnce(req, plan, w, [], binding).end.Stale? {
      AppliedLog(req, plan, w1, binding);
    }
  }

  /** Which restoring calls get through, from the plans. */
  lemma RestoringCalls(req: Request, plans: seq<Plan>, w: World, binding: Binding, answers: nat -> bool)
    requires plans != [] && Valid(w) && RenameTasks(req, plans[0]) != [] && NoneReads(plans, req.name)
    ensures SomeRenameAnswers(Retry(req, plans, w, [], binding).tasks, answers) <==> RestoresName(req, plans, w.rules, answers)
  {
    var tasks, stale := RestoringFacts(req, plans[0], w, binding, answers);
    CallsOfRequest(req, plans, w, binding, answers);
    var some := SomeRenameAnswers(Retry(req, plans, w, [], binding).tasks, answers);
    RestoresNameFrom(req, plans, w.rules, answers, |tasks|, stale, some);
  }

  lemma RestoresNameFrom(req: Request, plans: seq<Plan>, listed: seq<Rule>, answers: nat -> bool, length: nat, stale: bool, some: bool)
    requires plans != [] && RenameTasks(req, plans[0]) != []
    requires stale <==> MeetsStale(req, plans[0]) && AppliesRules(req, plans[0], listed)
    requires stale ==> length == 1 + |Surplus(listed, req.rules)| + |Missing(listed, req.rules)|
    requires some <==> answers(0) || (stale && LaterRestores(req, plans[1..], length, answers))
    ensures some <==> RestoresName(req, plans, listed, answers)
  {}

  lemma RestoringFacts(req: Request, plan: Plan, w: World, binding: Binding, answers: nat -> bool) returns (tasks: seq<Undo>, stale: bool)
    requires Valid(w) && RenameTasks(req, plan) != []
    ensures tasks == TryOnce(req, plan, w, [], binding).tasks && stale == TryOnce(req, plan, w, [], binding).end.Stale?
    ensures SomeRenameAnswers(tasks, answers) <==> answers(0)
    ensures stale <==> MeetsStale(req, plan) && AppliesRules(req, plan, w.rules)
    ensures stale ==> |tasks| == 1 + |Surplus(w.rules, req.rules)| + |Missing(w.rules, req.rules)|
  {
    var first := TryOnce(req, plan, w, [], binding);
    tasks, stale := first.tasks, first.end.Stale?;
    FirstTry(req, plan, w, binding, answers);
    StaleAfterRename(req, plan, w, [], binding);
  }

  lemma CallsOfRequest(req: Request, plans: seq<Plan>, w: World, binding: Binding, answers: nat -> bool)
    requires plans != [] && Valid(w) && RenameTasks(req, plans[0]) != [] && NoneReads(plans, req.name)
    ensures var first := TryOnce(req, plans[0], w, [], binding);
            SomeRenameAnswers(Retry(req, plans, w, [], binding).tasks, answers)
            <==> SomeRenameAnswers(first.tasks, answers) || (first.end.Stale? && LaterRestores(req, plans[1..], |first.tasks|, answers))
  {
    NoneReadsTail(plans, req.name);
    var first, tail := TryOnce(req, plans[0], w, [], binding), plans[1..];
    if first.end.Stale? && tail != [] {
      assert Retry(req, plans, w, [], binding) == Retry(req, tail, first.world, first.tasks, binding);
      CallsAfterFirst(req, plans[0], tail, w, binding, answers);
    } else {
      assert Retry(req, plans, w, [], binding) == first;
    }
  }

  lemma CallsAfterFirst(req: Request, plan: Plan, tail: seq<Plan>, w: World, binding: Binding, answers: nat -> bool)
    requires tail != [] && Valid(w) && TryOnce(req, plan, w, [], binding).end.Stale?
    requires NoneReads(tail, req.name)
    ensures var first := TryOnce(req, plan, w, [], binding);
            SomeRenameAnswers(Retry(req, tail, first.world, first.tasks, binding).tasks, answers)
            <==> SomeRenameAnswers(first.tasks, answers) || LaterRestores(req, tail, |first.tasks|, answers)
  {
    var first := TryOnce(req, plan, w, [], binding);
    TryKeepsValid(req, plan, w, [], binding);
    StaleTryIsReconciled(req, plan, w, [], binding);
    LaterRenames(req, tail, first.world, first.tasks, binding, answers);
  }

  lemma AlwaysRenames(req: Request, plans: seq<Plan>, w: World, binding: Binding)
    requires plans != [] && Valid(w) && RenameTasks(req, plans[0]) != []
    ensures !NoRenames(Retry(req, plans, w, [], binding).tasks)
  {
    var e, later := RequestLog(req, plans, w, binding);
    var log := RenameTasks(req, plans[0]) + e.tasks + later;
    assert log[0].RestoreName? && log[0] in log;
  }

  /** When a failed request restores the name, if the rows it read carried Neutron's. */
  lemma NameRestoredIff(req: Request, plans: seq<Plan>, w: World, binding: Binding, answers: nat -> bool)
    requires plans != [] && Valid(w)
    requires !Retry(req, plans, w, [], binding).end.Returned?
    requires forall p :: p in plans && p.row.Some? ==> p.row.value.name == w.name
    ensures Aftermath(Retry(req, plans, w, [], binding), answers).name == w.name <==> RestoresName(req, plans, w.rules, answers)
  {
    NameRestoredByLog(req, plans, w, binding, answers);
    var whole := Retry(req, plans, w, [], binding);
    assert plans[0] in plans;
    if RenameTasks(req, plans[0]) == [] {
      NeverRenames(req, plans, w, binding);
    } else {
      AlwaysRenames(req, plans, w, binding);
      RestoringCalls(req, plans, w, binding, answers);
    }
  }

  lemma NeverRenames(req: Request, plans: seq<Plan>, w: World, binding: Binding)
    requires plans != [] && Valid(w) && RenameTasks(req, plans[0]) == []
    requires forall p :: p in plans && p.row.Some? ==> p.row.value.name == w.name
    ensures NoRenames(Retry(req, plans, w, [], binding).tasks)
  {
    assert plans[0] in plans;
    RenamesRememberRows(req, plans, w, [], binding, w, w.name);
    if !Proceeds(req, plans[0]) {
      TryShape(req, plans[0], w, [], binding);
    } else {
      assert w.name == req.name;
    }
  }

  /** The same in terms of the log: it never renamed the group, or at least one of its restoring calls
      gets through. */
  lemma NameRestoredByLog(req: Request, plans: seq<Plan>, w: World, binding: Binding, answers: nat -> bool)
    requires plans != [] && Valid(w)
    requires !Retry(req, plans, w, [], binding).end.Returned?
    requires forall p :: p in plans && p.row.Some? ==> p.row.value.name == w.name
    ensures var whole := Retry(req, plans, w, [], binding);
            Aftermath(whole, answers).name == w.name <==> NoRenames(whole.tasks) || SomeRenameAnswers(whole.tasks, answers)
  {
    var whole := Retry(req, plans, w, [], binding);
    FailedRequest(req, plans, w, binding, answers);
    RenamesRememberRows(req, plans, w, [], binding, w, w.name);
    AnsweringAmong(whole.tasks, 0, answers);
    FirstRenameAmong(Answering(whole.tasks, 0, answers), w.name);
    AnsweringRenames(whole.tasks, answers);
    if k :| 0 <= k < |whole.tasks| && whole.tasks[k].RestoreName? && answers(k) {
      assert whole.tasks[k] in whole.tasks;
    }
  }

  /** A successful request, whatever the number of tries: Neutron has the requested set of rule
      contents, the response lists what is there, the row carries the requested name and
      description, and - if the stores agreed on the name at the first read - so does Neutron. */
  lemma {:induction false} SuccessfulRequest(req: Request, plans: seq<Plan>, w: World, tasks: seq<Undo>, binding: Binding)
    requires plans != [] && Valid(w)
    requires Retry(req, plans, w, tasks, binding).end.Returned?
    ensures var whole := Retry(req, plans, w, tasks, binding);
            && RulesInStep(whole.world, req.rules)
            && Contents(whole.end.response) == Contents(whole.world.rules)
            && (whole.end.committed.name, whole.end.committed.description) == (req.name, req.description)
            && (w.name == req.name || plans[0].row == None || plans[0].row.value.name == w.name ==> whole.world.name == req.name)
    decreases |plans|
  {
    var plan := plans[0];
    var first, tail := TryOnce(req, plan, w, tasks, binding), plans[1..];
    if first.end.Stale? {
      TryKeepsValid(req, plan, w, tasks, binding);
      StaleTryRenamed(req, plan, w, tasks, binding);
      assert Retry(req, plans, w, tasks, binding) == Retry(req, tail, first.world, first.tasks, binding);
      SuccessfulRequest(req, tail, first.world, first.tasks, binding);
    } else {
      assert Retry(req, plans, w, tasks, binding) == first;
      SuccessfulTry(req, plan, w, tasks, binding);
    }
  }

  lemma StaleTryRenamed(req: Request, plan: Plan, w: World, tasks: seq<Undo>, binding: Binding)
    requires TryOnce(req, plan, w, tasks, binding).end.Stale?
    ensures plan.row.Some?
    ensures w.name == req.name || plan.row.value.name == w.name ==> TryOnce(req, plan, w, tasks, binding).world.name == req.name
  {
    TryShape(req, plan, w, tasks, binding);
  }

  lemma SuccessfulTry(req: Request, plan: Plan, w: World, tasks: seq<Undo>, binding: Binding)
    requires Valid(w) && TryOnce(req, plan, w, tasks, binding).end.Returned?
    ensures var t := TryOnce(req, plan, w, tasks, binding);
            && RulesInStep(t.world, req.rules)
            && Contents(t.end.response) == Contents(t.world.rules)
            && (t.end.committed.name, t.end.committed.description) == (req.name, req.description)
            && plan.row.Some?
            && (w.name == req.name || plan.row.value.name == w.name ==> t.world.name == req.name)
  {
    TryShape(req, plan, w, tasks, binding);
    PhaseReconciles(req.rules, plan, AtRulePhase(req, plan, w), tasks + RenameTasks(req, plan), binding);
  }

  // ---- The two leaks, on concrete requests --------------------------------------------------------

  const ANY: Content := Content(None, IPv4, Ingress, None, None, None)
  const SSH: Content := Content(Some("tcp"), IPv4, Ingress, Some(22), Some(22), None)

  const GROUP: World := World(1, "web", [], 0, [])
  const ROW: Row := Row(7, "web", None, 3)

  /** Two rules to create, then a broken commit. */
  function LeakyCommit(): Plan {
    Plan(Some(ROW), false, true, true, _ => 0, _ => Succeeds, 0, true, Breaks)
  }

  /** One of the two survives a rollback whose calls all get through. */
  lemma LoopVariableLeak(answers: nat -> bool)
    requires forall k :: answers(k)
    ensures var whole := Retry(Request(7, "web", None, [ANY, SSH]), [LeakyCommit()], GROUP, [], SharedLoopVar);
            !whole.end.Returned? && Contents(Aftermath(whole, answers).rules) == multiset{ANY}
  {
    var req, plan := Request(7, "web", None, [ANY, SSH]), LeakyCommit();
    NothingThereYet(req.rules);
    NothingToDelete(req.rules, plan, GROUP);
    assert CreatesRules(req.rules, plan, GROUP.rules);
    AllAnswering([ANY, SSH], 0, answers);
    assert RequestLeftover(req, plan, GROUP, SharedLoopVar, answers) == [ANY, SSH][..1] == [ANY];
    PhaseSucceeds(req, plan, GROUP);
    FailedRequest(req, [plan], GROUP, SharedLoopVar, answers);
  }

  lemma NothingToDelete(wanted: seq<Content>, plan: Plan, w: World)
    requires Surplus(w.rules, wanted) == []
    ensures Order(wanted, plan, w.rules) == [] && GatherError([]) == None
    ensures DeletedInTime(wanted, plan, w.rules) == [] && DeletedLate(wanted, plan, w.rules) == []
    ensures Contents([]) == multiset{} && ContentList([]) == []
  {}

  lemma PhaseSucceeds(req: Request, plan: Plan, w: World)
    requires Proceeds(req, plan) && CreatesRules(req.rules, plan, AtRulePhase(req, plan, w).rules) && plan.commit.Breaks?
    ensures Retry(req, [plan], w, [], SharedLoopVar).end == Failed(Database, [])
  {
    TryShape(req, plan, w, [], SharedLoopVar);
  }

  lemma NothingThereYet(wanted: seq<Content>)
    requires wanted == [ANY, SSH]
    ensures Surplus([], wanted) == [] && Missing([], wanted) == wanted
  {
    assert wanted[..1] == [ANY] && wanted[..1][..0] == [];
    assert Missing([], wanted[..1]) == [ANY];
  }

  /** The first of two gathered deletes fails in transport while the other is still running. */
  function BrokenGather(): Plan {
    Plan(Some(ROW), false, true, true, _ => 0, k => if k == 0 then Broken else Succeeds, 0, true, Commits)
  }

  const TWO_RULES: World := GROUP.(rules := [Rule(0, 1, ANY), Rule(1, 1, SSH)], nextId := 2)

  /** The other one goes through after the rollback has begun and its rule is not recreated. */
  lemma LateDeleteLeak(answers: nat -> bool)
    ensures var whole := Retry(Request(7, "web", None, []), [BrokenGather()], TWO_RULES, [], SharedLoopVar);
            !whole.end.Returned? && Contents(Aftermath(whole, answers).rules) != Contents(TWO_RULES.rules)
  {
    var req, plan := Request(7, "web", None, []), BrokenGather();
    BothDeleted();
    assert Order([], plan, TWO_RULES.rules)[1].fate.Succeeds?;
    assert DeletesLate([], plan, TWO_RULES.rules);
    GatherFails(req, plan, TWO_RULES);
    RulesRestoredIff(req, [plan], TWO_RULES, SharedLoopVar, answers);
  }

  lemma BothDeleted()
    ensures var a, b := Rule(0, 1, ANY), Rule(1, 1, SSH);
            var order := Order([], BrokenGather(), TWO_RULES.rules);
            && order == [Completion(a, Broken), Completion(b, Succeeds)]
            && InTime(order, 0) == 1 && GatherError(order) == Some(Transport)
  {
    var a, b := Rule(0, 1, ANY), Rule(1, 1, SSH);
    TwoCompletions(a, b, BrokenGather());
    assert Surplus([a, b], []) == [a, b] by {
      assert [a, b][..1] == [a] && [a][..0] == [];
      assert Surplus([a], []) == [a];
    }
    GatherBroken(Order([], BrokenGather(), TWO_RULES.rules));
  }

  /** Whatever a try created or deleted, it fails if the gathered deletes do. */
  lemma GatherFails(req: Request, plan: Plan, w: World)
    requires Proceeds(req, plan) && plan.lists && GatherError(Order(req.rules, plan, AtRulePhase(req, plan, w).rules)).Some?
    ensures Retry(req, [plan], w, [], SharedLoopVar).end.Failed?
  {
    TryShape(req, plan, w, [], SharedLoopVar);
  }

  lemma GatherBroken(order: seq<Completion>)
    requires |order| == 2 && order[0].fate.Broken?
    ensures InTime(order, 0) == 1 && GatherError(order) == Some(Transport)
  {}

  lemma TwoCompletions(a: Rule, b: Rule, plan: Plan)
    requires plan.pick(0) == 0 && plan.pick(1) == 0
    ensures Schedule([a, b], plan, 0) == [Completion(a, plan.fate(0)), Completion(b, plan.fate(1))]
  {
    assert [a, b][..0] + [a, b][1..] == [b] && [b][..0] + [b][1..] == [];
    assert Schedule([b], plan, 1) == [Completion(b, plan.fate(1))] + Schedule([], plan, 2);
  }
}
