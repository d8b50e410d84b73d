/** How one try, and a whole request, of the security-group update ends: when it succeeds, and with
    which error it is refused, told from the request, the row and the oracle alone. */
module SecurityGroupEndings {
  import opened Options
  import opened Compensation
  import opened SecurityGroupRules
  import opened SecurityGroupUpdate
  import opened SecurityGroupOutcomes

  // ---- One try --------------------------------------------------------------------------------------

  /** The row is there and the requester's, and the requested name is its own or free. */
  predicate MayUpdate(req: Request, plan: Plan) {
    && plan.row.Some? && plan.row.value.projectId == req.projectId
    && (plan.row.value.name == req.name || !plan.nameTaken)
  }

  /** Neutron takes the new name, if there is one, and lists the rules. */
  predicate NamesAndLists(req: Request, plan: Plan) {
    MayUpdate(req, plan) && (plan.row.value.name == req.name || plan.renames) && plan.lists
  }

  /** All that a try with so many rules to delete, and rules to create or not, does before its commit
      gets through. */
  predicate Applies(req: Request, plan: Plan, deletes: nat, creates: bool) {
    && NamesAndLists(req, plan)
    && (forall k :: 0 <= k < deletes ==> plan.fate(k) == Succeeds)
    && (creates ==> plan.creates)
  }

  predicate SameRow(req: Request, plan: Plan)
    requires plan.row.Some?
  {
    plan.row.value.name == req.name && plan.row.value.description == req.description
  }

  /** Every way in which a try can end, and exactly when. */
  ghost predicate Ends(req: Request, plan: Plan, deletes: nat, creates: bool, end: TryEnd) {
    && (end.Returned? <==> Applies(req, plan, deletes, creates)
                           && (plan.commit == Commits || (plan.commit == FindsStale && SameRow(req, plan))))
    && (end.Returned? ==> end.committed == if SameRow(req, plan) then plan.row.value
                                           else Row(req.projectId, req.name, req.description, plan.row.value.version + 1))
    && (end.Stale? <==> Applies(req, plan, deletes, creates) && plan.commit == FindsStale && !SameRow(req, plan))
    && (end.Failed? && end.error == NotFound <==> plan.row == None)
    && (end.Failed? && end.error == UpdatePermissionDenied <==>
          plan.row.Some? && plan.row.value.projectId != req.projectId)
    && (end.Failed? && end.error == NameDuplicated <==>
          && plan.row.Some? && plan.row.value.projectId == req.projectId
          && plan.row.value.name != req.name && plan.nameTaken)
    && (end.Failed? && end.error == OpenStack <==>
          && MayUpdate(req, plan)
          && (|| !NamesAndLists(req, plan)
              || ((forall k :: 0 <= k < deletes ==> plan.fate(k) == Succeeds) && creates && !plan.creates)))
    && (end.Failed? && end.error == Transport <==>
          NamesAndLists(req, plan) && exists k :: 0 <= k < deletes && plan.fate(k) == Broken)
    && (end.Failed? && end.error == RuleDeletionFailed <==>
          && NamesAndLists(req, plan)
          && (exists k :: 0 <= k < deletes && plan.fate(k) == Refused)
          && (forall k :: 0 <= k < deletes ==> plan.fate(k) != Broken))
    && (end.Failed? && end.error == Error.Database <==> Applies(req, plan, deletes, creates) && plan.commit == Breaks)
  }

  lemma {:induction false} ScheduleFates(pending: seq<Rule>, plan: Plan, from: nat)
    ensures var order := Schedule(pending, plan, from);
            |order| == |pending| && forall k :: 0 <= k < |order| ==> order[k].fate == plan.fate(from + k)
    decreases |pending|
  {
    if pending == [] {
    } else {
      var i := plan.pick(from) % |pending|;
      ScheduleFates(pending[..i] + pending[i + 1..], plan, from + 1);
    }
  }

  /** Which error the gathered deletes raise, from their fates. */
  lemma GatherErrorIff(pending: seq<Rule>, plan: Plan)
    ensures var error, n := GatherError(Schedule(pending, plan, 0)), |pending|;
            && (error == None <==> forall k :: 0 <= k < n ==> plan.fate(k) == Succeeds)
            && (error == Some(Transport) <==> exists k :: 0 <= k < n && plan.fate(k) == Broken)
            && (error == Some(RuleDeletionFailed) <==>
                  (exists k :: 0 <= k < n && plan.fate(k) == Refused) && forall k :: 0 <= k < n ==> plan.fate(k) != Broken)
  {
    var order := Schedule(pending, plan, 0);
    ScheduleFates(pending, plan, 0);
    SomeFate(order, plan, Broken);
    SomeFate(order, plan, Refused);
    if FirstBroken(order) == |order| {
      assert forall c :: c in order ==> c.fate != Broken;
    } else {
      assert order[FirstBroken(order)] in order;
    }
  }

  lemma SomeFate(order: seq<Completion>, plan: Plan, fate: Fate)
    requires forall k :: 0 <= k < |order| ==> order[k].fate == plan.fate(k)
    ensures (exists c :: c in order && c.fate == fate) <==> exists k :: 0 <= k < |order| && plan.fate(k) == fate
  {
    if c :| c in order && c.fate == fate {
      var k :| 0 <= k < |order| && order[k] == c;
      assert plan.fate(k) == fate;
    }
    if k :| 0 <= k < |order| && plan.fate(k) == fate {
      assert order[k] in order;
    }
  }

  /** One try ends as stated, whatever the world, the log and the oracle. */
  lemma TryEnds(req: Request, plan: Plan, w: World, tasks: seq<Undo>, binding: Binding)
    ensures Ends(req, plan, |Surplus(w.rules, req.rules)|, Missing(w.rules, req.rules) != [], TryOnce(req, plan, w, tasks, binding).end)
  {
    if NamesAndLists(req, plan) {
      ReachedEnds(req, plan, w, tasks, binding);
    } else {
      RefusedEnds(req, plan, w, tasks, binding);
    }
  }

  lemma RefusedEnds(req: Request, plan: Plan, w: World, tasks: seq<Undo>, binding: Binding)
    requires !NamesAndLists(req, plan)
    ensures Ends(req, plan, |Surplus(w.rules, req.rules)|, Missing(w.rules, req.rules) != [], TryOnce(req, plan, w, tasks, binding).end)
  {
    assert TryOnce(req, plan, w, tasks, binding).end.Failed?;
  }

  lemma ReachedEnds(req: Request, plan: Plan, w: World, tasks: seq<Undo>, binding: Binding)
    requires NamesAndLists(req, plan)
    ensures Ends(req, plan, |Surplus(w.rules, req.rules)|, Missing(w.rules, req.rules) != [], TryOnce(req, plan, w, tasks, binding).end)
  {
    GatherErrorIff(Surplus(w.rules, req.rules), plan);
    var e := RulePhaseOf(req, plan, w, tasks, binding);
    TryShape(req, plan, w, tasks, binding);
    EndsAfter(req, plan, w, e.error, e.response, e.late, TryOnce(req, plan, w, tasks, binding).end);
  }

  /** The ending of a try that has reached its rule phase, from the error of that. */
  lemma EndsAfter(req: Request, plan: Plan, w: World, error: Option<Error>, response: seq<Rule>, late: seq<Rule>, end: TryEnd)
    requires NamesAndLists(req, plan)
    requires var gathered, creates := GatherError(Schedule(Surplus(w.rules, req.rules), plan, 0)), Missing(w.rules, req.rules) != [];
             && error == (if gathered.Some? then gathered else if creates && !plan.creates then Some(OpenStack) else None)
             && end == (if error.Some? then Failed(error.value, late) else CommitEnd(req, plan.row.value, plan.commit, response))
    ensures Ends(req, plan, |Surplus(w.rules, req.rules)|, Missing(w.rules, req.rules) != [], end)
  {
    GatherErrorIff(Surplus(w.rules, req.rules), plan);
  }

  // ---- The whole request ----------------------------------------------------------------------------

  /** The try would succeed but for a version that somebody else has moved. */
  predicate MeetsNewerRow(req: Request, plan: Plan, deletes: nat, creates: bool) {
    Applies(req, plan, deletes, creates) && plan.commit == FindsStale && !SameRow(req, plan)
  }

  /** What try `d` still has to delete and create: the first one all of it, the later ones nothing. */
  predicate TryMeetsNewerRow(req: Request, plans: seq<Plan>, listed: seq<Rule>, d: nat)
    requires d < |plans|
  {
    if d == 0 then MeetsNewerRow(req, plans[0], |Surplus(listed, req.rules)|, Missing(listed, req.rules) != [])
    else MeetsNewerRow(req, plans[d], 0, false)
  }

  ghost predicate TryDecides(req: Request, plans: seq<Plan>, listed: seq<Rule>, d: nat, end: TryEnd)
    requires d < |plans|
  {
    if d == 0 then Ends(req, plans[0], |Surplus(listed, req.rules)|, Missing(listed, req.rules) != [], end)
    else Ends(req, plans[d], 0, false, end)
  }

  /** A request ends as its first try that does not meet a newer row, or else as its last. */
  ghost predicate DecidedBy(req: Request, plans: seq<Plan>, listed: seq<Rule>, d: nat, end: TryEnd) {
    && d < |plans| && (forall j :: 0 <= j < d ==> TryMeetsNewerRow(req, plans, listed, j))
    && (d == |plans| - 1 || !TryMeetsNewerRow(req, plans, listed, d))
    && TryDecides(req, plans, listed, d, end)
  }

  lemma StaleIff(req: Request, plan: Plan, w: World, tasks: seq<Undo>, binding: Binding)
    ensures TryOnce(req, plan, w, tasks, binding).end.Stale?
            <==> MeetsNewerRow(req, plan, |Surplus(w.rules, req.rules)|, Missing(w.rules, req.rules) != [])
  {
    TryEnds(req, plan, w, tasks, binding);
  }

  lemma StaleInStep(req: Request, plan: Plan, w: World, tasks: seq<Undo>, binding: Binding)
    requires Valid(w) && RulesInStep(w, req.rules)
    ensures TryOnce(req, plan, w, tasks, binding).end.Stale? <==> MeetsNewerRow(req, plan, 0, false)
  {
    InStep(w.rules, req.rules);
    StaleIff(req, plan, w, tasks, binding);
  }

  /** Of the tries from `from` on, the one that decides, and what it starts from. */
  lemma {:induction false} DecidingTry(req: Request, plans: seq<Plan>, from: nat, w: World, tasks: seq<Undo>, binding: Binding)
    returns (d: nat, start: World, log: seq<Undo>)
    requires from < |plans| && Valid(w) && RulesInStep(w, req.rules)
    ensures from <= d < |plans| && MeetNewerRows(req, plans, from, d)
    ensures d == |plans| - 1 || !MeetsNewerRow(req, plans[d], 0, false)
    ensures RulesInStep(start, req.rules) && Retry(req, plans[from..], w, tasks, binding) == TryOnce(req, plans[d], start, log, binding)
    decreases |plans| - from
  {
    var first := TryOnce(req, plans[from], w, tasks, binding);
    StaleInStep(req, plans[from], w, tasks, binding);
    d, start, log := from, w, tasks;
    if first.end.Stale? && from + 1 < |plans| {
      RetrySplits(req, plans, from, w, tasks, binding);
      TryKeepsValid(req, plans[from], w, tasks, binding);
      StaleTryIsReconciled(req, plans[from], w, tasks, binding);
      d, start, log := DecidingTry(req, plans, from + 1, first.world, first.tasks, binding);
    } else {
      RetrySplits(req, plans, from, w, tasks, binding);
    }
  }

  ghost predicate MeetNewerRows(req: Request, plans: seq<Plan>, from: nat, d: nat)
    requires d < |plans|
  {
    forall j :: from <= j < d ==> MeetsNewerRow(req, plans[j], 0, false)
  }

  lemma RetrySplits(req: Request, plans: seq<Plan>, from: nat, w: World, tasks: seq<Undo>, binding: Binding)
    requires from < |plans|
    ensures var first := TryOnce(req, plans[from], w, tasks, binding);
            Retry(req, plans[from..], w, tasks, binding)
            == if first.end.Stale? && from + 1 < |plans| then Retry(req, plans[from + 1..], first.world, first.tasks, binding) else first
  {
    assert plans[from..][0] == plans[from] && plans[from..][1..] == plans[from + 1..];
  }

  lemma InStepEnds(req: Request, plan: Plan, w: World, tasks: seq<Undo>, binding: Binding)
    requires RulesInStep(w, req.rules)
    ensures Ends(req, plan, 0, false, TryOnce(req, plan, w, tasks, binding).end)
  {
    InStep(w.rules, req.rules);
    TryEnds(req, plan, w, tasks, binding);
  }

  lemma DecidingOfAll(req: Request, plans: seq<Plan>, w: World, binding: Binding) returns (d: nat, start: World, log: seq<Undo>)
    requires plans != [] && Valid(w)
    ensures d < |plans| && MeetNewerRows(req, plans, 1, d)
    ensures d > 0 ==> TryMeetsNewerRow(req, plans, w.rules, 0) && RulesInStep(start, req.rules)
    ensures d == 0 ==> start == w
    ensures d == |plans| - 1 || !TryMeetsNewerRow(req, plans, w.rules, d)
    ensures Retry(req, plans, w, [], binding) == TryOnce(req, plans[d], start, log, binding)
  {
    var first := TryOnce(req, plans[0], w, [], binding);
    assert plans[0..] == plans;
    StaleIff(req, plans[0], w, [], binding);
    RetrySplits(req, plans, 0, w, [], binding);
    d, start, log := 0, w, [];
    if first.end.Stale? && 1 < |plans| {
      TryKeepsValid(req, plans[0], w, [], binding);
      StaleTryIsReconciled(req, plans[0], w, [], binding);
      d, start, log := DecidingTry(req, plans, 1, first.world, first.tasks, binding);
    }
  }

  /** Exactly one try decides, and the request ends as that one does. */
  lemma RequestEnds(req: Request, plans: seq<Plan>, w: World, binding: Binding) returns (d: nat)
    requires plans != [] && Valid(w)
    ensures DecidedBy(req, plans, w.rules, d, Retry(req, plans, w, [], binding).end)
  {
    var start, log;
    d, start, log := DecidingOfAll(req, plans, w, binding);
    if d == 0 {
      TryEnds(req, plans[0], w, log, binding);
    } else {
      InStepEnds(req, plans[d], start, log, binding);
    }
  }

  /** When a request succeeds: one of its three tries does, and all before it met a newer row. */
  lemma RequestSucceedsIff(req: Request, plans: seq<Plan>, w: World, binding: Binding)
    requires |plans| == MAX_TRIES && Valid(w)
    ensures Retry(req, plans, w, [], binding).end.Returned? <==>
              || TrySucceeds(req, plans, w.rules, 0)
              || (TryMeetsNewerRow(req, plans, w.rules, 0) && TrySucceeds(req, plans, w.rules, 1))
              || (TryMeetsNewerRow(req, plans, w.rules, 0) && TryMeetsNewerRow(req, plans, w.rules, 1) && TrySucceeds(req, plans, w.rules, 2))
  {
    var d := RequestEnds(req, plans, w, binding);
    OneOfThree(req, plans, w.rules, d, Retry(req, plans, w, [], binding).end);
  }

  lemma OneOfThree(req: Request, plans: seq<Plan>, listed: seq<Rule>, d: nat, end: TryEnd)
    requires |plans| == 3 && DecidedBy(req, plans, listed, d, end)
    ensures end.Returned? <==>
              || TrySucceeds(req, plans, listed, 0)
              || (TryMeetsNewerRow(req, plans, listed, 0) && TrySucceeds(req, plans, listed, 1))
              || (TryMeetsNewerRow(req, plans, listed, 0) && TryMeetsNewerRow(req, plans, listed, 1) && TrySucceeds(req, plans, listed, 2))
  {
    DeciderSucceeds(req, plans, listed, d, end);
    assert d == 0 || d == 1 || d == 2;
    forall j: nat | j < 3 ensures !(TryMeetsNewerRow(req, plans, listed, j) && TrySucceeds(req, plans, listed, j)) {}
  }

  lemma DeciderSucceeds(req: Request, plans: seq<Plan>, listed: seq<Rule>, d: nat, end: TryEnd)
    requires DecidedBy(req, plans, listed, d, end)
    ensures end.Returned? <==> TrySucceeds(req, plans, listed, d)
    ensures forall j :: 0 <= j < d ==> TryMeetsNewerRow(req, plans, listed, j) && !TrySucceeds(req, plans, listed, j)
    ensures d < |plans| - 1 ==> !TryMeetsNewerRow(req, plans, listed, d)
  {
    forall j | 0 <= j < d ensures TryMeetsNewerRow(req, plans, listed, j) && !TrySucceeds(req, plans, listed, j) {
      assert TryMeetsNewerRow(req, plans, listed, j);
    }
    assert TryDecides(req, plans, listed, d, end);
  }

  predicate TrySucceeds(req: Request, plans: seq<Plan>, listed: seq<Rule>, d: nat)
    requires d < |plans|
  {
    var deletes, creates := if d == 0 then |Surplus(listed, req.rules)| else 0, d == 0 && Missing(listed, req.rules) != [];
    Applies(req, plans[d], deletes, creates) && (plans[d].commit == Commits || (plans[d].commit == FindsStale && SameRow(req, plans[d])))
  }

  // ---- Whose rules ----------------------------------------------------------------------------------

  /** All rules of the world belong to its group. */
  ghost predicate OwnRules(w: World) {
    Owned(w.rules, w.groupId)
  }

  ghost predicate Owned(rules: seq<Rule>, group: nat) {
    forall r :: r in rules ==> r.groupId == group
  }

  /** Whatever a try does, group and ids stay in order: rules are created in the group being updated. */
  lemma TryKeepsGroup(req: Request, plan: Plan, w: World, tasks: seq<Undo>, binding: Binding)
    requires Valid(w) && OwnRules(w)
    ensures var t := TryOnce(req, plan, w, tasks, binding);
            && t.world.groupId == w.groupId && OwnRules(t.world) && Valid(t.world)
            && (t.end.Returned? ==> Owned(t.end.response, w.groupId))
  {
    TryShape(req, plan, w, tasks, binding);
    TryKeepsValid(req, plan, w, tasks, binding);
  }

  lemma {:induction false} RetryKeepsGroup(req: Request, plans: seq<Plan>, w: World, tasks: seq<Undo>, binding: Binding)
    requires plans != [] && Valid(w) && OwnRules(w)
    ensures var t := Retry(req, plans, w, tasks, binding);
            && t.world.groupId == w.groupId && OwnRules(t.world) && Valid(t.world)
            && (t.end.Returned? ==> Owned(t.end.response, w.groupId))
    decreases |plans|
  {
    TryKeepsGroup(req, plans[0], w, tasks, binding);
    var first := TryOnce(req, plans[0], w, tasks, binding);
    if first.end.Stale? && |plans| > 1 {
      RetryKeepsGroup(req, plans[1..], first.world, first.tasks, binding);
    }
  }

  lemma TaskKeepsGroup(task: Undo, w: World)
    requires Valid(w) && OwnRules(w)
    ensures var w' := Settled(Run(task, w), w); w'.groupId == w.groupId && OwnRules(w') && Valid(w')
  {
    match task
    case RestoreName(_) =>
    case Recreate(content) => CreatedKeepsValid(w, [content]);
    case DeleteLoopVar(frame) => if frame < |w.loopVars| { WithoutKeepsIdsDistinct(w.rules, {w.loopVars[frame].id}); }
    case DeleteBound(id) => WithoutKeepsIdsDistinct(w.rules, {id});
  }

  lemma {:induction false} UnwindKeepsGroup(tasks: seq<Undo>, w: World)
    requires Valid(w) && OwnRules(w)
    ensures var w' := Unwind(tasks, Run, w); w'.groupId == w.groupId && OwnRules(w') && Valid(w')
    decreases |tasks|
  {
    if tasks == [] {
    } else {
      var last := |tasks| - 1;
      TaskKeepsGroup(tasks[last], w);
      UnwindKeepsGroup(tasks[..last], Settled(Run(tasks[last], w), w));
    }
  }

  /** After a request, however it ended and whichever compensating calls got through, every rule in
      Neutron - also a created or a recreated one - belongs to the group, under an id of its own; and
      so does every rule of the response. */
  lemma RequestKeepsGroup(req: Request, plans: seq<Plan>, w: World, binding: Binding, answers: nat -> bool)
    requires plans != [] && Valid(w) && OfGroup(w.rules, w.groupId) == w.rules
    ensures var whole := Retry(req, plans, w, [], binding);
            var after := Aftermath(whole, answers);
            && after.groupId == w.groupId && OfGroup(after.rules, w.groupId) == after.rules && DistinctIds(after.rules)
            && (whole.end.Returned? ==> OfGroup(whole.end.response, w.groupId) == whole.end.response)
  {
    var whole := Retry(req, plans, w, [], binding);
    assert OwnRules(w) by {
      forall r | r in w.rules ensures r.groupId == w.groupId { assert r in OfGroup(w.rules, w.groupId); }
    }
    RetryKeepsGroup(req, plans, w, [], binding);
    UnwindKeepsGroup(Answering(whole.tasks, 0, answers), whole.world);
    if whole.end.Failed? {
      WithoutKeepsIdsDistinct(Unwind(Answering(whole.tasks, 0, answers), Run, whole.world).rules, Ids(whole.end.late));
    }
    AllOfGroup(Aftermath(whole, answers).rules, w.groupId);
    if whole.end.Returned? { AllOfGroup(whole.end.response, w.groupId); }
  }

  lemma {:induction false} AllOfGroup(rules: seq<Rule>, g: nat)
    requires Owned(rules, g)
    ensures OfGroup(rules, g) == rules
    decreases |rules|
  {
    if rules == [] {
    } else {
      var last := |rules| - 1;
      assert rules[last] in rules && rules == rules[..last] + [rules[last]];
      forall r | r in rules[..last] ensures r.groupId == g { assert r in rules; }
      AllOfGroup(rules[..last], g);
    }
  }
}
