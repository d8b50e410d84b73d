/** Two concurrent requests.  If one of them wants the row's own name and description, the version check
    never stops either of them: whatever the interleaving, both can succeed.  If neither does, the check
    makes the second to commit start over.  This module says exactly which rule contents two requests
    can leave behind, and when these are what neither of them asked for. */
module SecurityGroupPair {
  import opened Options
  import opened SecurityGroupRules
  import opened SecurityGroupRace
  import opened SecurityGroupRuns

  type Rules = map<nat, Content>

  // ---- The possible outcomes ------------------------------------------------------------------------

  /** What two requests that overlap leave of the existing contents `e`: the contents both want, those
      either wants that did not exist, and - of the existing ones that only the second to list the
      rules wants - those that the first had already deleted by then. */
  function Blend(a: set<Content>, b: set<Content>, e: set<Content>, deleted: set<Content>): set<Content> {
    a * b + (a + b - e) + deleted
  }

  /** A set of contents wanted by exactly one of them, the same one, all of them existing. */
  predicate DeletedOfOne(a: set<Content>, b: set<Content>, e: set<Content>, deleted: set<Content>) {
    deleted <= (a - b) * e || deleted <= (b - a) * e
  }

  ghost predicate Blends(a: set<Content>, b: set<Content>, e: set<Content>, result: set<Content>) {
    exists deleted :: DeletedOfOne(a, b, e, deleted) && result == Blend(a, b, e, deleted)
  }

  /** Whether two such requests can mix their rules: neither wants all that the other wants, or they
      differ in at least two contents, one of which exists. */
  ghost predicate Mixable(a: set<Content>, b: set<Content>, e: set<Content>) {
    var differ := (a - b) + (b - a);
    || (a - b != {} && b - a != {})
    || (differ * e != {} && exists c, d :: c in differ && d in differ && c != d)
  }

  lemma MixableIff(a: set<Content>, b: set<Content>, e: set<Content>)
    ensures Mixable(a, b, e) <==> exists deleted :: DeletedOfOne(a, b, e, deleted) && Blend(a, b, e, deleted) !in {a, b}
  {
    if Mixable(a, b, e) {
      var deleted := MixingChoice(a, b, e);
    }
    forall deleted | DeletedOfOne(a, b, e, deleted) && !Mixable(a, b, e) ensures Blend(a, b, e, deleted) in {a, b} {
      NotMixed(a, b, e, deleted);
    }
  }

  lemma MixingChoice(a: set<Content>, b: set<Content>, e: set<Content>) returns (deleted: set<Content>)
    requires Mixable(a, b, e)
    ensures DeletedOfOne(a, b, e, deleted) && Blend(a, b, e, deleted) !in {a, b}
  {
    deleted := {};
    if Blend(a, b, e, {}) == a {
      deleted := OtherChoice(a, b, e);
    } else if Blend(a, b, e, {}) == b {
      BlendCommutes(a, b, e);
      deleted := OtherChoice(b, a, e);
    }
  }

  lemma BlendCommutes(a: set<Content>, b: set<Content>, e: set<Content>)
    ensures a * b == b * a && a + b == b + a
  {}

  /** If nothing is deleted too early and the result is `a`, then all that only `b` wants exists, and
      nothing that only `a` wants does. */
  lemma OtherChoice(a: set<Content>, b: set<Content>, e: set<Content>) returns (deleted: set<Content>)
    requires Mixable(a, b, e) && Blend(a, b, e, {}) == a
    ensures DeletedOfOne(a, b, e, deleted) && Blend(a, b, e, deleted) !in {a, b}
  {
    assert b - a <= e by {
      forall c | c in b - a ensures c in e { assert c !in Blend(a, b, e, {}); }
    }
    assert (a - b) * e == {} by {
      forall c | c in a - b ensures c !in e { assert c in Blend(a, b, e, {}); }
    }
    var c :| c in b - a;
    if a - b != {} {
      var d :| d in a - b;
      deleted := b - a;
      assert c in Blend(a, b, e, deleted) && d in Blend(a, b, e, deleted);
    } else {
      var d :| d in b - a && d != c;
      deleted := {c};
      assert c in Blend(a, b, e, deleted) && d !in Blend(a, b, e, deleted);
    }
  }

  lemma NotMixed(a: set<Content>, b: set<Content>, e: set<Content>, deleted: set<Content>)
    requires !Mixable(a, b, e) && DeletedOfOne(a, b, e, deleted)
    ensures Blend(a, b, e, deleted) in {a, b}
  {
    var result, differ := Blend(a, b, e, deleted), (a - b) + (b - a);
    assert (a + b == a && a * b == b) || (a + b == b && a * b == a);
    if differ * e == {} {
      assert deleted == {};
      assert result == a + b;
    } else {
      var d :| d in differ * e;
      assert differ == {d};
      assert result == if d in deleted then a + b else a * b;
    }
  }

  // ---- The states -----------------------------------------------------------------------------------

  predicate Before(stage: Stage) { stage.Start? || stage.Loaded? || stage.Named? }

  predicate Past(stage: Stage) { stage.InStep? || stage.Finished? }

  function Todo(stage: Stage): set<nat> {
    if stage.Deleting? then stage.todo else {}
  }

  /** Two requests, one of which at least wants the row's own name and description. */
  ghost predicate OneRulesOnly(wants: seq<Want>, row: Row) {
    |wants| == 2 && (Matches(wants[0], row) || Matches(wants[1], row))
  }

  /** Nobody has changed the row; or one request has and is finished, and the other, which changes rules
      only, has read the row either before that or after it. */
  ghost predicate RowSettled(wants: seq<Want>, start: System, s: System)
    requires |wants| == 2 == |s.stages|
  {
    || (s.row == start.row && forall i :: 0 <= i < 2 && s.stages[i].HasRow() ==> s.stages[i].row == start.row)
    || RowChangedBy(wants, start, s, 0)
    || RowChangedBy(wants, start, s, 1)
  }

  ghost predicate RowChangedBy(wants: seq<Want>, start: System, s: System, c: nat)
    requires |wants| == 2 == |s.stages| && c < 2
  {
    && s.stages[c].Finished? && Matches(wants[1 - c], start.row)
    && (s.stages[1 - c].HasRow() ==> s.stages[1 - c].row == start.row || s.stages[1 - c].row == s.row)
  }

  ghost predicate RowsFit(wants: seq<Want>, start: System, s: System)
    requires |wants| == 2
  {
    && |s.stages| == |wants| && NobodyFailed(s) && RowSettled(wants, start, s)
    && start.rules.Keys + s.rules.Keys <= s.used
  }

  /** A request that has listed the rules and has had them for itself since. */
  ghost predicate Solo(want: Want, stage: Stage, rules: Rules) {
    && !Before(stage)
    && (stage.Deleting? ==>
          stage.todo <= SurplusIds(stage.listed, want) && rules == stage.listed - (SurplusIds(stage.listed, want) - stage.todo))
    && (Past(stage) ==> rules.Values == want.rules)
  }

  /** `first` has listed the rules as they were in the beginning, the other request none yet. */
  ghost predicate OneListed(wants: seq<Want>, r: Rules, first: nat, s: System)
    requires |wants| == 2 == |s.stages| && first < 2
  {
    && Before(s.stages[1 - first]) && Solo(wants[first], s.stages[first], s.rules)
    && (s.stages[first].Deleting? ==> s.stages[first].listed == r)
  }

  /** The other request has listed the rules when `first` was done with them. */
  ghost predicate InTurn(wants: seq<Want>, first: nat, s: System)
    requires |wants| == 2 == |s.stages| && first < 2
  {
    Past(s.stages[first]) && Solo(wants[1 - first], s.stages[1 - first], s.rules)
  }

  /** The contents of the rules that were not there in the beginning. */
  function NewContents(rules: Rules, r: Rules): set<Content> {
    set id | id in rules && id !in r :: rules[id]
  }

  /** Of the rules that were there in the beginning, those in `gone` are gone and the others unchanged. */
  ghost predicate Survivors(r: Rules, rules: Rules, gone: set<nat>) {
    forall id :: id in r ==> (id in rules <==> id !in gone) && (id in rules ==> rules[id] == r[id])
  }

  /** The other request has listed the rules when `first` had deleted `early` of them. */
  ghost predicate Overlap(wants: seq<Want>, r: Rules, first: nat, early: set<nat>, s: System)
    requires |wants| == 2 == |s.stages| && first < 2
  {
    var f, g, a, b := s.stages[first], s.stages[1 - first], wants[first], wants[1 - first];
    var surplus, surplus' := SurplusIds(r, a), SurplusIds(r - early, b);
    && !Before(f) && !Before(g) && early <= surplus && Todo(f) <= surplus - early && Todo(g) <= surplus'
    && (f.Deleting? ==> f.listed == r) && (g.Deleting? ==> g.listed == r - early)
    && surplus - Todo(f) !! surplus' - Todo(g)
    && Survivors(r, s.rules, (surplus - Todo(f)) + (surplus' - Todo(g)))
    && NewContents(s.rules, r)
       == (if Past(f) then MissingContents(r, a) else {}) + (if Past(g) then MissingContents(r - early, b) else {})
  }

  ghost predicate Overlaps(wants: seq<Want>, r: Rules, first: nat, s: System)
    requires |wants| == 2 == |s.stages| && first < 2
  {
    exists early :: Overlap(wants, r, first, early, s)
  }

  ghost predicate Listed(wants: seq<Want>, r: Rules, first: nat, s: System)
    requires |wants| == 2 == |s.stages| && first < 2
  {
    OneListed(wants, r, first, s) || InTurn(wants, first, s) || Overlaps(wants, r, first, s)
  }

  ghost predicate PairInv(wants: seq<Want>, start: System, s: System)
    requires |wants| == 2
  {
    && RowsFit(wants, start, s)
    && (|| (Before(s.stages[0]) && Before(s.stages[1]) && s.rules == start.rules)
        || Listed(wants, start.rules, 0, s)
        || Listed(wants, start.rules, 1, s))
  }

  // ---- What steps do to the rules -------------------------------------------------------------------

  ghost predicate OnlyMoves(s: System, i: nat, t: System) {
    i < |s.stages| == |t.stages| && forall j :: 0 <= j < |s.stages| && j != i ==> t.stages[j] == s.stages[j]
  }

  ghost predicate Waits(s: System, i: nat, t: System) {
    && OnlyMoves(s, i, t) && t.rules == s.rules
    && ((Before(s.stages[i]) && Before(t.stages[i])) || (Past(s.stages[i]) && Past(t.stages[i])))
  }

  ghost predicate Lists(want: Want, s: System, i: nat, t: System) {
    && OnlyMoves(s, i, t) && t.rules == s.rules && Before(s.stages[i])
    && t.stages[i].Deleting? && t.stages[i].listed == s.rules && t.stages[i].todo == SurplusIds(s.rules, want)
  }

  ghost predicate Deletes(s: System, i: nat, id: nat, t: System) {
    && OnlyMoves(s, i, t) && s.stages[i].Deleting? && id in s.stages[i].todo && id in s.rules
    && t.stages[i] == s.stages[i].(todo := s.stages[i].todo - {id}) && t.rules == s.rules - {id}
  }

  ghost predicate Creates(want: Want, s: System, i: nat, created: Rules, t: System) {
    && OnlyMoves(s, i, t) && s.stages[i].Deleting? && s.stages[i].todo == {}
    && created.Keys !! s.used && created.Values == MissingContents(s.stages[i].listed, want)
    && Past(t.stages[i]) && t.rules == s.rules + created
  }

  ghost predicate Moved(want: Want, s: System, i: nat, t: System) {
    || Waits(s, i, t) || Lists(want, s, i, t)
    || (exists id :: Deletes(s, i, id, t)) || (exists created :: Creates(want, s, i, created, t))
  }

  lemma StepMoves(wants: seq<Want>, start: System, s: System, i: nat, t: System)
    requires OneRulesOnly(wants, start.row) && RowsFit(wants, start, s) && i < 2
    requires StepOf(wants, s, i, t) && !t.stages[i].Failed?
    ensures RowsFit(wants, start, t) && Moved(wants[i], s, i, t)
  {
    StepKeepsRows(wants, start, s, i, t);
    if id :| DeletesOne(s, i, id, t) {
      assert Deletes(s, i, id, t);
    } else if created :| CreatesMissing(wants[i], s, i, created, t) {
      assert Creates(wants[i], s, i, created, t);
    } else if ListsRules(wants[i], s, i, t) {
      assert Lists(wants[i], s, i, t);
    } else if Commits(wants[i], s, i, t) {
      NeverStale(wants, start, s, i, t);
      assert Waits(s, i, t);
    } else {
      assert Waits(s, i, t);
    }
  }

  /** No commit finds a newer version than the one it compares with. */
  lemma NeverStale(wants: seq<Want>, start: System, s: System, i: nat, t: System)
    requires OneRulesOnly(wants, start.row) && RowsFit(wants, start, s) && i < 2 && Commits(wants[i], s, i, t)
    ensures t.stages[i].Finished? && RowSettled(wants, start, t)
  {
    if RowChangedBy(wants, start, s, 1 - i) {
      assert RowChangedBy(wants, start, t, 1 - i);
    } else if t.row != s.row {
      assert Matches(wants[1 - i], start.row);
      assert RowChangedBy(wants, start, t, i);
    }
  }

  /** A step that does not end a request leaves the row alone; the request has read its row before, or
      reads the committed one. */
  lemma ActiveStepRows(wants: seq<Want>, s: System, i: nat, t: System)
    requires i < |wants| == |s.stages| && StepOf(wants, s, i, t) && t.stages[i].Active()
    ensures t.row == s.row && s.stages[i].Active()
    ensures t.stages[i].HasRow() ==>
              t.stages[i].row == s.row || (s.stages[i].HasRow() && t.stages[i].row == s.stages[i].row)
  {}

  lemma StepKeepsRows(wants: seq<Want>, start: System, s: System, i: nat, t: System)
    requires OneRulesOnly(wants, start.row) && RowsFit(wants, start, s) && i < 2
    requires StepOf(wants, s, i, t) && !t.stages[i].Failed?
    ensures RowsFit(wants, start, t)
  {
    StepIsLocal(wants, s, i, t);
    RulesStayUsed(wants, start, s, i, t);
    if Commits(wants[i], s, i, t) {
      NeverStale(wants, start, s, i, t);
    } else {
      ActiveStepRows(wants, s, i, t);
      ActiveStepSettled(wants, start, s, i, t);
    }
  }

  lemma RulesStayUsed(wants: seq<Want>, start: System, s: System, i: nat, t: System)
    requires i < |wants| == |s.stages| && StepOf(wants, s, i, t) && !t.stages[i].Failed?
    requires start.rules.Keys + s.rules.Keys <= s.used
    ensures start.rules.Keys + t.rules.Keys <= t.used
  {}

  lemma ActiveStepSettled(wants: seq<Want>, start: System, s: System, i: nat, t: System)
    requires |wants| == 2 == |s.stages| == |t.stages| && i < 2 && RowSettled(wants, start, s)
    requires t.row == s.row && t.stages[1 - i] == s.stages[1 - i] && s.stages[i].Active() && t.stages[i].Active()
    requires t.stages[i].HasRow() ==>
              t.stages[i].row == s.row || (s.stages[i].HasRow() && t.stages[i].row == s.stages[i].row)
    ensures RowSettled(wants, start, t)
  {
    if RowChangedBy(wants, start, s, 1 - i) {
      assert RowChangedBy(wants, start, t, 1 - i);
    }
  }

  // ---- Every step keeps it --------------------------------------------------------------------------

  lemma SoloMoves(want: Want, s: System, i: nat, t: System)
    requires i < |s.stages| && s.rules.Keys <= s.used && Solo(want, s.stages[i], s.rules) && Moved(want, s, i, t)
    ensures Solo(want, t.stages[i], t.rules)
    ensures t.stages[i].Deleting? ==> s.stages[i].Deleting? && t.stages[i].listed == s.stages[i].listed
  {
    if id :| Deletes(s, i, id, t) {
      var surplus := SurplusIds(s.stages[i].listed, want);
      assert t.rules == s.stages[i].listed - (surplus - t.stages[i].todo);
    } else if created :| Creates(want, s, i, created, t) {
      CreatedCompletes(want, s.stages[i].listed, s.rules, created);
    }
  }

  lemma OneListedMoves(wants: seq<Want>, start: System, first: nat, s: System, i: nat, t: System)
    requires |wants| == 2 && first < 2 && i < 2 && RowsFit(wants, start, s)
    requires OneListed(wants, start.rules, first, s) && Moved(wants[i], s, i, t)
    ensures |t.stages| == 2 && Listed(wants, start.rules, first, t)
  {
    if i == first {
      SoloMoves(wants[first], s, first, t);
      assert OneListed(wants, start.rules, first, t);
    } else if Before(t.stages[i]) {
      assert OneListed(wants, start.rules, first, t);
    } else {
      assert Lists(wants[i], s, i, t);
      if Past(s.stages[first]) {
        assert t.rules == t.rules - {};
        assert InTurn(wants, first, t);
      } else {
        SecondLists(wants, start, first, s, t);
      }
    }
  }

  lemma SecondLists(wants: seq<Want>, start: System, first: nat, s: System, t: System)
    requires |wants| == 2 && first < 2 && RowsFit(wants, start, s)
    requires OneListed(wants, start.rules, first, s) && s.stages[first].Deleting? && Lists(wants[1 - first], s, 1 - first, t)
    ensures |t.stages| == 2 && Overlaps(wants, start.rules, first, t)
  {
    var r := start.rules;
    var surplus := SurplusIds(r, wants[first]);
    var early := surplus - s.stages[first].todo;
    assert surplus - early == s.stages[first].todo;
    assert s.rules == r - early;
    assert NewContents(s.rules, r) == {};
    assert Overlap(wants, r, first, early, t);
  }

  lemma InTurnMoves(wants: seq<Want>, start: System, first: nat, s: System, i: nat, t: System)
    requires |wants| == 2 && first < 2 && i < 2 && RowsFit(wants, start, s)
    requires InTurn(wants, first, s) && Moved(wants[i], s, i, t)
    ensures |t.stages| == 2 && InTurn(wants, first, t)
  {
    if i != first {
      SoloMoves(wants[i], s, i, t);
    }
  }

  lemma OverlapMoves(wants: seq<Want>, start: System, first: nat, early: set<nat>, s: System, i: nat, t: System)
    requires |wants| == 2 && first < 2 && i < 2 && RowsFit(wants, start, s)
    requires Overlap(wants, start.rules, first, early, s) && Moved(wants[i], s, i, t)
    ensures |t.stages| == 2 && Overlap(wants, start.rules, first, early, t)
  {
    if id :| Deletes(s, i, id, t) {
      OverlapDeletes(wants, start, first, early, s, i, id, t);
    } else if created :| Creates(wants[i], s, i, created, t) {
      OverlapCreates(wants, start, first, early, s, i, created, t);
    }
  }

  lemma OverlapDeletes(wants: seq<Want>, start: System, first: nat, early: set<nat>, s: System, i: nat, id: nat, t: System)
    requires |wants| == 2 == |s.stages| && first < 2 && i < 2
    requires Overlap(wants, start.rules, first, early, s) && Deletes(s, i, id, t)
    ensures |t.stages| == 2 && Overlap(wants, start.rules, first, early, t)
  {
    assert id in start.rules;
    assert NewContents(t.rules, start.rules) == NewContents(s.rules, start.rules);
  }

  lemma OverlapCreates(wants: seq<Want>, start: System, first: nat, early: set<nat>, s: System, i: nat, created: Rules, t: System)
    requires |wants| == 2 && first < 2 && i < 2 && RowsFit(wants, start, s)
    requires Overlap(wants, start.rules, first, early, s) && Creates(wants[i], s, i, created, t)
    ensures |t.stages| == 2 && Overlap(wants, start.rules, first, early, t)
  {
    NewContentsGrow(s.rules, start.rules, created, s.used);
  }

  lemma NewContentsGrow(rules: Rules, r: Rules, created: Rules, used: set<nat>)
    requires rules.Keys + r.Keys <= used && created.Keys !! used
    ensures NewContents(rules + created, r) == NewContents(rules, r) + created.Values
  {
    var all := rules + created;
    forall c | c in NewContents(rules, r) + created.Values ensures c in NewContents(all, r) {
      if c in created.Values {
        var id :| id in created && created[id] == c;
        assert all[id] == c;
      } else {
        var id :| id in rules && id !in r && rules[id] == c;
        assert all[id] == c;
      }
    }
    forall c | c in NewContents(all, r) ensures c in NewContents(rules, r) + created.Values {
      var id :| id in all && id !in r && all[id] == c;
      if id in created { assert created[id] in created.Values; }
    }
  }

  lemma ListedMoves(wants: seq<Want>, start: System, first: nat, s: System, i: nat, t: System)
    requires |wants| == 2 && first < 2 && i < 2 && RowsFit(wants, start, s)
    requires Listed(wants, start.rules, first, s) && Moved(wants[i], s, i, t)
    ensures |t.stages| == 2 && Listed(wants, start.rules, first, t)
  {
    if OneListed(wants, start.rules, first, s) {
      OneListedMoves(wants, start, first, s, i, t);
    } else if InTurn(wants, first, s) {
      InTurnMoves(wants, start, first, s, i, t);
    } else {
      var early :| Overlap(wants, start.rules, first, early, s);
      OverlapMoves(wants, start, first, early, s, i, t);
    }
  }

  lemma StepKeepsPair(wants: seq<Want>, start: System, s: System, i: nat, t: System)
    requires OneRulesOnly(wants, start.row) && PairInv(wants, start, s) && i < 2
    requires StepOf(wants, s, i, t) && !t.stages[i].Failed?
    ensures PairInv(wants, start, t)
  {
    StepMoves(wants, start, s, i, t);
    if Listed(wants, start.rules, 0, s) {
      ListedMoves(wants, start, 0, s, i, t);
    } else if Listed(wants, start.rules, 1, s) {
      ListedMoves(wants, start, 1, s, i, t);
    } else if Before(t.stages[i]) {
    } else {
      assert t.rules == t.rules - {};
      assert OneListed(wants, start.rules, i, t);
    }
  }

  lemma {:induction false} RunKeepsPair(wants: seq<Want>, run: seq<System>)
    requires IsRun(wants, run) && OneRulesOnly(wants, run[0].row) && NobodyFailed(run[|run| - 1])
    ensures PairInv(wants, run[0], run[|run| - 1])
    decreases |run|
  {
    if |run| == 1 {
    } else {
      var s, t := run[|run| - 2], run[|run| - 1];
      FrontIsRun(wants, run);
      var i :| 0 <= i < |wants| && StepOf(wants, s, i, t);
      NobodyHadFailed(wants, s, i, t);
      RunKeepsPair(wants, run[..|run| - 1]);
      StepKeepsPair(wants, run[0], s, i, t);
    }
  }

  // ---- What they end with ---------------------------------------------------------------------------

  /** The rules that both keep, and the ones they create. */
  lemma BlendOf(r: Rules, a: Want, b: Want, early: set<nat>, rules: Rules)
    requires early <= SurplusIds(r, a)
    requires Survivors(r, rules, SurplusIds(r, a) + SurplusIds(r - early, b))
    requires NewContents(rules, r) == MissingContents(r, a) + MissingContents(r - early, b)
    ensures var deleted := b.rules * r.Values - (r - early).Values;
            && deleted <= (b.rules - a.rules) * r.Values
            && rules.Values == Blend(a.rules, b.rules, r.Values, deleted)
  {
    var left := r - early;
    var deleted := b.rules * r.Values - left.Values;
    forall c | c in deleted ensures c !in a.rules {
      var id :| id in r && r[id] == c;
      RemainingContent(r, early, c);
    }
    forall c | c in rules.Values ensures c in Blend(a.rules, b.rules, r.Values, deleted) {
      var id :| id in rules && rules[id] == c;
      if id in r {
        assert id !in SurplusIds(r, a) && id !in SurplusIds(left, b);
      } else {
        assert c in NewContents(rules, r);
      }
    }
    forall c | c in Blend(a.rules, b.rules, r.Values, deleted) ensures c in rules.Values {
      if c in a.rules * b.rules && c in r.Values {
        var id :| id in r && r[id] == c;
        assert id in rules && rules[id] == c;
      } else {
        assert c in MissingContents(r, a) + MissingContents(left, b) by { RemainingContent(r, early, c); }
        var id :| id in rules && id !in r && rules[id] == c;
      }
    }
  }

  lemma RemainingContent(r: Rules, gone: set<nat>, c: Content)
    ensures c in (r - gone).Values <==> exists id :: id in r && id !in gone && r[id] == c
    ensures c in (r - gone).Values ==> c in r.Values
  {
    var left := r - gone;
    if id :| id in r && id !in gone && r[id] == c {
      assert left[id] == c;
    }
    if c in left.Values {
      var id :| id in left && left[id] == c;
      assert r[id] == c;
    }
  }

  /** Every interleaving in which both succeed leaves the contents one of them wants, or a blend. */
  lemma PairOutcomes(wants: seq<Want>, run: seq<System>)
    requires IsRun(wants, run) && OneRulesOnly(wants, run[0].row) && AllFinished(run[|run| - 1])
    ensures var a, b, result := wants[0].rules, wants[1].rules, run[|run| - 1].rules.Values;
            result == a || result == b || Blends(a, b, run[0].rules.Values, result)
  {
    var start, end := run[0], run[|run| - 1];
    RunKeepsPair(wants, run);
    if Overlaps(wants, start.rules, 0, end) {
      OverlapOutcome(wants, start, 0, end);
    } else if Overlaps(wants, start.rules, 1, end) {
      OverlapOutcome(wants, start, 1, end);
    }
  }

  lemma OverlapOutcome(wants: seq<Want>, start: System, first: nat, end: System)
    requires |wants| == 2 == |end.stages| && first < 2 && AllFinished(end) && Overlaps(wants, start.rules, first, end)
    ensures Blends(wants[0].rules, wants[1].rules, start.rules.Values, end.rules.Values)
  {
    var a, b, r := wants[first], wants[1 - first], start.rules;
    var early :| Overlap(wants, r, first, early, end);
    BlendOf(r, a, b, early, end.rules);
    var deleted := b.rules * r.Values - (r - early).Values;
    BlendCommutes(a.rules, b.rules, r.Values);
    assert DeletedOfOne(wants[0].rules, wants[1].rules, r.Values, deleted);
    assert end.rules.Values == Blend(wants[0].rules, wants[1].rules, r.Values, deleted);
  }

  // ---- Two requests that change the row -------------------------------------------------------------

  /** Two requests, neither of which wants the row's own name and description.  Until one has finished
      nothing is committed; the other then starts over, alone, if it has not read the new row already. */
  ghost predicate RivalsInv(wants: seq<Want>, start: System, s: System)
    requires |wants| == 2
  {
    && |s.stages| == 2 && NobodyFailed(s) && TodoIsSurplus(wants, s) && SolosProgress(wants, s) && RowsRemembered(s)
    && (forall i :: 0 <= i < 2 && s.stages[i].HasRow() ==> FirstOrLater(s.stages[i].row, start.row))
    && FirstOrLater(s.row, start.row)
    && (s.stages[0].Active() && s.stages[1].Active() ==> s.row == start.row)
    && (s.stages[0].Active() || s.stages[1].Active() ==> s.row.version <= start.row.version + 1)
    && (Quiescent(s) ==> s.rules.Values == wants[0].rules || s.rules.Values == wants[1].rules)
  }

  predicate FirstOrLater(row: Row, first: Row) {
    row == first || row.version > first.version
  }

  lemma SoloStep(wants: seq<Want>, s: System, i: nat, t: System)
    requires i < |wants| == |s.stages| && SolosProgress(wants, s) && TodoIsSurplus(wants, s)
    requires StepOf(wants, s, i, t) && t.stages[i].Active()
    ensures |t.stages| == |wants| && SolosProgress(wants, t)
  {
    StepIsLocal(wants, s, i, t);
    if Current(t, i) && OnlyActive(t, i) {
      assert OnlyActive(s, i);
      assert !Commits(wants[i], s, i, t);
      if id :| DeletesOne(s, i, id, t) {
        assert Current(s, i);
      } else if created :| CreatesMissing(wants[i], s, i, created, t) {
        assert Current(s, i);
        CreatedCompletes(wants[i], s.stages[i].listed, s.rules, created);
      }
    }
    forall k | 0 <= k < |wants| && Current(t, k) && OnlyActive(t, k) ensures SoloProgress(wants[k], t.stages[k], t.rules) {
      assert k == i;
    }
  }

  lemma ActiveStepKeepsRivals(wants: seq<Want>, start: System, s: System, i: nat, t: System)
    requires |wants| == 2 && RivalsInv(wants, start, s) && i < 2 && StepOf(wants, s, i, t) && t.stages[i].Active()
    ensures RivalsInv(wants, start, t)
  {
    StepIsLocal(wants, s, i, t);
    StepOfKeepsTodo(wants, s, i, t);
    SoloStep(wants, s, i, t);
    ActiveStepRows(wants, s, i, t);
  }

  /** The one who finishes last had read the committed row, and had the rules for itself since. */
  lemma LastCommit(wants: seq<Want>, start: System, s: System, i: nat, t: System)
    requires |wants| == 2 && RivalsInv(wants, start, s) && i < 2 && Commits(wants[i], s, i, t) && t.stages[i].Finished?
    requires !Matches(wants[0], start.row) && !Matches(wants[1], start.row)
    requires s.stages[1 - i].Finished?
    ensures s.rules.Values == wants[i].rules
  {
    assert Current(s, i) && OnlyActive(s, i);
  }

  lemma CommitKeepsRivals(wants: seq<Want>, start: System, s: System, i: nat, t: System)
    requires |wants| == 2 && RivalsInv(wants, start, s) && i < 2 && Commits(wants[i], s, i, t) && t.stages[i].Finished?
    requires !Matches(wants[0], start.row) && !Matches(wants[1], start.row)
    ensures RivalsInv(wants, start, t)
  {
    var o := 1 - i;
    if s.stages[o].Active() {
      assert s.stages[i].row == start.row && !Matches(wants[i], start.row);
      assert t.row.version == start.row.version + 1 && t.stages[o] == s.stages[o];
    } else {
      LastCommit(wants, start, s, i, t);
    }
  }

  lemma StepKeepsRivals(wants: seq<Want>, start: System, s: System, i: nat, t: System)
    requires |wants| == 2 && !OneRulesOnly(wants, start.row) && RivalsInv(wants, start, s) && i < 2
    requires StepOf(wants, s, i, t) && !t.stages[i].Failed?
    ensures RivalsInv(wants, start, t)
  {
    if t.stages[i].Active() {
      ActiveStepKeepsRivals(wants, start, s, i, t);
    } else {
      assert Commits(wants[i], s, i, t);
      CommitKeepsRivals(wants, start, s, i, t);
    }
  }

  lemma {:induction false} RunKeepsRivals(wants: seq<Want>, run: seq<System>)
    requires |wants| == 2 && IsRun(wants, run) && !OneRulesOnly(wants, run[0].row) && NobodyFailed(run[|run| - 1])
    ensures RivalsInv(wants, run[0], run[|run| - 1])
    decreases |run|
  {
    if |run| == 1 {
    } else {
      var s, t := run[|run| - 2], run[|run| - 1];
      FrontIsRun(wants, run);
      var i :| 0 <= i < |wants| && StepOf(wants, s, i, t);
      NobodyHadFailed(wants, s, i, t);
      RunKeepsRivals(wants, run[..|run| - 1]);
      StepKeepsRivals(wants, run[0], s, i, t);
    }
  }

  /** Whatever the interleaving, two such requests that both succeed leave what one of them wants - also
      if both want the same name and description. */
  lemma RivalsNeverMix(wants: seq<Want>, run: seq<System>)
    requires |wants| == 2 && IsRun(wants, run) && !OneRulesOnly(wants, run[0].row) && AllFinished(run[|run| - 1])
    ensures run[|run| - 1].rules.Values in {wants[0].rules, wants[1].rules}
  {
    RunKeepsRivals(wants, run);
  }

  // ---- Every blend happens --------------------------------------------------------------------------

  /** `first` lists the rules and deletes some; the other lists them; both complete. */
  lemma Interleave(wants: seq<Want>, start: System, first: nat, early: set<nat>) returns (run: seq<System>)
    requires Initial(wants, start) && OneRulesOnly(wants, start.row) && first < 2 && early <= SurplusIds(start.rules, wants[first])
    requires SurplusIds(start.rules, wants[first]) - early !! SurplusIds(start.rules - early, wants[1 - first])
    ensures IsRun(wants, run) && run[0] == start && AllFinished(run[|run| - 1])
    ensures var a, b, r := wants[first].rules, wants[1 - first].rules, start.rules;
            run[|run| - 1].rules.Values == Blend(a, b, r.Values, b * r.Values - (r - early).Values)
  {
    var f, g, r := first, 1 - first, start.rules;
    var surplus, surplus' := SurplusIds(r, wants[f]), SurplusIds(r - early, wants[g]);
    run := [start];
    run := GetReady(wants, run, f);
    run := GetReady(wants, run, g);
    run := List(wants, run, f);
    run := DeleteAll(wants, run, f, early);
    run := List(wants, run, g);
    var s1 := run[|run| - 1];
    assert s1.rules == r - early && s1.stages[f].Deleting? && s1.stages[f].todo == surplus - early && s1.stages[f].listed == r;
    var created, created';
    run, created := Complete(wants, run, f);
    var s2 := run[|run| - 1];
    assert s2.rules == (r - early) - (surplus - early) + created;
    run, created' := Complete(wants, run, g);
    FinalRules(r, wants[f], wants[g], early, start.used, created, created', run[|run| - 1].rules);
  }

  lemma FinalRules(r: Rules, a: Want, b: Want, early: set<nat>, used: set<nat>, created: Rules, created': Rules, rules: Rules)
    requires early <= SurplusIds(r, a) && SurplusIds(r, a) - early !! SurplusIds(r - early, b) && r.Keys <= used
    requires created.Keys !! used && created'.Keys !! used + created.Keys
    requires created.Values == MissingContents(r, a) && created'.Values == MissingContents(r - early, b)
    requires rules == (r - early) - (SurplusIds(r, a) - early) + created - SurplusIds(r - early, b) + created'
    ensures rules.Values == Blend(a.rules, b.rules, r.Values, b.rules * r.Values - (r - early).Values)
  {
    var kept := (r - early) - (SurplusIds(r, a) - early) - SurplusIds(r - early, b);
    assert (r - early) - (SurplusIds(r, a) - early) + created - SurplusIds(r - early, b) == kept + created;
    assert rules == kept + created + created';
    assert NewContents(kept, r) == {};
    NewContentsGrow(kept, r, created, used);
    NewContentsGrow(kept + created, r, created', used + created.Keys);
    BlendOf(r, a, b, early, rules);
  }

  lemma BlendHappens(wants: seq<Want>, start: System, first: nat, deleted: set<Content>) returns (run: seq<System>)
    requires Initial(wants, start) && OneRulesOnly(wants, start.row) && first < 2
    requires deleted <= (wants[1 - first].rules - wants[first].rules) * start.rules.Values
    ensures IsRun(wants, run) && run[0] == start && AllFinished(run[|run| - 1])
    ensures run[|run| - 1].rules.Values == Blend(wants[first].rules, wants[1 - first].rules, start.rules.Values, deleted)
  {
    var a, b, r := wants[first].rules, wants[1 - first].rules, start.rules;
    var early := set id | id in r && (r[id] !in a + b || r[id] in deleted);
    run := Interleave(wants, start, first, early);
    assert b * r.Values - (r - early).Values == deleted by {
      forall c | c in b * r.Values ensures c in (r - early).Values <==> c !in deleted {
        RemainingContent(r, early, c);
        var id :| id in r && r[id] == c;
        assert c !in deleted ==> id !in early;
      }
    }
  }

  /** A run of the two requests in which both succeed with contents that neither of them wants. */
  ghost predicate MixesRules(wants: seq<Want>, start: System, run: seq<System>) {
    && IsRun(wants, run) && run[0] == start && AllFinished(run[|run| - 1])
    && |wants| == 2 && run[|run| - 1].rules.Values !in {wants[0].rules, wants[1].rules}
  }

  /** Exactly when two requests can both succeed and mix their rules: if one of them at least wants the
      row's own name and description, and the rules are mixable. */
  lemma PairMixesIff(wants: seq<Want>, start: System)
    requires |wants| == 2 && Initial(wants, start)
    ensures (exists run :: MixesRules(wants, start, run))
            <==> OneRulesOnly(wants, start.row) && Mixable(wants[0].rules, wants[1].rules, start.rules.Values)
  {
    var a, b, e := wants[0].rules, wants[1].rules, start.rules.Values;
    MixableIff(a, b, e);
    if OneRulesOnly(wants, start.row) && Mixable(a, b, e) {
      var deleted :| DeletedOfOne(a, b, e, deleted) && Blend(a, b, e, deleted) !in {a, b};
      BlendCommutes(a, b, e);
      var run := BlendHappens(wants, start, if deleted <= (b - a) * e then 0 else 1, deleted);
      assert MixesRules(wants, start, run);
    }
    if run :| MixesRules(wants, start, run) {
      if OneRulesOnly(wants, start.row) {
        PairOutcomes(wants, run);
      } else {
        RivalsNeverMix(wants, run);
      }
    }
  }

  // ---- An instance ----------------------------------------------------------------------------------

  const ANY: Content := Content(None, IPv4, Ingress, None, None, None)
  const SSH: Content := Content(Some("tcp"), IPv4, Ingress, Some(22), Some(22), None)

  const SAME: Row := Row("web", None, 0)
  const RIVALS: seq<Want> := [Want("web", None, {ANY}), Want("web", None, {SSH})]

  function Beside(a: Stage, b: Stage, rules: Rules): System {
    System(SAME, "web", rules, rules.Keys, [a, b], [])
  }

  /** The rivals take every step side by side. */
  function SideBySide(): seq<System> {
    var read, named, listed := Loaded(1, SAME), Named(1, SAME), Deleting(1, SAME, map[], {});
    var done, over := InStep(1, SAME), Finished(false);
    var one, both := map[0 := ANY], map[0 := ANY, 1 := SSH];
    [Beside(Start(1), Start(1), map[]),
     Beside(read, Start(1), map[]), Beside(read, read, map[]),
     Beside(named, read, map[]), Beside(named, named, map[]),
     Beside(listed, named, map[]), Beside(listed, listed, map[]),
     Beside(done, listed, one), Beside(done, done, both),
     Beside(over, done, both), Beside(over, over, both)]
  }

  lemma FirstHalfSteps(k: nat)
    requires k < 6
    ensures StepOf(RIVALS, SideBySide()[k], k % 2, SideBySide()[k + 1])
  {
    var run := SideBySide();
    assert SurplusIds(map[], RIVALS[0]) == {} && SurplusIds(map[], RIVALS[1]) == {};
    if k < 2 { assert ReadsRow(run[k], k % 2, run[k + 1]); }
    else if k < 4 { assert SetsName(RIVALS[k % 2], run[k], k % 2, run[k + 1]); }
    else { assert ListsRules(RIVALS[k % 2], run[k], k % 2, run[k + 1]); }
  }

  lemma SecondHalfSteps(k: nat)
    requires 6 <= k < 10
    ensures StepOf(RIVALS, SideBySide()[k], k % 2, SideBySide()[k + 1])
  {
    var run := SideBySide();
    var first, second := map[0 := ANY], map[1 := SSH];
    assert first[0] in first.Values && second[1] in second.Values;
    if k == 6 {
      assert CreatesMissing(RIVALS[0], run[6], 0, first, run[7]);
    } else if k == 7 {
      assert first + second == run[8].rules && first.Keys + second.Keys == run[8].rules.Keys;
      assert CreatesMissing(RIVALS[1], run[7], 1, second, run[8]);
    } else {
      assert Commits(RIVALS[k % 2], run[k], k % 2, run[k + 1]);
    }
  }

  /** Two requests for one rule each, side by side from an empty group: both succeed, and Neutron ends
      with both rules. */
  lemma UnchangedRowsRace()
    ensures OneRulesOnly(RIVALS, SAME) && Mixable({ANY}, {SSH}, {})
    ensures |SideBySide()| == 11 && MixesRules(RIVALS, SideBySide()[0], SideBySide())
    ensures SideBySide()[10].rules.Values == {ANY, SSH}
  {
    var run := SideBySide();
    forall k | 0 <= k < |run| - 1 ensures Next(RIVALS, run[k], run[k + 1]) {
      if k < 6 { FirstHalfSteps(k); } else { SecondHalfSteps(k); }
      assert 0 <= k % 2 < |RIVALS|;
    }
    var both := run[10].rules;
    assert both[0] in both.Values && both[1] in both.Values;
    assert ANY in {ANY} - {SSH} && SSH in {SSH} - {ANY};
    assert SSH !in RIVALS[0].rules && ANY !in RIVALS[1].rules;
  }
}
