/** Any number of concurrent `update_security_group_detail` requests on one group, interleaved at
    every database and remote call.

    An attempt reads the versioned row, renames the group in Neutron if the name differs, lists the
    remote rules, deletes the surplus one by one in any order, creates the missing ones, and commits
    by compare-and-set on the version - unless the row did not change, in which case nothing is
    compared.  A stale attempt starts over, at most three times. */
module SecurityGroupRace {
  import opened Options
  import opened SecurityGroupRules
  import SecurityGroupUpdate

  datatype Row = Row(name: string, description: Option<string>, version: nat)

  datatype Want = Want(name: string, description: Option<string>, rules: set<Content>)

  /** Where a request stands.  `row` is the row its current attempt has read. */
  datatype Stage =
    | Start(tries: nat)
    | Loaded(tries: nat, row: Row)
    | Named(tries: nat, row: Row)
    | Deleting(tries: nat, row: Row, listed: map<nat, Content>, todo: set<nat>)
    | InStep(tries: nat, row: Row)
    | Finished(changedRow: bool)
    | Failed
  {
    predicate Active() { !Finished? && !Failed? }
    predicate HasRow() { Loaded? || Named? || Deleting? || InStep? }
    predicate PastRename() { Named? || Deleting? || InStep? }
  }

  /** The committed row, Neutron's name and rules by id, the ids it has ever handed out, the requests,
      and the order in which changed rows were committed. */
  datatype System = System(
    row: Row, name: string, rules: map<nat, Content>, used: set<nat>, stages: seq<Stage>, log: seq<nat>)

  // ---- Steps ------------------------------------------------------------------------------------

  function At(s: System, i: nat, stage: Stage): System
    requires i < |s.stages|
  {
    s.(stages := s.stages[i := stage])
  }

  function SurplusIds(listed: map<nat, Content>, want: Want): set<nat> {
    set id | id in listed && listed[id] !in want.rules
  }

  function MissingContents(listed: map<nat, Content>, want: Want): set<Content> {
    want.rules - listed.Values
  }

  predicate ReadsRow(s: System, i: nat, t: System)
    requires i < |s.stages|
  {
    s.stages[i].Start? && t == At(s, i, Loaded(s.stages[i].tries, s.row))
  }

  predicate SetsName(want: Want, s: System, i: nat, t: System)
    requires i < |s.stages|
  {
    && s.stages[i].Loaded?
    && var next := At(s, i, Named(s.stages[i].tries, s.stages[i].row));
       t == if want.name != s.stages[i].row.name then next.(name := want.name) else next
  }

  predicate ListsRules(want: Want, s: System, i: nat, t: System)
    requires i < |s.stages|
  {
    s.stages[i].Named? && t == At(s, i, Deleting(s.stages[i].tries, s.stages[i].row, s.rules, SurplusIds(s.rules, want)))
  }

  predicate DeletesOne(s: System, i: nat, id: nat, t: System)
    requires i < |s.stages|
  {
    && s.stages[i].Deleting? && id in s.stages[i].todo && id in s.rules
    && t == At(s, i, s.stages[i].(todo := s.stages[i].todo - {id})).(rules := s.rules - {id})
  }

  /** The bulk creation, once every delete has completed: the missing contents, under new ids. */
  predicate CreatesMissing(want: Want, s: System, i: nat, created: map<nat, Content>, t: System)
    requires i < |s.stages|
  {
    && s.stages[i].Deleting? && s.stages[i].todo == {}
    && created.Keys !! s.used + s.rules.Keys && created.Values == MissingContents(s.stages[i].listed, want)
    && t == At(s, i, InStep(s.stages[i].tries, s.stages[i].row)).(rules := s.rules + created, used := s.used + created.Keys)
  }

  predicate Commits(want: Want, s: System, i: nat, t: System)
    requires i < |s.stages|
  {
    && s.stages[i].InStep?
    && var row := s.stages[i].row;
       if (row.name, row.description) == (want.name, want.description) then
         t == At(s, i, Finished(false))
       else if row.version == s.row.version then
         t == At(s, i, Finished(true)).(row := Row(want.name, want.description, row.version + 1), log := s.log + [i])
       else
         t == At(s, i, if s.stages[i].tries < SecurityGroupUpdate.MAX_TRIES then Start(s.stages[i].tries + 1) else Failed)
  }

  /** A request may also fail anywhere, and its rollback may then do anything to Neutron. */
  predicate Fails(s: System, i: nat, t: System)
    requires i < |s.stages|
  {
    !s.stages[i].Finished? && t == At(s, i, Failed).(name := t.name, rules := t.rules, used := t.used) && s.used <= t.used
  }

  ghost predicate StepOf(wants: seq<Want>, s: System, i: nat, t: System)
    requires i < |wants| == |s.stages|
  {
    || ReadsRow(s, i, t)
    || SetsName(wants[i], s, i, t)
    || ListsRules(wants[i], s, i, t)
    || (exists id :: DeletesOne(s, i, id, t))
    || (exists created :: CreatesMissing(wants[i], s, i, created, t))
    || Commits(wants[i], s, i, t)
    || Fails(s, i, t)
  }

  ghost predicate Initial(wants: seq<Want>, s: System) {
    && |s.stages| == |wants| && (forall i :: 0 <= i < |wants| ==> s.stages[i] == Start(1))
    && s.name == s.row.name && s.rules.Keys <= s.used && s.log == []
  }

  ghost predicate Next(wants: seq<Want>, s: System, t: System) {
    |s.stages| == |wants| && exists i :: 0 <= i < |wants| && StepOf(wants, s, i, t)
  }

  ghost predicate IsRun(wants: seq<Want>, run: seq<System>) {
    && run != [] && Initial(wants, run[0])
    && forall k :: 0 <= k < |run| - 1 ==> Next(wants, run[k], run[k + 1])
  }

  // ---- The serial specification -------------------------------------------------------------------

  /** Both stores as a client sees them: rule contents, not ids. */
  datatype View = View(row: Row, name: string, contents: set<Content>)

  function ViewOf(s: System): View {
    View(s.row, s.name, s.rules.Values)
  }

  function Alone(want: Want, v: View): View {
    View(Row(want.name, want.description, v.row.version + 1), want.name, want.rules)
  }

  /** The requests run one after the other, in the given order. */
  function Serial(wants: seq<Want>, order: seq<nat>, v: View): View
    requires forall k :: 0 <= k < |order| ==> order[k] < |wants|
  {
    if order == [] then v
    else
      var last := |order| - 1;
      Alone(wants[order[last]], Serial(wants, order[..last], v))
  }

  // ---- The invariant ------------------------------------------------------------------------------

  /** No request has failed, and every finished one had changed its row. */
  ghost predicate Healthy(s: System) {
    forall i :: 0 <= i < |s.stages| ==> s.stages[i] != Failed && s.stages[i] != Finished(false)
  }

  ghost predicate SomeoneActiveWants(wants: seq<Want>, s: System, name: string)
    requires |s.stages| == |wants|
  {
    exists j :: 0 <= j < |wants| && s.stages[j].Active() && wants[j].name == name
  }

  ghost predicate Current(s: System, i: nat)
    requires i < |s.stages|
  {
    s.stages[i].HasRow() && s.stages[i].row.version == s.row.version
  }

  ghost predicate OnlyActive(s: System, i: nat) {
    forall j :: 0 <= j < |s.stages| && j != i ==> !s.stages[j].Active()
  }

  ghost predicate Quiescent(s: System) {
    forall j :: 0 <= j < |s.stages| ==> !s.stages[j].Active()
  }

  /** Which names Neutron can hold mid-run: the committed one, or one an unfinished request wants. */
  ghost predicate NameAccounted(wants: seq<Want>, s: System)
    requires |s.stages| == |wants|
  {
    s.name == s.row.name || SomeoneActiveWants(wants, s, s.name)
  }

  ghost predicate RowsRemembered(s: System) {
    forall i :: 0 <= i < |s.stages| && s.stages[i].HasRow() ==>
      && s.stages[i].row.version <= s.row.version
      && (s.stages[i].row.version == s.row.version ==> s.stages[i].row == s.row)
  }

  /** Once an up-to-date attempt has renamed, the old name is gone until the row moves on. */
  ghost predicate RenamesHold(wants: seq<Want>, s: System)
    requires |s.stages| == |wants|
  {
    forall i :: 0 <= i < |wants| && s.stages[i].PastRename() && Current(s, i) && wants[i].name != s.row.name ==>
      SomeoneActiveWants(wants, s, s.name)
  }

  /** What an up-to-date attempt knows about the rules once no other request can touch them. */
  ghost predicate SoloProgress(want: Want, stage: Stage, rules: map<nat, Content>) {
    && (stage.Deleting? ==>
          && (forall id :: id in rules <==> id in stage.listed && (stage.listed[id] in want.rules || id in stage.todo))
          && (forall id :: id in rules ==> rules[id] == stage.listed[id]))
    && (stage.InStep? ==> rules.Values == want.rules)
  }

  ghost predicate SolosProgress(wants: seq<Want>, s: System)
    requires |s.stages| == |wants|
  {
    forall i :: 0 <= i < |wants| && Current(s, i) && OnlyActive(s, i) ==> SoloProgress(wants[i], s.stages[i], s.rules)
  }

  ghost predicate LogMatches(wants: seq<Want>, s: System) {
    && (forall k :: 0 <= k < |s.log| ==> s.log[k] < |wants| == |s.stages| && s.stages[s.log[k]].Finished?)
    && (forall i :: 0 <= i < |s.stages| && s.stages[i].Finished? ==> i in s.log)
    && (forall a, b :: 0 <= a < b < |s.log| ==> s.log[a] != s.log[b])
  }

  ghost predicate Inv(wants: seq<Want>, start: View, s: System) {
    && |s.stages| == |wants|
    && LogMatches(wants, s)
    && RowsRemembered(s)
    && NameAccounted(wants, s)
    && RenamesHold(wants, s)
    && SolosProgress(wants, s)
    && s.row == Serial(wants, s.log, start).row
    && (Quiescent(s) ==> ViewOf(s) == Serial(wants, s.log, start))
  }

  lemma InitialInv(wants: seq<Want>, s: System)
    requires Initial(wants, s)
    ensures Inv(wants, ViewOf(s), s)
  {}

  lemma HealthyBefore(wants: seq<Want>, s: System, t: System)
    requires Next(wants, s, t) && Healthy(t)
    ensures Healthy(s)
  {
    var i :| 0 <= i < |wants| && StepOf(wants, s, i, t);
    StepIsLocal(wants, s, i, t);
    forall j | 0 <= j < |s.stages| ensures s.stages[j] != Failed && s.stages[j] != Finished(false) {
      assert t.stages[j] != Failed;
    }
  }

  /** A step touches only its own request, which is unfinished, and cannot un-fail. */
  lemma StepIsLocal(wants: seq<Want>, s: System, i: nat, t: System)
    requires i < |wants| == |s.stages| && StepOf(wants, s, i, t)
    ensures |t.stages| == |s.stages| && forall j :: 0 <= j < |s.stages| && j != i ==> t.stages[j] == s.stages[j]
    ensures !s.stages[i].Finished? && (s.stages[i].Failed? ==> t.stages[i].Failed?)
  {}

  // ---- Every step keeps it ------------------------------------------------------------------------

  /** A step that moves request i to another active stage and leaves row and log alone. */
  ghost predicate Moves(s: System, i: nat, t: System) {
    && i < |s.stages| == |t.stages| && s.stages[i].Active() && t.stages[i].Active()
    && t.row == s.row && t.log == s.log
    && forall j :: 0 <= j < |s.stages| && j != i ==> t.stages[j] == s.stages[j]
  }

  lemma MoveKeepsNames(wants: seq<Want>, start: View, s: System, i: nat, t: System)
    requires Inv(wants, start, s) && Moves(s, i, t)
    requires t.stages[i].HasRow() ==> t.stages[i].row == if s.stages[i].HasRow() then s.stages[i].row else s.row
    requires t.name == s.name || t.name == wants[i].name
    requires t.stages[i].PastRename() && !s.stages[i].PastRename() && t.stages[i].row.name != wants[i].name ==> t.name == wants[i].name
    ensures LogMatches(wants, t) && RowsRemembered(t) && NameAccounted(wants, t) && RenamesHold(wants, t)
  {
    assert t.name == wants[i].name ==> SomeoneActiveWants(wants, t, t.name);
    forall name | SomeoneActiveWants(wants, s, name) ensures SomeoneActiveWants(wants, t, name) {
      var j :| 0 <= j < |wants| && s.stages[j].Active() && wants[j].name == name;
      assert t.stages[j].Active();
    }
    forall k | 0 <= k < |wants| && t.stages[k].PastRename() && Current(t, k) && wants[k].name != t.row.name
      ensures SomeoneActiveWants(wants, t, t.name)
    {
      if k != i || s.stages[i].PastRename() {
        assert Current(s, k);
      }
    }
  }

  lemma MoveKeepsSolos(wants: seq<Want>, start: View, s: System, i: nat, t: System)
    requires Inv(wants, start, s) && Moves(s, i, t)
    requires Current(t, i) && OnlyActive(t, i) ==> SoloProgress(wants[i], t.stages[i], t.rules)
    ensures SolosProgress(wants, t) && !Quiescent(t)
  {
    forall k | 0 <= k < |wants| && Current(t, k) && OnlyActive(t, k)
      ensures SoloProgress(wants[k], t.stages[k], t.rules)
    {
      assert k == i;
    }
  }

  lemma RowReadKeepsInv(wants: seq<Want>, start: View, s: System, i: nat, t: System)
    requires Inv(wants, start, s) && i < |wants| && ReadsRow(s, i, t)
    ensures Inv(wants, start, t)
  {
    MoveKeepsNames(wants, start, s, i, t);
    MoveKeepsSolos(wants, start, s, i, t);
  }

  lemma RenameKeepsInv(wants: seq<Want>, start: View, s: System, i: nat, t: System)
    requires Inv(wants, start, s) && i < |wants| && SetsName(wants[i], s, i, t)
    ensures Inv(wants, start, t)
  {
    MoveKeepsNames(wants, start, s, i, t);
    MoveKeepsSolos(wants, start, s, i, t);
  }

  lemma ListingKeepsInv(wants: seq<Want>, start: View, s: System, i: nat, t: System)
    requires Inv(wants, start, s) && i < |wants| && ListsRules(wants[i], s, i, t)
    ensures Inv(wants, start, t)
  {
    MoveKeepsNames(wants, start, s, i, t);
    MoveKeepsSolos(wants, start, s, i, t);
  }

  lemma DeleteKeepsInv(wants: seq<Want>, start: View, s: System, i: nat, id: nat, t: System)
    requires Inv(wants, start, s) && i < |wants| && DeletesOne(s, i, id, t)
    requires s.stages[i].todo <= SurplusIds(s.stages[i].listed, wants[i])
    ensures Inv(wants, start, t)
  {
    MoveKeepsNames(wants, start, s, i, t);
    if Current(t, i) && OnlyActive(t, i) {
      assert Current(s, i) && OnlyActive(s, i);
    }
    MoveKeepsSolos(wants, start, s, i, t);
  }

  lemma CreationKeepsInv(wants: seq<Want>, start: View, s: System, i: nat, created: map<nat, Content>, t: System)
    requires Inv(wants, start, s) && i < |wants| && CreatesMissing(wants[i], s, i, created, t)
    ensures Inv(wants, start, t)
  {
    MoveKeepsNames(wants, start, s, i, t);
    if Current(t, i) && OnlyActive(t, i) {
      assert Current(s, i) && OnlyActive(s, i);
      CreatedCompletes(wants[i], s.stages[i].listed, s.rules, created);
    }
    MoveKeepsSolos(wants, start, s, i, t);
  }

  lemma CreatedCompletes(want: Want, listed: map<nat, Content>, rules: map<nat, Content>, created: map<nat, Content>)
    requires forall id :: id in rules <==> id in listed && listed[id] in want.rules
    requires forall id :: id in rules ==> rules[id] == listed[id]
    requires created.Keys !! rules.Keys && created.Values == want.rules - listed.Values
    ensures (rules + created).Values == want.rules
  {
    var all := rules + created;
    forall c | c in want.rules ensures c in all.Values {
      if c in listed.Values {
        var id :| id in listed && listed[id] == c;
        assert all[id] == c;
      } else {
        assert c in created.Values;
        var id :| id in created && created[id] == c;
        assert all[id] == c;
      }
    }
    forall c | c in all.Values ensures c in want.rules {
      var id :| id in all && all[id] == c;
      if id in created { assert created[id] in created.Values; }
    }
  }

  lemma SerialAppends(wants: seq<Want>, log: seq<nat>, i: nat, start: View)
    requires i < |wants| && forall k :: 0 <= k < |log| ==> log[k] < |wants|
    ensures Serial(wants, log + [i], start) == Alone(wants[i], Serial(wants, log, start))
  {
    assert (log + [i])[..|log|] == log;
  }

  /** The last request to finish alone was the only active one, so it knows the rules. */
  lemma LastCommitKnowsRules(wants: seq<Want>, s: System, i: nat, t: System)
    requires i < |wants| == |s.stages| && SolosProgress(wants, s) && Current(s, i) && s.stages[i].InStep?
    requires t.stages == s.stages[i := Finished(true)] && Quiescent(t)
    ensures s.rules.Values == wants[i].rules
  {
    forall j | 0 <= j < |s.stages| && j != i ensures !s.stages[j].Active() {
      assert t.stages[j] == s.stages[j];
    }
    assert SoloProgress(wants[i], s.stages[i], s.rules);
  }

  lemma FreshCommitKeepsInv(wants: seq<Want>, start: View, s: System, i: nat, t: System)
    requires Inv(wants, start, s) && i < |wants| && s.stages[i].InStep? && s.stages[i].row.version == s.row.version
    requires t == At(s, i, Finished(true)).(row := Row(wants[i].name, wants[i].description, s.row.version + 1), log := s.log + [i])
    ensures Inv(wants, start, t)
  {
    CommitLogs(wants, s, i, t);
    CommitKeepsNames(wants, s, i, t);
    SerialAppends(wants, s.log, i, start);
    if Quiescent(t) {
      LastCommitKnowsRules(wants, s, i, t);
      QuiescentName(wants, t);
    }
  }

  lemma QuiescentName(wants: seq<Want>, s: System)
    requires |s.stages| == |wants| && NameAccounted(wants, s) && Quiescent(s)
    ensures s.name == s.row.name
  {}

  lemma StaleCommitKeepsInv(wants: seq<Want>, start: View, s: System, i: nat, t: System)
    requires Inv(wants, start, s) && i < |wants| && s.stages[i].InStep? && s.stages[i].row.version != s.row.version
    requires s.stages[i].tries < SecurityGroupUpdate.MAX_TRIES && t == At(s, i, Start(s.stages[i].tries + 1))
    ensures Inv(wants, start, t)
  {
    MoveKeepsNames(wants, start, s, i, t);
    MoveKeepsSolos(wants, start, s, i, t);
  }

  lemma CommitKeepsInv(wants: seq<Want>, start: View, s: System, i: nat, t: System)
    requires Inv(wants, start, s) && i < |wants| && Commits(wants[i], s, i, t) && Healthy(t)
    ensures Inv(wants, start, t)
  {
    assert t.stages[i] != Failed && t.stages[i] != Finished(false);
    if s.stages[i].row.version == s.row.version {
      FreshCommitKeepsInv(wants, start, s, i, t);
    } else {
      StaleCommitKeepsInv(wants, start, s, i, t);
    }
  }

  lemma CommitLogs(wants: seq<Want>, s: System, i: nat, t: System)
    requires |s.stages| == |wants| && LogMatches(wants, s) && i < |wants| && s.stages[i].InStep?
    requires t.stages == s.stages[i := Finished(true)] && t.log == s.log + [i]
    ensures LogMatches(wants, t)
  {}

  lemma CommitKeepsNames(wants: seq<Want>, s: System, i: nat, t: System)
    requires i < |wants| == |s.stages| && RowsRemembered(s) && NameAccounted(wants, s) && RenamesHold(wants, s)
    requires s.stages[i].InStep? && s.stages[i].row.version == s.row.version
    requires t.stages == s.stages[i := Finished(true)] && t.name == s.name && t.rules == s.rules
    requires t.row == Row(wants[i].name, wants[i].description, s.row.version + 1)
    ensures RowsRemembered(t) && NameAccounted(wants, t) && RenamesHold(wants, t) && SolosProgress(wants, t)
  {
    forall k | 0 <= k < |wants| && t.stages[k].HasRow() ensures t.stages[k].row.version < t.row.version {
      assert t.stages[k] == s.stages[k];
    }
    assert Current(s, i);
    if s.name != t.row.name {
      assert SomeoneActiveWants(wants, s, s.name);
      var j :| 0 <= j < |wants| && s.stages[j].Active() && wants[j].name == s.name;
      assert j != i && t.stages[j] == s.stages[j];
    }
  }

  /** The todo list of a deleting attempt only ever holds surplus rules. */
  ghost predicate TodoIsSurplus(wants: seq<Want>, s: System)
    requires |s.stages| == |wants|
  {
    forall i :: 0 <= i < |wants| && s.stages[i].Deleting? ==> s.stages[i].todo <= SurplusIds(s.stages[i].listed, wants[i])
  }

  lemma StepKeepsTodo(wants: seq<Want>, s: System, t: System)
    requires Next(wants, s, t) && TodoIsSurplus(wants, s)
    ensures |t.stages| == |wants| && TodoIsSurplus(wants, t)
  {
    var i :| 0 <= i < |wants| && StepOf(wants, s, i, t);
    StepOfKeepsTodo(wants, s, i, t);
  }

  lemma StepOfKeepsTodo(wants: seq<Want>, s: System, i: nat, t: System)
    requires i < |wants| == |s.stages| && StepOf(wants, s, i, t) && TodoIsSurplus(wants, s)
    ensures |t.stages| == |wants| && TodoIsSurplus(wants, t)
  {
    StepIsLocal(wants, s, i, t);
    forall k | 0 <= k < |wants| && t.stages[k].Deleting? ensures t.stages[k].todo <= SurplusIds(t.stages[k].listed, wants[k]) {
      assert k != i ==> t.stages[k] == s.stages[k];
    }
  }

  lemma StepKeepsInv(wants: seq<Want>, start: View, s: System, t: System)
    requires Inv(wants, start, s) && TodoIsSurplus(wants, s) && Next(wants, s, t) && Healthy(t)
    ensures Inv(wants, start, t)
  {
    var i :| 0 <= i < |wants| && StepOf(wants, s, i, t);
    StepOfKeepsInv(wants, start, s, i, t);
  }

  lemma StepOfKeepsInv(wants: seq<Want>, start: View, s: System, i: nat, t: System)
    requires Inv(wants, start, s) && TodoIsSurplus(wants, s) && i < |wants| && StepOf(wants, s, i, t) && Healthy(t)
    ensures Inv(wants, start, t)
  {
    if ReadsRow(s, i, t) {
      RowReadKeepsInv(wants, start, s, i, t);
    } else if SetsName(wants[i], s, i, t) {
      RenameKeepsInv(wants, start, s, i, t);
    } else if ListsRules(wants[i], s, i, t) {
      ListingKeepsInv(wants, start, s, i, t);
    } else {
      LaterStepKeepsInv(wants, start, s, i, t);
    }
  }

  lemma LaterStepKeepsInv(wants: seq<Want>, start: View, s: System, i: nat, t: System)
    requires Inv(wants, start, s) && TodoIsSurplus(wants, s) && i < |wants| && StepOf(wants, s, i, t) && Healthy(t)
    requires !ReadsRow(s, i, t) && !SetsName(wants[i], s, i, t) && !ListsRules(wants[i], s, i, t)
    ensures Inv(wants, start, t)
  {
    assert t.stages[i] != Failed;
    if id :| DeletesOne(s, i, id, t) {
      DeleteKeepsInv(wants, start, s, i, id, t);
    } else if created :| CreatesMissing(wants[i], s, i, created, t) {
      CreationKeepsInv(wants, start, s, i, created, t);
    } else {
      CommitKeepsInv(wants, start, s, i, t);
    }
  }

  lemma FrontIsRun(wants: seq<Want>, run: seq<System>)
    requires IsRun(wants, run) && |run| > 1
    ensures IsRun(wants, run[..|run| - 1]) && Next(wants, run[|run| - 2], run[|run| - 1])
  {
    var front := run[..|run| - 1];
    assert Next(wants, run[|run| - 2], run[|run| - 2 + 1]);
    forall k | 0 <= k < |front| - 1 ensures Next(wants, front[k], front[k + 1]) {
      assert Next(wants, run[k], run[k + 1]);
    }
  }

  lemma {:induction false} RunKeepsInv(wants: seq<Want>, run: seq<System>)
    requires IsRun(wants, run) && Healthy(run[|run| - 1])
    ensures var end := run[|run| - 1];
            |end.stages| == |wants| && Inv(wants, ViewOf(run[0]), end) && TodoIsSurplus(wants, end)
    decreases |run|
  {
    if |run| == 1 {
      InitialInv(wants, run[0]);
    } else {
      var s, t := run[|run| - 2], run[|run| - 1];
      FrontIsRun(wants, run);
      HealthyBefore(wants, s, t);
      RunKeepsInv(wants, run[..|run| - 1]);
      StepKeepsTodo(wants, s, t);
      StepKeepsInv(wants, ViewOf(run[0]), s, t);
    }
  }

  // ---- The theorems -------------------------------------------------------------------------------

  /** Both stores as after running the requests one after the other, each exactly once, in the order of
      their commits: the row, Neutron's name and Neutron's rule contents are the last committer's. */
  ghost predicate Linearized(wants: seq<Want>, start: View, end: System) {
    && (forall k :: 0 <= k < |end.log| ==> end.log[k] < |wants|)
    && (forall i :: 0 <= i < |wants| ==> i in end.log)
    && (forall a, b :: 0 <= a < b < |end.log| ==> end.log[a] != end.log[b])
    && ViewOf(end) == Serial(wants, end.log, start)
    && (end.log == [] ==> wants == [])
    && (end.log != [] ==>
          var winner := wants[end.log[|end.log| - 1]];
          && (end.row.name, end.row.description) == (winner.name, winner.description)
          && end.name == winner.name && end.rules.Values == winner.rules)
  }

  /** In every interleaving in which all requests end in success, each having changed the row it read. */
  lemma Linearization(wants: seq<Want>, run: seq<System>)
    requires IsRun(wants, run)
    requires var end := run[|run| - 1];
             |end.stages| == |wants| && forall i :: 0 <= i < |wants| ==> end.stages[i] == Finished(true)
    ensures Linearized(wants, ViewOf(run[0]), run[|run| - 1])
  {
    RunKeepsInv(wants, run);
    var end := run[|run| - 1];
    if wants != [] {
      assert 0 in end.log;
    }
  }

  /** No request wants the name and description of the initial row, or of another request. */
  ghost predicate DistinctWants(wants: seq<Want>, start: Row) {
    && (forall i :: 0 <= i < |wants| ==> !Matches(wants[i], start))
    && (forall i, j :: 0 <= i < j < |wants| ==> (wants[i].name, wants[i].description) != (wants[j].name, wants[j].description))
  }

  predicate Matches(want: Want, row: Row) {
    (row.name, row.description) == (want.name, want.description)
  }

  /** The committed row is the initial one or a finished request's, and nobody works on the row it wants. */
  ghost predicate EveryCommitChanges(wants: seq<Want>, start: Row, s: System) {
    && |s.stages| == |wants|
    && (s.row == start || exists j :: 0 <= j < |wants| && s.stages[j] == Finished(true) && Matches(wants[j], s.row))
    && (forall i :: 0 <= i < |wants| ==> s.stages[i] != Finished(false))
    && (forall i :: 0 <= i < |wants| && s.stages[i].HasRow() ==> !Matches(wants[i], s.stages[i].row))
  }

  lemma StepChanges(wants: seq<Want>, start: Row, s: System, i: nat, t: System)
    requires DistinctWants(wants, start) && EveryCommitChanges(wants, start, s) && i < |wants| && StepOf(wants, s, i, t)
    ensures EveryCommitChanges(wants, start, t)
  {
    StepIsLocal(wants, s, i, t);
    if s.row != start {
      var j :| 0 <= j < |wants| && s.stages[j] == Finished(true) && Matches(wants[j], s.row);
      assert t.stages[j] == s.stages[j] && j != i;
      assert !Matches(wants[i], s.row);
    }
    if t.row != s.row {
      assert t.stages[i] == Finished(true) && Matches(wants[i], t.row);
    }
  }

  lemma {:induction false} RunChanges(wants: seq<Want>, run: seq<System>)
    requires IsRun(wants, run) && DistinctWants(wants, run[0].row)
    ensures EveryCommitChanges(wants, run[0].row, run[|run| - 1])
    decreases |run|
  {
    if |run| == 1 {
    } else {
      var s, t := run[|run| - 2], run[|run| - 1];
      FrontIsRun(wants, run);
      RunChanges(wants, run[..|run| - 1]);
      var i :| 0 <= i < |wants| && StepOf(wants, s, i, t);
      StepChanges(wants, run[0].row, s, i, t);
    }
  }

  /** Requests that want different names or descriptions, none of them the row's own, always change
      the row they read.  So every interleaving in which all of them succeed linearizes. */
  lemma DistinctWantsLinearize(wants: seq<Want>, run: seq<System>)
    requires IsRun(wants, run) && DistinctWants(wants, run[0].row)
    requires var end := run[|run| - 1];
             |end.stages| == |wants| && forall i :: 0 <= i < |wants| ==> end.stages[i].Finished?
    ensures Linearized(wants, ViewOf(run[0]), run[|run| - 1])
  {
    RunChanges(wants, run);
    var end := run[|run| - 1];
    forall i | 0 <= i < |wants| ensures end.stages[i] == Finished(true) {
      assert end.stages[i] != Finished(false);
    }
    Linearization(wants, run);
  }

  /** Mid-run, as long as nothing has failed or committed an unchanged row, Neutron's name is the
      committed one or one that an unfinished request asked for. */
  lemma NamesMidRun(wants: seq<Want>, run: seq<System>)
    requires IsRun(wants, run) && Healthy(run[|run| - 1])
    ensures var end := run[|run| - 1];
            end.name == end.row.name ||
            exists j :: 0 <= j < |wants| && j < |end.stages| && end.stages[j].Active() && wants[j].name == end.name
  {
    RunKeepsInv(wants, run);
  }
}
