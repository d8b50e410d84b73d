/** Runs of the interleaved security-group updates, put together from what single requests do. */
module SecurityGroupRuns {
  import opened SecurityGroupRules
  import opened SecurityGroupRace

  ghost predicate NobodyFailed(s: System) {
    forall i :: 0 <= i < |s.stages| ==> !s.stages[i].Failed?
  }

  ghost predicate AllFinished(s: System) {
    forall i :: 0 <= i < |s.stages| ==> s.stages[i].Finished?
  }

  lemma NobodyHadFailed(wants: seq<Want>, s: System, i: nat, t: System)
    requires i < |wants| == |s.stages| && StepOf(wants, s, i, t) && NobodyFailed(t)
    ensures |t.stages| == |s.stages| && NobodyFailed(s)
  {
    StepIsLocal(wants, s, i, t);
    forall j | 0 <= j < |s.stages| ensures !s.stages[j].Failed? { assert !t.stages[j].Failed?; }
  }

  lemma Extend(wants: seq<Want>, run: seq<System>, i: nat, t: System) returns (more: seq<System>)
    requires IsRun(wants, run) && i < |wants| == |run[|run| - 1].stages| && StepOf(wants, run[|run| - 1], i, t)
    ensures IsRun(wants, more) && more[0] == run[0] && more[|more| - 1] == t
  {
    more := run + [t];
    forall k | 0 <= k < |more| - 1 ensures Next(wants, more[k], more[k + 1]) {
      if k < |run| - 1 { assert Next(wants, run[k], run[k + 1]); }
    }
  }

  /** Request `i` deletes some of its surplus. */
  lemma {:induction false} DeleteAll(wants: seq<Want>, run: seq<System>, i: nat, ids: set<nat>) returns (more: seq<System>)
    requires IsRun(wants, run) && i < |wants| == |run[|run| - 1].stages|
    requires var s := run[|run| - 1]; s.stages[i].Deleting? && ids <= s.stages[i].todo && ids <= s.rules.Keys
    ensures IsRun(wants, more) && more[0] == run[0]
    ensures var s := run[|run| - 1];
            more[|more| - 1] == At(s, i, s.stages[i].(todo := s.stages[i].todo - ids)).(rules := s.rules - ids)
    decreases |ids|
  {
    var s := run[|run| - 1];
    if ids == {} {
      more := run;
      assert s.stages[i].todo - ids == s.stages[i].todo && s.rules - ids == s.rules;
      assert s.stages[i := s.stages[i]] == s.stages;
    } else {
      var id :| id in ids;
      var stage := s.stages[i].(todo := s.stages[i].todo - {id});
      var t := At(s, i, stage).(rules := s.rules - {id});
      assert DeletesOne(s, i, id, t);
      var next := Extend(wants, run, i, t);
      more := DeleteAll(wants, next, i, ids - {id});
      assert stage.todo - (ids - {id}) == s.stages[i].todo - ids && t.rules - (ids - {id}) == s.rules - ids;
      assert t.stages[i := stage.(todo := stage.todo - (ids - {id}))] == s.stages[i := stage.(todo := stage.todo - (ids - {id}))];
    }
  }

  lemma {:induction false} UnusedId(used: set<nat>) returns (id: nat)
    ensures forall u :: u in used ==> u < id
    decreases |used|
  {
    if used == {} {
      id := 0;
    } else {
      var u :| u in used;
      var rest := UnusedId(used - {u});
      id := if rest <= u then u + 1 else rest;
      forall v | v in used ensures v < id { assert v == u || v in used - {u}; }
    }
  }

  lemma {:induction false} UnusedIds(used: set<nat>, contents: set<Content>) returns (created: map<nat, Content>)
    ensures created.Keys !! used && created.Values == contents
    decreases |contents|
  {
    if contents == {} {
      created := map[];
    } else {
      var c :| c in contents;
      var rest := UnusedIds(used, contents - {c});
      var id := UnusedId(used + rest.Keys);
      created := rest[id := c];
      forall d | d in contents ensures d in created.Values {
        if d == c {
          assert created[id] == d;
        } else {
          assert d in rest.Values;
          var k :| k in rest && rest[k] == d;
          assert created[k] == d;
        }
      }
      forall d | d in created.Values ensures d in contents {
        var k :| k in created && created[k] == d;
        assert k != id ==> rest[k] in rest.Values;
      }
    }
  }

  /** Request `i` reads the row and gets as far as listing the rules. */
  lemma GetReady(wants: seq<Want>, run: seq<System>, i: nat) returns (more: seq<System>)
    requires IsRun(wants, run) && i < |wants| == |run[|run| - 1].stages| && run[|run| - 1].stages[i] == Start(1)
    ensures IsRun(wants, more) && more[0] == run[0]
    ensures var s := run[|run| - 1];
            more[|more| - 1] == At(s, i, Named(1, s.row)).(name := if wants[i].name != s.row.name then wants[i].name else s.name)
  {
    var s := run[|run| - 1];
    var loaded := At(s, i, Loaded(1, s.row));
    var named := At(s, i, Named(1, s.row)).(name := if wants[i].name != s.row.name then wants[i].name else s.name);
    assert ReadsRow(s, i, loaded);
    assert loaded.stages[i := Named(1, s.row)] == named.stages;
    assert SetsName(wants[i], loaded, i, named);
    more := Extend(wants, run, i, loaded);
    more := Extend(wants, more, i, named);
  }

  /** Request `i` lists the rules. */
  lemma List(wants: seq<Want>, run: seq<System>, i: nat) returns (more: seq<System>)
    requires IsRun(wants, run) && i < |wants| == |run[|run| - 1].stages| && run[|run| - 1].stages[i].Named?
    ensures IsRun(wants, more) && more[0] == run[0]
    ensures var s := run[|run| - 1];
            more[|more| - 1] == At(s, i, Deleting(s.stages[i].tries, s.stages[i].row, s.rules, SurplusIds(s.rules, wants[i])))
  {
    var s := run[|run| - 1];
    var t := At(s, i, Deleting(s.stages[i].tries, s.stages[i].row, s.rules, SurplusIds(s.rules, wants[i])));
    assert ListsRules(wants[i], s, i, t);
    more := Extend(wants, run, i, t);
  }

  /** What a commit that finds no newer version leaves. */
  function Committed(want: Want, s: System, i: nat): System
    requires i < |s.stages| && s.stages[i].InStep?
  {
    var row := s.stages[i].row;
    if Matches(want, row) then At(s, i, Finished(false))
    else At(s, i, Finished(true)).(row := Row(want.name, want.description, row.version + 1), log := s.log + [i])
  }

  /** Request `i` deletes what it still has to, creates what is missing and commits. */
  lemma Complete(wants: seq<Want>, run: seq<System>, i: nat) returns (more: seq<System>, created: map<nat, Content>)
    requires IsRun(wants, run) && i < |wants| == |run[|run| - 1].stages|
    requires var s := run[|run| - 1];
             && s.stages[i].Deleting? && s.stages[i].todo <= s.rules.Keys <= s.used
             && (Matches(wants[i], s.stages[i].row) || s.stages[i].row.version == s.row.version)
    ensures IsRun(wants, more) && more[0] == run[0]
    ensures var s, t := run[|run| - 1], more[|more| - 1];
            && created.Keys !! s.used && created.Values == MissingContents(s.stages[i].listed, wants[i])
            && t.rules == s.rules - s.stages[i].todo + created && t.used == s.used + created.Keys
            && t.stages == s.stages[i := Finished(!Matches(wants[i], s.stages[i].row))]
            && t.row == if Matches(wants[i], s.stages[i].row) then s.row
                        else Row(wants[i].name, wants[i].description, s.stages[i].row.version + 1)
  {
    var s := run[|run| - 1];
    var stage := s.stages[i];
    more := DeleteAll(wants, run, i, stage.todo);
    var d := more[|more| - 1];
    created := UnusedIds(d.used, MissingContents(stage.listed, wants[i]));
    var c := At(d, i, InStep(stage.tries, stage.row)).(rules := d.rules + created, used := d.used + created.Keys);
    assert CreatesMissing(wants[i], d, i, created, c);
    more := Extend(wants, more, i, c);
    var t := Committed(wants[i], c, i);
    assert Commits(wants[i], c, i, t);
    more := Extend(wants, more, i, t);
  }
}
