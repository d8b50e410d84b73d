/** Any number of concurrent requests on one group, whatever names they want: which rule contents can
    survive if all of them succeed, and which can vanish. */
module SecurityGroupMany {
  import opened SecurityGroupRules
  import opened SecurityGroupRace
  import opened SecurityGroupRuns

  // ---- What every run keeps -------------------------------------------------------------------------

  /** The request has brought the rules in step at least once. */
  predicate HasReconciled(stage: Stage) {
    stage.InStep? || stage.Finished? || ((stage.Start? || stage.HasRow()) && stage.tries > 1)
  }

  /** Ids are not reused: a listed rule that is still there is the same rule, and todo lists are surplus. */
  ghost predicate ListsFit(wants: seq<Want>, s: System) {
    && |s.stages| == |wants| && s.rules.Keys <= s.used && TodoIsSurplus(wants, s)
    && forall i :: 0 <= i < |s.stages| && s.stages[i].Deleting? ==>
         && s.stages[i].listed.Keys <= s.used
         && forall id :: id in s.rules && id in s.stages[i].listed ==> s.rules[id] == s.stages[i].listed[id]
  }

  /** A content that everybody wants: nobody deletes it, and whoever has reconciled has seen or made it. */
  ghost predicate WantedStays(s: System, c: Content) {
    forall i :: 0 <= i < |s.stages| ==>
      (HasReconciled(s.stages[i]) || (s.stages[i].Deleting? && c in s.stages[i].listed.Values) ==> c in s.rules.Values)
  }

  /** A content that nobody wants: whoever has listed it has it on the todo list or has deleted it. */
  ghost predicate UnwantedGoes(s: System, c: Content) {
    forall i, id :: 0 <= i < |s.stages| && id in s.rules && s.rules[id] == c ==> Doomed(s.stages[i], id)
  }

  predicate Doomed(stage: Stage, id: nat) {
    !HasReconciled(stage) && (stage.Deleting? ==> id in stage.todo)
  }

  ghost predicate EverybodyWants(wants: seq<Want>, c: Content) {
    forall i :: 0 <= i < |wants| ==> c in wants[i].rules
  }

  ghost predicate NobodyWants(wants: seq<Want>, c: Content) {
    forall i :: 0 <= i < |wants| ==> c !in wants[i].rules
  }

  lemma StepKeepsLists(wants: seq<Want>, s: System, i: nat, t: System)
    requires ListsFit(wants, s) && i < |wants| && StepOf(wants, s, i, t) && !t.stages[i].Failed?
    ensures ListsFit(wants, t)
  {
    StepIsLocal(wants, s, i, t);
    StepOfKeepsTodo(wants, s, i, t);
  }

  /** What a step that fails nothing does to the rules. */
  lemma RulesChange(wants: seq<Want>, s: System, i: nat, t: System) returns (created: map<nat, Content>)
    requires ListsFit(wants, s) && i < |wants| && StepOf(wants, s, i, t) && !t.stages[i].Failed?
    ensures created.Keys !! s.used && created.Values <= wants[i].rules
    ensures forall id :: id in t.rules ==> (id in s.rules && t.rules[id] == s.rules[id]) || (id in created && t.rules[id] == created[id])
    ensures forall id :: id in created ==> id in t.rules
    ensures forall id :: id in s.rules && id !in t.rules ==>
              s.stages[i].Deleting? && id in s.stages[i].todo && s.rules[id] !in wants[i].rules
  {
    created := map[];
    if created' :| CreatesMissing(wants[i], s, i, created', t) {
      created := created';
    }
  }

  lemma WantedStep(wants: seq<Want>, s: System, i: nat, t: System, c: Content)
    requires ListsFit(wants, s) && WantedStays(s, c) && EverybodyWants(wants, c)
    requires i < |wants| && StepOf(wants, s, i, t) && !t.stages[i].Failed?
    ensures WantedStays(t, c)
  {
    StepIsLocal(wants, s, i, t);
    var created := RulesChange(wants, s, i, t);
    if c in s.rules.Values {
      var id :| id in s.rules && s.rules[id] == c;
      assert id in t.rules && t.rules[id] == c;
    } else if created' :| CreatesMissing(wants[i], s, i, created', t) {
      assert c in created'.Values;
      var id :| id in created' && created'[id] == c;
      assert t.rules[id] == c;
    } else {
      assert !HasReconciled(s.stages[i]);
    }
  }

  lemma UnwantedStep(wants: seq<Want>, s: System, i: nat, t: System, c: Content)
    requires ListsFit(wants, s) && UnwantedGoes(s, c) && NobodyWants(wants, c)
    requires i < |wants| && StepOf(wants, s, i, t) && !t.stages[i].Failed?
    ensures UnwantedGoes(t, c)
  {
    StepIsLocal(wants, s, i, t);
    var created := RulesChange(wants, s, i, t);
    forall j, id | 0 <= j < |t.stages| && id in t.rules && t.rules[id] == c ensures Doomed(t.stages[j], id) {
      assert c !in created.Values;
      assert Doomed(s.stages[j], id);
    }
  }

  lemma {:induction false} RunKeepsFates(wants: seq<Want>, run: seq<System>, c: Content)
    requires IsRun(wants, run) && NobodyFailed(run[|run| - 1])
    ensures var end := run[|run| - 1];
            && ListsFit(wants, end)
            && (EverybodyWants(wants, c) ==> WantedStays(end, c))
            && (NobodyWants(wants, c) ==> UnwantedGoes(end, c))
    decreases |run|
  {
    if |run| == 1 {
    } else {
      var s, t := run[|run| - 2], run[|run| - 1];
      FrontIsRun(wants, run);
      var i :| 0 <= i < |wants| && StepOf(wants, s, i, t);
      NobodyHadFailed(wants, s, i, t);
      RunKeepsFates(wants, run[..|run| - 1], c);
      StepKeepsLists(wants, s, i, t);
      if EverybodyWants(wants, c) { WantedStep(wants, s, i, t, c); }
      if NobodyWants(wants, c) { UnwantedStep(wants, s, i, t, c); }
    }
  }

  ghost predicate AllSucceed(wants: seq<Want>, start: System, run: seq<System>) {
    && IsRun(wants, run) && run[0] == start
    && AllFinished(run[|run| - 1])
  }

  /** In every interleaving in which all succeed, retries included: what everybody wants is there, and what
      nobody wants is not. */
  lemma FatesBounded(wants: seq<Want>, start: System, run: seq<System>)
    requires wants != [] && AllSucceed(wants, start, run)
    ensures forall c :: EverybodyWants(wants, c) ==> c in run[|run| - 1].rules.Values
    ensures forall c :: NobodyWants(wants, c) ==> c !in run[|run| - 1].rules.Values
  {
    var end := run[|run| - 1];
    forall c ensures EverybodyWants(wants, c) ==> c in end.rules.Values
             ensures NobodyWants(wants, c) ==> c !in end.rules.Values
    {
      RunKeepsFates(wants, run, c);
      assert HasReconciled(end.stages[0]);
      if NobodyWants(wants, c) {
        forall id | id in end.rules ensures end.rules[id] != c {
          assert !Doomed(end.stages[0], id);
        }
      }
    }
  }

  // ---- Runs one after the other ---------------------------------------------------------------------

  /** Request `i`, from the beginning to its end, with nobody in between. */
  lemma RunAlone(wants: seq<Want>, run: seq<System>, i: nat) returns (more: seq<System>)
    requires IsRun(wants, run) && i < |wants| == |run[|run| - 1].stages|
    requires run[|run| - 1].stages[i] == Start(1) && run[|run| - 1].rules.Keys <= run[|run| - 1].used
    ensures IsRun(wants, more) && more[0] == run[0]
    ensures var s, t := run[|run| - 1], more[|more| - 1];
            && |t.stages| == |s.stages| && t.stages == s.stages[i := t.stages[i]] && t.stages[i].Finished? && t.rules.Keys <= t.used
            && t.rules.Values == wants[i].rules
  {
    var s := run[|run| - 1];
    more := GetReady(wants, run, i);
    more := List(wants, more, i);
    var listed := more[|more| - 1];
    var created;
    more, created := Complete(wants, more, i);
    var surplus := SurplusIds(s.rules, wants[i]);
    assert listed.stages[i].todo == surplus && listed.rules == s.rules;
    CreatedCompletes(wants[i], s.rules, s.rules - surplus, created);
  }

  /** Everybody else one after the other, and then request `last`. */
  lemma {:induction false} RunOthers(wants: seq<Want>, run: seq<System>, n: nat, last: nat) returns (more: seq<System>)
    requires IsRun(wants, run) && n <= |wants| == |run[|run| - 1].stages| && last < |wants|
    requires var s := run[|run| - 1]; s.rules.Keys <= s.used && forall j :: 0 <= j < |wants| ==> s.stages[j] == Start(1)
    ensures IsRun(wants, more) && more[0] == run[0]
    ensures var t := more[|more| - 1];
            && |t.stages| == |wants| && t.rules.Keys <= t.used
            && forall j :: 0 <= j < |wants| ==> if j < n && j != last then t.stages[j].Finished? else t.stages[j] == Start(1)
    decreases n
  {
    if n == 0 {
      more := run;
    } else {
      more := RunOthers(wants, run, n - 1, last);
      if n - 1 != last {
        more := RunAlone(wants, more, n - 1);
      }
    }
  }

  /** The serial run in which `last` comes last: all succeed, and its rules stay. */
  lemma SerialRun(wants: seq<Want>, start: System, last: nat) returns (run: seq<System>)
    requires Initial(wants, start) && last < |wants|
    ensures AllSucceed(wants, start, run) && run[|run| - 1].rules.Values == wants[last].rules
  {
    run := RunOthers(wants, [start], |wants|, last);
    run := RunAlone(wants, run, last);
  }

  // ---- The fate of a content ------------------------------------------------------------------------

  ghost predicate CanSurvive(wants: seq<Want>, start: System, c: Content) {
    exists run: seq<System> :: AllSucceed(wants, start, run) && c in run[|run| - 1].rules.Values
  }

  ghost predicate CanVanish(wants: seq<Want>, start: System, c: Content) {
    exists run: seq<System> :: AllSucceed(wants, start, run) && c !in run[|run| - 1].rules.Values
  }

  /** A content can be there after all have succeeded exactly if somebody wants it, and can be missing
      exactly if somebody does not - whether or not it was there before. */
  lemma ContentFateIff(wants: seq<Want>, start: System, c: Content)
    requires Initial(wants, start) && wants != []
    ensures CanSurvive(wants, start, c) <==> !NobodyWants(wants, c)
    ensures CanVanish(wants, start, c) <==> !EverybodyWants(wants, c)
  {
    if run: seq<System> :| AllSucceed(wants, start, run) && c in run[|run| - 1].rules.Values {
      FatesBounded(wants, start, run);
    }
    if run: seq<System> :| AllSucceed(wants, start, run) && c !in run[|run| - 1].rules.Values {
      FatesBounded(wants, start, run);
    }
    if !NobodyWants(wants, c) {
      var i :| 0 <= i < |wants| && c in wants[i].rules;
      var run := SerialRun(wants, start, i);
    }
    if !EverybodyWants(wants, c) {
      var i :| 0 <= i < |wants| && c !in wants[i].rules;
      var run := SerialRun(wants, start, i);
    }
  }
}
