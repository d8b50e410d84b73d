/** How often concurrent security-group updates have to start over: every new attempt is owed to another
    request's commit, so nobody among three requests runs out of attempts. */
module SecurityGroupAttempts {
  import opened Sequences
  import opened SecurityGroupRules
  import opened SecurityGroupRace

  /** A request in its attempt `tries` has seen at least `tries - 1` commits of others. */
  ghost predicate AttemptPaid(start: nat, s: System, i: nat)
    requires i < |s.stages|
  {
    match s.stages[i]
    case Start(tries) => 1 <= tries <= 3 && s.row.version >= start + tries - 1
    case Finished(_) => true
    case Failed => true
    case _ => 1 <= s.stages[i].tries <= 3 && s.row.version >= s.stages[i].row.version >= start + s.stages[i].tries - 1
  }

  /** Every version is a commit of its own request. */
  ghost predicate AttemptsPaid(start: nat, s: System) {
    && s.row.version == start + |s.log| && Distinct(s.log)
    && (forall k :: 0 <= k < |s.log| ==> s.log[k] < |s.stages| && s.stages[s.log[k]].Finished?)
    && (forall i :: 0 <= i < |s.stages| ==> AttemptPaid(start, s, i))
  }

  lemma StepPays(wants: seq<Want>, start: nat, s: System, i: nat, t: System)
    requires i < |wants| == |s.stages| && AttemptsPaid(start, s) && StepOf(wants, s, i, t)
    ensures |t.stages| == |s.stages| && AttemptsPaid(start, t)
  {
    StepIsLocal(wants, s, i, t);
    assert AttemptPaid(start, s, i);
    if t.log != s.log {
      assert t.log == s.log + [i] && t.row.version == s.row.version + 1;
    } else {
      assert t.row == s.row;
    }
    forall j | 0 <= j < |t.stages| ensures AttemptPaid(start, t, j) {
      assert AttemptPaid(start, s, j);
    }
  }

  lemma {:induction false} RunPays(wants: seq<Want>, run: seq<System>)
    requires IsRun(wants, run)
    ensures |run[|run| - 1].stages| == |wants| && AttemptsPaid(run[0].row.version, run[|run| - 1])
    decreases |run|
  {
    if |run| == 1 {
    } else {
      FrontIsRun(wants, run);
      RunPays(wants, run[..|run| - 1]);
      var i :| 0 <= i < |wants| && StepOf(wants, run[|run| - 2], i, run[|run| - 1]);
      StepPays(wants, run[0].row.version, run[|run| - 2], i, run[|run| - 1]);
    }
  }

  /** What a commit comes to at the end of any run: an unchanged row is not compared; a changed one is
      committed at its version or starts over, for the second or third time - unless this was the
      third attempt, in which case three other requests have committed in the meantime. */
  lemma OutOfAttemptsIff(wants: seq<Want>, run: seq<System>, i: nat, t: System)
    requires IsRun(wants, run) && i < |wants| == |run[|run| - 1].stages| && Commits(wants[i], run[|run| - 1], i, t)
    ensures var s := run[|run| - 1];
            var stale := (s.stages[i].row.name, s.stages[i].row.description) != (wants[i].name, wants[i].description)
                         && s.stages[i].row.version < s.row.version;
            && (t.stages[i].Failed? <==> stale && s.stages[i].tries == 3)
            && (t.stages[i].Failed? ==> s.row.version >= run[0].row.version + 3 && |wants| >= 4)
            && (stale && s.stages[i].tries < 3 ==> t.stages[i] == Start(s.stages[i].tries + 1))
            && (!stale ==> t.stages[i].Finished?)
  {
    var s := run[|run| - 1];
    RunPays(wants, run);
    assert AttemptPaid(run[0].row.version, s, i);
    if t.stages[i].Failed? {
      assert i !in s.log;
      OthersOnly(s.log, |wants|, i);
    }
  }

  /** Of three concurrent requests none ever fails because its row is stale. */
  lemma ThreeNeverRunOut(wants: seq<Want>, run: seq<System>, i: nat, t: System)
    requires |wants| <= 3 && IsRun(wants, run) && i < |wants| == |run[|run| - 1].stages| && Commits(wants[i], run[|run| - 1], i, t)
    ensures !t.stages[i].Failed?
  {
    OutOfAttemptsIff(wants, run, i, t);
  }
}
