/** The saga log of `common/util/compensating_transaction.py`.

    A remote call is atomic: it either completes and yields the next remote state, or raises and
    leaves the remote state alone.  What a registered task does when it is called is given by a
    function `run`; the state it runs against carries everything a Python closure would look up
    at that moment, including loop variables captured by reference.  Whether the call made by the
    task at a given position of the log gets through at all is up to an oracle, `answers`. */
module Compensation {

  datatype Reply<+S> = Done(after: S) | Raised

  function Settled<S>(reply: Reply<S>, before: S): S {
    match reply
    case Done(after) => after
    case Raised => before
  }

  /** The state left by calling the given tasks once each, newest first, ignoring the ones that raise. */
  function Unwind<T, S>(tasks: seq<T>, run: (T, S) -> Reply<S>, s: S): S
    decreases |tasks|
  {
    if tasks == [] then s
    else
      var last := |tasks| - 1;
      Unwind(tasks[..last], run, Settled(run(tasks[last], s), s))
  }

  lemma {:induction false} UnwindConcat<T, S>(older: seq<T>, newer: seq<T>, run: (T, S) -> Reply<S>, s: S)
    ensures Unwind(older + newer, run, s) == Unwind(older, run, Unwind(newer, run, s))
    decreases |newer|
  {
    if newer == [] {
      assert older + newer == older;
    } else {
      var last := |newer| - 1;
      assert (older + newer)[..|older + newer| - 1] == older + newer[..last];
      UnwindConcat(older, newer[..last], run, Settled(run(newer[last], s), s));
    }
  }

  /** The tasks whose calls get through, if the first of them is at position `from` of the log. */
  function Answering<T>(tasks: seq<T>, from: nat, answers: nat -> bool): seq<T>
    decreases |tasks|
  {
    if tasks == [] then []
    else
      var last := |tasks| - 1;
      var front := Answering(tasks[..last], from, answers);
      if answers(from + last) then front + [tasks[last]] else front
  }

  lemma {:induction false} AnsweringAmong<T>(tasks: seq<T>, from: nat, answers: nat -> bool)
    ensures forall t :: t in Answering(tasks, from, answers) ==> t in tasks
    decreases |tasks|
  {
    if tasks == [] {
    } else {
      AnsweringAmong(tasks[..|tasks| - 1], from, answers);
    }
  }

  lemma {:induction false} AnsweringConcat<T>(older: seq<T>, newer: seq<T>, from: nat, answers: nat -> bool)
    ensures Answering(older + newer, from, answers)
            == Answering(older, from, answers) + Answering(newer, from + |older|, answers)
    decreases |newer|
  {
    var rest := Answering(older, from, answers);
    if newer == [] {
      assert older + newer == older && rest + [] == rest;
    } else {
      var last := |newer| - 1;
      assert (older + newer)[..|older + newer| - 1] == older + newer[..last];
      AnsweringConcat(older, newer[..last], from, answers);
      AppendAssociates(rest, Answering(newer[..last], from + |older|, answers), [newer[last]]);
    }
  }

  /** The log in three parts; `second` and `third` are where the later ones start. */
  lemma AnsweringParts<T>(before: seq<T>, middle: seq<T>, later: seq<T>, second: nat, third: nat, answers: nat -> bool)
    requires second == |before| && third == second + |middle|
    ensures Answering(before + middle + later, 0, answers)
            == Answering(before, 0, answers) + Answering(middle, second, answers) + Answering(later, third, answers)
  {
    assert |before + middle| == third;
    AnsweringConcat(before + middle, later, 0, answers);
    AnsweringConcat(before, middle, 0, answers);
  }

  /** The calls at `n` positions of the log from `from` on all get through. */
  predicate AllAnswer(from: nat, n: nat, answers: nat -> bool) {
    forall k :: from <= k < from + n ==> answers(k)
  }

  lemma {:induction false} AllAnswering<T>(tasks: seq<T>, from: nat, answers: nat -> bool)
    requires AllAnswer(from, |tasks|, answers)
    ensures Answering(tasks, from, answers) == tasks
    decreases |tasks|
  {
    if tasks == [] {
    } else {
      var last := |tasks| - 1;
      AllAnswering(tasks[..last], from, answers);
      assert tasks == tasks[..last] + [tasks[last]];
    }
  }

  /** The oracle of the calls that do not get through. */
  function Failing(answers: nat -> bool): nat -> bool {
    (k: nat) => !answers(k)
  }

  lemma {:induction false} NoneAnswering<T>(tasks: seq<T>, from: nat, answers: nat -> bool)
    ensures Answering(tasks, from, answers) == [] <==> forall k :: from <= k < from + |tasks| ==> !answers(k)
    decreases |tasks|
  {
    if tasks == [] {
    } else {
      NoneAnswering(tasks[..|tasks| - 1], from, answers);
    }
  }

  lemma NoneFailing<T>(tasks: seq<T>, from: nat, answers: nat -> bool)
    ensures Answering(tasks, from, Failing(answers)) == [] <==> AllAnswer(from, |tasks|, answers)
  {
    NoneAnswering(tasks, from, Failing(answers));
    assert forall k: nat :: Failing(answers)(k) == !answers(k);
  }

  lemma {:induction false} AnsweringOrNot<T>(tasks: seq<T>, from: nat, answers: nat -> bool)
    ensures multiset(Answering(tasks, from, answers)) + multiset(Answering(tasks, from, Failing(answers))) == multiset(tasks)
    decreases |tasks|
  {
    if tasks == [] {
    } else {
      var last := |tasks| - 1;
      AnsweringOrNot(tasks[..last], from, answers);
      assert tasks == tasks[..last] + [tasks[last]];
    }
  }

  /** Filtering commutes with mapping. */
  lemma {:induction false} AnsweringMapped<T, U>(a: seq<T>, b: seq<U>, f: T -> U, from: nat, answers: nat -> bool)
    requires |a| == |b| && forall i :: 0 <= i < |a| ==> b[i] == f(a[i])
    ensures var x, y := Answering(a, from, answers), Answering(b, from, answers);
            |x| == |y| && forall i :: 0 <= i < |x| ==> y[i] == f(x[i])
    decreases |a|
  {
    if a == [] {
    } else {
      var last := |a| - 1;
      AnsweringMapped(a[..last], b[..last], f, from, answers);
    }
  }

  lemma AppendAssociates<T>(a: seq<T>, b: seq<T>, c: seq<T>)
    ensures (a + b) + c == a + (b + c)
  {}

  class CompensationManager<T> {
    var tasks: seq<T>

    constructor ()
      ensures tasks == []
    {
      tasks := [];
    }

    method AddTask(task: T)
      modifies this
      ensures tasks == old(tasks) + [task]
    {
      tasks := tasks + [task];
    }

    /** Calls the registered tasks in reverse order of registration.  `called` records the calls:
        a task that raises is still called exactly once and does not stop the ones before it. */
    method Rollback<S>(run: (T, S) -> Reply<S>, answers: nat -> bool, s: S) returns (s': S, called: seq<T>)
      ensures s' == Unwind(Answering(tasks, 0, answers), run, s)
      ensures |called| == |tasks|
      ensures forall i :: 0 <= i < |called| ==> called[i] == tasks[|tasks| - 1 - i]
    {
      s', called := s, [];
      var i := |tasks|;
      assert tasks[..i] == tasks;
      while i > 0
        invariant 0 <= i <= |tasks|
        invariant Unwind(Answering(tasks, 0, answers), run, s) == Unwind(Answering(tasks[..i], 0, answers), run, s')
        invariant |called| == |tasks| - i
        invariant forall k :: 0 <= k < |called| ==> called[k] == tasks[|tasks| - 1 - k]
      {
        i := i - 1;
        assert tasks[..i + 1][..i] == tasks[..i];
        if answers(i) {
          UnwindConcat(Answering(tasks[..i], 0, answers), [tasks[i]], run, s');
          assert [tasks[i]][..0] == [];
          s' := Settled(run(tasks[i], s'), s');
        }
        called := called + [tasks[i]];
      }
    }
  }

  /** One forward step of a saga: a remote call, and the task registered once it has succeeded.
      The task may mention what the call returned, so it is chosen from the states around it. */
  datatype Step<!T, !S> = Step(act: S -> Reply<S>, undo: (S, S) -> T)

  datatype Progress<T, S> = Progress(state: S, tasks: seq<T>, raised: bool)

  /** Runs the steps in order until one raises, registering an inverse after each success. */
  function Advance<T, S>(steps: seq<Step<T, S>>, s: S, tasks: seq<T>): Progress<T, S> {
    if steps == [] then Progress(s, tasks, false)
    else
      match steps[0].act(s)
      case Raised => Progress(s, tasks, true)
      case Done(after) => Advance(steps[1..], after, tasks + [steps[0].undo(s, after)])
  }

  /** Along the path the saga actually takes, every registered task undoes exactly its own step. */
  predicate ExactInverses<T, S(==)>(steps: seq<Step<T, S>>, run: (T, S) -> Reply<S>, s: S) {
    steps == [] ||
    match steps[0].act(s)
    case Raised => true
    case Done(after) => run(steps[0].undo(s, after), after) == Done(s) && ExactInverses(steps[1..], run, after)
  }

  /** Whatever the failure point - inside the saga or, like a failing commit, after its last step -
      unwinding the log takes the remote state back to where the saga found it. */
  lemma {:induction false} SagaRestores<T, S>(steps: seq<Step<T, S>>, run: (T, S) -> Reply<S>, s: S, tasks: seq<T>)
    requires ExactInverses(steps, run, s)
    ensures var end := Advance(steps, s, tasks);
            Unwind(end.tasks, run, end.state) == Unwind(tasks, run, s)
  {
    if steps != [] && steps[0].act(s).Done? {
      var after := steps[0].act(s).after;
      var logged := tasks + [steps[0].undo(s, after)];
      SagaRestores(steps[1..], run, after, logged);
      assert logged[..|logged| - 1] == tasks;
    }
  }

  /** `compensating_transaction` around a saga whose database transaction commits, or not, at the
      end: on failure every registered task is called once, on success none is.  The failed saga
      leaves no trace if its compensating calls get through. */
  method CompensatingScope<T, S>(steps: seq<Step<T, S>>, run: (T, S) -> Reply<S>, answers: nat -> bool, s: S, commits: bool)
    returns (ok: bool, s': S, called: seq<T>)
    requires ExactInverses(steps, run, s)
    ensures var end := Advance(steps, s, []);
            && (ok <==> !end.raised && commits)
            && (ok ==> s' == end.state && called == [])
            && (!ok ==> s' == Unwind(Answering(end.tasks, 0, answers), run, end.state))
            && (!ok && AllAnswer(0, |end.tasks|, answers) ==> s' == s)
            && (!ok ==> multiset(called) == multiset(end.tasks))
  {
    var manager := new CompensationManager<T>();
    var i := 0;
    var raised := false;
    s' := s;
    while i < |steps| && !raised
      invariant 0 <= i <= |steps|
      invariant !raised ==> Advance(steps, s, []) == Advance(steps[i..], s', manager.tasks)
      invariant raised ==> Advance(steps, s, []) == Progress(s', manager.tasks, true)
      invariant fresh(manager)
      decreases |steps| - i, !raised
    {
      assert steps[i..][0] == steps[i] && steps[i..][1..] == steps[i + 1..];
      match steps[i].act(s')
      case Raised =>
        raised := true;
      case Done(after) =>
        manager.AddTask(steps[i].undo(s', after));
        s', i := after, i + 1;
    }
    ok, called := !raised && commits, [];
    if !ok {
      SagaRestores(steps, run, s, []);
      if AllAnswer(0, |manager.tasks|, answers) {
        AllAnswering(manager.tasks, 0, answers);
      }
      s', called := manager.Rollback(run, answers, s');
      MirrorKeepsMultiset(called, manager.tasks);
    }
  }

  lemma {:induction false} MirrorKeepsMultiset<T>(a: seq<T>, b: seq<T>)
    requires |a| == |b|
    requires forall i :: 0 <= i < |a| ==> a[i] == b[|b| - 1 - i]
    ensures multiset(a) == multiset(b)
    decreases |a|
  {
    if a == [] {
    } else {
      var last := |b| - 1;
      MirrorKeepsMultiset(a[1..], b[..last]);
      assert a == [a[0]] + a[1..];
      assert b == b[..last] + [b[last]];
    }
  }
}
