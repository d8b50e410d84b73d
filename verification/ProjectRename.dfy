/** `update_project`, the flush-first counterpart of the security-group update.

    The versioned UPDATE is flushed before Keystone is called and the row stays locked until the
    transaction ends, so a stale attempt never reaches Keystone.  The compensating rename, however,
    runs after the rollback has released the row, and may itself fail. */
module ProjectRename {
  import opened Options
  import opened Compensation
  import opened Sequences

  const MAX_TRIES: nat := 3

  datatype Row = Row(name: string, version: nat)

  // ---- One request --------------------------------------------------------------------------------

  datatype Ending = Returned(committed: Row) | Stale | Errored

  /** One try's oracle: the row it reads and the requests it is up against. */
  datatype Plan = Plan(row: Option<Row>, isMember: bool, nameTakenElsewhere: bool, stale: bool, renames: bool, commits: bool)

  datatype Try = Try(end: Ending, keystone: string, tasks: seq<string>)

  class Project {
    var name: string
    var version: nat

    constructor (row: Row)
      ensures name == row.name && version == row.version
    {
      name, version := row.name, row.version;
    }

    method UpdateName(newName: string)
      modifies this`name
      ensures name == newName
    {
      name := newName;
    }
  }

  function Rename(task: string, keystone: string): Reply<string> {
    Done(task)
  }

  /** The guards.  The duplicate check also sees the project's own row, so whatever gets past it has
      a changed name, and the flush is a real UPDATE that compares versions. */
  predicate Admitted(newName: string, plan: Plan) {
    plan.row.Some? && plan.isMember && newName != plan.row.value.name && !plan.nameTakenElsewhere
  }

  function TryOnce(newName: string, plan: Plan, keystone: string, tasks: seq<string>): Try {
    if !Admitted(newName, plan) then Try(Errored, keystone, tasks)
    else if plan.stale then Try(Stale, keystone, tasks)
    else if !plan.renames then Try(Errored, keystone, tasks)
    else
      var row := plan.row.value;
      Try(if plan.commits then Returned(Row(newName, row.version + 1)) else Errored, newName, tasks + [row.name])
  }

  method TryUpdate(manager: CompensationManager<string>, newName: string, plan: Plan, keystone: string)
    returns (end: Ending, keystone': string)
    modifies manager
    ensures Try(end, keystone', manager.tasks) == TryOnce(newName, plan, keystone, old(manager.tasks))
  {
    end, keystone' := Errored, keystone;
    if plan.row.None? || !plan.isMember {
      return;
    }
    var project := new Project(plan.row.value);
    var oldName := project.name;
    var nameExists := newName == oldName || plan.nameTakenElsewhere;
    if nameExists {
      return;
    }
    project.UpdateName(newName);
    if plan.stale {
      return Stale, keystone;
    }
    project.version := project.version + 1;
    if !plan.renames {
      return;
    }
    keystone' := newName;
    manager.AddTask(oldName);
    if plan.commits {
      end := Returned(Row(project.name, project.version));
    }
  }

  function Retry(newName: string, plans: seq<Plan>, keystone: string, tasks: seq<string>): Try
    requires plans != []
  {
    var first := TryOnce(newName, plans[0], keystone, tasks);
    if first.end.Stale? && |plans| > 1 then Retry(newName, plans[1..], first.keystone, first.tasks) else first
  }

  /** The first try that does not find its row stale decides; `|plans|` if they all do. */
  function Deciding(newName: string, plans: seq<Plan>): (d: nat)
    ensures d <= |plans|
    ensures forall k :: 0 <= k < d ==> Admitted(newName, plans[k]) && plans[k].stale
    ensures d < |plans| ==> !(Admitted(newName, plans[d]) && plans[d].stale)
  {
    if plans == [] || !(Admitted(newName, plans[0]) && plans[0].stale) then 0 else 1 + Deciding(newName, plans[1..])
  }

  /** Stale tries leave no trace: a request is its deciding try. */
  lemma {:induction false} StaleTriesVanish(newName: string, plans: seq<Plan>, keystone: string, tasks: seq<string>)
    requires plans != []
    ensures var d := Deciding(newName, plans);
            Retry(newName, plans, keystone, tasks)
            == if d == |plans| then Try(Stale, keystone, tasks) else TryOnce(newName, plans[d], keystone, tasks)
    decreases |plans|
  {
    if Deciding(newName, plans) == 0 || |plans| == 1 {
    } else {
      StaleTriesVanish(newName, plans[1..], keystone, tasks);
    }
  }

  /** The project is found, the requester is a member, and nobody has the new name - not even the
      project itself. */
  predicate MayRename(newName: string, plan: Plan) {
    plan.row != None && plan.isMember && plan.row.value.name != newName && !plan.nameTakenElsewhere
  }

  predicate MeetsNewerRow(newName: string, plan: Plan) {
    MayRename(newName, plan) && plan.stale
  }

  predicate RenameDone(newName: string, plan: Plan) {
    MayRename(newName, plan) && !plan.stale && plan.renames && plan.commits
  }

  /** When a request succeeds, and with which row: one of its three tries may rename, finds its row
      current, Keystone answers and the commit gets through; and all before it may, but find a newer row. */
  lemma RenameSucceedsIff(newName: string, plans: seq<Plan>, keystone: string)
    requires |plans| == MAX_TRIES
    ensures var a, b, c := plans[0], plans[1], plans[2];
            var end := Retry(newName, plans, keystone, []).end;
            && (end.Returned? <==>
                  || RenameDone(newName, a)
                  || (MeetsNewerRow(newName, a) && RenameDone(newName, b))
                  || (MeetsNewerRow(newName, a) && MeetsNewerRow(newName, b) && RenameDone(newName, c)))
            && (end == Stale <==> MeetsNewerRow(newName, a) && MeetsNewerRow(newName, b) && MeetsNewerRow(newName, c))
            && (end.Returned? ==> exists d :: 0 <= d < 3 && RenameDone(newName, plans[d])
                                              && end.committed == Row(newName, plans[d].row.value.version + 1))
  {
    StaleTriesVanish(newName, plans, keystone, []);
    var d := Deciding(newName, plans);
    assert MAX_TRIES == 3 && (d == 0 || d == 1 || d == 2 || d == 3);
    assert forall p :: Admitted(newName, p) <==> MayRename(newName, p);
  }

  /** The tries of a request: only the deciding one counts. */
  method TryUntilDecided(manager: CompensationManager<string>, newName: string, plans: seq<Plan>, keystone: string)
    returns (end: Ending, keystone': string)
    requires |plans| == MAX_TRIES
    modifies manager
    ensures var d := Deciding(newName, plans);
            Try(end, keystone', manager.tasks)
            == if d == MAX_TRIES then Try(Stale, keystone, old(manager.tasks))
               else TryOnce(newName, plans[d], keystone, old(manager.tasks))
  {
    end, keystone' := Stale, keystone;
    ghost var tasks := manager.tasks;
    var tries := 0;
    while tries < MAX_TRIES && (tries == 0 || end.Stale?)
      invariant 0 <= tries <= MAX_TRIES
      invariant tries == 0 ==> keystone' == keystone && manager.tasks == tasks
      invariant tries > 0 && (!end.Stale? || tries == MAX_TRIES) ==>
                  Try(end, keystone', manager.tasks) == Retry(newName, plans, keystone, tasks)
      invariant tries < MAX_TRIES && end.Stale? ==>
                  Retry(newName, plans, keystone, tasks) == Retry(newName, plans[tries..], keystone', manager.tasks)
      decreases MAX_TRIES - tries
    {
      assert plans[tries..][0] == plans[tries] && plans[tries..][1..] == plans[tries + 1..];
      end, keystone' := TryUpdate(manager, newName, plans[tries], keystone');
      tries := tries + 1;
    }
    StaleTriesVanish(newName, plans, keystone, tasks);
  }

  /** The request.  It succeeds exactly if its deciding try does.  It renames Keystone only in that
      try, so the log never holds more than one task, and a failed request puts back the name of the
      row that try had read - if Keystone answers. */
  method UpdateProject(newName: string, plans: seq<Plan>, answers: nat -> bool, keystone: string)
    returns (end: Ending, keystone': string, called: seq<string>)
    requires |plans| == MAX_TRIES
    ensures var d := Deciding(newName, plans);
            var reaches := d < MAX_TRIES && Admitted(newName, plans[d]) && plans[d].renames;
            && (end.Stale? <==> d == MAX_TRIES)
            && (end.Returned? <==> reaches && plans[d].commits)
            && (end.Returned? ==> end.committed == Row(newName, plans[d].row.value.version + 1))
            && called == (if reaches && !end.Returned? then [plans[d].row.value.name] else [])
            && keystone' == (if !reaches then keystone
                             else if !end.Returned? && answers(0) then plans[d].row.value.name
                             else newName)
  {
    var manager := new CompensationManager<string>();
    end, keystone' := TryUntilDecided(manager, newName, plans, keystone);
    TriedOnce(newName, plans, keystone, Try(end, keystone', manager.tasks));
    called := [];
    if !end.Returned? {
      keystone', called := UndoRename(manager, answers, keystone');
    }
  }

  lemma TriedOnce(newName: string, plans: seq<Plan>, keystone: string, t: Try)
    requires |plans| == MAX_TRIES
    requires var d := Deciding(newName, plans);
             t == if d == MAX_TRIES then Try(Stale, keystone, []) else TryOnce(newName, plans[d], keystone, [])
    ensures var d := Deciding(newName, plans);
            var reaches := d < MAX_TRIES && Admitted(newName, plans[d]) && plans[d].renames;
            && (t.end.Stale? <==> d == MAX_TRIES)
            && (t.end.Returned? <==> reaches && plans[d].commits)
            && (t.end.Returned? ==> t.end.committed == Row(newName, plans[d].row.value.version + 1))
            && t.tasks == (if reaches then [plans[d].row.value.name] else [])
            && t.keystone == if reaches then newName else keystone
  {}

  /** Rolling back a log of at most one rename. */
  method UndoRename(manager: CompensationManager<string>, answers: nat -> bool, keystone: string)
    returns (keystone': string, called: seq<string>)
    requires |manager.tasks| <= 1
    ensures called == manager.tasks
    ensures keystone' == if manager.tasks != [] && answers(0) then manager.tasks[0] else keystone
  {
    UnwindOne(manager.tasks, answers, keystone);
    keystone', called := manager.Rollback(Rename, answers, keystone);
    assert called == manager.tasks;
  }

  lemma UnwindOne(tasks: seq<string>, answers: nat -> bool, keystone: string)
    requires |tasks| <= 1
    ensures Unwind(Answering(tasks, 0, answers), Rename, keystone) == if tasks != [] && answers(0) then tasks[0] else keystone
  {
    if tasks != [] {
      assert tasks[..0] == [] && Answering(tasks, 0, answers) == if answers(0) then [tasks[0]] else [];
      assert [tasks[0]][..0] == [];
    }
  }

  // ---- Any number of requests ---------------------------------------------------------------------

  datatype Stage =
    | Start(tries: nat)
    | Loaded(tries: nat, row: Row)
    | Flushed(row: Row)
    | Renamed(row: Row)
    | Compensating(row: Row)   // commit failed, row rolled back, the task not yet called
    | Finished
    | Failed
  {
    predicate HoldsRow() { Flushed? || Renamed? }
    predicate HasRow() { Loaded? || HoldsRow() || Compensating? }
  }

  /** The last thing that was written to Keystone: the name wanted by a request, or that of the row
      a compensating request had read. */
  datatype Write = Nothing | Wanted(request: nat) | Restored(row: Row)

  /** `row` is the committed row, `lock` the request whose flushed UPDATE holds it; `renames` and
      `commits` record whose names reached Keystone and the database. */
  datatype System = System(
    row: Row, lock: Option<nat>, keystone: string, stages: seq<Stage>,
    renames: seq<nat>, commits: seq<nat>, last: Write)

  function At(s: System, i: nat, stage: Stage): System
    requires i < |s.stages|
  {
    s.(stages := s.stages[i := stage])
  }

  predicate Reads(s: System, i: nat, t: System)
    requires i < |s.stages|
  {
    s.stages[i].Start? && t == At(s, i, Loaded(s.stages[i].tries, s.row))
  }

  /** Not found, no member, or the name is taken - by another row or by the row itself. */
  predicate Rejected(s: System, i: nat, t: System)
    requires i < |s.stages|
  {
    (s.stages[i].Start? || s.stages[i].Loaded?) && t == At(s, i, Failed)
  }

  ghost predicate SomeoneCompensates(s: System) {
    exists j :: 0 <= j < |s.stages| && s.stages[j].Compensating?
  }

  predicate Flushes(want: string, s: System, i: nat, t: System)
    requires i < |s.stages|
  {
    && s.stages[i].Loaded? && want != s.stages[i].row.name && s.lock.None?
    && if s.stages[i].row.version == s.row.version then
         t == At(s, i, Flushed(s.stages[i].row)).(lock := Some(i))
       else
         t == At(s, i, if s.stages[i].tries < MAX_TRIES then Start(s.stages[i].tries + 1) else Failed)
  }

  predicate CallsKeystone(want: string, s: System, i: nat, t: System)
    requires i < |s.stages|
  {
    && s.stages[i].Flushed?
    && (|| t == At(s, i, Renamed(s.stages[i].row)).(keystone := want, renames := s.renames + [i], last := Wanted(i))
        || t == At(s, i, Failed).(lock := None))
  }

  predicate Commits(want: string, s: System, i: nat, t: System)
    requires i < |s.stages|
  {
    && s.stages[i].Renamed?
    && (|| t == At(s, i, Finished).(row := Row(want, s.stages[i].row.version + 1), lock := None, commits := s.commits + [i])
        || t == At(s, i, Compensating(s.stages[i].row)).(lock := None))
  }

  predicate Compensates(s: System, i: nat, t: System)
    requires i < |s.stages|
  {
    && s.stages[i].Compensating?
    && (|| t == At(s, i, Failed).(keystone := s.stages[i].row.name, last := Restored(s.stages[i].row))
        || t == At(s, i, Failed))
  }

  ghost predicate StepOf(wants: seq<string>, s: System, i: nat, t: System)
    requires i < |wants| == |s.stages|
  {
    || Reads(s, i, t) || Rejected(s, i, t) || Flushes(wants[i], s, i, t)
    || CallsKeystone(wants[i], s, i, t) || Commits(wants[i], s, i, t) || Compensates(s, i, t)
  }

  ghost predicate Initial(wants: seq<string>, s: System) {
    && |s.stages| == |wants| && (forall i :: 0 <= i < |wants| ==> s.stages[i] == Start(1))
    && s.lock.None? && s.keystone == s.row.name && s.renames == [] && s.commits == [] && s.last == Nothing
  }

  ghost predicate Next(wants: seq<string>, s: System, t: System) {
    |s.stages| == |wants| && exists i :: 0 <= i < |wants| && StepOf(wants, s, i, t)
  }

  ghost predicate IsRun(wants: seq<string>, run: seq<System>) {
    && run != [] && Initial(wants, run[0])
    && forall k :: 0 <= k < |run| - 1 ==> Next(wants, run[k], run[k + 1])
  }

  // ---- The invariant --------------------------------------------------------------------------------

  /** A flushed row is the committed row, locked, about to get a different name. */
  ghost predicate LockDiscipline(wants: seq<string>, s: System)
    requires |s.stages| == |wants|
  {
    && (forall i :: 0 <= i < |wants| ==> (s.stages[i].HoldsRow() <==> s.lock == Some(i)))
    && (forall i :: 0 <= i < |wants| && s.stages[i].HoldsRow() ==> s.stages[i].row == s.row && wants[i] != s.row.name)
    && (s.lock.Some? ==> s.lock.value < |wants|)
  }

  /** The n-th committed row, counting from the initial one. */
  function Version(wants: seq<string>, start: Row, commits: seq<nat>, n: nat): Row
    requires n <= |commits| && forall k :: 0 <= k < |commits| ==> commits[k] < |wants|
  {
    if n == 0 then start else Row(wants[commits[n - 1]], start.version + n)
  }

  ghost predicate Committed(wants: seq<string>, start: Row, s: System)
    requires |s.stages| == |wants|
  {
    && (forall k :: 0 <= k < |s.commits| ==> s.commits[k] < |wants| && s.stages[s.commits[k]] == Finished)
    && (forall i :: 0 <= i < |wants| && s.stages[i] == Finished ==> i in s.commits)
    && (forall a, b :: 0 <= a < b < |s.commits| ==> s.commits[a] != s.commits[b])
    && s.row == Version(wants, start, s.commits, |s.commits|)
  }

  ghost predicate WasCommitted(wants: seq<string>, start: Row, commits: seq<nat>, row: Row)
    requires forall k :: 0 <= k < |commits| ==> commits[k] < |wants|
  {
    start.version <= row.version <= start.version + |commits|
    && row == Version(wants, start, commits, row.version - start.version)
  }

  /** Whatever row a request has read, or put back, was committed once. */
  ghost predicate RowsRemembered(wants: seq<string>, start: Row, s: System)
    requires |s.stages| == |wants| && forall k :: 0 <= k < |s.commits| ==> s.commits[k] < |wants|
  {
    && (forall i :: 0 <= i < |wants| && s.stages[i].HasRow() ==> WasCommitted(wants, start, s.commits, s.stages[i].row))
    && (s.last.Restored? ==> WasCommitted(wants, start, s.commits, s.last.row))
  }

  /** What Keystone has, in terms of the last write.  A wanted name is the committed one exactly from
      its request's commit on; until somebody renames again nobody else commits. */
  ghost predicate KeystoneAccounted(wants: seq<string>, start: Row, s: System)
    requires |s.stages| == |wants|
  {
    && (forall i :: 0 <= i < |wants| && s.stages[i].Renamed? ==> s.last == Wanted(i) || s.last.Restored?)
    && match s.last
       case Nothing => s.keystone == start.name && s.commits == []
       case Wanted(i) =>
         && i < |wants| && s.keystone == wants[i]
         && (if s.stages[i] == Finished then s.row.name == wants[i] else s.row.name != wants[i])
       case Restored(row) => s.keystone == row.name
  }

  ghost predicate Inv(wants: seq<string>, start: Row, s: System) {
    && |s.stages| == |wants| && LockDiscipline(wants, s) && Committed(wants, start, s) && RowsRemembered(wants, start, s)
    && KeystoneAccounted(wants, start, s)
  }

  lemma StepIsLocal(wants: seq<string>, s: System, i: nat, t: System)
    requires i < |wants| == |s.stages| && StepOf(wants, s, i, t)
    ensures |t.stages| == |s.stages| && forall j :: 0 <= j < |s.stages| && j != i ==> t.stages[j] == s.stages[j]
  {}

  lemma StepKeepsLock(wants: seq<string>, s: System, i: nat, t: System)
    requires i < |wants| == |s.stages| && LockDiscipline(wants, s) && StepOf(wants, s, i, t)
    requires Flushes(wants[i], s, i, t) ==> RowCurrent(s, i)
    ensures |t.stages| == |wants| && LockDiscipline(wants, t)
  {
    StepIsLocal(wants, s, i, t);
    OnlyHolder(wants, s, i);
  }

  /** An up-to-date attempt has read the committed row. */
  ghost predicate RowCurrent(s: System, i: nat)
    requires i < |s.stages|
  {
    s.stages[i].HasRow() && s.stages[i].row.version == s.row.version ==> s.stages[i].row == s.row
  }

  /** If a request holds the row, or nobody does, no other request holds it. */
  lemma OnlyHolder(wants: seq<string>, s: System, i: nat)
    requires i < |wants| == |s.stages| && LockDiscipline(wants, s)
    ensures s.stages[i].HoldsRow() <==> s.lock == Some(i)
    ensures s.stages[i].HoldsRow() || s.lock.None? ==> forall j :: 0 <= j < |wants| && j != i ==> !s.stages[j].HoldsRow()
  {
    forall j | 0 <= j < |wants| && j != i && s.stages[j].HoldsRow() ensures s.lock == Some(j) {}
  }

  lemma StepKeepsCommits(wants: seq<string>, start: Row, s: System, i: nat, t: System)
    requires Inv(wants, start, s) && i < |wants| && StepOf(wants, s, i, t)
    ensures |t.stages| == |wants| && Committed(wants, start, t)
    ensures s.commits <= t.commits
  {
    StepIsLocal(wants, s, i, t);
    if Commits(wants[i], s, i, t) && t.stages[i] == Finished {
      assert t.commits == s.commits + [i] && s.stages[i].row == s.row;
      CommitKeepsCommitted(wants, start, s, i, t);
    } else {
      assert t.commits == s.commits && t.row == s.row && t.stages[i] != Finished && s.stages[i] != Finished;
    }
  }

  lemma CommitKeepsCommitted(wants: seq<string>, start: Row, s: System, i: nat, t: System)
    requires i < |wants| == |s.stages| && Committed(wants, start, s) && s.stages[i] != Finished
    requires t.stages == s.stages[i := Finished] && t.commits == s.commits + [i]
    requires t.row == Row(wants[i], s.row.version + 1)
    ensures Committed(wants, start, t)
  {
    assert i !in s.commits;
    CommitIsNext(wants, start, s.commits, i);
    forall j | 0 <= j < |wants| && t.stages[j] == Finished ensures j in t.commits {
      assert j == i || j in s.commits;
    }
  }

  lemma CommitIsNext(wants: seq<string>, start: Row, commits: seq<nat>, i: nat)
    requires i < |wants| && forall k :: 0 <= k < |commits| ==> commits[k] < |wants|
    ensures Version(wants, start, commits + [i], |commits| + 1)
            == Row(wants[i], Version(wants, start, commits, |commits|).version + 1)
  {}

  lemma StillRemembered(wants: seq<string>, start: Row, before: seq<nat>, after: seq<nat>, row: Row)
    requires before <= after && forall k :: 0 <= k < |after| ==> after[k] < |wants|
    requires forall k :: 0 <= k < |before| ==> before[k] < |wants|
    requires WasCommitted(wants, start, before, row)
    ensures WasCommitted(wants, start, after, row)
  {}

  /** The row a request has after a step is the one it had, or the committed one. */
  lemma StepAndRows(wants: seq<string>, s: System, i: nat, t: System)
    requires i < |wants| == |s.stages| && StepOf(wants, s, i, t)
    ensures |t.stages| == |s.stages|
    ensures t.stages[i].HasRow() && !s.stages[i].HasRow() ==> t.stages[i].row == s.row && t.commits == s.commits
    ensures t.stages[i].HasRow() && s.stages[i].HasRow() ==> t.stages[i].row == s.stages[i].row
    ensures t.last.Restored? && t.last != s.last ==> s.stages[i].HasRow() && t.last.row == s.stages[i].row
  {}

  lemma StepKeepsRows(wants: seq<string>, start: Row, s: System, i: nat, t: System)
    requires Inv(wants, start, s) && i < |wants| && StepOf(wants, s, i, t)
    requires |t.stages| == |wants| && Committed(wants, start, t) && s.commits <= t.commits
    ensures RowsRemembered(wants, start, t)
  {
    StepIsLocal(wants, s, i, t);
    StepAndRows(wants, s, i, t);
    RememberedOn(wants, start, s, i, t);
  }

  lemma RememberedOn(wants: seq<string>, start: Row, s: System, i: nat, t: System)
    requires i < |wants| == |s.stages| == |t.stages| && Committed(wants, start, s) && RowsRemembered(wants, start, s)
    requires Committed(wants, start, t) && s.commits <= t.commits
    requires forall j :: 0 <= j < |wants| && j != i ==> t.stages[j] == s.stages[j]
    requires t.stages[i].HasRow() && !s.stages[i].HasRow() ==> t.stages[i].row == s.row
    requires t.stages[i].HasRow() && s.stages[i].HasRow() ==> t.stages[i].row == s.stages[i].row
    requires t.last.Restored? && t.last != s.last ==> s.stages[i].HasRow() && t.last.row == s.stages[i].row
    ensures RowsRemembered(wants, start, t)
  {
    assert WasCommitted(wants, start, s.commits, s.row);
    forall j | 0 <= j < |wants| && t.stages[j].HasRow() ensures WasCommitted(wants, start, t.commits, t.stages[j].row) {
      var row := if s.stages[j].HasRow() then s.stages[j].row else s.row;
      StillRemembered(wants, start, s.commits, t.commits, row);
    }
    if t.last.Restored? {
      StillRemembered(wants, start, s.commits, t.commits, if t.last == s.last then s.last.row else s.stages[i].row);
    }
  }

  lemma StepKeepsKeystone(wants: seq<string>, start: Row, s: System, i: nat, t: System)
    requires i < |wants| == |s.stages| && LockDiscipline(wants, s) && KeystoneAccounted(wants, start, s) && StepOf(wants, s, i, t)
    ensures |t.stages| == |wants| && KeystoneAccounted(wants, start, t)
  {
    StepIsLocal(wants, s, i, t);
    OnlyHolder(wants, s, i);
    if s.stages[i].HoldsRow() {
      HolderKeepsKeystone(wants, start, s, i, t);
    } else {
      assert t.row == s.row && t.commits == s.commits && t.stages[i] != Finished && !t.stages[i].Renamed?;
    }
  }

  lemma HolderKeepsKeystone(wants: seq<string>, start: Row, s: System, i: nat, t: System)
    requires i < |wants| == |s.stages| && KeystoneAccounted(wants, start, s) && s.stages[i].HoldsRow() && wants[i] != s.row.name
    requires CallsKeystone(wants[i], s, i, t) || Commits(wants[i], s, i, t)
    requires forall j :: 0 <= j < |wants| && j != i ==> !s.stages[j].HoldsRow()
    ensures |t.stages| == |wants| && KeystoneAccounted(wants, start, t)
  {
    if s.stages[i].Renamed? {
      assert s.last == Wanted(i) || s.last.Restored?;
    }
  }

  lemma CurrentRows(wants: seq<string>, start: Row, s: System, i: nat)
    requires i < |wants| == |s.stages| && Committed(wants, start, s) && RowsRemembered(wants, start, s)
    ensures RowCurrent(s, i)
  {}

  lemma StepKeepsInv(wants: seq<string>, start: Row, s: System, t: System)
    requires Inv(wants, start, s) && Next(wants, s, t)
    ensures Inv(wants, start, t)
  {
    var i :| 0 <= i < |wants| && StepOf(wants, s, i, t);
    CurrentRows(wants, start, s, i);
    StepKeepsLock(wants, s, i, t);
    StepKeepsCommits(wants, start, s, i, t);
    StepKeepsRows(wants, start, s, i, t);
    StepKeepsKeystone(wants, start, s, i, t);
  }

  lemma FrontIsRun(wants: seq<string>, run: seq<System>)
    requires IsRun(wants, run) && |run| > 1
    ensures IsRun(wants, run[..|run| - 1]) && Next(wants, run[|run| - 2], run[|run| - 1])
  {
    var front := run[..|run| - 1];
    assert Next(wants, run[|run| - 2], run[|run| - 2 + 1]);
    forall k | 0 <= k < |front| - 1 ensures Next(wants, front[k], front[k + 1]) {
      assert Next(wants, run[k], run[k + 1]);
    }
  }

  lemma {:induction false} RunKeepsInv(wants: seq<string>, run: seq<System>)
    requires IsRun(wants, run)
    ensures Inv(wants, run[0].row, run[|run| - 1])
    decreases |run|
  {
    if |run| == 1 {
    } else {
      FrontIsRun(wants, run);
      RunKeepsInv(wants, run[..|run| - 1]);
      StepKeepsInv(wants, run[0].row, run[|run| - 2], run[|run| - 1]);
    }
  }

  // ---- The theorems ---------------------------------------------------------------------------------

  ghost predicate Settled(s: System) {
    s.lock.None? && !SomeoneCompensates(s)
  }

  ghost predicate DistinctNames(wants: seq<string>, start: Row) {
    && (forall i :: 0 <= i < |wants| ==> wants[i] != start.name)
    && (forall i, j :: 0 <= i < j < |wants| ==> wants[i] != wants[j])
  }

  /** The last write put the committed name there: nobody ever wrote, the last rename was committed,
      or the last compensation restored a row that is still the committed one. */
  predicate LastWriteCurrent(s: System) {
    match s.last
    case Nothing => true
    case Wanted(i) => i in s.commits
    case Restored(row) => row.version == s.row.version
  }

  /** Over every run - whichever requests went stale, were refused, failed, were compensated or could
      not be - whenever no request holds the row or owes a compensation: Keystone has the committed
      name if the last write put it there.  If no name is used twice, it has it only then: a
      compensation breaks the match exactly when the row has moved on since its request flushed. */
  lemma KeystoneMatchesIff(wants: seq<string>, run: seq<System>)
    requires IsRun(wants, run) && Settled(run[|run| - 1])
    ensures var end := run[|run| - 1];
            && (LastWriteCurrent(end) ==> end.keystone == end.row.name)
            && (DistinctNames(wants, run[0].row) && end.keystone == end.row.name ==> LastWriteCurrent(end))
            && (!end.last.Restored? && end.keystone == end.row.name ==> LastWriteCurrent(end))
  {
    RunKeepsInv(wants, run);
    var end, start := run[|run| - 1], run[0].row;
    if end.last.Restored? {
      VersionsDiffer(wants, start, end.commits, end.last.row, end.row);
    } else if end.last.Wanted? && end.last.request in end.commits {
      var k :| 0 <= k < |end.commits| && end.commits[k] == end.last.request;
    }
  }

  lemma VersionsDiffer(wants: seq<string>, start: Row, commits: seq<nat>, a: Row, b: Row)
    requires forall k :: 0 <= k < |commits| ==> commits[k] < |wants|
    requires forall k, l :: 0 <= k < l < |commits| ==> commits[k] != commits[l]
    requires WasCommitted(wants, start, commits, a) && WasCommitted(wants, start, commits, b)
    ensures a.version == b.version ==> a == b
    ensures DistinctNames(wants, start) && a.version != b.version ==> a.name != b.name
  {}

  /** What the database ends with: the last committer's name, one version per commit. */
  lemma RowIsLastCommit(wants: seq<string>, run: seq<System>)
    requires IsRun(wants, run)
    ensures var end := run[|run| - 1];
            && (forall k :: 0 <= k < |end.commits| ==> end.commits[k] < |wants|)
            && end.row == (if end.commits == [] then run[0].row
                           else Row(wants[end.commits[|end.commits| - 1]], run[0].row.version + |end.commits|))
  {
    RunKeepsInv(wants, run);
  }

  /** In particular when nothing fails once Keystone has been renamed.  Then Keystone is also written
      exactly once per commit, in commit order: no stale, refused or failed attempt reaches it. */
  lemma RenamesAreCommits(wants: seq<string>, run: seq<System>)
    requires IsRun(wants, run)
    requires forall k :: 0 <= k < |run| ==> !SomeoneCompensates(run[k])
    requires run[|run| - 1].lock.None?
    ensures var end := run[|run| - 1];
            end.keystone == end.row.name && end.renames == end.commits
  {
    var end := run[|run| - 1];
    RenamesTracked(wants, run);
    RunKeepsInv(wants, run);
    forall i | 0 <= i < |wants| ensures !end.stages[i].Renamed? {
      assert end.stages[i].HoldsRow() <==> end.lock == Some(i);
    }
    KeystoneMatchesIff(wants, run);
  }

  /** The renames are the commits, but for one that is still to be committed. */
  ghost predicate Tracked(wants: seq<string>, s: System) {
    && |s.stages| == |wants|
    && (forall i :: 0 <= i < |wants| && s.stages[i].Renamed? ==> s.renames == s.commits + [i])
    && ((forall i :: 0 <= i < |wants| ==> !s.stages[i].Renamed?) ==> s.renames == s.commits)
    && s.last == (if s.renames == [] then Nothing else Wanted(s.renames[|s.renames| - 1]))
  }

  lemma {:induction false} RenamesTracked(wants: seq<string>, run: seq<System>)
    requires IsRun(wants, run) && NobodyCompensates(run)
    ensures Tracked(wants, run[|run| - 1])
    decreases |run|
  {
    if |run| == 1 {
    } else {
      var s, t, front := run[|run| - 2], run[|run| - 1], run[..|run| - 1];
      FrontIsRun(wants, run);
      NobodyBefore(run);
      RenamesTracked(wants, front);
      RunKeepsInv(wants, front);
      StepKeepsTracked(wants, s, t);
    }
  }

  ghost predicate NobodyCompensates(run: seq<System>) {
    forall k :: 0 <= k < |run| ==> !SomeoneCompensates(run[k])
  }

  lemma NobodyBefore(run: seq<System>)
    requires |run| > 1 && NobodyCompensates(run)
    ensures NobodyCompensates(run[..|run| - 1]) && !SomeoneCompensates(run[|run| - 2]) && !SomeoneCompensates(run[|run| - 1])
  {}

  lemma StepKeepsTracked(wants: seq<string>, s: System, t: System)
    requires |s.stages| == |wants| && LockDiscipline(wants, s) && Next(wants, s, t) && Tracked(wants, s)
    requires !SomeoneCompensates(s) && !SomeoneCompensates(t)
    ensures Tracked(wants, t)
  {
    var i :| 0 <= i < |wants| && StepOf(wants, s, i, t);
    StepIsLocal(wants, s, i, t);
    assert !s.stages[i].Compensating? && !t.stages[i].Compensating?;
    StepOfKeepsTracked(wants, s, i, t);
  }

  lemma StepOfKeepsTracked(wants: seq<string>, s: System, i: nat, t: System)
    requires i < |wants| == |s.stages| && LockDiscipline(wants, s) && StepOf(wants, s, i, t) && Tracked(wants, s)
    requires |t.stages| == |wants| && !s.stages[i].Compensating? && !t.stages[i].Compensating?
    ensures Tracked(wants, t)
  {
    StepIsLocal(wants, s, i, t);
    OnlyHolder(wants, s, i);
    if s.stages[i].HoldsRow() {
      HolderKeepsTracked(wants, s, i, t);
    } else {
      assert t.renames == s.renames && t.commits == s.commits && t.last == s.last;
      assert forall j :: 0 <= j < |wants| ==> t.stages[j].Renamed? == s.stages[j].Renamed?;
    }
  }

  lemma HolderKeepsTracked(wants: seq<string>, s: System, i: nat, t: System)
    requires i < |wants| == |s.stages| == |t.stages| && Tracked(wants, s) && s.stages[i].HoldsRow() && !t.stages[i].Compensating?
    requires CallsKeystone(wants[i], s, i, t) || Commits(wants[i], s, i, t)
    requires forall j :: 0 <= j < |wants| && j != i ==> !s.stages[j].HoldsRow()
    ensures Tracked(wants, t)
  {}

  const ROW: Row := Row("a", 0)
  const RIVALS: seq<string> := ["b", "c"]

  function Beside(a: Stage, b: Stage, lock: Option<nat>, keystone: string, renames: seq<nat>): System {
    System(ROW, lock, keystone, [a, b], renames, [], if renames == [] then Nothing else Wanted(renames[|renames| - 1]))
  }

  /** The first request's commit breaks; the second one flushes, renames and commits before the
      first is compensated. */
  function Overtaking(): seq<System> {
    var loaded := Loaded(1, ROW);
    var late := Beside(Compensating(ROW), Flushed(ROW), Some(1), "b", [0]);
    var over := late.(row := Row("c", 1), lock := None, keystone := "c", renames := [0, 1], commits := [1], last := Wanted(1));
    [Beside(Start(1), Start(1), None, "a", []),
     Beside(loaded, Start(1), None, "a", []),
     Beside(loaded, loaded, None, "a", []),
     Beside(Flushed(ROW), loaded, Some(0), "a", []),
     Beside(Renamed(ROW), loaded, Some(0), "b", [0]),
     Beside(Compensating(ROW), loaded, None, "b", [0]),
     late,
     late.(stages := [Compensating(ROW), Renamed(ROW)], keystone := "c", renames := [0, 1], last := Wanted(1)),
     over.(stages := [Compensating(ROW), Finished]),
     over.(stages := [Failed, Finished], keystone := "a", last := Restored(ROW))]
  }

  lemma OvertakingSteps(k: nat)
    requires k < 9
    ensures Next(RIVALS, Overtaking()[k], Overtaking()[k + 1])
  {
    var s, t := Overtaking()[k], Overtaking()[k + 1];
    match k
    case 0 => assert Reads(s, 0, t) && StepOf(RIVALS, s, 0, t);
    case 1 => assert Reads(s, 1, t) && StepOf(RIVALS, s, 1, t);
    case 2 => assert Flushes("b", s, 0, t) && StepOf(RIVALS, s, 0, t);
    case 3 => assert CallsKeystone("b", s, 0, t) && StepOf(RIVALS, s, 0, t);
    case 4 => assert Commits("b", s, 0, t) && StepOf(RIVALS, s, 0, t);
    case 5 => assert Flushes("c", s, 1, t) && StepOf(RIVALS, s, 1, t);
    case 6 => assert CallsKeystone("c", s, 1, t) && StepOf(RIVALS, s, 1, t);
    case 7 => assert Commits("c", s, 1, t) && StepOf(RIVALS, s, 1, t);
    case _ => assert Compensates(s, 0, t) && StepOf(RIVALS, s, 0, t);
  }

  /** The window is real: the last write restores a row that is no longer committed, and Keystone ends
      with a name no row has. */
  lemma CompensationOvertaken()
    ensures IsRun(RIVALS, Overtaking()) && |Overtaking()| == 10
    ensures var end := Overtaking()[9];
            && Settled(end) && end.stages == [Failed, Finished] && DistinctNames(RIVALS, ROW)
            && !LastWriteCurrent(end) && end.row.name == "c" && end.keystone == "a"
  {
    forall k | 0 <= k < 9 ensures Next(RIVALS, Overtaking()[k], Overtaking()[k + 1]) {
      OvertakingSteps(k);
    }
  }

  // ---- Attempts -------------------------------------------------------------------------------------

  /** A request in its attempt `tries` has seen at least `tries - 1` commits of others. */
  ghost predicate AttemptsPaid(start: Row, s: System) {
    forall i :: 0 <= i < |s.stages| ==>
      && (s.stages[i].Start? ==> 1 <= s.stages[i].tries <= 3 && s.row.version >= start.version + s.stages[i].tries - 1)
      && (s.stages[i].Loaded? ==> 1 <= s.stages[i].tries <= 3 && s.stages[i].row.version >= start.version + s.stages[i].tries - 1)
  }

  lemma StepPays(wants: seq<string>, start: Row, s: System, i: nat, t: System)
    requires Inv(wants, start, s) && i < |wants| && StepOf(wants, s, i, t) && AttemptsPaid(start, s)
    ensures |t.stages| == |s.stages| && AttemptsPaid(start, t)
  {
    StepIsLocal(wants, s, i, t);
    assert t.row.version >= s.row.version;
    if s.stages[i].HasRow() { assert WasCommitted(wants, start, s.commits, s.stages[i].row); }
    forall j | 0 <= j < |t.stages| && j != i ensures t.stages[j] == s.stages[j] {}
  }

  lemma {:induction false} RunPays(wants: seq<string>, run: seq<System>)
    requires IsRun(wants, run)
    ensures |run[|run| - 1].stages| == |wants| && AttemptsPaid(run[0].row, run[|run| - 1])
    decreases |run|
  {
    if |run| == 1 {
    } else {
      var front := run[..|run| - 1];
      FrontIsRun(wants, run);
      RunPays(wants, front);
      RunKeepsInv(wants, front);
      var i :| 0 <= i < |wants| && StepOf(wants, run[|run| - 2], i, run[|run| - 1]);
      StepPays(wants, run[0].row, run[|run| - 2], i, run[|run| - 1]);
    }
  }

  /** What a flush comes to at the end of any run: it locks the row at the version that was read, or the
      request starts over, for the second or third time - unless this was the third attempt, in
      which case three other requests have committed in the meantime. */
  lemma OutOfAttemptsIff(wants: seq<string>, run: seq<System>, i: nat, t: System)
    requires IsRun(wants, run) && i < |wants| == |run[|run| - 1].stages| && Flushes(wants[i], run[|run| - 1], i, t)
    ensures var s := run[|run| - 1];
            var stale := s.stages[i].row.version < s.row.version;
            && (t.stages[i].Failed? <==> stale && s.stages[i].tries == 3)
            && (t.stages[i].Failed? ==> |s.commits| >= 3 && |wants| >= 4)
            && (stale && s.stages[i].tries < 3 ==> t.stages[i] == Start(s.stages[i].tries + 1))
            && (!stale ==> t.lock == Some(i) && s.lock == None && t.stages[i].Flushed?)
  {
    var s := run[|run| - 1];
    RunKeepsInv(wants, run);
    RunPays(wants, run);
    assert WasCommitted(wants, run[0].row, s.commits, s.stages[i].row);
    if t.stages[i].Failed? {
      assert i !in s.commits;
      OthersOnly(s.commits, |wants|, i);
    }
  }
}
