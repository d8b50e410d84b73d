/** The ambient database session of `common/infrastructure/database.py`.

    `session_factory` joins the session in the context variable or opens, commits and closes one of
    its own.  `@transactional` adds a `finally` that clears the variable on every exit - also when
    the call had only joined somebody else's session. */
module AmbientSession {
  import opened Options

  /** A call tree: a repository call with its write, or a `@transactional` function.  `raises` makes
      the call fail after its body has run (for the owner of a session, this includes a failing
      commit); a repository call that raises writes nothing. */
  datatype Call =
    | Repository(write: nat, raises: bool)
    | Transactional(body: seq<Call>, raises: bool)

  /** What a list of calls does, told without any ambient variable: `own` goes into the session they
      were made in, `committed` has been committed by other sessions by the time they are over. */
  datatype Effect = Effect(own: seq<nat>, committed: seq<nat>, sessions: nat, raised: bool)

  /** Calls made while a session is ambient.  Repository calls use it, and so does the first nested
      `@transactional` call; everything after that is on its own. */
  function InSession(calls: seq<Call>): Effect
    decreases calls
  {
    if calls == [] then Effect([], [], 0, false)
    else
      var first := Joining(calls[0]);
      if first.raised then first
      else Then(first, if calls[0].Repository? then InSession(calls[1..]) else OnItsOwn(calls[1..]))
  }

  function Then(first: Effect, rest: Effect): Effect {
    Effect(first.own + rest.own, first.committed + rest.committed, first.sessions + rest.sessions, rest.raised)
  }

  function Joining(call: Call): Effect
    decreases call
  {
    match call
    case Repository(write, raises) => Effect(if raises then [] else [write], [], 0, raises)
    case Transactional(body, raises) =>
      var inside := InSession(body);
      inside.(raised := inside.raised || raises)
  }

  /** Calls made while no session is ambient: each one opens, and on success commits, its own. */
  function OnItsOwn(calls: seq<Call>): (e: Effect)
    ensures e.own == []
    decreases calls
  {
    if calls == [] then Effect([], [], 0, false)
    else
      var first := Alone(calls[0]);
      if first.raised then first
      else
        Then(first, OnItsOwn(calls[1..]))
  }

  function Alone(call: Call): Effect
    decreases call
  {
    match call
    case Repository(write, raises) => Effect([], if raises then [] else [write], 1, raises)
    case Transactional(body, raises) =>
      var inside := InSession(body);
      var raised := inside.raised || raises;
      Effect([], inside.committed + (if raised then [] else inside.own), 1 + inside.sessions, raised)
  }

  class Database {
    var committed: seq<nat>
    var ambient: Option<nat>
    var pending: map<nat, seq<nat>>   // the writes of every open session
    var sessions: nat

    constructor ()
      ensures Valid() && committed == [] && ambient == None && pending == map[] && sessions == 0
    {
      committed, ambient, pending, sessions := [], None, map[], 0;
    }

    ghost predicate Valid()
      reads this
    {
      && (forall s :: s in pending ==> s < sessions)
      && (ambient.Some? ==> ambient.value in pending)
    }

    /** `session_factory`, up to its `yield`. */
    method Enter() returns (session: nat, owner: bool)
      requires Valid()
      modifies this
      ensures Valid() && committed == old(committed) && ambient == Some(session)
      ensures owner == old(ambient).None?
      ensures !owner ==> old(ambient) == Some(session) && pending == old(pending) && sessions == old(sessions)
      ensures owner ==> session !in old(pending) && pending == old(pending)[session := []] && sessions == old(sessions) + 1
    {
      if ambient.Some? {
        return ambient.value, false;
      }
      session, owner := sessions, true;
      sessions, pending, ambient := sessions + 1, pending[session := []], Some(session);
    }

    /** `session_factory`, after its `yield`: only the owner commits or rolls back, and closes. */
    method Leave(session: nat, owner: bool, raised: bool)
      requires Valid() && session in pending
      modifies this
      ensures Valid() && sessions == old(sessions)
      ensures !owner ==> committed == old(committed) && pending == old(pending) && ambient == old(ambient)
      ensures owner ==>
                && committed == old(committed) + (if raised then [] else old(pending)[session])
                && pending == old(pending) - {session} && ambient == None
    {
      if owner {
        if !raised {
          committed := committed + pending[session];
        }
        pending, ambient := pending - {session}, None;
      }
    }

    /** Runs a call.  With no session ambient it does what `Alone` says; with one, what `Joining`
        says, and a `@transactional` call leaves no session ambient behind. */
    method Invoke(call: Call) returns (raised: bool)
      requires Valid()
      modifies this
      decreases call
      ensures Valid()
      ensures old(ambient).None? ==> Ran(Alone(call), raised, old(committed), old(sessions))
      ensures old(ambient).None? ==> pending == old(pending) && ambient == None
      ensures old(ambient).Some? ==> Ran(Joining(call), raised, old(committed), old(sessions))
      ensures old(ambient).Some? ==> pending == Written(old(pending), old(ambient).value, Joining(call).own)
      ensures old(ambient).Some? ==> ambient == if call.Repository? then old(ambient) else None
    {
      match call
      case Repository(write, raises) =>
        Query(write, raises);
        raised := raises;
      case Transactional(body, raises) =>
        raised := Transact(body, raises);
    }

    /** A repository call. */
    method Query(write: nat, raises: bool)
      requires Valid()
      modifies this
      ensures Valid() && ambient == old(ambient)
      ensures old(ambient).None? ==>
                && Ran(Alone(Repository(write, raises)), raises, old(committed), old(sessions))
                && pending == old(pending)
      ensures old(ambient).Some? ==>
                && Ran(Joining(Repository(write, raises)), raises, old(committed), old(sessions))
                && pending == Written(old(pending), old(ambient).value, if raises then [] else [write])
    {
      var session, owner := Enter();
      assert pending[session] + [] == pending[session];
      if !raises {
        pending := pending[session := pending[session] + [write]];
      }
      Leave(session, owner, raises);
    }

    /** A call of a `@transactional` function. */
    method Transact(body: seq<Call>, raises: bool) returns (raised: bool)
      requires Valid()
      modifies this
      decreases body, 2
      ensures Valid() && ambient == None
      ensures old(ambient).None? ==>
                && Ran(Alone(Transactional(body, raises)), raised, old(committed), old(sessions))
                && pending == old(pending)
      ensures old(ambient).Some? ==>
                && Ran(Joining(Transactional(body, raises)), raised, old(committed), old(sessions))
                && pending == Written(old(pending), old(ambient).value, InSession(body).own)
    {
      var session, owner := Enter();
      if owner {
        OpenedAndClosed(old(pending), session, InSession(body).own);
      }
      raised := RunAndReset(session, body, raises);
      ghost var inside := InSession(body);
      Associates(old(committed), inside.committed, if raised then [] else inside.own);
      Leave(session, owner, raised);
    }

    /** The wrapper of `@transactional` inside its session: whatever happens, and whoever owns the
        session, the ambient variable is cleared. */
    method RunAndReset(session: nat, body: seq<Call>, raises: bool) returns (raised: bool)
      requires Valid() && ambient == Some(session)
      modifies this
      decreases body, 1
      ensures Valid() && ambient == None
      ensures raised == (InSession(body).raised || raises)
      ensures committed == old(committed) + InSession(body).committed
      ensures sessions == old(sessions) + InSession(body).sessions
      ensures pending == Written(old(pending), session, InSession(body).own)
    {
      raised := InvokeBody(session, body);
      raised := raised || raises;
      ambient := None;
    }

    method InvokeBody(session: nat, calls: seq<Call>) returns (raised: bool)
      requires Valid() && ambient == Some(session)
      modifies this
      decreases calls, 0
      ensures Valid()
      ensures Ran(InSession(calls), raised, old(committed), old(sessions))
      ensures pending == Written(old(pending), session, InSession(calls).own)
    {
      ghost var before := pending[session];
      if calls == [] {
        assert before + [] == before;
        return false;
      }
      raised := Invoke(calls[0]);
      ghost var first := Joining(calls[0]).own;
      assert first + [] == first;
      if !raised {
        ghost var rest := InSession(calls[1..]).own;
        assert (before + first) + rest == before + (first + rest);
        if ambient.Some? {
          raised := InvokeBody(session, calls[1..]);
        } else {
          raised := InvokeAlone(calls[1..]);
        }
      }
    }

    method InvokeAlone(calls: seq<Call>) returns (raised: bool)
      requires Valid() && ambient == None
      modifies this
      decreases calls
      ensures Valid() && ambient == None && pending == old(pending)
      ensures Ran(OnItsOwn(calls), raised, old(committed), old(sessions))
    {
      if calls == [] {
        return false;
      }
      raised := Invoke(calls[0]);
      if !raised {
        raised := InvokeAlone(calls[1..]);
      }
    }

    ghost predicate Ran(e: Effect, raised: bool, committedBefore: seq<nat>, sessionsBefore: nat)
      reads this
    {
      raised == e.raised && committed == committedBefore + e.committed && sessions == sessionsBefore + e.sessions
    }
  }

  function Written(pending: map<nat, seq<nat>>, session: nat, more: seq<nat>): map<nat, seq<nat>> {
    if session in pending then pending[session := pending[session] + more] else pending
  }

  lemma Associates(a: seq<nat>, b: seq<nat>, c: seq<nat>)
    ensures (a + b) + c == a + (b + c)
  {}

  lemma OpenedAndClosed(pending: map<nat, seq<nat>>, session: nat, writes: seq<nat>)
    requires session !in pending
    ensures Written(pending[session := []], session, writes) == pending[session := writes]
    ensures pending[session := writes] - {session} == pending
  {
    assert [] + writes == writes;
  }

  // ---- What follows -------------------------------------------------------------------------------

  predicate OnlyRepositories(calls: seq<Call>) {
    forall c :: c in calls ==> c.Repository?
  }

  function Writes(calls: seq<Call>): seq<nat>
    requires OnlyRepositories(calls)
  {
    if calls == [] then []
    else
      assert calls[0] in calls;
      [calls[0].write] + Writes(calls[1..])
  }

  lemma {:induction false} RepositoriesStayInside(calls: seq<Call>)
    requires OnlyRepositories(calls)
    ensures var e := InSession(calls);
            e.committed == [] && e.sessions == 0 && (!e.raised ==> e.own == Writes(calls))
  {
    if calls == [] {
    } else {
      assert calls[0] in calls;
      RepositoriesStayInside(calls[1..]);
    }
  }

  lemma {:induction false} RepositoriesShare(calls: seq<Call>, more: seq<Call>)
    requires OnlyRepositories(calls) && !InSession(calls).raised
    ensures InSession(calls + more) == InSession(more).(own := Writes(calls) + InSession(more).own)
    decreases |calls|
  {
    if calls == [] {
      assert calls + more == more;
    } else {
      assert calls[0] in calls;
      assert (calls + more)[1..] == calls[1..] + more;
      RepositoriesShare(calls[1..], more);
    }
  }

  /** A `@transactional` body of repository calls only: one session, all or nothing. */
  lemma AllOrNothing(body: seq<Call>, raises: bool)
    requires OnlyRepositories(body)
    ensures var e := Alone(Transactional(body, raises));
            e.sessions == 1 && e.committed == if e.raised then [] else Writes(body)
  {
    RepositoriesStayInside(body);
  }

  /** A nested `@transactional` call ends its parent's protection.  What is called before it and the
      nested call itself share the parent's session; whatever the nested body calls later and every
      later sibling commit on their own, before the parent, and stay committed if the parent fails. */
  lemma SiblingsCommitFirst(before: seq<Call>, nested: Call, later: seq<Call>, raises: bool)
    requires OnlyRepositories(before) && !InSession(before).raised
    requires nested.Transactional? && !Joining(nested).raised
    ensures var parent := Alone(Transactional(before + [nested] + later, raises));
            && parent.raised == (OnItsOwn(later).raised || raises)
            && parent.committed ==
               InSession(nested.body).committed + OnItsOwn(later).committed
               + (if parent.raised then [] else Writes(before) + InSession(nested.body).own)
            && parent.sessions == 1 + InSession(nested.body).sessions + OnItsOwn(later).sessions
  {
    RepositoriesShare(before, [nested] + later);
    assert before + [nested] + later == before + ([nested] + later);
    assert ([nested] + later)[1..] == later;
    var inner, rest := InSession(nested.body), OnItsOwn(later);
    assert inner.own + [] == inner.own;
    assert [] + (inner.committed + rest.committed) == inner.committed + rest.committed;
  }

  predicate Succeeds(calls: seq<Call>)
    decreases calls
  {
    forall c :: c in calls ==> !c.raises && (c.Transactional? ==> Succeeds(c.body))
  }

  lemma SucceedsParts(calls: seq<Call>)
    requires calls != []
    ensures Succeeds(calls) <==>
              && !calls[0].raises && (calls[0].Transactional? ==> Succeeds(calls[0].body))
              && Succeeds(calls[1..])
  {
    assert calls[0] in calls;
    forall c | c in calls[1..] ensures c in calls {}
    forall c | c in calls ensures c == calls[0] || c in calls[1..] {}
  }

  /** An exception anywhere reaches the top, and nothing else does. */
  lemma {:induction false} RaisedIff(calls: seq<Call>)
    ensures InSession(calls).raised <==> !Succeeds(calls)
    ensures OnItsOwn(calls).raised <==> !Succeeds(calls)
    decreases calls
  {
    if calls == [] {
    } else {
      SucceedsParts(calls);
      RaisedIff(calls[1..]);
      if calls[0].Transactional? {
        RaisedIff(calls[0].body);
      }
    }
  }

  /** While nothing raises, calls on their own follow each other. */
  lemma {:induction false} InTurn(before: seq<Call>, after: seq<Call>)
    requires Succeeds(before)
    ensures var e, first, rest := OnItsOwn(before + after), OnItsOwn(before), OnItsOwn(after);
            && e.committed == first.committed + rest.committed && e.sessions == first.sessions + rest.sessions
            && e.raised == rest.raised
    decreases |before|
  {
    if before == [] {
      assert before + after == after;
      assert [] + OnItsOwn(after).committed == OnItsOwn(after).committed;
    } else {
      SucceedsParts(before);
      RaisedIff(before);
      assert (before + after)[1..] == before[1..] + after;
      InTurn(before[1..], after);
      RaisedIff([before[0]]);
      Associates(Alone(before[0]).committed, OnItsOwn(before[1..]).committed, OnItsOwn(after).committed);
    }
  }

  /** What comes after the first call that raises is not called: it does not matter. */
  lemma {:induction false} NothingAfterRaise(before: seq<Call>, bad: Call, later: seq<Call>)
    requires Succeeds(before) && !Succeeds([bad])
    ensures OnItsOwn(before + [bad] + later) == OnItsOwn(before + [bad])
    ensures InSession(before + [bad] + later) == InSession(before + [bad])
    decreases |before|
  {
    var all, short := before + [bad] + later, before + [bad];
    if before == [] {
      SucceedsParts([bad]);
      assert all[0] == bad && short == [bad];
      if bad.Transactional? { RaisedIff(bad.body); }
    } else {
      SucceedsParts(before);
      assert all[0] == short[0] == before[0];
      assert all[1..] == before[1..] + [bad] + later && short[1..] == before[1..] + [bad];
      NothingAfterRaise(before[1..], bad, later);
    }
  }

  /** So a parent raises, and commits no write of its own: all that is committed is what earlier calls
      have committed on their own, and what the raising one did before it raised. */
  lemma RaisingChildEndsParent(before: seq<Call>, bad: Call, later: seq<Call>, raises: bool)
    requires Succeeds(before) && !Succeeds([bad])
    ensures var parent := Alone(Transactional(before + [bad] + later, raises));
            && parent.raised && parent == Alone(Transactional(before + [bad], raises))
            && parent.committed == InSession(before + [bad]).committed
  {
    NothingAfterRaise(before, bad, later);
    var all := before + [bad];
    assert !Succeeds(all) by {
      SucceedsParts([bad]);
      assert bad in all;
    }
    RaisedIff(all);
    assert InSession(all).committed + [] == InSession(all).committed;
  }

  /** In particular on its own: three siblings of which the second raises. */
  lemma ThirdSiblingNotCalled(a: nat, b: nat, c: nat)
    ensures var siblings := [Transactional([Repository(a, false)], false), Transactional([Repository(b, false)], true),
                             Transactional([Repository(c, false)], false)];
            OnItsOwn(siblings) == Effect([], [a], 2, true)
  {
    var first, second := Transactional([Repository(a, false)], false), Transactional([Repository(b, false)], true);
    var third := Transactional([Repository(c, false)], false);
    assert [first, second, third] == [first] + [second] + [third];
    assert !Succeeds([second]) by { assert second in [second]; }
    NothingAfterRaise([first], second, [third]);
    InTurn([first], [second]);
    AllOrNothing([Repository(a, false)], false);
    AllOrNothing([Repository(b, false)], true);
    assert [Repository(a, false)][1..] == [] && [first][1..] == [] && [second][1..] == [];
    assert OnItsOwn([second]) == Effect([], [], 1, true);
  }

  /** The writes of all repository calls of a forest. */
  function AllWrites(calls: seq<Call>): multiset<nat>
    decreases calls
  {
    if calls == [] then multiset{}
    else
      (match calls[0]
       case Repository(write, _) => multiset{write}
       case Transactional(body, _) => AllWrites(body))
      + AllWrites(calls[1..])
  }

  /** If nothing raises, every write is committed exactly once, by whichever session it went into. */
  lemma {:induction false} NoWriteLost(calls: seq<Call>)
    requires Succeeds(calls)
    ensures multiset(OnItsOwn(calls).committed) == AllWrites(calls)
    ensures multiset(InSession(calls).own) + multiset(InSession(calls).committed) == AllWrites(calls)
    decreases calls
  {
    if calls == [] {
    } else {
      SucceedsParts(calls);
      RaisedIff(calls);
      NoWriteLost(calls[1..]);
      if calls[0].Transactional? {
        RaisedIff(calls[0].body);
        NoWriteLost(calls[0].body);
      }
    }
  }

  /** The `@transactional` calls of a forest that nest no other `@transactional` call. */
  function Leaves(calls: seq<Call>): nat
    decreases calls
  {
    if calls == [] then 0
    else
      (match calls[0]
       case Repository(_, _) => 0
       case Transactional(body, _) => if Leaves(body) == 0 then 1 else Leaves(body))
      + Leaves(calls[1..])
  }

  /** The repository calls made while no session is ambient: those after a nested call has returned. */
  function Strays(calls: seq<Call>, adrift: bool): nat
    decreases calls
  {
    if calls == [] then 0
    else
      match calls[0]
      case Repository(_, _) => (if adrift then 1 else 0) + Strays(calls[1..], adrift)
      case Transactional(body, _) => Strays(body, false) + Strays(calls[1..], true)
  }

  /** The number of sessions opened is the number of leaf calls, plus one for every repository call
      that comes after a nested call has returned.  A parent never opens a session its first
      nested call would not have opened anyway. */
  lemma {:induction false} SessionsAreLeaves(calls: seq<Call>)
    requires Succeeds(calls)
    ensures !InSession(calls).raised && !OnItsOwn(calls).raised
    ensures OnItsOwn(calls).sessions == Leaves(calls) + Strays(calls, true)
    ensures InSession(calls).sessions == (if Leaves(calls) == 0 then 0 else Leaves(calls) - 1) + Strays(calls, false)
    decreases calls
  {
    if calls == [] {
    } else {
      assert calls[0] in calls;
      forall c | c in calls[1..] ensures c in calls {}
      SessionsAreLeaves(calls[1..]);
      if calls[0].Transactional? {
        SessionsAreLeaves(calls[0].body);
      }
    }
  }
}
