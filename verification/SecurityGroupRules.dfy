/** Security-group rules and their reconciliation: the records of `common/domain/security_group/dto.py`
    and the diff at the heart of `_update_security_group_rules`. */
module SecurityGroupRules {
  import opened Options

  datatype Direction = Ingress | Egress
  datatype EtherType = IPv4 | IPv6

  /** What a rule says: the six fields shared by the create, update and Neutron records, and the
      ones the diff compares. */
  datatype Content = Content(
    protocol: Option<string>, etherType: EtherType, direction: Direction,
    portMin: Option<int>, portMax: Option<int>, remoteIpPrefix: Option<string>)

  /** A rule as Neutron lists it. */
  datatype Rule = Rule(id: nat, groupId: nat, content: Content)

  function ContentList(rules: seq<Rule>): seq<Content> {
    seq(|rules|, i requires 0 <= i < |rules| => rules[i].content)
  }

  function Contents(rules: seq<Rule>): multiset<Content> {
    multiset(ContentList(rules))
  }

  ghost predicate DistinctIds(rules: seq<Rule>) {
    forall i, j :: 0 <= i < j < |rules| ==> rules[i].id != rules[j].id
  }

  lemma ContentsConcat(a: seq<Rule>, b: seq<Rule>)
    ensures ContentList(a + b) == ContentList(a) + ContentList(b)
    ensures Contents(a + b) == Contents(a) + Contents(b)
  {
    assert ContentList(a + b) == ContentList(a) + ContentList(b);
  }

  lemma ContentsOfLast(rules: seq<Rule>)
    requires rules != []
    ensures Contents(rules) == Contents(rules[..|rules| - 1]) + multiset{rules[|rules| - 1].content}
  {
    var last := |rules| - 1;
    assert rules == rules[..last] + [rules[last]];
    ContentsConcat(rules[..last], [rules[last]]);
    assert ContentList([rules[last]]) == [rules[last].content];
  }

  lemma ContentListed(rules: seq<Rule>, c: Content)
    ensures c in ContentList(rules) <==> exists r :: r in rules && r.content == c
    ensures c in ContentList(rules) <==> c in Contents(rules)
  {
    if r :| r in rules && r.content == c {
      var i :| 0 <= i < |rules| && rules[i] == r;
      assert ContentList(rules)[i] == c;
    }
  }

  // ---- The diff -------------------------------------------------------------------------------

  /** Existing rules nobody asked for, in listed order. */
  function Surplus(existing: seq<Rule>, wanted: seq<Content>): (r: seq<Rule>)
    ensures forall x :: x in r <==> x in existing && x.content !in wanted
  {
    if existing == [] then []
    else
      var last := |existing| - 1;
      assert existing == existing[..last] + [existing[last]];
      var front := Surplus(existing[..last], wanted);
      if existing[last].content in wanted then front else front + [existing[last]]
  }

  /** Existing rules that stay, in listed order. */
  function Kept(existing: seq<Rule>, wanted: seq<Content>): (r: seq<Rule>)
    ensures forall x :: x in r <==> x in existing && x.content in wanted
  {
    if existing == [] then []
    else
      var last := |existing| - 1;
      assert existing == existing[..last] + [existing[last]];
      var front := Kept(existing[..last], wanted);
      if existing[last].content in wanted then front + [existing[last]] else front
  }

  /** Requested contents that no existing rule has, in requested order, repetitions included. */
  function Missing(existing: seq<Rule>, wanted: seq<Content>): (r: seq<Content>)
    ensures forall c :: c in r <==> c in wanted && c !in ContentList(existing)
  {
    if wanted == [] then []
    else
      var last := |wanted| - 1;
      assert wanted == wanted[..last] + [wanted[last]];
      var front := Missing(existing, wanted[..last]);
      if wanted[last] in ContentList(existing) then front else front + [wanted[last]]
  }

  /** The rules left once those with an id in `ids` are gone. */
  function Without(rules: seq<Rule>, ids: set<nat>): (r: seq<Rule>)
    ensures forall x :: x in r <==> x in rules && x.id !in ids
  {
    if rules == [] then []
    else
      var last := |rules| - 1;
      assert rules == rules[..last] + [rules[last]];
      var front := Without(rules[..last], ids);
      if rules[last].id in ids then front else front + [rules[last]]
  }

  function Ids(rules: seq<Rule>): set<nat> {
    set r | r in rules :: r.id
  }

  lemma {:induction false} WithoutKeepsIdsDistinct(rules: seq<Rule>, ids: set<nat>)
    requires DistinctIds(rules)
    ensures DistinctIds(Without(rules, ids))
  {
    if rules == [] {
    } else {
      var last := |rules| - 1;
      WithoutKeepsIdsDistinct(rules[..last], ids);
      var front := Without(rules[..last], ids);
      forall i | 0 <= i < |front| ensures front[i].id != rules[last].id {
        assert front[i] in front;
        var k :| 0 <= k < last && rules[..last][k] == front[i];
        assert rules[k].id != rules[last].id;
      }
    }
  }

  lemma {:induction false} WithoutNothing(rules: seq<Rule>, ids: set<nat>)
    requires forall r :: r in rules ==> r.id !in ids
    ensures Without(rules, ids) == rules
  {
    if rules == [] {
    } else {
      var last := |rules| - 1;
      assert rules[last] in rules;
      forall r | r in rules[..last] ensures r.id !in ids { assert r in rules; }
      WithoutNothing(rules[..last], ids);
    }
  }

  lemma {:induction false} WithoutTwice(rules: seq<Rule>, a: set<nat>, b: set<nat>)
    ensures Without(Without(rules, a), b) == Without(rules, a + b)
  {
    if rules == [] {
    } else {
      var last := |rules| - 1;
      WithoutTwice(rules[..last], a, b);
    }
  }

  lemma OneMoreContent(rules: seq<Rule>, r: Rule)
    ensures Contents(rules + [r]) == Contents(rules) + multiset{r.content}
  {
    ContentsConcat(rules, [r]);
    assert ContentList([r]) == [r.content];
  }

  /** Deleting one rule takes exactly its content out of the multiset. */
  lemma {:induction false} WithoutOne(rules: seq<Rule>, r: Rule)
    requires DistinctIds(rules) && r in rules
    ensures Contents(Without(rules, {r.id})) + multiset{r.content} == Contents(rules)
  {
    var last := |rules| - 1;
    ContentsOfLast(rules);
    if rules[last] == r {
      forall x | x in rules[..last] ensures x.id !in {r.id} {
        var k :| 0 <= k < last && rules[..last][k] == x;
        assert rules[k].id != rules[last].id;
      }
      WithoutNothing(rules[..last], {r.id});
    } else {
      assert r in rules[..last];
      WithoutOne(rules[..last], r);
      var k :| 0 <= k < last && rules[k] == r;
      assert rules[last].id != r.id;
      OneMoreContent(Without(rules[..last], {r.id}), rules[last]);
    }
  }

  /** Deleting a batch of distinct rules takes exactly their contents out. */
  lemma {:induction false} WithoutBatch(rules: seq<Rule>, gone: seq<Rule>)
    requires DistinctIds(rules) && DistinctIds(gone)
    requires forall g :: g in gone ==> g in rules
    ensures Contents(Without(rules, Ids(gone))) + Contents(gone) == Contents(rules)
    decreases |gone|
  {
    if gone == [] {
      WithoutNothing(rules, {});
      assert Ids(gone) == {};
    } else {
      var last := |gone| - 1;
      var g := gone[last];
      assert gone == gone[..last] + [g];
      forall x | x in gone[..last] ensures x in rules { assert x in gone; }
      WithoutBatch(rules, gone[..last]);
      var rest := Without(rules, Ids(gone[..last]));
      WithoutKeepsIdsDistinct(rules, Ids(gone[..last]));
      assert g.id !in Ids(gone[..last]);
      assert g in gone;
      assert g in rest;
      WithoutOne(rest, g);
      WithoutTwice(rules, Ids(gone[..last]), {g.id});
      assert Ids(gone) == Ids(gone[..last]) + {g.id};
      ContentsOfLast(gone);
    }
  }

  /** Taking out the surplus leaves exactly the kept rules, in order and with their ids. */
  lemma {:induction false} SurplusGoneIsKept(existing: seq<Rule>, wanted: seq<Content>)
    requires DistinctIds(existing)
    ensures Without(existing, Ids(Surplus(existing, wanted))) == Kept(existing, wanted)
    ensures DistinctIds(Surplus(existing, wanted))
  {
    if existing == [] {
    } else {
      var last := |existing| - 1;
      var r := existing[last];
      var front := existing[..last];
      SurplusGoneIsKept(front, wanted);
      var some := Ids(Surplus(front, wanted));
      var all := Ids(Surplus(existing, wanted));
      assert all == some + (if r.content in wanted then {} else {r.id});
      forall x | x in front ensures x.id != r.id {
        var k :| 0 <= k < last && front[k] == x;
        assert existing[k].id != existing[last].id;
      }
      forall x | x in Surplus(front, wanted) ensures x.id != r.id {}
      assert r.id !in some;
      WithoutTwice(front, some, all - some);
      assert some + (all - some) == all;
      forall x | x in Without(front, some) ensures x.id !in all - some {}
      WithoutNothing(Without(front, some), all - some);
    }
  }

  /** The reconciliation theorem: whatever duplicates the two lists contain, once the surplus is
      deleted and the missing contents are created under new ids,
      - the remote list has exactly the requested set of contents,
      - a rule whose content is requested keeps its id, and every other one is gone,
      - no content is both deleted and created, and
      - running the diff again finds nothing to delete and nothing to create. */
  lemma Reconciled(existing: seq<Rule>, wanted: seq<Content>, created: seq<Rule>)
    requires DistinctIds(existing)
    requires ContentList(created) == Missing(existing, wanted)
    ensures var after := Without(existing, Ids(Surplus(existing, wanted))) + created;
            && (forall c :: c in Contents(after) <==> c in wanted)
            && (forall r :: r in existing ==> (r in after <==> r.content in wanted))
            && (forall d, c :: d in Surplus(existing, wanted) && c in created ==> d.content != c.content)
            && Surplus(after, wanted) == [] && Missing(after, wanted) == []
            && after == Kept(existing, wanted) + created
  {
    SurplusGoneIsKept(existing, wanted);
    var after := Kept(existing, wanted) + created;
    forall c ensures c in Contents(after) <==> c in wanted {
      ContentListed(after, c);
      ContentListed(existing, c);
      ContentListed(created, c);
      if c in wanted && c in ContentList(existing) {
        var r :| r in existing && r.content == c;
        assert r in after;
      } else if c in wanted {
        assert c in Missing(existing, wanted);
        var r :| r in created && r.content == c;
        assert r in after;
      }
    }
    forall c | c in created ensures c.content in wanted && c.content !in ContentList(existing) {
      ContentListed(created, c.content);
      assert c.content in Missing(existing, wanted);
    }
    forall d, c | d in Surplus(existing, wanted) && c in created ensures d.content != c.content {
      ContentListed(created, c.content);
      assert c.content in Missing(existing, wanted);
    }
    InStep(after, wanted);
  }

  /** A remote list whose set of contents is the requested one gives the diff nothing to do. */
  lemma InStep(rules: seq<Rule>, wanted: seq<Content>)
    requires forall c :: c in Contents(rules) <==> c in wanted
    ensures Surplus(rules, wanted) == [] && Missing(rules, wanted) == []
  {
    var extra, missing := Surplus(rules, wanted), Missing(rules, wanted);
    if extra != [] {
      assert extra[0] in extra;
      ContentListed(rules, extra[0].content);
    }
    if missing != [] {
      assert missing[0] in missing;
      ContentListed(rules, missing[0]);
    }
  }

  // ---- Order ----------------------------------------------------------------------------------

  lemma {:induction false} SurplusConcat(a: seq<Rule>, b: seq<Rule>, wanted: seq<Content>)
    ensures Surplus(a + b, wanted) == Surplus(a, wanted) + Surplus(b, wanted)
    decreases |b|
  {
    if b == [] {
      assert a + b == a && Surplus(a, wanted) + [] == Surplus(a, wanted);
    } else {
      var last := |b| - 1;
      assert (a + b)[..|a + b| - 1] == a + b[..last];
      SurplusConcat(a, b[..last], wanted);
    }
  }

  /** A surplus rule stands where the number of surplus rules listed before it says: the order is the listed one. */
  lemma SurplusAt(existing: seq<Rule>, i: nat, wanted: seq<Content>)
    requires i < |existing| && existing[i].content !in wanted
    ensures var n := |Surplus(existing[..i], wanted)|; n < |Surplus(existing, wanted)| && Surplus(existing, wanted)[n] == existing[i]
  {
    assert existing == existing[..i + 1] + existing[i + 1..] && existing[..i + 1][..i] == existing[..i];
    SurplusConcat(existing[..i + 1], existing[i + 1..], wanted);
  }

  lemma {:induction false} KeptConcat(a: seq<Rule>, b: seq<Rule>, wanted: seq<Content>)
    ensures Kept(a + b, wanted) == Kept(a, wanted) + Kept(b, wanted)
    decreases |b|
  {
    if b == [] {
      assert a + b == a && Kept(a, wanted) + [] == Kept(a, wanted);
    } else {
      var last := |b| - 1;
      assert (a + b)[..|a + b| - 1] == a + b[..last];
      KeptConcat(a, b[..last], wanted);
    }
  }

  /** Likewise the kept rules. */
  lemma KeptAt(existing: seq<Rule>, i: nat, wanted: seq<Content>)
    requires i < |existing| && existing[i].content in wanted
    ensures var n := |Kept(existing[..i], wanted)|; n < |Kept(existing, wanted)| && Kept(existing, wanted)[n] == existing[i]
  {
    assert existing == existing[..i + 1] + existing[i + 1..] && existing[..i + 1][..i] == existing[..i];
    KeptConcat(existing[..i + 1], existing[i + 1..], wanted);
  }

  lemma {:induction false} MissingConcat(existing: seq<Rule>, a: seq<Content>, b: seq<Content>)
    ensures Missing(existing, a + b) == Missing(existing, a) + Missing(existing, b)
    decreases |b|
  {
    if b == [] {
      assert a + b == a && Missing(existing, a) + [] == Missing(existing, a);
    } else {
      var last := |b| - 1;
      assert (a + b)[..|a + b| - 1] == a + b[..last];
      MissingConcat(existing, a, b[..last]);
    }
  }

  /** Likewise the missing contents, in requested order. */
  lemma MissingAt(existing: seq<Rule>, wanted: seq<Content>, i: nat)
    requires i < |wanted| && wanted[i] !in ContentList(existing)
    ensures var n := |Missing(existing, wanted[..i])|; n < |Missing(existing, wanted)| && Missing(existing, wanted)[n] == wanted[i]
  {
    assert wanted == wanted[..i + 1] + wanted[i + 1..] && wanted[..i + 1][..i] == wanted[..i];
    MissingConcat(existing, wanted[..i + 1], wanted[i + 1..]);
  }

  lemma {:induction false} OfGroupConcat(a: seq<Rule>, b: seq<Rule>, g: nat)
    ensures OfGroup(a + b, g) == OfGroup(a, g) + OfGroup(b, g)
    decreases |b|
  {
    if b == [] {
      assert a + b == a && OfGroup(a, g) + [] == OfGroup(a, g);
    } else {
      var last := |b| - 1;
      assert (a + b)[..|a + b| - 1] == a + b[..last];
      OfGroupConcat(a, b[..last], g);
    }
  }

  /** Likewise the rules that the response shows of a group. */
  lemma OfGroupAt(rules: seq<Rule>, i: nat, g: nat)
    requires i < |rules| && rules[i].groupId == g
    ensures var n := |OfGroup(rules[..i], g)|; n < |OfGroup(rules, g)| && OfGroup(rules, g)[n] == rules[i]
  {
    assert rules == rules[..i + 1] + rules[i + 1..] && rules[..i + 1][..i] == rules[..i];
    OfGroupConcat(rules[..i + 1], rules[i + 1..], g);
  }

  // ---- The loops ------------------------------------------------------------------------------

  /** The first loop of `_update_security_group_rules`: splits the listed rules in two. */
  method SplitExisting(existing: seq<Rule>, wanted: seq<Content>) returns (toDelete: seq<Rule>, toKeep: seq<Rule>)
    ensures toDelete == Surplus(existing, wanted)
    ensures toKeep == Kept(existing, wanted)
  {
    toDelete, toKeep := [], [];
    for i := 0 to |existing|
      invariant toDelete == Surplus(existing[..i], wanted)
      invariant toKeep == Kept(existing[..i], wanted)
    {
      assert existing[..i + 1][..i] == existing[..i];
      if existing[i].content !in wanted {
        toDelete := toDelete + [existing[i]];
        continue;
      }
      toKeep := toKeep + [existing[i]];
    }
    assert existing[..|existing|] == existing;
  }

  /** The second half: the requested rules to create. */
  method SelectMissing(existing: seq<Rule>, wanted: seq<Content>) returns (toAdd: seq<Content>)
    ensures toAdd == Missing(existing, wanted)
  {
    var compared := ContentList(existing);
    toAdd := [];
    for i := 0 to |wanted|
      invariant toAdd == Missing(existing, wanted[..i])
    {
      assert wanted[..i + 1][..i] == wanted[..i];
      if wanted[i] !in compared {
        toAdd := toAdd + [wanted[i]];
      }
    }
    assert wanted[..|wanted|] == wanted;
  }

  // ---- Grouping for the list view ---------------------------------------------------------------

  /** The rules of one group, in the order Neutron listed them. */
  function OfGroup(rules: seq<Rule>, g: nat): (r: seq<Rule>)
    ensures forall x :: x in r <==> x in rules && x.groupId == g
  {
    if rules == [] then []
    else
      var last := |rules| - 1;
      assert rules == rules[..last] + [rules[last]];
      var front := OfGroup(rules[..last], g);
      if rules[last].groupId == g then front + [rules[last]] else front
  }

  /** All the lists of the response, one group after the other. */
  function Listed(rules: seq<Rule>, groups: seq<nat>): seq<Rule> {
    if groups == [] then [] else Listed(rules, groups[..|groups| - 1]) + OfGroup(rules, groups[|groups| - 1])
  }

  function OwnedBy(rules: seq<Rule>, groups: seq<nat>): seq<Rule> {
    if rules == [] then []
    else
      var last := |rules| - 1;
      var front := OwnedBy(rules[..last], groups);
      if rules[last].groupId in groups then front + [rules[last]] else front
  }

  /** The one-pass `rule_map` of `find_security_groups_details`, and the response rows read off it. */
  method GroupRules(rules: seq<Rule>, groups: seq<nat>) returns (rows: seq<seq<Rule>>)
    ensures |rows| == |groups|
    ensures forall i :: 0 <= i < |groups| ==> rows[i] == OfGroup(rules, groups[i])
  {
    var ruleMap: map<nat, seq<Rule>> := map[];
    for i := 0 to |rules|
      invariant forall g :: OfGroup(rules[..i], g) == if g in ruleMap then ruleMap[g] else []
    {
      assert rules[..i + 1][..i] == rules[..i];
      var g := rules[i].groupId;
      ruleMap := ruleMap[g := (if g in ruleMap then ruleMap[g] else []) + [rules[i]]];
    }
    assert rules[..|rules|] == rules;
    rows := [];
    for i := 0 to |groups|
      invariant |rows| == i
      invariant forall k :: 0 <= k < i ==> rows[k] == OfGroup(rules, groups[k])
    {
      rows := rows + [if groups[i] in ruleMap then ruleMap[groups[i]] else []];
    }
  }

  /** Conservation: over distinct groups the response shows every rule of a listed group as often
      as Neutron listed it, and no other rule. */
  lemma {:induction false} GroupingConserves(rules: seq<Rule>, groups: seq<nat>)
    requires forall i, j :: 0 <= i < j < |groups| ==> groups[i] != groups[j]
    ensures multiset(Listed(rules, groups)) == multiset(OwnedBy(rules, groups))
    decreases |groups|
  {
    if groups == [] {
      NothingOwned(rules);
    } else {
      var last := |groups| - 1;
      GroupingConserves(rules, groups[..last]);
      OneMoreGroup(rules, groups[..last], groups[last]);
      assert groups == groups[..last] + [groups[last]];
    }
  }

  lemma {:induction false} NothingOwned(rules: seq<Rule>)
    ensures OwnedBy(rules, []) == []
  {
    if rules == [] {
    } else {
      NothingOwned(rules[..|rules| - 1]);
    }
  }

  lemma {:induction false} OneMoreGroup(rules: seq<Rule>, groups: seq<nat>, g: nat)
    requires g !in groups
    ensures multiset(OwnedBy(rules, groups + [g])) == multiset(OwnedBy(rules, groups)) + multiset(OfGroup(rules, g))
  {
    if rules == [] {
    } else {
      OneMoreGroup(rules[..|rules| - 1], groups, g);
    }
  }
}
