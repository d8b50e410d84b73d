/** Lists of ids without repetition. */
module Sequences {

  predicate Distinct(list: seq<nat>) {
    forall i, j :: 0 <= i < j < |list| ==> list[i] != list[j]
  }

  function Elements(list: seq<nat>): set<nat> {
    set v | v in list
  }

  lemma {:induction false} ElementCount(list: seq<nat>)
    requires Distinct(list)
    ensures |Elements(list)| == |list|
    decreases |list|
  {
    if list == [] {
    } else {
      var last := |list| - 1;
      ElementCount(list[..last]);
      assert Elements(list) == Elements(list[..last]) + {list[last]};
    }
  }

  function Below(n: nat): (r: set<nat>)
    ensures |r| == n && forall k: nat :: k in r <==> k < n
  {
    if n == 0 then {} else Below(n - 1) + {n - 1}
  }

  /** Of `n` ids at most `n - 1` are listed if one is not. */
  lemma OthersOnly(list: seq<nat>, n: nat, missing: nat)
    requires Distinct(list) && missing < n && missing !in list && forall k :: 0 <= k < |list| ==> list[k] < n
    ensures |list| < n
  {
    ElementCount(list);
    assert Elements(list) <= Below(n) - {missing};
    Included(Elements(list), Below(n) - {missing});
  }

  lemma {:induction false} Included(a: set<nat>, b: set<nat>)
    requires a <= b
    ensures |a| <= |b|
    decreases |a|
  {
    if a == {} {
    } else {
      var x :| x in a;
      Included(a - {x}, b - {x});
    }
  }
}
