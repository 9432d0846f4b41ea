/** The choice of the next coupon to post: the first coupon, in sorted order,
    whose id has not been published; when every id has been published, the
    published set is cleared and the first coupon is taken again. */
module Selector {
  import opened Wrappers
  import opened Coupons

  /** Index of the first coupon whose id is not in `published`. */
  function FirstUnpublished(s: seq<Coupon>, published: set<int>): (r: Option<nat>)
    ensures r.Some? ==> r.value < |s| && Id(s[r.value]) !in published
                        && forall j :: 0 <= j < r.value ==> Id(s[j]) in published
    ensures r.None? ==> forall j :: 0 <= j < |s| ==> Id(s[j]) in published
  {
    if s == [] then None
    else if Id(s[0]) !in published then Some(0)
    else match FirstUnpublished(s[1..], published)
      case Some(k) => Some(k + 1)
      case None => None
  }

  /** The scan `for c in valid_sorted: ... break` in `main`. */
  method FindNextUnpublished(s: seq<Coupon>, published: set<int>) returns (next: Option<Coupon>)
    ensures next.None? <==> forall j :: 0 <= j < |s| ==> Id(s[j]) in published
    ensures next == match FirstUnpublished(s, published)
                    case Some(k) => Some(s[k])
                    case None => None
  {
    next := None;
    for i := 0 to |s|
      invariant forall j :: 0 <= j < i ==> Id(s[j]) in published
    {
      var cid := Id(s[i]);
      if cid !in published {
        next := Some(s[i]);
        return;
      }
    }
  }

  /** The coupon chosen (its index in the sorted list) and the published set
      the run goes on with. */
  datatype Selection = Selection(index: nat, published: set<int>)

  /** Selection with reset. A non-empty list always yields a coupon. */
  function Select(s: seq<Coupon>, published: set<int>): (sel: Selection)
    requires |s| > 0
    ensures sel.index < |s|
    ensures (exists j :: 0 <= j < |s| && Id(s[j]) !in published) ==>
              sel.published == published && Id(s[sel.index]) !in published
              && forall j :: 0 <= j < sel.index ==> Id(s[j]) in published
    ensures (forall j :: 0 <= j < |s| ==> Id(s[j]) in published) ==> sel == Selection(0, {})
  {
    match FirstUnpublished(s, published)
    case Some(k) => Selection(k, published)
    case None => Selection(0, {})
  }

  /** The published set after a successful run: the (possibly reset) set plus
      the chosen coupon's id. */
  function Advance(s: seq<Coupon>, published: set<int>): (next: set<int>)
    requires |s| > 0
    ensures (exists j :: 0 <= j < |s| && Id(s[j]) !in published) ==>
              next == published + {Id(s[Select(s, published).index])}
    ensures (forall j :: 0 <= j < |s| ==> Id(s[j]) in published) ==> next == {Id(s[0])}
  {
    var sel := Select(s, published);
    sel.published + {Id(s[sel.index])}
  }

  /** Before exhaustion a run posts a coupon not yet posted and adds exactly
      its id; nothing else in the set changes. */
  lemma NoRepeatBeforeExhaustion(s: seq<Coupon>, published: set<int>)
    requires |s| > 0
    requires exists j :: 0 <= j < |s| && Id(s[j]) !in published
    ensures var cid := Id(s[Select(s, published).index]);
            cid !in published && Advance(s, published) == published + {cid}
            && |Advance(s, published)| == |published| + 1
  {
  }

  /** Once every id is published, the set is cleared and the first coupon is
      posted again, so the set holds its id alone. */
  lemma ResetOnExhaustion(s: seq<Coupon>, published: set<int>)
    requires |s| > 0
    requires forall j :: 0 <= j < |s| ==> Id(s[j]) in published
    ensures Select(s, published).index == 0
    ensures Advance(s, published) == {Id(s[0])}
  {
  }

  /** A coupon that shares its id with an earlier coupon is never chosen:
      several coupons without an id all resolve to 0, and only the first of
      them is ever posted. */
  lemma SharedIdNeverChosen(s: seq<Coupon>, published: set<int>, i: nat, j: nat)
    requires i < j < |s| && Id(s[i]) == Id(s[j])
    ensures Select(s, published).index != j
  {
  }

  function AdvanceTimes(s: seq<Coupon>, published: set<int>, n: nat): set<int>
    requires |s| > 0
  {
    if n == 0 then published else Advance(s, AdvanceTimes(s, published, n - 1))
  }

  predicate DistinctIds(s: seq<Coupon>)
  {
    forall i, j :: 0 <= i < j < |s| ==> Id(s[i]) != Id(s[j])
  }

  function IdSet(s: seq<Coupon>): set<int>
  {
    set c | c in s :: Id(c)
  }

  lemma IdSetSnoc(s: seq<Coupon>, c: Coupon)
    ensures IdSet(s + [c]) == IdSet(s) + {Id(c)}
  {
    assert forall d :: d in s + [c] <==> d in s || d == c;
  }

  lemma IdSetAt(s: seq<Coupon>, x: int)
    ensures x in IdSet(s) <==> exists k :: 0 <= k < |s| && Id(s[k]) == x
  {
    if x in IdSet(s) {
      var c :| c in s && Id(c) == x;
      var k :| 0 <= k < |s| && s[k] == c;
    }
  }

  /** With exactly the ids of the first n coupons published (n short of the
      whole list, ids distinct), coupon n is the one chosen and no reset
      happens. */
  lemma ChoiceAfterPrefix(s: seq<Coupon>, n: nat)
    requires DistinctIds(s) && n < |s|
    ensures Select(s, IdSet(s[..n])) == Selection(n, IdSet(s[..n]))
  {
    var published := IdSet(s[..n]);
    IdSetAt(s[..n], Id(s[n]));
    forall j | 0 <= j < n ensures Id(s[j]) in published {
      assert s[..n][j] == s[j];
      IdSetAt(s[..n], Id(s[j]));
    }
  }

  lemma AdvanceTimesStep(s: seq<Coupon>, m: nat, n: nat)
    requires |s| > 0 && n == m + 1
    ensures AdvanceTimes(s, {}, n) == Advance(s, AdvanceTimes(s, {}, m))
  {
  }

  /** A successful run after the first m coupons adds coupon m's id. */
  lemma AdvanceOnPrefix(s: seq<Coupon>, m: nat, n: nat)
    requires DistinctIds(s) && n == m + 1 && n <= |s|
    ensures Advance(s, IdSet(s[..m])) == IdSet(s[..n])
  {
    ChoiceAfterPrefix(s, m);
    assert s[..n] == s[..m] + [s[m]];
    IdSetSnoc(s[..m], s[m]);
  }

  /** One more successful run publishes the next coupon's id. */
  lemma AdvanceAfterPrefix(s: seq<Coupon>, m: nat, n: nat)
    requires DistinctIds(s) && n == m + 1 && n <= |s|
    requires AdvanceTimes(s, {}, m) == IdSet(s[..m])
    ensures AdvanceTimes(s, {}, n) == IdSet(s[..n])
  {
    AdvanceTimesStep(s, m, n);
    AdvanceOnPrefix(s, m, n);
  }

  lemma NothingPublishedFirst(s: seq<Coupon>)
    requires |s| > 0
    ensures AdvanceTimes(s, {}, 0) == IdSet(s[..0])
  {
    assert s[..0] == [];
    assert IdSet([]) == {};
  }

  /** After n runs from nothing published, exactly the first n ids are
      published. */
  lemma {:induction false} PublishedAfter(s: seq<Coupon>, n: nat)
    requires |s| > 0 && DistinctIds(s) && n <= |s|
    ensures AdvanceTimes(s, {}, n) == IdSet(s[..n])
  {
    if n == 0 {
      NothingPublishedFirst(s);
    } else {
      var m := n - 1;
      PublishedAfter(s, m);
      AdvanceAfterPrefix(s, m, n);
    }
  }

  /** Starting from nothing published and a fixed list with distinct ids, the
      n-th successful run posts the n-th coupon, and after n runs exactly the
      first n ids are published. */
  lemma CycleInOrder(s: seq<Coupon>, n: nat)
    requires |s| > 0 && DistinctIds(s) && n <= |s|
    ensures AdvanceTimes(s, {}, n) == IdSet(s[..n])
    ensures n < |s| ==> Select(s, AdvanceTimes(s, {}, n)).index == n
  {
    PublishedAfter(s, n);
    if n < |s| {
      ChoiceAfterPrefix(s, n);
    }
  }

  /** After one full cycle every id is published; the next run resets and
      posts the first coupon again. */
  lemma {:induction false} CycleRestarts(s: seq<Coupon>)
    requires |s| > 0 && DistinctIds(s)
    ensures AdvanceTimes(s, {}, |s|) == IdSet(s)
    ensures Select(s, AdvanceTimes(s, {}, |s|)) == Selection(0, {})
    ensures AdvanceTimes(s, {}, |s| + 1) == {Id(s[0])}
  {
    CycleInOrder(s, |s|);
    assert s[..|s|] == s;
    forall j | 0 <= j < |s| ensures Id(s[j]) in IdSet(s) {
      assert s[j] in s;
    }
  }
}
