/** The persisted run state: the published coupon ids, stored as a sorted
    list, and the time of the last successful post. */
module StateStore {
  import opened Wrappers

  datatype PersistedState = PersistedState(publishedIds: seq<int>, lastRun: Option<int>)

  /** `load_state`: the default state when no state file exists. */
  function LoadState(file: Option<PersistedState>): (state: PersistedState)
    ensures file.None? ==> state.publishedIds == [] && state.lastRun.None?
    ensures file.Some? ==> state == file.value
  {
    match file
    case None => PersistedState([], None)
    case Some(stored) => stored
  }

  /** `set(state.get("published_ids", []))`. */
  function PublishedSet(ids: seq<int>): (s: set<int>)
    ensures forall x :: x in s <==> x in ids
  {
    set x | x in ids
  }

  predicate StrictlyAscending(ids: seq<int>)
  {
    forall i, j :: 0 <= i < j < |ids| ==> ids[i] < ids[j]
  }

  lemma {:induction false} HasMinimum(s: set<int>)
    requires s != {}
    ensures exists m :: m in s && forall x :: x in s ==> m <= x
    decreases |s|
  {
    if forall x :: x !in s { assert false; }
    var y :| y in s;
    var rest := s - {y};
    if forall x :: x !in rest {
      forall x | x in s ensures y <= x {
        assert x !in rest;
      }
    } else {
      var z :| z in rest;
      HasMinimum(rest);
      var m :| m in rest && forall x :: x in rest ==> m <= x;
      var least := if y < m then y else m;
      forall x | x in s ensures least <= x {
        if x != y { assert x in rest; }
      }
      assert least in s;
    }
  }

  /** `sorted(list(published_ids))`: the set's elements, strictly ascending,
      each once. */
  function SortedIds(s: set<int>): (ids: seq<int>)
    ensures StrictlyAscending(ids)
    ensures forall x :: x in ids <==> x in s
    decreases s
  {
    if s == {} then []
    else
      HasMinimum(s);
      var m :| m in s && forall x :: x in s ==> m <= x;
      var rest := SortedIds(s - {m});
      ConsAscending(m, rest);
      assert forall x :: x in [m] + rest <==> x == m || x in rest;
      [m] + rest
  }

  lemma ConsAscending(m: int, rest: seq<int>)
    requires StrictlyAscending(rest)
    requires forall x :: x in rest ==> m < x
    ensures StrictlyAscending([m] + rest)
  {
    forall i, j | 0 <= i < j < |[m] + rest| ensures ([m] + rest)[i] < ([m] + rest)[j] {
      assert ([m] + rest)[j] == rest[j - 1];
      if i > 0 {
        assert ([m] + rest)[i] == rest[i - 1];
      } else {
        assert rest[j - 1] in rest;
      }
    }
  }

  /** In a strictly ascending list, everything after the head is greater. */
  lemma TailOfAscending(ids: seq<int>, x: int)
    requires StrictlyAscending(ids) && ids != []
    ensures x in ids[1..] <==> x in ids && x != ids[0]
  {
    if x in ids && x != ids[0] {
      var k :| 0 <= k < |ids| && ids[k] == x;
      assert ids[1..][k - 1] == x;
    }
  }

  lemma HeadIn(ids: seq<int>)
    ensures ids == [] || ids[0] in ids
  {
  }

  /** Two strictly ascending lists with the same elements are equal. */
  lemma {:induction false} AscendingUnique(a: seq<int>, b: seq<int>)
    requires StrictlyAscending(a) && StrictlyAscending(b)
    requires forall x :: x in a <==> x in b
    ensures a == b
    decreases |a|
  {
    assert forall x :: x in a <==> x in b;
    if a == [] || b == [] {
      HeadIn(a);
      HeadIn(b);
    } else {
      assert a[0] in a;
      assert b != [];
      assert b[0] in b;
      assert a[0] == b[0] by {
        var k :| 0 <= k < |b| && b[k] == a[0];
        var l :| 0 <= l < |a| && a[l] == b[0];
      }
      forall x ensures x in a[1..] <==> x in b[1..] {
        TailOfAscending(a, x);
        TailOfAscending(b, x);
      }
      AscendingUnique(a[1..], b[1..]);
    }
  }

  /** A stored list that is strictly ascending is reproduced exactly when it
      is loaded into a set and written back. */
  lemma SortedIdsOfAscending(ids: seq<int>)
    requires StrictlyAscending(ids)
    ensures SortedIds(PublishedSet(ids)) == ids
  {
    AscendingUnique(SortedIds(PublishedSet(ids)), ids);
  }

  /** The state written after a successful post: the given ids as a sorted
      list and the run time. */
  function Committed(published: set<int>, now: int): (state: PersistedState)
    ensures StrictlyAscending(state.publishedIds)
    ensures PublishedSet(state.publishedIds) == published
    ensures state.lastRun == Some(now)
  {
    PersistedState(SortedIds(published), Some(now))
  }
}
