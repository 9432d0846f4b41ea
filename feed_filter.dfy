/** The feed side of the run: which list the feed response holds, which
    coupons are valid (visible and not expired) and in which order they are
    considered. */
module FeedFilter {
  import opened Wrappers
  import opened Coupons
  import StableSort

  // ---------------------------------------------------------------- feed shape

  /** A value in a JSON object of the response: a list, or anything else. */
  datatype FieldValue = ListValue(items: seq<FeedItem>) | OtherValue

  /** A JSON object, its fields in insertion order; keys never repeat. */
  predicate DistinctKeys(fields: seq<(string, FieldValue)>)
  {
    forall i, j :: 0 <= i < j < |fields| ==> fields[i].0 != fields[j].0
  }

  type JsonObject = fields: seq<(string, FieldValue)> | DistinctKeys(fields) witness []

  /** The decoded body of the feed response. */
  datatype FeedBody = ListBody(items: seq<FeedItem>) | ObjectBody(fields: JsonObject) | OtherBody

  /** The list stored under key "data", when there is one. */
  function DataList(fields: JsonObject): (r: Option<seq<FeedItem>>)
    ensures r.Some? <==> exists i :: 0 <= i < |fields| && fields[i].0 == "data" && fields[i].1.ListValue?
    ensures forall i :: 0 <= i < |fields| && fields[i].0 == "data" && fields[i].1.ListValue? ==>
              r == Some(fields[i].1.items)
  {
    if fields == [] then None
    else if fields[0].0 == "data" then
      (if fields[0].1.ListValue? then Some(fields[0].1.items) else None)
    else DataList(fields[1..])
  }

  /** The first list-valued field, in insertion order. */
  function FirstList(fields: seq<(string, FieldValue)>): (r: Option<seq<FeedItem>>)
    ensures r.None? <==> forall i :: 0 <= i < |fields| ==> !fields[i].1.ListValue?
    ensures r.Some? ==> exists i :: 0 <= i < |fields| && fields[i].1 == ListValue(r.value)
                                 && forall j :: 0 <= j < i ==> !fields[j].1.ListValue?
  {
    if fields == [] then None
    else if fields[0].1.ListValue? then Some(fields[0].1.items)
    else match FirstList(fields[1..])
      case None => None
      case Some(items) =>
        assert exists i :: 0 <= i < |fields| && fields[i].1 == ListValue(items)
                        && forall j :: 0 <= j < i ==> !fields[j].1.ListValue? by {
          var i :| 0 <= i < |fields[1..]| && fields[1..][i].1 == ListValue(items)
                 && forall j :: 0 <= j < i ==> !fields[1..][j].1.ListValue?;
          assert fields[i + 1].1 == ListValue(items);
        }
        Some(items)
  }

  /** The coupon list `fetch_coupons` returns; `body` is None when the request,
      its status or the JSON decoding failed. */
  function FetchCoupons(body: Option<FeedBody>): (items: seq<FeedItem>)
    ensures body.None? || body.value.OtherBody? ==> items == []
    ensures body.Some? && body.value.ListBody? ==> items == body.value.items
    ensures body.Some? && body.value.ObjectBody? ==>
              var fields := body.value.fields;
              (forall i :: 0 <= i < |fields| && fields[i].0 == "data" && fields[i].1.ListValue? ==>
                 items == fields[i].1.items)
              && ((forall i :: 0 <= i < |fields| && fields[i].0 == "data" ==> !fields[i].1.ListValue?) ==>
                    (items == [] && forall i :: 0 <= i < |fields| ==> !fields[i].1.ListValue?)
                    || exists i :: 0 <= i < |fields| && fields[i].1 == ListValue(items)
                                 && forall j :: 0 <= j < i ==> !fields[j].1.ListValue?)
  {
    match body
    case None => []
    case Some(ListBody(items)) => items
    case Some(OtherBody) => []
    case Some(ObjectBody(fields)) =>
      match DataList(fields)
      case Some(items) => items
      case None =>
        match FirstList(fields)
        case Some(items) => items
        case None => []
  }

  // ---------------------------------------------------------------- validity

  /** `is_valid_coupon` at instant `now`: visible (`int(is_visible) == 1`) and
      either without expiry or expiring strictly after `now`; a naive expiry is
      read as UTC, and anything that raises makes the coupon invalid. */
  function IsValid(item: FeedItem, now: int, parse: string -> Option<DateTime>): (ok: bool)
    ensures item.NotAnObject? ==> !ok
    ensures item.CouponObject? && item.coupon.visible != Some(1) ==> !ok
    ensures item.CouponObject? && item.coupon.visible == Some(1) && item.coupon.expiresAt == "" ==> ok
    ensures item.CouponObject? && item.coupon.expiresAt != "" && parse(item.coupon.expiresAt).None? ==> !ok
    ensures item.CouponObject? && item.coupon.visible == Some(1) && item.coupon.expiresAt != ""
            && parse(item.coupon.expiresAt).Some? ==>
              (ok <==> parse(item.coupon.expiresAt).value.ticks > now)
  {
    match item
    case NotAnObject => false
    case CouponObject(c) =>
      if c.visible != Some(1) then false
      else if c.expiresAt == "" then true
      else match parse(c.expiresAt)
        case None => false
        case Some(d) => d.ticks > now
  }

  /** `[c for c in coupons if is_valid_coupon(c)]`. */
  function ValidCoupons(items: seq<FeedItem>, now: int, parse: string -> Option<DateTime>): (valid: seq<Coupon>)
    ensures |valid| <= |items|
    ensures forall c :: c in valid <==> CouponObject(c) in items && IsValid(CouponObject(c), now, parse)
  {
    if items == [] then []
    else
      var rest := ValidCoupons(items[1..], now, parse);
      assert forall it :: it in items <==> it == items[0] || it in items[1..];
      if IsValid(items[0], now, parse) then [items[0].coupon] + rest else rest
  }

  /** One item is kept, as its coupon, exactly when it is valid. */
  lemma ValidCouponsOne(it: FeedItem, now: int, parse: string -> Option<DateTime>)
    ensures ValidCoupons([it], now, parse) == if IsValid(it, now, parse) then [it.coupon] else []
  {
  }

  /** The filter works item by item: the valid coupons of a concatenation are
      those of each part, in the feed's order (duplicates included). */
  lemma {:induction false} ValidCouponsAppend(a: seq<FeedItem>, b: seq<FeedItem>, now: int, parse: string -> Option<DateTime>)
    ensures ValidCoupons(a + b, now, parse) == ValidCoupons(a, now, parse) + ValidCoupons(b, now, parse)
  {
    if a == [] {
      assert a + b == b;
    } else {
      assert (a + b)[0] == a[0] && (a + b)[1..] == a[1..] + b;
      ValidCouponsAppend(a[1..], b, now, parse);
    }
  }

  // ---------------------------------------------------------------- ordering

  const Epoch: string := "1970-01-01"

  /** `c.get("created_at") or c.get("expires_at") or "1970-01-01"`. */
  function KeyText(c: Coupon): (t: string)
    ensures c.createdAt != "" ==> t == c.createdAt
    ensures c.createdAt == "" && c.expiresAt != "" ==> t == c.expiresAt
    ensures c.createdAt == "" && c.expiresAt == "" ==> t == Epoch
  {
    if c.createdAt != "" then c.createdAt
    else if c.expiresAt != "" then c.expiresAt
    else Epoch
  }

  /** `sort_key` as written: the parsed key text, or the aware instant `now`
      when it does not parse. */
  function SortKeyAsWritten(c: Coupon, now: int, parse: string -> Option<DateTime>): (d: DateTime)
    ensures parse(KeyText(c)).None? ==> d == DateTime(now, true)
    ensures parse(KeyText(c)).Some? ==> d == parse(KeyText(c)).value
  {
    match parse(KeyText(c))
    case Some(d) => d
    case None => DateTime(now, true)
  }

  /** The sort key with a naive date read as UTC, as the expiry check reads it.
      A present `created_at` is used even when it fails to parse: the key is
      then `now`, and `expires_at` is not consulted. */
  function SortKey(c: Coupon, now: int, parse: string -> Option<DateTime>): (k: int)
    ensures c.createdAt != "" && parse(c.createdAt).Some? ==> k == parse(c.createdAt).value.ticks
    ensures c.createdAt != "" && parse(c.createdAt).None? ==> k == now
    ensures c.createdAt == "" && c.expiresAt != "" && parse(c.expiresAt).Some? ==> k == parse(c.expiresAt).value.ticks
    ensures c.createdAt == "" && c.expiresAt != "" && parse(c.expiresAt).None? ==> k == now
    ensures c.createdAt == "" && c.expiresAt == "" ==> k == (if parse(Epoch).Some? then parse(Epoch).value.ticks else now)
  {
    SortKeyAsWritten(c, now, parse).ticks
  }

  function KeyOf(now: int, parse: string -> Option<DateTime>): Coupon -> int
  {
    c => SortKey(c, now, parse)
  }

  /** `sorted(valid, key=sort_key)` with every key an instant: a permutation of
      `valid`, non-decreasing by key, keeping the input order among equal keys. */
  function Ordered(valid: seq<Coupon>, now: int, parse: string -> Option<DateTime>): (sorted: seq<Coupon>)
    ensures StableSort.SortedBy(sorted, KeyOf(now, parse))
    ensures multiset(sorted) == multiset(valid)
    ensures forall k :: StableSort.WithKey(sorted, KeyOf(now, parse), k) == StableSort.WithKey(valid, KeyOf(now, parse), k)
  {
    StableSort.SortByKeyCorrect(valid, KeyOf(now, parse));
    StableSort.SortByKey(valid, KeyOf(now, parse))
  }

  /** Some key is naive and some key is aware. */
  predicate MixedKinds(valid: seq<Coupon>, now: int, parse: string -> Option<DateTime>)
  {
    exists i, j :: 0 <= i < |valid| && 0 <= j < |valid|
                && SortKeyAsWritten(valid[i], now, parse).aware
                && !SortKeyAsWritten(valid[j], now, parse).aware
  }

  /** Every key is of the given kind. */
  predicate OfKind(s: seq<Coupon>, now: int, parse: string -> Option<DateTime>, aware: bool)
  {
    forall i :: 0 <= i < |s| ==> SortKeyAsWritten(s[i], now, parse).aware == aware
  }

  /** `a < b` on datetimes as Python evaluates it: naive dates compare by
      their wall clock, aware ones by their instant, and comparing a naive
      date with an aware one raises TypeError, shown as `None`. */
  function LessAsWritten(a: DateTime, b: DateTime): Option<bool>
  {
    if a.aware != b.aware then None else Some(a.ticks < b.ticks)
  }

  /** `StableSort.Insert` making its comparisons on the keys as written:
      `None` as soon as one comparison raises. */
  function InsertAsWritten(x: Coupon, s: seq<Coupon>, now: int, parse: string -> Option<DateTime>): Option<seq<Coupon>>
  {
    if s == [] then Some([x])
    else match LessAsWritten(SortKeyAsWritten(x, now, parse), SortKeyAsWritten(s[0], now, parse))
      case None => None
      case Some(true) => Some([x] + s)
      case Some(false) =>
        match InsertAsWritten(x, s[1..], now, parse)
        case None => None
        case Some(rest) => Some([s[0]] + rest)
  }

  /** `sorted(valid, key=sort_key)` as written, by the insertion sort of
      `StableSort` over the keys of `SortKeyAsWritten`: `None` stands for the
      TypeError that aborts the run. */
  function OrderAsWritten(valid: seq<Coupon>, now: int, parse: string -> Option<DateTime>): Option<seq<Coupon>>
  {
    if valid == [] then Some([])
    else match OrderAsWritten(valid[..|valid| - 1], now, parse)
      case None => None
      case Some(front) => InsertAsWritten(valid[|valid| - 1], front, now, parse)
  }

  /** Among keys of one kind, the comparisons as written are those of the
      keys as instants, so the insertion is `StableSort.Insert`'s. */
  lemma {:induction false} InsertAsWrittenAgrees(x: Coupon, s: seq<Coupon>, now: int, parse: string -> Option<DateTime>, aware: bool)
    requires OfKind(s, now, parse, aware) && SortKeyAsWritten(x, now, parse).aware == aware
    ensures InsertAsWritten(x, s, now, parse) == Some(StableSort.Insert(x, s, KeyOf(now, parse)))
  {
    if s != [] {
      assert OfKind(s[1..], now, parse, aware) by {
        forall i | 0 <= i < |s[1..]| ensures SortKeyAsWritten(s[1..][i], now, parse).aware == aware {
          assert s[1..][i] == s[i + 1];
        }
      }
      InsertAsWrittenAgrees(x, s[1..], now, parse, aware);
    }
  }

  /** The sort as written fails exactly when naive and aware keys both occur;
      otherwise it gives the order `Ordered` gives. */
  lemma {:induction false} OrderAsWrittenCorrect(valid: seq<Coupon>, now: int, parse: string -> Option<DateTime>)
    ensures OrderAsWritten(valid, now, parse).None? <==> MixedKinds(valid, now, parse)
    ensures OrderAsWritten(valid, now, parse).Some? ==>
              OrderAsWritten(valid, now, parse).value == Ordered(valid, now, parse)
  {
    if valid != [] {
      var front, x := valid[..|valid| - 1], valid[|valid| - 1];
      OrderAsWrittenCorrect(front, now, parse);
      if MixedKinds(front, now, parse) {
        var i, j :| 0 <= i < |front| && 0 <= j < |front|
                    && SortKeyAsWritten(front[i], now, parse).aware
                    && !SortKeyAsWritten(front[j], now, parse).aware;
        assert valid[i] == front[i] && valid[j] == front[j];
      } else if front == [] {
        assert valid == [x];
      } else {
        SortedFrontOfKind(front, now, parse);
        var aware := SortKeyAsWritten(front[0], now, parse).aware;
        var sortedFront := Ordered(front, now, parse);
        assert OrderAsWritten(valid, now, parse) == InsertAsWritten(x, sortedFront, now, parse);
        if SortKeyAsWritten(x, now, parse).aware == aware {
          InsertAsWrittenAgrees(x, sortedFront, now, parse, aware);
          forall i | 0 <= i < |valid| ensures SortKeyAsWritten(valid[i], now, parse).aware == aware {
            if i < |front| {
              assert valid[i] == front[i];
            }
          }
        } else {
          assert valid[0] == front[0];
        }
      }
    }
  }

  /** A non-empty list whose keys are of one kind sorts to a non-empty list
      of that kind. */
  lemma SortedFrontOfKind(front: seq<Coupon>, now: int, parse: string -> Option<DateTime>)
    requires front != [] && !MixedKinds(front, now, parse)
    ensures var aware := SortKeyAsWritten(front[0], now, parse).aware;
            OfKind(front, now, parse, aware)
            && Ordered(front, now, parse) != []
            && OfKind(Ordered(front, now, parse), now, parse, aware)
  {
    var aware := SortKeyAsWritten(front[0], now, parse).aware;
    var sorted := Ordered(front, now, parse);
    assert front[0] in multiset(front);
    forall i | 0 <= i < |sorted| ensures SortKeyAsWritten(sorted[i], now, parse).aware == aware {
      assert sorted[i] in multiset(front);
    }
  }

  /** A parser for the example below: naive "2024-01-01 00:00:00", nothing else. */
  function NaiveOnlyParser(s: string): Option<DateTime>
  {
    if s == "2024-01-01 00:00:00" then Some(DateTime(1704067200, false)) else None
  }

  function ExampleCoupon(cid: int, createdAt: string): Coupon
  {
    Coupon(Some(1), Some(cid), None, createdAt, "", "", "", "", "", "", "", "", NoStore)
  }

  /** Two visible coupons without expiry, one created "2024-01-01 00:00:00"
      (naive) and one with an unparseable `created_at` (key: aware `now`):
      the program as written aborts in `sorted`, where `Ordered` puts the dated
      one first. */
  lemma MixedKindsAbortSort()
    ensures var valid := [ExampleCoupon(1, "2024-01-01 00:00:00"), ExampleCoupon(2, "n/a")];
            var now := 1710000000;
            OrderAsWritten(valid, now, NaiveOnlyParser) == None
            && Ordered(valid, now, NaiveOnlyParser) == valid
  {
    var valid := [ExampleCoupon(1, "2024-01-01 00:00:00"), ExampleCoupon(2, "n/a")];
    var now := 1710000000;
    assert SortKeyAsWritten(valid[1], now, NaiveOnlyParser).aware;
    assert !SortKeyAsWritten(valid[0], now, NaiveOnlyParser).aware;
    OrderAsWrittenCorrect(valid, now, NaiveOnlyParser);
    var key := KeyOf(now, NaiveOnlyParser);
    assert key(valid[0]) == 1704067200 && key(valid[1]) == now;
    assert valid[..1] == [valid[0]];
    assert StableSort.SortByKey(valid[..1], key) == [valid[0]];
  }

  /** A coupon with neither date is keyed by "1970-01-01": it precedes every
      coupon whose key is later than the epoch, instead of sorting last. */
  lemma UndatedSortsFirst(valid: seq<Coupon>, now: int, parse: string -> Option<DateTime>, i: nat, j: nat)
    requires parse(Epoch) == Some(DateTime(0, false))
    requires var sorted := Ordered(valid, now, parse);
             i < |sorted| && j < |sorted|
             && sorted[i].createdAt == "" && sorted[i].expiresAt == ""
             && SortKey(sorted[j], now, parse) > 0
    ensures i < j
  {
    var sorted := Ordered(valid, now, parse);
    assert KeyOf(now, parse)(sorted[i]) == 0;
    assert KeyOf(now, parse)(sorted[j]) > 0;
  }

  /** Every coupon of the ordered list is a valid coupon of the feed. */
  lemma OrderedAreValid(items: seq<FeedItem>, now: int, parse: string -> Option<DateTime>, k: nat)
    requires k < |Ordered(ValidCoupons(items, now, parse), now, parse)|
    ensures var c := Ordered(ValidCoupons(items, now, parse), now, parse)[k];
            CouponObject(c) in items && IsValid(CouponObject(c), now, parse)
  {
    var valid := ValidCoupons(items, now, parse);
    var sorted := Ordered(valid, now, parse);
    assert sorted[k] in multiset(sorted);
    assert sorted[k] in valid;
  }
}
