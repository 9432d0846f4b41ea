/** The coupon record of the remote feed, with every field the poster reads.
    A string or id field that is missing, null or otherwise falsy is the
    empty string (or `None`); `visible` and `store` follow the comments on the
    `visible` field and on `Store` instead. The foreign conversions
    (`int(...)`, date parsing) are represented by their results. */
module Coupons {
  import opened Wrappers

  /** A parsed date. `ticks` is the UTC instant of an offset-aware date; for
      a naive date it is the wall-clock reading taken as if it were UTC. */
  datatype DateTime = DateTime(ticks: int, aware: bool)

  /** The `store` field: absent, an object (its `logo_url`, "" when falsy),
      or present but not an object (null, a string, a list...). */
  datatype Store = NoStore | StoreObject(logoUrl: string) | StoreNotObject

  datatype Coupon = Coupon(
    visible: Option<int>,   // int(is_visible), Some(0) when absent; None when int() raises
    couponId: Option<int>,  // int(coupon_id) when coupon_id is truthy, else None
    id: Option<int>,        // int(id) when id is truthy, else None
    createdAt: string,
    expiresAt: string,
    title: string,
    discountText: string,
    code: string,
    countries: string,
    note: string,
    purchaseLink: string,
    logoUrl: string,
    store: Store)

  /** One element of the feed's list: a JSON object, or anything else. */
  datatype FeedItem = CouponObject(coupon: Coupon) | NotAnObject

  /** `int(c.get("coupon_id") or c.get("id") or 0)`: the first truthy id key,
      else 0, so every coupon without an id resolves to 0. */
  function Id(c: Coupon): (cid: int)
    ensures c.couponId.Some? ==> cid == c.couponId.value
    ensures c.couponId.None? && c.id.Some? ==> cid == c.id.value
    ensures c.couponId.None? && c.id.None? ==> cid == 0
  {
    match c.couponId
    case Some(n) => n
    case None =>
      match c.id
      case Some(n) => n
      case None => 0
  }
}
