/** One run of the poster: load the state, fetch and filter the feed, order
    it, choose the next coupon (resetting the published set when every coupon
    has been posted), post it, and on success record its id. */
module RunController {
  import opened Wrappers
  import opened Coupons
  import opened FeedFilter
  import opened Selector
  import opened StateStore
  import opened Publisher

  /** What a run leaves behind: its exit status, the request it sent (if
      any), and the state it wrote (if any). */
  datatype RunOutcome = RunOutcome(exitCode: int, request: Option<PostRequest>, saved: Option<PersistedState>)

  /** The valid coupons of the feed, in the feed's order. */
  function Filtered(body: Option<FeedBody>, now: int, parse: string -> Option<DateTime>): seq<Coupon>
  {
    ValidCoupons(FetchCoupons(body), now, parse)
  }

  /** The valid coupons of the feed in posting order; the run reaches this
      order only when the sort as written does not fail. */
  function Candidates(body: Option<FeedBody>, now: int, parse: string -> Option<DateTime>): seq<Coupon>
  {
    Ordered(Filtered(body, now, parse), now, parse)
  }

  /** The published ids the run starts from. */
  function StartPublished(stored: Option<PersistedState>): set<int>
  {
    PublishedSet(LoadState(stored).publishedIds)
  }

  /** The scan for the first unpublished coupon, with the reset when there is
      none: the chosen coupon and the published set the run goes on with. */
  method SelectNext(sorted: seq<Coupon>, published: set<int>) returns (chosen: Coupon, kept: set<int>)
    requires |sorted| > 0
    ensures chosen == sorted[Select(sorted, published).index]
    ensures kept == Select(sorted, published).published
  {
    var next := FindNextUnpublished(sorted, published);
    kept := published;
    if next.None? {
      kept := {};
      next := Some(sorted[0]);
    }
    chosen := next.value;
  }

  /** `main`. The state file's content (None when it does not exist), the feed
      body (None when the request fails), the instant of the run, the date
      parser, the expiry formatter and the Graph API's answer to a request
      (the keys of its JSON object, None when the call fails) are parameters.
      An exception that escapes `main` ends the process with status 1, before
      any request. The cleared `published_ids` written on a reset is
      overwritten before any save, so only the published set is carried. */
  method Run(stored: Option<PersistedState>, body: Option<FeedBody>, now: int,
             parse: string -> Option<DateTime>, format: string -> Option<string>,
             respond: PostRequest -> Option<set<string>>)
    returns (out: RunOutcome)
    ensures out.exitCode == 0 || out.exitCode == 1
    ensures Filtered(body, now, parse) == [] ==> out == RunOutcome(0, None, None)
    ensures Filtered(body, now, parse) != [] && MixedKinds(Filtered(body, now, parse), now, parse) ==>
              out == RunOutcome(1, None, None)
    ensures var sorted := Candidates(body, now, parse);
            var published := StartPublished(stored);
            sorted != [] && !MixedKinds(Filtered(body, now, parse), now, parse) ==>
              var chosen := sorted[Select(sorted, published).index];
              && CouponObject(chosen) in FetchCoupons(body)
              && IsValid(CouponObject(chosen), now, parse)
              && ((exists j :: 0 <= j < |sorted| && Id(sorted[j]) !in published) ==> Id(chosen) !in published)
              && (chosen.store.StoreNotObject? ==> out == RunOutcome(1, None, None))
              && (!chosen.store.StoreNotObject? ==> out.request == Some(PostFor(chosen, format)))
              && (!chosen.store.StoreNotObject? && Succeeded(respond(PostFor(chosen, format))) ==>
                    out.exitCode == 0 && out.saved == Some(Committed(Advance(sorted, published), now)))
              && (!chosen.store.StoreNotObject? && !Succeeded(respond(PostFor(chosen, format))) ==>
                    out.exitCode == 1 && out.saved.None?)
  {
    var state := LoadState(stored);
    var published := PublishedSet(state.publishedIds);

    var coupons := FetchCoupons(body);
    if |coupons| == 0 {
      return RunOutcome(0, None, None);
    }

    var valid := ValidCoupons(coupons, now, parse);
    if |valid| == 0 {
      return RunOutcome(0, None, None);
    }

    var ordered := OrderAsWritten(valid, now, parse);
    OrderAsWrittenCorrect(valid, now, parse);
    if ordered.None? {
      return RunOutcome(1, None, None);
    }
    var sorted := ordered.value;
    assert |sorted| == |multiset(valid)|;

    var chosen;
    chosen, published := SelectNext(sorted, published);
    OrderedAreValid(coupons, now, parse, Select(sorted, StartPublished(stored)).index);

    var photo := PhotoUrlAsWritten(chosen);
    if photo.None? {
      return RunOutcome(1, None, None);
    }
    var photoUrl := photo.value;
    var message := MakeMessage(chosen, format);
    var request := if photoUrl != "" then PhotoPost(photoUrl, message) else TextPost(message);

    var response := respond(request);
    if Succeeded(response) {
      var cid := Id(chosen);
      published := published + {cid};
      state := state.(publishedIds := SortedIds(published), lastRun := Some(now));
      return RunOutcome(0, Some(request), Some(state));
    } else {
      return RunOutcome(1, Some(request), None);
    }
  }
}
