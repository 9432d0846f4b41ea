# Coupon poster: a verified model of the selection and publication core

`post_to_facebook.py` runs every couple of hours. Each run does the following:

1. Loads the set of coupon ids it has already published.
2. Fetches the coupon feed and keeps the coupons that are visible and not yet expired.
3. Orders them by creation date.
4. Picks the first one whose id has not been published. If every id has been published, it clears the set and starts over from the first coupon.
5. Builds the post text and posts it to a Facebook page, with a photo when the coupon has a logo.
6. Only when the Graph API reports success does it add the id, write the state file back as a sorted list and commit it.

This project models that core in Dafny, one module per component:

- `Coupons` (`coupons.dfy`): the coupon record and id resolution. An id is `coupon_id`, else `id`, else 0.
- `FeedFilter` (`feed_filter.dfy`) covers:
  - which list `fetch_coupons` takes from the response body;
  - `is_valid_coupon`;
  - the sort key;
  - the stable ordering of the valid coupons.
- `StableSort` (`stable_sort.dfy`): a stable sort by an integer key. It is proved sorted, a permutation, and order-preserving among equal keys. It stands in for Python's `sorted(..., key=...)`.
- `Selector` (`selector.dfy`): the first-unpublished scan (a loop, as in `main`), the reset on exhaustion, and what one successful run does to the published set.
- `StateStore` (`state_store.dfy`): loading the state with its default, `set(...)` of the stored list, and `sorted(list(...))` on save.
- `Publisher` (`publisher.dfy`) covers:
  - `make_message`, built part by part as in the source, then joined, stripped and truncated;
  - the photo-URL choice;
  - the request a run sends;
  - the success test on the response.
- `RunController` (`run_controller.dfy`): `main` as one method. Its inputs and outputs are values:
  - Inputs: the stored state, the feed body, the instant of the run, the date parser, the expiry formatter and the API's answer.
  - Outputs: the exit status, the request sent, and the state written.

Things outside the program's own code are parameters:

- dateutil's parser, as `string -> Option<DateTime>`;
- `strftime`, as `string -> Option<string>`;
- the clock, as an integer instant;
- the HTTP responses, as a decoded feed body and a function from request to response keys.

Three behaviours of the code differ from what one might expect; the model follows the code:

- One might expect coupons with neither `created_at` nor `expires_at` to sort last. They are keyed by the literal "1970-01-01" (line 210), so they sort first. `FeedFilter.UndatedSortsFirst` states this.
- One might expect the coupon's own `logo_url` to win over its store's logo. The photo URL prefers the nested `store.logo_url` (line 236).
- One might expect a state file that does not parse to count as empty. It aborts the run (line 39).

The guard `if not next_coupon` (lines 231-233) can never fire: at that point the list is non-empty, so a coupon has always been chosen. `RunController.Run` has no such branch. Its contract shows that a non-empty candidate list leads to a request unless one of the two aborts under "## Findings" ends the run first.

## Model

| member | source | states |
|---|---|---|
| Coupons.Id | post_to_facebook.py:219 | The id is `coupon_id` when it is truthy, else `id` when it is truthy, else 0 |
| FeedFilter.DataList | post_to_facebook.py:62-63 | Yields a list exactly when some key `"data"` holds a list, and then yields that list |
| FeedFilter.FirstList | post_to_facebook.py:64-66 | Yields nothing exactly when no value is a list; otherwise yields the value of the first list-valued field |
| FeedFilter.FetchCoupons | post_to_facebook.py:56-74 | A failed request or a scalar body gives []; a list body is returned as is; an object gives its list-valued `"data"`, else its first list-valued field, else [] |
| FeedFilter.IsValid | post_to_facebook.py:76-89 | A coupon is invalid unless visible == 1; it is valid with no expiry; it is invalid when the expiry does not parse (or the item is not an object); otherwise it is valid iff the expiry is strictly after now |
| FeedFilter.ValidCoupons | post_to_facebook.py:202 | A coupon is kept iff it is an object of the feed that is valid; the result is no longer than the feed |
| FeedFilter.ValidCouponsOne | post_to_facebook.py:202 | A single item gives its coupon when it is valid, and nothing otherwise |
| FeedFilter.ValidCouponsAppend | post_to_facebook.py:202 | The valid coupons of a concatenation are those of each part, in order, so the filter keeps the feed's order and its duplicates |
| FeedFilter.KeyText | post_to_facebook.py:210 | The key text is `created_at` when non-empty, else `expires_at` when non-empty, else "1970-01-01" |
| FeedFilter.SortKeyAsWritten | post_to_facebook.py:208-212 | The key is the parse of `created_at`, else of `expires_at`, else of "1970-01-01"; a parse failure gives the aware instant `now` |
| FeedFilter.SortKey | post_to_facebook.py:208-212 | The same key as an instant, case by case, with a present but unparseable `created_at` giving `now` without consulting `expires_at` |
| StableSort.SortByKeyCorrect | post_to_facebook.py:214 | Sorting by key gives a non-decreasing, permuted sequence that keeps the input order within each key |
| FeedFilter.Ordered | post_to_facebook.py:214 | The valid coupons, sorted non-decreasingly by key, are a permutation of the input and stable among equal keys |
| FeedFilter.InsertAsWrittenAgrees | post_to_facebook.py:214 | Among keys of one kind, inserting with Python's datetime comparison gives the same list as inserting by instant |
| FeedFilter.OrderAsWrittenCorrect | post_to_facebook.py:208-214 | `FeedFilter.OrderAsWritten`, the sort as written that `RunController.Run` uses for line 214, which raises on a naive-aware comparison, fails exactly when naive and aware keys both occur; otherwise it gives the order `Ordered` gives |
| FeedFilter.MixedKindsAbortSort | post_to_facebook.py:208-214 | A dated coupon plus one with an unparseable `created_at` aborts the run as written, where `Ordered` orders them |
| FeedFilter.UndatedSortsFirst | post_to_facebook.py:210 | A coupon with neither date comes before every coupon keyed after the epoch |
| FeedFilter.OrderedAreValid | post_to_facebook.py:202-214 | Every coupon of the ordered list is a valid object of the feed |
| Selector.FirstUnpublished | post_to_facebook.py:217-222 | The index found is the first whose id is unpublished; when none is found, every id is published |
| Selector.FindNextUnpublished | post_to_facebook.py:216-222 | The loop finds a coupon iff some id is unpublished, and finds the first such coupon |
| Selector.Select | post_to_facebook.py:216-229 | For a non-empty list, the first unpublished coupon is chosen and the set is kept; when all ids are published, the set is reset and the first coupon is chosen |
| Selector.Advance | post_to_facebook.py:225-249 | After a successful run, the set is the old one plus the posted id while some id was unpublished, and the first coupon's id alone after a reset |
| Selector.NoRepeatBeforeExhaustion | post_to_facebook.py:217-229 | Before exhaustion, the coupon posted was not posted before, and success adds exactly its id (the set grows by one) |
| Selector.ResetOnExhaustion | post_to_facebook.py:225-229 | Once every id is published, the first coupon is chosen and the set afterwards holds its id alone |
| Selector.SharedIdNeverChosen | post_to_facebook.py:219-221 | A coupon sharing its id with an earlier one (for example two coupons without an id) is never chosen |
| Selector.CycleInOrder | post_to_facebook.py:216-229 | From an empty set, over a list with distinct ids, run n posts coupon n, and after n runs exactly the first n ids are published |
| Selector.CycleRestarts | post_to_facebook.py:224-229 | After a full cycle every id is published, the next run resets and posts the first coupon, and its id is then the only one |
| StateStore.LoadState | post_to_facebook.py:35-39 | A missing file gives no ids and no last run; an existing file is taken as stored |
| StateStore.PublishedSet | post_to_facebook.py:194 | The set holds exactly the stored ids |
| StateStore.SortedIds | post_to_facebook.py:250 | The list is strictly ascending (so each element appears once) and holds exactly the set's elements |
| StateStore.SortedIdsOfAscending | post_to_facebook.py:194 | Loading a sorted list into a set and writing it back reproduces the list |
| StateStore.Committed | post_to_facebook.py:249-251 | The saved state lists exactly the published ids in ascending order, with the run time as `last_run` |
| Publisher.StripLeft | post_to_facebook.py:146 | The result is a suffix of the input, every character removed before it is whitespace, and it does not start with whitespace; it is the input when the input starts with non-whitespace |
| Publisher.StripRight | post_to_facebook.py:146 | The result is a prefix of the input, every character removed after it is whitespace, and it does not end with whitespace; it is the input when the input ends with non-whitespace |
| Publisher.Strip | post_to_facebook.py:146 | The result is a slice of the input with only whitespace before and after it, and whitespace at neither of its own ends; a text already without it is unchanged |
| Publisher.Truncate | post_to_facebook.py:148-151 | The result is at most 60000 code points; it is unchanged when within the limit; otherwise it is the first 59997 code points followed by "..." |
| Publisher.JoinSnoc | post_to_facebook.py:146 | Joining one more part appends the separator and that part (for a single part, the part alone) |
| Publisher.ExpiryText | post_to_facebook.py:126-132 | The expiry is shown formatted when it parses, and as its raw text otherwise |
| Publisher.AppendSection | post_to_facebook.py:96-99 | One optional field appends its line and a blank line when present, and nothing otherwise |
| Publisher.AppendFields | post_to_facebook.py:93-140 | The field lines are appended in the source's order, each only when its field is non-empty |
| Publisher.BuildParts | post_to_facebook.py:93-144 | The parts are the present fields' sections followed by the two footer lines |
| Publisher.FieldLineIffPresent | post_to_facebook.py:93-144 | A line starting with a field's prefix occurs iff that field is non-empty (the field's own line then occurs), and the footer lines come last |
| Publisher.MessageTextShape | post_to_facebook.py:93-146 | The joined text starts with a non-whitespace character and ends with the footer line and the site URL |
| Publisher.StripKeepsMessage | post_to_facebook.py:146 | Stripping the joined text removes nothing |
| Publisher.Message | post_to_facebook.py:91-151 | `make_message`'s result is at most 60000 code points; when the joined parts fit it is exactly them and ends with the footer; otherwise it is their first 59997 code points followed by "..." |
| Publisher.MakeMessage | post_to_facebook.py:91-151 | The method building the parts, joining, stripping and truncating returns `Message`, with the same length bound and the same untruncated and truncated cases |
| Publisher.PhotoUrl | post_to_facebook.py:236 | The photo is the store's logo when the store is an object with a non-empty logo, and otherwise the coupon's own logo |
| Publisher.PhotoUrlAsWritten | post_to_facebook.py:236 | The run aborts exactly when `store` is present but not an object; otherwise the URL agrees with `PhotoUrl` |
| Publisher.NullStoreAborts | post_to_facebook.py:236 | A coupon with `"store": null` and its own logo aborts the run as written, instead of posting that logo |
| Publisher.PostFor | post_to_facebook.py:236-243 | The request is a photo post iff a photo URL is found (and carries that URL); it is a text post otherwise; the message is `make_message`'s |
| Publisher.Succeeded | post_to_facebook.py:245 | A response counts as success iff the call returned an object holding `id` or `post_id`; a failed call never does |
| RunController.SelectNext | post_to_facebook.py:216-229 | The coupon taken is the one `Select` chooses: the first unpublished one with the set kept, or after a reset the first coupon with the set emptied |
| RunController.Run | post_to_facebook.py:192-260 | An empty fetch or no valid coupon exits 0 with no request and no save; mixed naive and aware sort keys exit 1 with no request and no save; otherwise the selected coupon is a valid coupon of the feed and is unpublished whenever any candidate is; a selected coupon whose `store` is not an object exits 1 with no request and no save; otherwise exactly its request is sent, success exits 0 and saves the committed advanced set, and failure exits 1 and saves nothing |

## Left out

- HTTP transport is out of scope: the feed GET, the photo and text POSTs, timeouts and `raise_for_status`. The model uses the decoded feed body, or None on any failure, and the response's JSON keys, or None.
- JSON decoding of the feed and of coupon fields is abstracted. The feed is a list, an object of fields in order, or anything else. Each coupon field is already reduced to "falsy or string", the shape the `or ""` chains read.
- A non-string field value would be formatted by Python's `str()` in an f-string. This is not modelled.
- `int()` coercion is not modelled for ids. A `coupon_id` or `id` that does not convert raises at line 219 and aborts the run; the model assumes ids are integers. Visibility coercion failures are modelled: `visible == None` makes the coupon invalid, as the `except` at lines 87-89 does.
- The clock is one instant per run. The source calls `datetime.now` separately for each validity check, for each parse failure in the sort key and for `last_run`.
- `last_run` is written as ISO-8601 text in the source; the model keeps it as an integer instant. Keys of the state file other than `published_ids` and `last_run` are not modelled: they are carried through unchanged in the source.
- Reading a malformed state file aborts the run (line 39). It is not modelled, because the model's stored state is already decoded.
- Configuration from the environment, the exit with status 2 when the page id or token is missing, and the access token are left out. So is logging to stdout and stderr.
- `save_state` file writing and `git_commit_and_push` are not modelled; the model assumes both succeed. A failing commit is caught and logged (line 54, or lines 256-257 when `git` itself is missing) after the file was written at line 252, so the state file on disk is the committed one and only the push is lost: a run that starts from a fresh checkout then sees the old state. A failing write is caught and logged (lines 256-257) and `main` exits 0, but line 42 opens the file with "w", so it may be left empty or partial, and `json.load` at line 39 would then abort every later run. In that case `RunController.Run` still reports the committed state as saved.
- After a successful post, the `try` at lines 247-257 can only fail in `int()` (see above) or in I/O. So the model always saves the committed state.
- Dates are an instant plus a naive/aware flag. Time zones, `dateutil` parsing rules and `strftime("%d-%m-%Y")` are parameters, not modelled.
- FeedFilter.OrderAsWritten: Python's `sorted` is Timsort, whose sequence of comparisons is not modelled; the model sorts by the insertion sort of `StableSort` and makes its comparisons as Python would. Any correct comparison sort compares the two elements that end up adjacent, so it also meets a naive-aware pair when both kinds occur, but that is not proved here.
- `Publisher.Truncate` counts code points, as Python's `len` does. Facebook's own length rules are not modelled.

## Findings

| source | as written | input that shows it | evidently intended | confidence | as-written member | corrected member |
|---|---|---|---|---|---|---|
| post_to_facebook.py:208-214 | `sort_key` returns naive datetimes for naive strings and for the "1970-01-01" fallback, but an aware `datetime.now(timezone.utc)` when parsing fails; `sorted` then compares naive with aware and raises `TypeError`, aborting the run | two valid coupons, one with `created_at` "2024-01-01 00:00:00", one with `created_at` "n/a" | every coupon gets a comparable key (naive dates read as UTC, as `is_valid_coupon` does) and the list is ordered | medium, not executed | FeedFilter.MixedKindsAbortSort | FeedFilter.Ordered |
| post_to_facebook.py:236 | `next_coupon.get("store", {})` returns `None` when the key is present with value null, and `.get("logo_url")` on it raises `AttributeError`, aborting the run | a valid coupon with `"store": null` and a `logo_url` | a missing or non-object store falls back to the coupon's own `logo_url` | medium, not executed | Publisher.NullStoreAborts | Publisher.PhotoUrl |

`RunController.Run` follows the program as written: it exits with status 1 and sends nothing on both inputs above. Otherwise it posts in the order of `FeedFilter.Ordered` and with the photo of `Publisher.PhotoUrl`, with which the as-written members then agree (`FeedFilter.OrderAsWrittenCorrect`, `Publisher.PhotoUrlAsWritten`).
