/** The post itself: the message composed from the chosen coupon, the choice
    between a photo post and a text post, and what counts as success. */
module Publisher {
  import opened Wrappers
  import opened Coupons

  /** The program's message ceiling, in code points. */
  const FacebookMessageMax: nat := 60000

  const TitlePrefix: string := "🎉 "
  const DiscountPrefix: string := "🔥 "
  const CodePrefix: string := "🎁 الكوبون: "
  const CountriesPrefix: string := "🌍 صالح لـ: "
  const NotePrefix: string := "📌 ملاحظة: "
  const ExpiryPrefix: string := "⏳ ينتهي في: "
  const LinkPrefix: string := "🛒 رابط الشراء: "
  const FooterLine: string := "💎 لمزيد من الكوبونات زوروا موقعنا:"
  const SiteUrl: string := "https://receivecoupons.com/"

  // ---------------------------------------------------------------- string helpers

  /** `sep.join(parts)`. */
  function Join(parts: seq<string>, sep: string): string
  {
    if parts == [] then ""
    else if |parts| == 1 then parts[0]
    else parts[0] + sep + Join(parts[1..], sep)
  }

  lemma {:induction false} JoinSnoc(parts: seq<string>, x: string, sep: string)
    ensures Join(parts + [x], sep) == if parts == [] then x else Join(parts, sep) + sep + x
  {
    if parts != [] {
      assert (parts + [x])[1..] == parts[1..] + [x];
      JoinSnoc(parts[1..], x, sep);
    }
  }

  /** The characters Python's `str.isspace` accepts. */
  predicate IsSpace(ch: char)
  {
    ch in {'\t', '\n', '\U{000B}', '\U{000C}', '\r', '\U{001C}', '\U{001D}', '\U{001E}', '\U{001F}',
           ' ', '\U{0085}', '\U{00A0}', '\U{1680}', '\U{2028}', '\U{2029}', '\U{202F}', '\U{205F}',
           '\U{3000}'}
    || '\U{2000}' <= ch <= '\U{200A}'
  }

  function StripLeft(s: string): (r: string)
    ensures |r| <= |s| && r == s[|s| - |r|..]
    ensures forall i :: 0 <= i < |s| - |r| ==> IsSpace(s[i])
    ensures r == [] || !IsSpace(r[0])
    ensures |s| > 0 && !IsSpace(s[0]) ==> r == s
  {
    if |s| > 0 && IsSpace(s[0]) then
      var rest := s[1..];
      var r := StripLeft(rest);
      assert forall i :: 1 <= i < |s| - |r| ==> s[i] == rest[i - 1];
      r
    else s
  }

  function StripRight(s: string): (r: string)
    ensures |r| <= |s| && r == s[..|r|]
    ensures forall i :: |r| <= i < |s| ==> IsSpace(s[i])
    ensures r == [] || !IsSpace(r[|r| - 1])
    ensures |s| > 0 && !IsSpace(s[|s| - 1]) ==> r == s
  {
    if |s| > 0 && IsSpace(s[|s| - 1]) then StripRight(s[..|s| - 1]) else s
  }

  /** `s.strip()`: a slice of `s` with only whitespace before and after it,
      and no whitespace at either of its own ends; a text that neither starts
      nor ends with whitespace is returned unchanged. */
  function Strip(s: string): (r: string)
    ensures exists k :: 0 <= k <= |s| - |r| && r == s[k..][..|r|]
                        && (forall i :: 0 <= i < k ==> IsSpace(s[i]))
                        && (forall i :: k + |r| <= i < |s| ==> IsSpace(s[i]))
    ensures r == [] || (!IsSpace(r[0]) && !IsSpace(r[|r| - 1]))
    ensures |s| > 0 && !IsSpace(s[0]) && !IsSpace(s[|s| - 1]) ==> r == s
  {
    StripSlice(s);
    StripRight(StripLeft(s))
  }

  /** Stripping the left end drops leading whitespace only, and stripping the
      right end then drops trailing whitespace of `s` only. */
  lemma StripSlice(s: string)
    ensures var r := StripRight(StripLeft(s));
            exists k :: 0 <= k <= |s| - |r| && r == s[k..][..|r|]
                        && (forall i :: 0 <= i < k ==> IsSpace(s[i]))
                        && (forall i :: k + |r| <= i < |s| ==> IsSpace(s[i]))
  {
    var left := StripLeft(s);
    var r := StripRight(left);
    var k := |s| - |left|;
    SpaceAfterSuffix(s, left, k, |r|);
    assert r == s[k..][..|r|];
    assert 0 <= k <= |s| - |r| && r == s[k..][..|r|]
           && (forall i :: 0 <= i < k ==> IsSpace(s[i]))
           && (forall i :: k + |r| <= i < |s| ==> IsSpace(s[i]));
  }

  /** Whitespace at the end of the suffix `s[k..]` is whitespace of `s`. */
  lemma SpaceAfterSuffix(s: string, suffix: string, k: nat, n: nat)
    requires k <= |s| && suffix == s[k..]
    requires forall i :: n <= i < |suffix| ==> IsSpace(suffix[i])
    ensures forall i :: k + n <= i < |s| ==> IsSpace(s[i])
  {
    forall i | k + n <= i < |s| ensures IsSpace(s[i]) {
      assert s[i] == suffix[i - k];
    }
  }

  /** `message[:FACEBOOK_MESSAGE_MAX - 3] + "..."` when the message is too long. */
  function Truncate(m: string): (r: string)
    ensures |r| <= FacebookMessageMax
    ensures |m| <= FacebookMessageMax ==> r == m
    ensures |m| > FacebookMessageMax ==>
              |r| == FacebookMessageMax && r[..FacebookMessageMax - 3] == m[..FacebookMessageMax - 3]
              && r[FacebookMessageMax - 3..] == "..."
  {
    if |m| > FacebookMessageMax then m[..FacebookMessageMax - 3] + "..." else m
  }

  // ---------------------------------------------------------------- message layout

  /** One optional field of the message: its line prefix, whether it is
      emitted, and the text that follows the prefix. */
  datatype Field = Field(prefix: string, present: bool, text: string)

  /** The expiry as shown: the date formatted day-month-year, or the raw text
      when it does not parse (`format` stands for parse-then-`strftime`). */
  function ExpiryText(expires: string, format: string -> Option<string>): (shown: string)
    ensures format(expires).Some? ==> shown == format(expires).value
    ensures format(expires).None? ==> shown == expires
  {
    match format(expires)
    case Some(formatted) => formatted
    case None => expires
  }

  /** The seven optional fields, in the order the message lists them. */
  function Fields(c: Coupon, format: string -> Option<string>): seq<Field>
  {
    [ Field(TitlePrefix, c.title != "", c.title),
      Field(DiscountPrefix, c.discountText != "", c.discountText),
      Field(CodePrefix, c.code != "", c.code),
      Field(CountriesPrefix, c.countries != "", c.countries),
      Field(NotePrefix, c.note != "", c.note),
      Field(ExpiryPrefix, c.expiresAt != "", ExpiryText(c.expiresAt, format)),
      Field(LinkPrefix, c.purchaseLink != "", c.purchaseLink) ]
  }

  /** A present field contributes its line and a blank line. */
  function Section(f: Field): seq<string>
  {
    if f.present then [f.prefix + f.text, ""] else []
  }

  function Sections(fs: seq<Field>): seq<string>
  {
    if fs == [] then [] else Sections(fs[..|fs| - 1]) + Section(fs[|fs| - 1])
  }

  /** The `parts` list of `make_message`. */
  function MessageParts(c: Coupon, format: string -> Option<string>): seq<string>
  {
    Sections(Fields(c, format)) + [FooterLine, SiteUrl]
  }

  /** The joined message, before stripping and truncation. */
  function MessageText(c: Coupon, format: string -> Option<string>): string
  {
    Join(MessageParts(c, format), "\n")
  }

  /** What `make_message` returns: the joined parts when they fit, else their
      first 59997 code points followed by "...". */
  function Message(c: Coupon, format: string -> Option<string>): (m: string)
    ensures |m| <= FacebookMessageMax
    ensures |MessageText(c, format)| <= FacebookMessageMax ==>
              m == MessageText(c, format) && EndsWith(m, FooterLine + "\n" + SiteUrl)
    ensures |MessageText(c, format)| > FacebookMessageMax ==>
              |m| == FacebookMessageMax
              && m[..FacebookMessageMax - 3] == MessageText(c, format)[..FacebookMessageMax - 3]
              && EndsWith(m, "...")
  {
    StripKeepsMessage(c, format);
    MessageTextShape(c, format);
    Truncate(Strip(MessageText(c, format)))
  }

  // ---------------------------------------------------------------- layout lemmas

  predicate EndsWith(s: string, suffix: string)
  {
    |suffix| <= |s| && s[|s| - |suffix|..] == suffix
  }

  /** Some line starts with `prefix`. */
  predicate HasLine(lines: seq<string>, prefix: string)
  {
    exists i :: 0 <= i < |lines| && prefix <= lines[i]
  }

  /** Every prefix is non-empty and no two start with the same character. */
  predicate DistinctHeads(fs: seq<Field>)
  {
    && (forall i :: 0 <= i < |fs| ==> |fs[i].prefix| > 0)
    && (forall i, j :: 0 <= i < j < |fs| ==> fs[i].prefix[0] != fs[j].prefix[0])
  }

  lemma SectionsStep(fs: seq<Field>, k: nat, next: nat)
    requires next == k + 1 <= |fs|
    ensures Sections(fs[..next]) == Sections(fs[..k]) + Section(fs[k])
  {
    assert fs[..next][..k] == fs[..k];
  }

  lemma SevenSections(fs: seq<Field>)
    requires |fs| == 7
    ensures Sections(fs) == Section(fs[0]) + Section(fs[1]) + Section(fs[2]) + Section(fs[3])
                          + Section(fs[4]) + Section(fs[5]) + Section(fs[6])
  {
    SectionsStep(fs, 0, 1);
    assert Sections(fs[..1]) == Section(fs[0]);
    SectionsStep(fs, 1, 2);
    SectionsStep(fs, 2, 3);
    SectionsStep(fs, 3, 4);
    SectionsStep(fs, 4, 5);
    SectionsStep(fs, 5, 6);
    SectionsStep(fs, 6, 7);
    assert fs[..7] == fs;
  }

  /** Every line of the sections is blank or the line of a present field. */
  lemma {:induction false} SectionLines(fs: seq<Field>, line: string)
    requires line in Sections(fs)
    ensures line == "" || exists k :: 0 <= k < |fs| && fs[k].present && line == fs[k].prefix + fs[k].text
  {
    if fs != [] {
      var front := fs[..|fs| - 1];
      if line !in Section(fs[|fs| - 1]) {
        assert line in Sections(front);
        SectionLines(front, line);
        if line != "" {
          var k :| 0 <= k < |front| && front[k].present && line == front[k].prefix + front[k].text;
          assert fs[k] == front[k];
        }
      }
    }
  }

  /** The first line of non-empty sections is a present field's line. */
  lemma {:induction false} SectionsFirstLine(fs: seq<Field>)
    requires Sections(fs) != []
    ensures exists k :: 0 <= k < |fs| && fs[k].present && Sections(fs)[0] == fs[k].prefix + fs[k].text
  {
    var front := fs[..|fs| - 1];
    if Sections(front) != [] {
      SectionsFirstLine(front);
      var k :| 0 <= k < |front| && front[k].present && Sections(front)[0] == front[k].prefix + front[k].text;
      assert fs[k] == front[k];
    } else {
      assert Sections(fs) == Section(fs[|fs| - 1]);
    }
  }

  lemma {:induction false} PresentLineIn(fs: seq<Field>, j: nat)
    requires j < |fs| && fs[j].present
    ensures fs[j].prefix + fs[j].text in Sections(fs)
  {
    var front := fs[..|fs| - 1];
    if j < |fs| - 1 {
      assert front[j] == fs[j];
      PresentLineIn(front, j);
    }
  }

  lemma NotPrefixByHead(p: string, s: string)
    requires |p| > 0 && |s| > 0 && p[0] != s[0]
    ensures !(p <= s)
  {
  }

  /** A line that starts with field `j`'s prefix, among sections with distinct
      prefixes and footer lines that start with none of them, shows that
      field `j` is present. */
  lemma LineShowsPresent(fs: seq<Field>, footer: seq<string>, j: nat, i: nat)
    requires DistinctHeads(fs) && j < |fs|
    requires forall i :: 0 <= i < |footer| ==> !(fs[j].prefix <= footer[i])
    requires i < |Sections(fs) + footer| && fs[j].prefix <= (Sections(fs) + footer)[i]
    ensures fs[j].present
  {
    var sections := Sections(fs);
    var line := (sections + footer)[i];
    if i >= |sections| {
      assert false;
    }
    assert line == sections[i];
    SectionLines(fs, line);
    var k :| 0 <= k < |fs| && fs[k].present && line == fs[k].prefix + fs[k].text;
    assert fs[k].prefix[0] == fs[j].prefix[0];
  }

  /** With distinct prefixes and footer lines that start with none of them,
      some line starts with field `j`'s prefix exactly when field `j` is
      present. */
  lemma PartsHaveLine(fs: seq<Field>, footer: seq<string>, j: nat)
    requires DistinctHeads(fs) && j < |fs|
    requires forall i :: 0 <= i < |footer| ==> !(fs[j].prefix <= footer[i])
    ensures HasLine(Sections(fs) + footer, fs[j].prefix) <==> fs[j].present
  {
    var sections := Sections(fs);
    var lines := sections + footer;
    if fs[j].present {
      PresentLineIn(fs, j);
      var i :| 0 <= i < |sections| && sections[i] == fs[j].prefix + fs[j].text;
      assert fs[j].prefix <= lines[i];
    }
    if HasLine(lines, fs[j].prefix) {
      var i :| 0 <= i < |lines| && fs[j].prefix <= lines[i];
      LineShowsPresent(fs, footer, j, i);
    }
  }

  /** The line prefixes of the seven fields, in order. */
  const Prefixes: seq<string> :=
    [TitlePrefix, DiscountPrefix, CodePrefix, CountriesPrefix, NotePrefix, ExpiryPrefix, LinkPrefix]

  /** The prefixes start with seven different emoji, none of them whitespace
      and none the first character of a footer line. */
  lemma PrefixHeads()
    ensures forall j :: 0 <= j < 7 ==>
              |Prefixes[j]| > 0 && !IsSpace(Prefixes[j][0])
              && Prefixes[j][0] != FooterLine[0] && Prefixes[j][0] != SiteUrl[0]
    ensures forall i, j :: 0 <= i < j < 7 ==> Prefixes[i][0] != Prefixes[j][0]
  {
    var heads := ['🎉', '🔥', '🎁', '🌍', '📌', '⏳', '🛒'];
    assert TitlePrefix[0] == '🎉' && DiscountPrefix[0] == '🔥' && CodePrefix[0] == '🎁' && CountriesPrefix[0] == '🌍';
    assert NotePrefix[0] == '📌' && ExpiryPrefix[0] == '⏳' && LinkPrefix[0] == '🛒';
    assert FooterLine[0] == '💎' && SiteUrl[0] == 'h';
    assert !IsSpace('🎉') && !IsSpace('🔥') && !IsSpace('🎁') && !IsSpace('🌍');
    assert !IsSpace('📌') && !IsSpace('⏳') && !IsSpace('🛒');
    assert forall j :: 0 <= j < 7 ==> Prefixes[j][0] == heads[j];
  }

  lemma FieldHeads(c: Coupon, format: string -> Option<string>)
    ensures DistinctHeads(Fields(c, format))
    ensures forall j :: 0 <= j < |Fields(c, format)| ==>
              !(Fields(c, format)[j].prefix <= FooterLine) && !(Fields(c, format)[j].prefix <= SiteUrl)
              && !IsSpace(Fields(c, format)[j].prefix[0])
  {
    var fs := Fields(c, format);
    assert |fs| == 7 && forall j :: 0 <= j < 7 ==> fs[j].prefix == Prefixes[j];
    PrefixHeads();
    assert |FooterLine| > 0 && |SiteUrl| > 0;
    forall j | 0 <= j < |fs|
      ensures !(fs[j].prefix <= FooterLine) && !(fs[j].prefix <= SiteUrl)
    {
      NotPrefixByHead(fs[j].prefix, FooterLine);
      NotPrefixByHead(fs[j].prefix, SiteUrl);
    }
  }

  /** `make_message` emits the line of an optional field (its prefix followed
      by the field) exactly when the field is non-empty, and the two footer
      lines always come last. */
  lemma FieldLineIffPresent(c: Coupon, format: string -> Option<string>, j: nat)
    requires j < 7
    ensures var f := Fields(c, format)[j];
            var parts := MessageParts(c, format);
            (f.present ==> f.prefix + f.text in parts)
            && (HasLine(parts, f.prefix) <==> f.present)
    ensures var parts := MessageParts(c, format);
            |parts| >= 2 && parts[|parts| - 2] == FooterLine && parts[|parts| - 1] == SiteUrl
  {
    var fs := Fields(c, format);
    FieldHeads(c, format);
    PartsHaveLine(fs, [FooterLine, SiteUrl], j);
    if fs[j].present {
      PresentLineIn(fs, j);
    }
  }

  lemma {:induction false} JoinStartsWith(parts: seq<string>, sep: string)
    requires parts != []
    ensures |Join(parts, sep)| >= |parts[0]| && Join(parts, sep)[..|parts[0]|] == parts[0]
  {
  }

  /** Joining lines that end with `a` and `b` gives a text ending with `a`,
      the separator and `b`. */
  lemma JoinEndsWith(front: seq<string>, a: string, b: string, sep: string)
    ensures EndsWith(Join(front + [a, b], sep), a + sep + b)
  {
    assert front + [a, b] == (front + [a]) + [b];
    JoinSnoc(front + [a], b, sep);
    JoinSnoc(front, a, sep);
    var tail := a + sep + b;
    if front != [] {
      var head := Join(front, sep) + sep;
      assert Join(front + [a, b], sep) == head + tail;
    } else {
      assert Join(front + [a, b], sep) == tail;
    }
  }

  /** A joined text starts with the first character of its first line. */
  lemma JoinFirstChar(parts: seq<string>, sep: string)
    requires parts != [] && parts[0] != ""
    ensures |Join(parts, sep)| > 0 && Join(parts, sep)[0] == parts[0][0]
  {
    JoinStartsWith(parts, sep);
    assert Join(parts, sep)[0] == Join(parts, sep)[..|parts[0]|][0];
  }

  /** The first line of the parts is a present field's line or the footer
      line, so it starts with a non-whitespace character. */
  lemma FirstPartHead(c: Coupon, format: string -> Option<string>)
    ensures var parts := MessageParts(c, format);
            parts[0] != "" && !IsSpace(parts[0][0])
  {
    var fs := Fields(c, format);
    var sections := Sections(fs);
    var parts := MessageParts(c, format);
    FieldHeads(c, format);
    if sections != [] {
      SectionsFirstLine(fs);
      var k :| 0 <= k < |fs| && fs[k].present && sections[0] == fs[k].prefix + fs[k].text;
      assert parts[0] == fs[k].prefix + fs[k].text;
      assert parts[0][0] == fs[k].prefix[0];
    } else {
      assert parts[0] == FooterLine;
      assert FooterLine[0] == '💎';
    }
  }

  /** The joined message starts with no whitespace and ends with the footer. */
  lemma MessageTextShape(c: Coupon, format: string -> Option<string>)
    ensures EndsWith(MessageText(c, format), FooterLine + "\n" + SiteUrl)
    ensures |MessageText(c, format)| > 0 && !IsSpace(MessageText(c, format)[0])
  {
    var parts := MessageParts(c, format);
    JoinEndsWith(Sections(Fields(c, format)), FooterLine, SiteUrl, "\n");
    FirstPartHead(c, format);
    JoinFirstChar(parts, "\n");
  }

  /** Stripping the joined parts removes nothing. */
  lemma StripKeepsMessage(c: Coupon, format: string -> Option<string>)
    ensures Strip(MessageText(c, format)) == MessageText(c, format)
  {
    MessageTextShape(c, format);
  }

  // ---------------------------------------------------------------- composition

  /** One `if field: parts.append(prefix + field); parts.append("")` step. */
  method AppendSection(parts: seq<string>, f: Field) returns (extended: seq<string>)
    ensures extended == parts + Section(f)
  {
    extended := parts;
    if f.present {
      extended := extended + [f.prefix + f.text];
      extended := extended + [""];
    }
  }

  /** The field lines of `make_message`, appended one optional field at a
      time, in the order of `Fields`. */
  method AppendFields(c: Coupon, format: string -> Option<string>) returns (parts: seq<string>)
    ensures var fs := Fields(c, format);
            parts == Section(fs[0]) + Section(fs[1]) + Section(fs[2]) + Section(fs[3])
                   + Section(fs[4]) + Section(fs[5]) + Section(fs[6])
  {
    ghost var fs := Fields(c, format);
    parts := [];
    parts := AppendSection(parts, Field(TitlePrefix, c.title != "", c.title));
    assert parts == Section(fs[0]);
    parts := AppendSection(parts, Field(DiscountPrefix, c.discountText != "", c.discountText));
    parts := AppendSection(parts, Field(CodePrefix, c.code != "", c.code));
    parts := AppendSection(parts, Field(CountriesPrefix, c.countries != "", c.countries));
    parts := AppendSection(parts, Field(NotePrefix, c.note != "", c.note));
    var expires := c.expiresAt;
    var expiresFormatted := "";
    if expires != "" {
      expiresFormatted := ExpiryText(expires, format);
    }
    assert Section(Field(ExpiryPrefix, expires != "", expiresFormatted)) == Section(fs[5]);
    parts := AppendSection(parts, Field(ExpiryPrefix, expires != "", expiresFormatted));
    parts := AppendSection(parts, Field(LinkPrefix, c.purchaseLink != "", c.purchaseLink));
  }

  /** The `parts` list of `make_message`: the field lines, then the footer. */
  method BuildParts(c: Coupon, format: string -> Option<string>) returns (parts: seq<string>)
    ensures parts == MessageParts(c, format)
  {
    parts := AppendFields(c, format);
    SevenSections(Fields(c, format));
    parts := parts + [FooterLine];
    parts := parts + [SiteUrl];
  }

  /** `make_message`: the parts joined with newlines, stripped, and cut to the
      ceiling with a "..." marker. */
  method MakeMessage(c: Coupon, format: string -> Option<string>) returns (message: string)
    ensures message == Message(c, format)
    ensures |message| <= FacebookMessageMax
    ensures |MessageText(c, format)| <= FacebookMessageMax ==>
              message == MessageText(c, format) && EndsWith(message, FooterLine + "\n" + SiteUrl)
    ensures |MessageText(c, format)| > FacebookMessageMax ==>
              |message| == FacebookMessageMax
              && message[..FacebookMessageMax - 3] == MessageText(c, format)[..FacebookMessageMax - 3]
              && EndsWith(message, "...")
  {
    var parts := BuildParts(c, format);
    message := Strip(Join(parts, "\n"));
    if |message| > FacebookMessageMax {
      message := message[..FacebookMessageMax - 3] + "...";
    }
  }

  // ---------------------------------------------------------------- photo and post

  /** `store.logo_url or logo_url or ""`, with a `store` that is not an object
      treated as absent. */
  function PhotoUrl(c: Coupon): (url: string)
    ensures c.store.StoreObject? && c.store.logoUrl != "" ==> url == c.store.logoUrl
    ensures !(c.store.StoreObject? && c.store.logoUrl != "") ==> url == c.logoUrl
  {
    if c.store.StoreObject? && c.store.logoUrl != "" then c.store.logoUrl else c.logoUrl
  }

  /** `next_coupon.get("store", {}).get("logo_url") or ...` as written: a
      `store` that is present but not an object (null, say) makes the second
      `.get` raise and the run abort, shown as `None`. */
  function PhotoUrlAsWritten(c: Coupon): (url: Option<string>)
    ensures url.None? <==> c.store.StoreNotObject?
    ensures url.Some? ==> url.value == PhotoUrl(c)
  {
    match c.store
    case StoreNotObject => None
    case NoStore => Some(if c.logoUrl != "" then c.logoUrl else "")
    case StoreObject(storeLogo) =>
      Some(if storeLogo != "" then storeLogo else if c.logoUrl != "" then c.logoUrl else "")
  }

  /** A coupon with `"store": null` and its own `logo_url` aborts the run as
      written instead of posting that logo. */
  lemma NullStoreAborts()
    ensures var c := Coupon(Some(1), Some(7), None, "", "", "Deal", "", "", "", "", "",
                            "https://example.com/logo.png", StoreNotObject);
            PhotoUrlAsWritten(c) == None && PhotoUrl(c) == "https://example.com/logo.png"
  {
  }

  /** The one request a run sends: to the photos edge when there is a photo
      URL, to the feed edge otherwise. */
  datatype PostRequest = PhotoPost(url: string, message: string) | TextPost(message: string)

  function PostFor(c: Coupon, format: string -> Option<string>): (req: PostRequest)
    ensures req.PhotoPost? <==> PhotoUrl(c) != ""
    ensures req.PhotoPost? ==> req.url == PhotoUrl(c)
    ensures req.message == Message(c, format)
  {
    var url := PhotoUrl(c);
    if url != "" then PhotoPost(url, Message(c, format)) else TextPost(Message(c, format))
  }

  /** The post succeeded: the response (the keys of its JSON object; None when
      the call failed) holds `id` or `post_id`. */
  predicate Succeeded(response: Option<set<string>>)
    ensures response.None? ==> !Succeeded(response)
    ensures response.Some? && ("id" in response.value || "post_id" in response.value) ==> Succeeded(response)
    ensures response.Some? && "id" !in response.value && "post_id" !in response.value ==> !Succeeded(response)
  {
    response.Some? && ("id" in response.value || "post_id" in response.value)
  }
}
