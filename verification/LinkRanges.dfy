/** Clickable link ranges of plain and formatted messages (`link_preview.rs`),
    in UTF-16 offsets. Formatted messages are scanned with block separators and
    the ranges mapped back onto the stored plain text. */
module LinkRanges {
  import opened Basics
  import opened LinkText
  import opened LinkScan

  datatype LinkRange = LinkRange(url: string, start: int, end: int)

  // -------------------------------------------------------------- plain text --

  predicate Within(text: string, m: Match) { m.start <= m.end <= |text| }

  /** The range one match publishes, computed from the raw match and what was
      trimmed off its end. */
  function RangeOf(text: string, m: Match): Option<LinkRange>
    requires Within(text, m)
  {
    var raw := text[m.start..m.end];
    var trimmed := Cleaned(raw);
    if trimmed == [] then None
    else
      var start := |Utf16(text[..m.start])|;
      var rawEnd := start + |Utf16(raw)|;
      Some(LinkRange(trimmed, start, rawEnd - |Utf16(raw[|trimmed|..])|))
  }

  /** The range addresses exactly its URL in `units`. */
  ghost predicate Addresses(units: seq<nat>, r: LinkRange) {
    0 <= r.start <= r.end <= |units| && units[r.start..r.end] == Utf16(r.url)
  }

  /** A detected URL: it carries a web scheme and no line feed. */
  predicate IsLink(url: string) {
    StartsWithHttp(url) && '\n' !in url
  }

  /** Where a part of a text lies in its code units. */
  lemma PartAddressed(front: string, url: string, tail: string, rest: string)
    ensures var units, start := Utf16(front + (url + tail) + rest), |Utf16(front)|;
            && start + |Utf16(url)| + |Utf16(tail)| == |Utf16(front + (url + tail))| <= |units|
            && |Utf16(url + tail)| == |Utf16(url)| + |Utf16(tail)|
            && units[start..start + |Utf16(url)|] == Utf16(url)
  {
    hide Utf16;
    Utf16Concat(url, tail);
    Utf16Concat(front, url + tail);
    Utf16Concat(front + (url + tail), rest);
  }

  lemma UrlHasNoLineFeed(text: string, m: Match, url: string)
    requires IsUrl(text, m) && url <= text[m.start..m.end]
    ensures '\n' !in url
  {
  }

  lemma RangeExact(text: string, m: Match)
    requires IsUrl(text, m)
    ensures Within(text, m)
    ensures var r := RangeOf(text, m);
            && r.Some? && r.value.url == Cleaned(text[m.start..m.end]) && IsLink(r.value.url)
            && Addresses(Utf16(text), r.value)
            && r.value.start == |Utf16(text[..m.start])| && r.value.end <= |Utf16(text[..m.end])|
  {
    hide Utf16, IsUrlChar, Cleaned;
    var raw := text[m.start..m.end];
    CleanedKeepsScheme(raw);
    var url := Cleaned(raw);
    var front, tail, rest := text[..m.start], raw[|url|..], text[m.end..];
    assert raw == url + tail;
    assert text == front + (url + tail) + rest;
    assert text[..m.end] == front + (url + tail);
    PartAddressed(front, url, tail, rest);
    UrlHasNoLineFeed(text, m, url);
  }

  /** `extract_link_ranges`, as a map over the matches. */
  function RangesOf(text: string, ms: seq<Match>): seq<LinkRange>
    requires forall i :: 0 <= i < |ms| ==> Within(text, ms[i])
  {
    if ms == [] then []
    else
      var n := |ms| - 1;
      RangesOf(text, ms[..n]) + match RangeOf(text, ms[n]) { case None => [] case Some(r) => [r] }
  }

  /** Ranges in order, disjoint, each addressing its own link. */
  ghost predicate Published(units: seq<nat>, ranges: seq<LinkRange>) {
    && (forall i :: 0 <= i < |ranges| ==> IsLink(ranges[i].url) && Addresses(units, ranges[i]))
    && (forall i, j :: 0 <= i < j < |ranges| ==> ranges[i].end <= ranges[j].start)
  }

  lemma Utf16Monotone(text: string, a: nat, b: nat)
    requires a <= b <= |text|
    ensures |Utf16(text[..a])| <= |Utf16(text[..b])|
  {
    assert text[..b] == text[..a] + text[a..b];
    Utf16Concat(text[..a], text[a..b]);
  }

  lemma PlacedAreUrls(text: string, ms: seq<Match>, from: nat)
    requires WellPlaced(text, ms, from)
    ensures AllUrls(text, ms)
  {
  }

  ghost predicate AllUrls(text: string, ms: seq<Match>) {
    forall i :: 0 <= i < |ms| ==> IsUrl(text, ms[i]) && Within(text, ms[i])
  }

  /** Every match yields its range, at its own index. */
  lemma {:induction false} RangesAligned(text: string, ms: seq<Match>)
    requires AllUrls(text, ms)
    ensures |RangesOf(text, ms)| == |ms|
    ensures forall i :: 0 <= i < |ms| ==> RangeOf(text, ms[i]) == Some(RangesOf(text, ms)[i])
  {
    hide RangeOf, IsUrl, Within, Utf16, Cleaned, IsLink, Addresses;
    if ms != [] {
      var n := |ms| - 1;
      RangesAligned(text, ms[..n]);
      RangeExact(text, ms[n]);
      var rs := RangesOf(text, ms[..n]);
      assert RangesOf(text, ms) == rs + [RangeOf(text, ms[n]).value];
      forall i | 0 <= i < n ensures RangeOf(text, ms[i]) == Some(rs[i]) {
        assert ms[..n][i] == ms[i];
      }
    }
  }

  lemma RangesPublished(text: string, ms: seq<Match>)
    requires WellPlaced(text, ms, 0) && AllUrls(text, ms)
    ensures |RangesOf(text, ms)| == |ms| && Published(Utf16(text), RangesOf(text, ms))
    ensures forall i :: 0 <= i < |ms| ==> Shows(text, ms[i], RangesOf(text, ms)[i])
  {
    hide RangeOf, RangesOf, IsUrl, Within, Utf16, Cleaned, IsLink, Addresses;
    RangesAligned(text, ms);
    var rs := RangesOf(text, ms);
    forall i | 0 <= i < |rs| ensures IsLink(rs[i].url) && Addresses(Utf16(text), rs[i]) && Shows(text, ms[i], rs[i]) {
      RangeExact(text, ms[i]);
    }
    forall i, j | 0 <= i < j < |rs| ensures rs[i].end <= rs[j].start {
      RangesApart(text, ms[i], ms[j]);
    }
  }

  lemma RangesApart(text: string, a: Match, b: Match)
    requires IsUrl(text, a) && IsUrl(text, b) && a.end <= b.start
    ensures Within(text, a) && Within(text, b)
    ensures RangeOf(text, a).Some? && RangeOf(text, b).Some?
    ensures RangeOf(text, a).value.end <= RangeOf(text, b).value.start
  {
    RangeExact(text, a);
    RangeExact(text, b);
    Utf16Monotone(text, a.end, b.start);
  }

  function LinkRangesIn(text: string): seq<LinkRange> {
    FoundUrlsWellPlaced(text, 0);
    PlacedAreUrls(text, FindUrls(text, 0), 0);
    RangesOf(text, FindUrls(text, 0))
  }

  /** The range shows what is left of the match and begins where it begins. */
  ghost predicate Shows(text: string, m: Match, r: LinkRange) {
    Within(text, m) && r.url == Cleaned(text[m.start..m.end]) && r.start == |Utf16(text[..m.start])|
  }

  /** Every match of the pattern is published exactly once, in its place; none is
      skipped as empty. */
  lemma LinkRangesExact(text: string)
    ensures Published(Utf16(text), LinkRangesIn(text))
    ensures |LinkRangesIn(text)| == |FindUrls(text, 0)|
    ensures forall i :: 0 <= i < |FindUrls(text, 0)| ==> Shows(text, FindUrls(text, 0)[i], LinkRangesIn(text)[i])
  {
    FoundUrlsWellPlaced(text, 0);
    PlacedAreUrls(text, FindUrls(text, 0), 0);
    RangesPublished(text, FindUrls(text, 0));
  }

  /** `extract_link_ranges` */
  method ExtractLinkRanges(text: string) returns (ranges: seq<LinkRange>)
    ensures ranges == LinkRangesIn(text)
    ensures Published(Utf16(text), ranges) && |ranges| == |FindUrls(text, 0)|
  {
    LinkRangesExact(text);
    var matches := FindUrls(text, 0);
    FoundUrlsWellPlaced(text, 0);
    PlacedAreUrls(text, matches, 0);
    ranges := CollectRanges(text, matches);
  }

  method CollectRanges(text: string, matches: seq<Match>) returns (ranges: seq<LinkRange>)
    requires forall i :: 0 <= i < |matches| ==> Within(text, matches[i])
    ensures ranges == RangesOf(text, matches)
  {
    hide Within, RangeOf;
    ranges := [];
    for i := 0 to |matches|
      invariant ranges == RangesOf(text, matches[..i])
    {
      assert matches[..i + 1][..i] == matches[..i];
      var found := RangeOfMatch(text, matches[i]);
      if found.Some? {
        ranges := ranges + [found.value];
      }
    }
    assert matches[..|matches|] == matches;
  }

  /** One pass of the extraction loop. */
  method RangeOfMatch(text: string, m: Match) returns (r: Option<LinkRange>)
    requires Within(text, m)
    ensures r == RangeOf(text, m)
  {
    hide Utf16, Truncate, Trim, IsTrimmed;
    var raw := text[m.start..m.end];
    var stopped := Truncate(raw);
    var trimmed := TrimTrailingUrlPunctuation(stopped);
    assert trimmed == Cleaned(raw);
    if trimmed == [] {
      return None;
    }
    var start := |Utf16(text[..m.start])|;
    var rawEnd := start + |Utf16(raw)|;
    var trailing := |Utf16(raw[|trimmed|..])|;
    r := Some(LinkRange(trimmed, start, rawEnd - trailing));
  }

  // ---------------------------------------------------------- formatted text --

  /** The filter and mapping of `extract_formatted_link_ranges` for one range. */
  function MapBack(s: Separated, r: LinkRange): Option<LinkRange>
    requires 0 <= r.start && 0 <= r.end
  {
    if exists i :: 0 <= i < |s.offsets| && r.start <= s.offsets[i] < r.end then None
    else
      var start, end := BasisOffset(r.start, s.offsets), BasisOffset(r.end, s.offsets);
      if end - start == |Utf16(r.url)| then Some(LinkRange(r.url, start, end)) else None
  }

  function MapAllBack(s: Separated, ranges: seq<LinkRange>): seq<LinkRange>
    requires forall i :: 0 <= i < |ranges| ==> 0 <= ranges[i].start && 0 <= ranges[i].end
  {
    if ranges == [] then []
    else
      var n := |ranges| - 1;
      MapAllBack(s, ranges[..n]) + match MapBack(s, ranges[n]) { case None => [] case Some(r) => [r] }
  }

  /** `extract_formatted_link_ranges` */
  function FormattedLinkRanges(nodes: seq<Node>): seq<LinkRange> {
    var s := Collect(BLANK, nodes);
    LinkRangesExact(s.text);
    MapAllBack(s, LinkRangesIn(s.text))
  }

  lemma {:induction false} NoLineFeedUnit(url: string)
    requires '\n' !in url
    ensures 10 !in Utf16(url)
  {
    if url != [] {
      NoLineFeedUnit(url[..|url| - 1]);
    }
  }

  lemma LinkAvoidsSeparators(s: Separated, plain: string, r: LinkRange)
    requires StandsFor(s, plain) && IsLink(r.url) && Addresses(Utf16(s.text), r)
    ensures forall o :: o in s.offsets ==> o < r.start || o >= r.end
  {
    hide Utf16;
    NoLineFeedUnit(r.url);
    forall o | r.start <= o < r.end ensures Utf16(s.text)[o] in Utf16(r.url) {
      assert Utf16(s.text)[r.start..r.end][o - r.start] == Utf16(s.text)[o];
    }
  }

  /** A detected link never touches an inserted separator, so its range maps
      back to the very same units of the plain text. */
  lemma LinkMapsBack(s: Separated, plain: string, r: LinkRange)
    requires StandsFor(s, plain) && IsLink(r.url) && Addresses(Utf16(s.text), r)
    ensures var back := MapBack(s, r);
            && back == Some(LinkRange(r.url, BasisOffset(r.start, s.offsets), BasisOffset(r.end, s.offsets)))
            && Addresses(Utf16(plain), back.value)
  {
    hide Utf16;
    LinkAvoidsSeparators(s, plain, r);
    StretchMapsBack(s, plain, r.start, r.end);
    assert forall i :: 0 <= i < |s.offsets| ==> s.offsets[i] in s.offsets;
  }

  lemma BasisMonotone(offsets: seq<nat>, a: nat, b: nat)
    requires Increasing(offsets) && a <= b
    ensures BasisOffset(a, offsets) <= BasisOffset(b, offsets)
    decreases b - a
  {
    if a < b {
      SeparatorsBeforeStep(offsets, a);
      BasisMonotone(offsets, a + 1, b);
    }
  }

  lemma {:induction false} AllMapBack(s: Separated, plain: string, ranges: seq<LinkRange>)
    requires StandsFor(s, plain) && Published(Utf16(s.text), ranges)
    ensures var back := MapAllBack(s, ranges);
            && |back| == |ranges|
            && (forall i :: 0 <= i < |ranges| ==>
                  MapBack(s, ranges[i]) == Some(back[i]) && back[i].url == ranges[i].url)
            && Published(Utf16(plain), back)
  {
    hide Utf16, StandsFor, MapBack, IsLink;
    if ranges != [] {
      var n := |ranges| - 1;
      AllMapBack(s, plain, ranges[..n]);
      LinkMapsBack(s, plain, ranges[n]);
      var before := MapAllBack(s, ranges[..n]);
      forall i | 0 <= i < n ensures before[i].end <= MapBack(s, ranges[n]).value.start {
        assert ranges[..n][i] == ranges[i];
        LinkMapsBack(s, plain, ranges[i]);
        OffsetsIncrease(s, plain);
        BasisMonotone(s.offsets, ranges[i].end, ranges[n].start);
      }
    }
  }

  lemma OffsetsIncrease(s: Separated, plain: string)
    requires StandsFor(s, plain)
    ensures Increasing(s.offsets)
  {
  }

  /** For every HTML tree, every link detected in the separated text is
      published: neither filter ever drops one. The published ranges slice the
      plain text to exactly their URLs, in order and without overlap. */
  lemma FormattedRangesExact(nodes: seq<Node>)
    ensures var found, out := LinkRangesIn(Collect(BLANK, nodes).text), FormattedLinkRanges(nodes);
            && |out| == |found|
            && (forall i :: 0 <= i < |out| ==> out[i].url == found[i].url)
            && Published(Utf16(PlainText(nodes)), out)
  {
    var s := Collect(BLANK, nodes);
    SeparatedTextStands(nodes);
    LinkRangesExact(s.text);
    hide Utf16, StandsFor, Collect, PlainText, LinkRangesIn, Published;
    AllMapBack(s, PlainText(nodes), LinkRangesIn(s.text));
  }

  /** A mapped range lies on one side of every separated offset. */
  lemma RangeBesideSeparator(s: Separated, plain: string, r: LinkRange, b: nat)
    requires StandsFor(s, plain) && IsLink(r.url) && Addresses(Utf16(s.text), r) && SeparatedAt(s, b)
    ensures BasisOffset(r.end, s.offsets) <= b || b <= BasisOffset(r.start, s.offsets)
  {
    hide Utf16, IsLink, StandsFor;
    LinkAvoidsSeparators(s, plain, r);
    OffsetsIncrease(s, plain);
    var o :| o in s.offsets && BasisOffset(o, s.offsets) == b;
    BesideOffset(s.offsets, r.start, r.end, o);
  }

  lemma BesideOffset(offsets: seq<nat>, start: nat, end: nat, o: nat)
    requires Increasing(offsets) && o in offsets && (o < start || o >= end)
    ensures || BasisOffset(end, offsets) <= BasisOffset(o, offsets)
            || BasisOffset(o, offsets) <= BasisOffset(start, offsets)
  {
    hide SeparatorsBefore, Increasing;
    if o < start {
      SeparatorsBeforeStep(offsets, o);
      BasisMonotone(offsets, o + 1, start);
    } else {
      BasisMonotone(offsets, end, o);
    }
  }

  /** The point of the separators: for every HTML tree, no published link runs
      across the beginning or the end of a block element at any depth, so a URL
      that ends a block never swallows the next block's first word. */
  lemma NoLinkCrossesBlock(nodes: seq<Node>, i: nat, b: nat)
    requires i < |FormattedLinkRanges(nodes)| && b in Boundaries(nodes, 0)
    ensures var r := FormattedLinkRanges(nodes)[i]; r.end <= b || b <= r.start
  {
    var s := Collect(BLANK, nodes);
    CollectCovers(BLANK, "", nodes, {});
    SeparatedTextStands(nodes);
    LinkRangesExact(s.text);
    FormattedRangesExact(nodes);
    assert Utf16("") == [];
    hide Utf16, StandsFor, Collect, PlainText, LinkRangesIn, Boundaries, SeparatedAt, MapBack, BasisOffset, IsLink;
    AllMapBack(s, PlainText(nodes), LinkRangesIn(s.text));
    var found := LinkRangesIn(s.text)[i];
    LinkMapsBack(s, PlainText(nodes), found);
    if b != 0 {
      assert SeparatedAt(s, b);
      RangeBesideSeparator(s, PlainText(nodes), found, b);
    }
  }

  // ------------------------------------------------------------------ builder --

  /** `BlockSeparatedText`, filled in place by the recursive walk. */
  class BlockSeparatedText {
    var text: string
    var utf16Len: nat
    var separatorOffsets: seq<nat>

    function View(): Separated
      reads this
    {
      Separated(text, separatorOffsets)
    }

    /** The running length is the length of the text so far. */
    ghost predicate Valid()
      reads this
    {
      utf16Len == |Utf16(text)|
    }

    constructor ()
      ensures Valid() && View() == BLANK
    {
      text, utf16Len, separatorOffsets := "", 0, [];
    }

    method Push(t: string)
      requires Valid()
      modifies this
      ensures Valid() && View() == PushText(old(View()), t)
    {
      Utf16Concat(text, t);
      text := text + t;
      utf16Len := utf16Len + |Utf16(t)|;
    }

    method Separate()
      requires Valid()
      modifies this
      ensures Valid() && View() == PushSeparator(old(View()))
    {
      if text == [] {
        return;
      }
      Utf16Concat(text, "\n");
      LineFeedUnits();
      separatorOffsets := separatorOffsets + [utf16Len];
      text := text + "\n";
      utf16Len := utf16Len + 1;
    }

    method Walk(nodes: seq<Node>)
      requires Valid()
      modifies this
      ensures Valid() && View() == Collect(old(View()), nodes)
      decreases nodes
    {
      hide Utf16, PushText, PushSeparator, IsBlockElement;
      for i := 0 to |nodes|
        invariant Valid() && Collect(View(), nodes[i..]) == Collect(old(View()), nodes)
      {
        var node := nodes[i];
        assert nodes[i..][1..] == nodes[i + 1..] && nodes[i..][0] == node;
        match node {
          case Text(t) =>
            Push(t);
          case Element(tag, children) =>
            if IsBlockElement(tag) {
              Separate();
            }
            Walk(children);
            if IsBlockElement(tag) {
              Separate();
            }
          case Other(children) =>
            Walk(children);
        }
      }
    }
  }
}
