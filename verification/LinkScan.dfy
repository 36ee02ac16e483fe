/** URL detection in text (`link_preview.rs`): the pattern
    `https?://` followed by URL characters, cut at sentence punctuation and
    trimmed of trailing punctuation that does not close a bracket. */
module LinkScan {
  import opened Basics

  // ------------------------------------------------------- character classes --

  /** The Unicode White_Space property, which `\s` matches. */
  predicate IsWhitespace(c: char) {
    var v := c as int;
    || 0x09 <= v <= 0x0D || v == 0x20 || v == 0x85 || v == 0xA0 || v == 0x1680
    || 0x2000 <= v <= 0x200A || v == 0x2028 || v == 0x2029 || v == 0x202F || v == 0x205F || v == 0x3000
  }

  predicate IsUrlChar(c: char) {
    !IsWhitespace(c) && c !in {'<', '>', '"', '{', '}', '|', '\\', '^', '`', '[', ']'}
  }

  /** CJK and typographic punctuation that ends a URL wherever it occurs. */
  predicate IsStopPunctuation(c: char) {
    var v := c as int;
    || 0x3001 <= v <= 0x3003 || 0x3008 <= v <= 0x3011 || 0x3014 <= v <= 0x301F
    || 0xFF08 <= v <= 0xFF09 || v in {0xFF0C, 0xFF0E, 0xFF1A, 0xFF1B, 0xFF1F, 0xFF01}
    || 0x2018 <= v <= 0x201F || v == 0x2026
  }

  predicate IsTrailingPunctuation(c: char) {
    || c in {'.', ' ', ',', ';', ':', '!', '?', '"', '\'', 0xA0 as char}
    || c in {')', ']', '}', '>'}
    || IsStopPunctuation(c)
  }

  function MatchingOpenBracket(c: char): Option<char> {
    match c
    case ')' => Some('(')
    case ']' => Some('[')
    case '}' => Some('{')
    case '>' => Some('<')
    case _ => None
  }

  function Count(s: string, c: char): nat {
    if s == [] then 0 else Count(s[..|s| - 1], c) + if s[|s| - 1] == c then 1 else 0
  }

  // ------------------------------------------------------ cutting and trimming --

  /** `truncate_at_stop_punctuation`: everything before the first stop mark. */
  function Truncate(url: string): (r: string)
    ensures r <= url
    ensures forall i :: 0 <= i < |r| ==> !IsStopPunctuation(r[i])
    ensures |r| < |url| ==> IsStopPunctuation(url[|r|])
  {
    if url == [] || IsStopPunctuation(url[0]) then []
    else
      var rest := Truncate(url[1..]);
      assert |rest| < |url[1..]| ==> url[1..][|rest|] == url[|rest| + 1];
      [url[0]] + rest
  }

  /** The last character is trailing punctuation and closes no bracket that is
      still open before it. */
  predicate EndsInLoosePunctuation(s: string) {
    && s != []
    && var c := s[|s| - 1];
       && IsTrailingPunctuation(c)
       && (MatchingOpenBracket(c).Some? ==>
             Count(s[..|s| - 1], MatchingOpenBracket(c).value) <= Count(s[..|s| - 1], c))
  }

  /** `r` is the longest prefix of `url` that does not end in loose punctuation. */
  predicate IsTrimmed(url: string, r: string) {
    && r <= url
    && !EndsInLoosePunctuation(r)
    && forall n :: |r| < n <= |url| ==> EndsInLoosePunctuation(url[..n])
  }

  function Trim(url: string): (r: string)
    ensures IsTrimmed(url, r)
  {
    if EndsInLoosePunctuation(url) then
      var shorter := url[..|url| - 1];
      assert forall n :: 0 <= n <= |shorter| ==> shorter[..n] == url[..n];
      assert url[..|url|] == url;
      Trim(shorter)
    else url
  }

  /** `trim_trailing_url_punctuation` */
  method TrimTrailingUrlPunctuation(url: string) returns (trimmed: string)
    ensures IsTrimmed(url, trimmed) && trimmed == Trim(url)
  {
    var end: nat := |url|;
    assert url[..end] == url;
    while end > 0
      invariant end <= |url| && Trim(url[..end]) == Trim(url)
    {
      var c := url[end - 1];
      assert url[..end][..end - 1] == url[..end - 1];
      if !IsTrailingPunctuation(c) {
        break;
      }
      var open := MatchingOpenBracket(c);
      if open.Some? {
        var opens := Count(url[..end - 1], open.value);
        var closes := Count(url[..end - 1], c);
        if opens > closes {
          break;
        }
      }
      end := end - 1;
    }
    trimmed := url[..end];
  }

  /** What stays of a detected URL. */
  function Cleaned(raw: string): (r: string)
    ensures r <= raw
  {
    Trim(Truncate(raw))
  }

  predicate StartsWithHttp(s: string) {
    |s| >= 4 && s[..4] == "http"
  }

  /** Cleaning never eats into the scheme, so it never leaves nothing. */
  lemma CleanedKeepsScheme(raw: string)
    requires StartsWithHttp(raw)
    ensures StartsWithHttp(Cleaned(raw)) && Cleaned(raw) <= raw
  {
    var cut := Truncate(raw);
    assert raw[0] == 'h' && raw[1] == 't' && raw[2] == 't' && raw[3] == 'p';
    assert |cut| < |raw| ==> |cut| >= 4 by {
      HttpIsNotPunctuation();
    }
    assert cut[..4] == raw[..4];
    var r := Trim(cut);
    HttpIsNotPunctuation();
    assert cut[..4][3] == 'p' && !EndsInLoosePunctuation(cut[..4]);
    assert r[..4] == cut[..4];
  }

  lemma HttpIsNotPunctuation()
    ensures !IsTrailingPunctuation('p')
    ensures !IsStopPunctuation('h') && !IsStopPunctuation('t') && !IsStopPunctuation('p')
  {
  }

  // ------------------------------------------------------- classes, spelled out --

  lemma {:induction false} CountExact(s: string, c: char)
    ensures Count(s, c) == multiset(s)[c]
  {
    if s != [] {
      CountExact(s[..|s| - 1], c);
      assert s == s[..|s| - 1] + [s[|s| - 1]];
    }
  }

  /** The marks that end a URL, one by one. */
  lemma StopMarksExact(c: char)
    ensures IsStopPunctuation(c) <==>
              c as int in
                {0x3001, 0x3002, 0x3003, 0x3008, 0x3009, 0x300A, 0x300B, 0x300C, 0x300D, 0x300E, 0x300F,
                0x3010, 0x3011, 0x3014, 0x3015, 0x3016, 0x3017, 0x3018, 0x3019, 0x301A, 0x301B, 0x301C,
                0x301D, 0x301E, 0x301F, 0xFF01, 0xFF08, 0xFF09, 0xFF0C, 0xFF0E, 0xFF1A, 0xFF1B, 0xFF1F,
                0x2018, 0x2019, 0x201A, 0x201B, 0x201C, 0x201D, 0x201E, 0x201F, 0x2026}
  {
  }

  /** White space, one by one. */
  lemma SpacesExact(c: char)
    ensures IsWhitespace(c) <==>
              c as int in
                {0x9, 0xA, 0xB, 0xC, 0xD, 0x20, 0x85, 0xA0, 0x1680, 0x2000, 0x2001, 0x2002, 0x2003,
                0x2004, 0x2005, 0x2006, 0x2007, 0x2008, 0x2009, 0x200A, 0x2028, 0x2029, 0x202F, 0x205F,
                0x3000}
  {
  }

  /** What is trimmed from the end: a closing bracket unless more of its openers
      than of itself precede it, and any of the listed marks; nothing else. */
  lemma LooseExact(s: string, c: char)
    ensures EndsInLoosePunctuation(s + [c]) <==>
              if c == ')' then multiset(s)['('] <= multiset(s)[')']
              else if c == ']' then multiset(s)['['] <= multiset(s)[']']
              else if c == '}' then multiset(s)['{'] <= multiset(s)['}']
              else if c == '>' then multiset(s)['<'] <= multiset(s)['>']
              else || c == '.' || c == ',' || c == ';' || c == ':' || c == '!' || c == '?' || c == '"' || c == '\''
                   || c == ' ' || c as int == 0xA0 || IsStopPunctuation(c)
  {
    assert (s + [c])[..|s|] == s;
    CountExact(s, '(');
    CountExact(s, ')');
    CountExact(s, '[');
    CountExact(s, ']');
    CountExact(s, '{');
    CountExact(s, '}');
    CountExact(s, '<');
    CountExact(s, '>');
    hide Count;
  }

  // ------------------------------------------------------------------ matches --

  /** A match of the URL pattern, by character index. */
  datatype Match = Match(start: nat, end: nat)

  function RunEnd(text: string, from: nat): (end: nat)
    requires from <= |text|
    ensures from <= end <= |text|
    ensures forall i :: from <= i < end ==> IsUrlChar(text[i])
    ensures end < |text| ==> !IsUrlChar(text[end])
    decreases |text| - from
  {
    if from < |text| && IsUrlChar(text[from]) then RunEnd(text, from + 1) else from
  }

  /** The end of the match that begins at `i`, if one does. */
  function MatchAt(text: string, i: nat): Option<nat> {
    if i + 8 < |text| && text[i..i + 8] == "https://" && IsUrlChar(text[i + 8]) then Some(RunEnd(text, i + 8))
    else if i + 7 < |text| && text[i..i + 7] == "http://" && IsUrlChar(text[i + 7]) then Some(RunEnd(text, i + 7))
    else None
  }

  /** `find_iter`: leftmost matches that do not overlap. */
  function FindUrls(text: string, from: nat): seq<Match>
    decreases |text| - from
  {
    if from >= |text| then []
    else
      match MatchAt(text, from)
      case None => FindUrls(text, from + 1)
      case Some(end) =>
        MatchIsUrl(text, from);
        [Match(from, end)] + FindUrls(text, end)
  }

  ghost predicate IsUrl(text: string, m: Match) {
    && m.start + 4 <= m.end <= |text|
    && StartsWithHttp(text[m.start..m.end])
    && (forall i :: m.start <= i < m.end ==> IsUrlChar(text[i]))
    && (m.end < |text| ==> !IsUrlChar(text[m.end]))
  }

  lemma MatchIsUrl(text: string, i: nat)
    requires MatchAt(text, i).Some?
    ensures i < MatchAt(text, i).value <= |text| && IsUrl(text, Match(i, MatchAt(text, i).value))
  {
    hide IsUrlChar;
    var end := MatchAt(text, i).value;
    if i + 8 < |text| && text[i..i + 8] == "https://" && IsUrlChar(text[i + 8]) {
      SchemeRuns(text, i, "https://", end);
    } else {
      SchemeRuns(text, i, "http://", end);
    }
  }

  lemma SchemeChars()
    ensures IsUrlChar('h') && IsUrlChar('t') && IsUrlChar('p') && IsUrlChar('s') && IsUrlChar(':') && IsUrlChar('/')
  {
  }

  lemma SchemeIsUrlText(scheme: string)
    requires scheme == "http://" || scheme == "https://"
    ensures |scheme| >= 4 && scheme[..4] == "http" && forall k :: 0 <= k < |scheme| ==> IsUrlChar(scheme[k])
  {
    SchemeChars();
    hide IsUrlChar;
  }

  /** A scheme of URL characters, continued by a run, is one run. */
  lemma SchemeExtendsRun(text: string, i: nat, scheme: string, end: nat)
    requires i + |scheme| <= |text| && text[i..i + |scheme|] == scheme && end == RunEnd(text, i + |scheme|)
    requires forall k :: 0 <= k < |scheme| ==> IsUrlChar(scheme[k])
    ensures forall j :: i <= j < end ==> IsUrlChar(text[j])
  {
    hide IsUrlChar;
    forall j | i <= j < i + |scheme| ensures IsUrlChar(text[j]) {
      assert text[i..i + |scheme|][j - i] == scheme[j - i];
    }
  }

  lemma PrefixOfMatch(text: string, i: nat, scheme: string, end: nat)
    requires 4 <= |scheme| && i + |scheme| <= end <= |text| && text[i..i + |scheme|] == scheme
    ensures text[i..end][..4] == scheme[..4]
  {
    assert text[i..end][..|scheme|] == text[i..i + |scheme|];
    assert text[i..end][..4] == text[i..end][..|scheme|][..4];
  }

  lemma SchemeRuns(text: string, i: nat, scheme: string, end: nat)
    requires scheme == "http://" || scheme == "https://"
    requires i + |scheme| <= |text| && text[i..i + |scheme|] == scheme && end == RunEnd(text, i + |scheme|)
    ensures IsUrl(text, Match(i, end))
  {
    hide IsUrlChar;
    SchemeIsUrlText(scheme);
    SchemeExtendsRun(text, i, scheme, end);
    PrefixOfMatch(text, i, scheme, end);
  }

  /** Matches are URLs, in order and disjoint. */
  ghost predicate WellPlaced(text: string, ms: seq<Match>, from: nat) {
    && (forall i :: 0 <= i < |ms| ==> from <= ms[i].start && IsUrl(text, ms[i]))
    && (forall i, j :: 0 <= i < j < |ms| ==> ms[i].end <= ms[j].start)
  }

  lemma {:induction false} FoundUrlsWellPlaced(text: string, from: nat)
    ensures WellPlaced(text, FindUrls(text, from), from)
    decreases |text| - from
  {
    hide MatchAt, IsUrl;
    if from < |text| {
      match MatchAt(text, from)
      case None => FoundUrlsWellPlaced(text, from + 1);
      case Some(end) =>
        MatchIsUrl(text, from);
        FoundUrlsWellPlaced(text, end);
    }
  }

  predicate Reads(text: string, i: nat, word: string) {
    i + |word| <= |text| && forall k :: 0 <= k < |word| ==> text[i + k] == word[k]
  }

  /** A web scheme stands at `i`, followed by a URL character. */
  predicate UrlBegins(text: string, i: nat) {
    || (Reads(text, i, "http://") && i + 7 < |text| && IsUrlChar(text[i + 7]))
    || (Reads(text, i, "https://") && i + 8 < |text| && IsUrlChar(text[i + 8]))
  }

  lemma MatchAtExact(text: string, i: nat)
    ensures MatchAt(text, i).Some? <==> UrlBegins(text, i)
  {
    hide IsUrlChar;
    ReadsExact(text, i, "http://");
    ReadsExact(text, i, "https://");
    hide Reads;
  }

  lemma ReadsExact(text: string, i: nat, word: string)
    ensures Reads(text, i, word) <==> i + |word| <= |text| && text[i..i + |word|] == word
  {
    if i + |word| <= |text| && text[i..i + |word|] == word {
      forall k | 0 <= k < |word| ensures text[i + k] == word[k] {
        assert text[i..i + |word|][k] == text[i + k];
      }
    }
  }

  /** No URL is missed: every position where one begins lies inside a reported
      match. */
  lemma FoundUrlsComplete(text: string, i: nat)
    requires UrlBegins(text, i)
    ensures exists m :: m in FindUrls(text, 0) && m.start <= i < m.end
  {
    MatchAtExact(text, i);
    MatchIsUrl(text, i);
    hide UrlBegins, MatchAt, IsUrl;
    MatchesComplete(text, 0, i);
  }

  lemma {:induction false} MatchesComplete(text: string, from: nat, i: nat)
    requires from <= i < |text| && MatchAt(text, i).Some?
    ensures exists m :: m in FindUrls(text, from) && m.start <= i < m.end
    decreases |text| - from
  {
    hide MatchAt, IsUrl;
    match MatchAt(text, from)
    case None => MatchesComplete(text, from + 1, i);
    case Some(end) =>
      MatchIsUrl(text, from);
      if i < end {
        assert Match(from, end) in FindUrls(text, from);
      } else {
        MatchesComplete(text, end, i);
        assert forall m :: m in FindUrls(text, end) ==> m in FindUrls(text, from);
      }
  }

  /** Nothing else is reported: a URL begins at the start of every match. */
  lemma {:induction false} FoundUrlsSound(text: string, from: nat, m: Match)
    requires m in FindUrls(text, from)
    ensures UrlBegins(text, m.start) && m.start >= from
    decreases |text| - from
  {
    hide MatchAt, IsUrl, UrlBegins;
    match MatchAt(text, from)
    case None => FoundUrlsSound(text, from + 1, m);
    case Some(end) =>
      MatchIsUrl(text, from);
      MatchAtExact(text, from);
      if m != Match(from, end) {
        FoundUrlsSound(text, end, m);
      }
  }
}
