/** Text of a formatted message with a line separator inserted at block
    boundaries (`link_preview.rs`), and the way back: erasing the inserted
    separators gives the plain text, and an offset that is not inside a
    separator maps back by the separators before it. Offsets count UTF-16 code
    units. */
module LinkText {

  // ----------------------------------------------------------------- UTF-16 --

  /** The code units of one scalar value: itself, or a surrogate pair. */
  function Units(c: char): (u: seq<nat>)
    ensures |u| == 1 || |u| == 2
    ensures 10 in u <==> c == '\n'
  {
    var v := c as int;
    if v < 0x10000 then [v] else [0xD800 + (v - 0x10000) / 0x400, 0xDC00 + (v - 0x10000) % 0x400]
  }

  function Utf16(s: string): seq<nat> {
    if s == [] then [] else Utf16(s[..|s| - 1]) + Units(s[|s| - 1])
  }

  lemma {:induction false} Utf16Concat(a: string, b: string)
    ensures Utf16(a + b) == Utf16(a) + Utf16(b)
  {
    hide Units;
    if b == [] {
      assert a + b == a;
    } else {
      var n := |b| - 1;
      Utf16Concat(a, b[..n]);
      assert (a + b)[..|a| + n] == a + b[..n];
      assert Utf16(a + b) == Utf16(a + b[..n]) + Units(b[n]);
    }
  }

  /** The scalar value a surrogate pair stands for. */
  function PairValue(high: nat, low: nat): int {
    (high - 0xD800) * 0x400 + (low - 0xDC00) + 0x10000
  }

  /** A character of the basic plane is its own unit, no surrogate; any other is a
      high and a low surrogate that stand for it. */
  lemma UnitsExact(c: char)
    ensures var u := Units(c);
            if c as int < 0x10000 then u == [c as int] && !(0xD800 <= u[0] < 0xE000)
            else && |u| == 2 && 0xD800 <= u[0] < 0xDC00 <= u[1] < 0xE000
                 && PairValue(u[0], u[1]) == c as int
  {
  }

  lemma LastCharacter(a: char, b: char, x: seq<nat>, y: seq<nat>)
    requires x + Units(a) == y + Units(b)
    ensures a == b && x == y
  {
    UnitsExact(a);
    UnitsExact(b);
    var u, v := Units(a), Units(b);
    assert (x + u)[|x + u| - 1] == u[|u| - 1] && (y + v)[|y + v| - 1] == v[|v| - 1];
    assert |u| == |v|;
    if |u| == 2 {
      assert (x + u)[|x + u| - 2] == u[0] && (y + v)[|y + v| - 2] == v[0];
    }
    hide Units;
    assert a as int == b as int;
    assert x == (x + u)[..|x|] && y == (y + v)[..|y|];
  }

  /** Different texts have different units, so a range that addresses a URL's
      units addresses that URL. */
  lemma {:induction false} Utf16Injective(a: string, b: string)
    requires Utf16(a) == Utf16(b)
    ensures a == b
  {
    hide Units;
    if a != [] && b != [] {
      var m, n := |a| - 1, |b| - 1;
      LastCharacter(a[m], b[n], Utf16(a[..m]), Utf16(b[..n]));
      Utf16Injective(a[..m], b[..n]);
      assert a == a[..m] + [a[m]] && b == b[..n] + [b[n]];
    }
  }

  // ------------------------------------------------------------------- tree --

  datatype Node =
    | Text(text: string)
    | Element(tag: string, children: seq<Node>)
    | Other(children: seq<Node>)

  predicate IsBlockElement(tag: string) {
    tag in {"p", "div", "h1", "h2", "h3", "h4", "h5", "h6", "blockquote", "ul", "ol", "li", "pre", "br", "hr",
            "table", "thead", "tbody", "tr", "th", "td", "caption", "details", "summary"}
  }

  /** The elements that break a line, one by one. */
  lemma BlockTagsExact(tag: string)
    ensures IsBlockElement(tag) <==>
              || tag == "p" || tag == "div" || tag == "h1" || tag == "h2" || tag == "h3"
              || tag == "h4" || tag == "h5" || tag == "h6" || tag == "blockquote" || tag == "ul"
              || tag == "ol" || tag == "li" || tag == "pre" || tag == "br" || tag == "hr"
              || tag == "table" || tag == "thead" || tag == "tbody" || tag == "tr" || tag == "th"
              || tag == "td" || tag == "caption" || tag == "details" || tag == "summary"
  {
  }

  /** The concatenated text: every text node, in document order. */
  function PlainText(nodes: seq<Node>): string {
    if nodes == [] then ""
    else
      (match nodes[0]
       case Text(t) => t
       case Element(_, children) => PlainText(children)
       case Other(children) => PlainText(children))
      + PlainText(nodes[1..])
  }

  /** The plain text as it is stored beside the HTML: it looks for text inside
      elements only. */
  function StoredText(nodes: seq<Node>): string {
    if nodes == [] then ""
    else
      (match nodes[0]
       case Text(t) => t
       case Element(_, children) => StoredText(children)
       case Other(_) => "")
      + StoredText(nodes[1..])
  }

  /** Characters of text below nodes that are neither text nor element. */
  function HiddenLength(nodes: seq<Node>): nat {
    if nodes == [] then 0
    else
      (match nodes[0]
       case Text(_) => 0
       case Element(_, children) => HiddenLength(children)
       case Other(children) => |PlainText(children)|)
      + HiddenLength(nodes[1..])
  }

  /** Stored and concatenated text are the same exactly when no text hides
      below such a node. */
  lemma {:induction false} StoredTextExact(nodes: seq<Node>)
    ensures |PlainText(nodes)| == |StoredText(nodes)| + HiddenLength(nodes)
    ensures StoredText(nodes) == PlainText(nodes) <==> HiddenLength(nodes) == 0
    decreases nodes
  {
    if nodes != [] {
      StoredTextExact(nodes[1..]);
      if nodes[0].Element? {
        StoredTextExact(nodes[0].children);
      }
    }
  }

  /** Text with separators, and the offsets at which they were inserted. */
  datatype Separated = Separated(text: string, offsets: seq<nat>)

  const BLANK := Separated("", [])

  function PushText(a: Separated, t: string): Separated {
    a.(text := a.text + t)
  }

  /** No separator is inserted before any text. */
  function PushSeparator(a: Separated): Separated {
    if a.text == "" then a else Separated(a.text + "\n", a.offsets + [|Utf16(a.text)|])
  }

  function Collect(a: Separated, nodes: seq<Node>): Separated
    decreases nodes
  {
    if nodes == [] then a
    else
      Collect(match nodes[0]
              case Text(t) => PushText(a, t)
              case Element(tag, children) =>
                if IsBlockElement(tag) then PushSeparator(Collect(PushSeparator(a), children))
                else Collect(a, children)
              case Other(children) => Collect(a, children),
              nodes[1..])
  }

  // ---------------------------------------------------------------- erasing --

  /** The units whose positions are not listed. */
  function Erase(units: seq<nat>, offsets: seq<nat>): seq<nat> {
    if units == [] then []
    else
      var n := |units| - 1;
      Erase(units[..n], offsets) + if n in offsets then [] else [units[n]]
  }

  predicate Increasing(offsets: seq<nat>) {
    forall i, j :: 0 <= i < j < |offsets| ==> offsets[i] < offsets[j]
  }

  /** Beyond the listed positions everything is kept. */
  lemma {:induction false} EraseTail(units: seq<nat>, tail: seq<nat>, offsets: seq<nat>)
    requires forall o :: o in offsets ==> o < |units| || o >= |units| + |tail|
    ensures Erase(units + tail, offsets) == Erase(units, offsets) + tail
  {
    if tail == [] {
      assert units + tail == units;
    } else {
      var n := |tail| - 1;
      EraseTail(units, tail[..n], offsets);
      assert (units + tail)[..|units| + n] == units + tail[..n];
      assert tail == tail[..n] + [tail[n]];
    }
  }

  /** A position past the end erases nothing. */
  lemma {:induction false} EraseIgnoresLater(units: seq<nat>, offsets: seq<nat>, later: nat)
    requires |units| <= later
    ensures Erase(units, offsets + [later]) == Erase(units, offsets)
  {
    if units != [] {
      EraseIgnoresLater(units[..|units| - 1], offsets, later);
    }
  }

  /** The listed positions of `units` are strictly increasing line feeds whose
      erasure leaves `kept`. */
  ghost predicate Marks(units: seq<nat>, offsets: seq<nat>, kept: seq<nat>) {
    && Erase(units, offsets) == kept
    && Increasing(offsets)
    && forall o :: o in offsets ==> o < |units| && units[o] == 10
  }

  /** The text stands for `plain`: erasing the separators restores it, their
      offsets are strictly increasing, and each holds a line feed. */
  ghost predicate StandsFor(a: Separated, plain: string) {
    Marks(Utf16(a.text), a.offsets, Utf16(plain))
  }

  lemma MarksTail(units: seq<nat>, offsets: seq<nat>, kept: seq<nat>, tail: seq<nat>)
    requires Marks(units, offsets, kept)
    ensures Marks(units + tail, offsets, kept + tail)
  {
    EraseTail(units, tail, offsets);
  }

  lemma MarksSeparator(units: seq<nat>, offsets: seq<nat>, kept: seq<nat>)
    requires Marks(units, offsets, kept)
    ensures Marks(units + [10], offsets + [|units|], kept)
  {
    var n := |units|;
    EraseIgnoresLater(units, offsets, n);
    assert (units + [10])[..n] == units && (units + [10])[n] == 10;
    assert (offsets + [n])[|offsets|] == n;
    assert forall i :: 0 <= i < |offsets| ==> offsets[i] in offsets;
  }

  lemma PushTextStands(a: Separated, plain: string, t: string)
    requires StandsFor(a, plain)
    ensures StandsFor(PushText(a, t), plain + t)
  {
    hide Marks, Utf16;
    Utf16Concat(a.text, t);
    Utf16Concat(plain, t);
    MarksTail(Utf16(a.text), a.offsets, Utf16(plain), Utf16(t));
  }

  lemma PushSeparatorStands(a: Separated, plain: string)
    requires StandsFor(a, plain)
    ensures StandsFor(PushSeparator(a), plain)
  {
    hide Marks, Utf16;
    Utf16Concat(a.text, "\n");
    LineFeedUnits();
    MarksSeparator(Utf16(a.text), a.offsets, Utf16(plain));
  }

  lemma LineFeedUnits()
    ensures Utf16("\n") == [10]
  {
  }

  /** For every HTML tree the collected text stands for its plain text. */
  lemma {:induction false} CollectStands(a: Separated, plain: string, nodes: seq<Node>)
    requires StandsFor(a, plain)
    ensures StandsFor(Collect(a, nodes), plain + PlainText(nodes))
    decreases nodes
  {
    hide StandsFor, IsBlockElement, PushText, PushSeparator;
    if nodes == [] {
      assert plain + PlainText(nodes) == plain;
    } else {
      var head := nodes[0];
      match head {
        case Text(t) =>
          PushTextStands(a, plain, t);
          CollectStands(PushText(a, t), plain + t, nodes[1..]);
          assert plain + t + PlainText(nodes[1..]) == plain + PlainText(nodes);
        case Element(tag, children) =>
          var text := PlainText(children);
          if IsBlockElement(tag) {
            PushSeparatorStands(a, plain);
            CollectStands(PushSeparator(a), plain, children);
            var inner := Collect(PushSeparator(a), children);
            PushSeparatorStands(inner, plain + text);
            CollectStands(PushSeparator(inner), plain + text, nodes[1..]);
          } else {
            CollectStands(a, plain, children);
            CollectStands(Collect(a, children), plain + text, nodes[1..]);
          }
          assert plain + text + PlainText(nodes[1..]) == plain + PlainText(nodes);
        case Other(children) =>
          var text := PlainText(children);
          CollectStands(a, plain, children);
          CollectStands(Collect(a, children), plain + text, nodes[1..]);
          assert plain + text + PlainText(nodes[1..]) == plain + PlainText(nodes);
      }
    }
  }

  lemma SeparatedTextStands(nodes: seq<Node>)
    ensures StandsFor(Collect(BLANK, nodes), PlainText(nodes))
  {
    CollectStands(BLANK, "", nodes);
    assert "" + PlainText(nodes) == PlainText(nodes);
  }

  // ---------------------------------------------------------- offset mapping --

  /** `partition_point(|separator| separator < offset)` */
  function SeparatorsBefore(offsets: seq<nat>, offset: nat): nat {
    if offsets == [] || offsets[0] >= offset then 0 else 1 + SeparatorsBefore(offsets[1..], offset)
  }

  lemma {:induction false} SeparatorsBeforeExact(offsets: seq<nat>, offset: nat)
    requires Increasing(offsets)
    ensures SeparatorsBefore(offsets, offset) <= |offsets|
    ensures forall i :: 0 <= i < |offsets| ==> (offsets[i] < offset <==> i < SeparatorsBefore(offsets, offset))
  {
    if offsets != [] && offsets[0] < offset {
      SeparatorsBeforeExact(offsets[1..], offset);
      assert forall i :: 0 < i < |offsets| ==> offsets[i] == offsets[1..][i - 1];
    }
  }

  /** The units before `offset` lose exactly the separators before it. */
  lemma {:induction false} ErasedLength(units: seq<nat>, offsets: seq<nat>, offset: nat)
    requires Increasing(offsets) && offset <= |units|
    ensures |Erase(units[..offset], offsets)| + SeparatorsBefore(offsets, offset) == offset
    decreases offset
  {
    if offset == 0 {
      assert units[..0] == [];
      SeparatorsBeforeExact(offsets, 0);
      assert SeparatorsBefore(offsets, 0) == 0;
    } else {
      var n := offset - 1;
      ErasedLength(units, offsets, n);
      assert units[..offset][..n] == units[..n];
      SeparatorsBeforeStep(offsets, n);
    }
  }

  lemma {:induction false} SeparatorsBeforeStep(offsets: seq<nat>, n: nat)
    requires Increasing(offsets)
    ensures SeparatorsBefore(offsets, n + 1) == SeparatorsBefore(offsets, n) + if n in offsets then 1 else 0
  {
    if offsets != [] {
      assert offsets == [offsets[0]] + offsets[1..];
      if offsets[0] < n {
        SeparatorsBeforeStep(offsets[1..], n);
      } else {
        assert |offsets| > 1 ==> offsets[0] < offsets[1];
      }
    }
  }

  /** `basis_offset` */
  function BasisOffset(offset: nat, offsets: seq<nat>): int {
    offset - SeparatorsBefore(offsets, offset)
  }

  /** A stretch without separators reads the same in the plain text, at the
      mapped offsets. */
  lemma StretchMapsBack(a: Separated, plain: string, start: nat, end: nat)
    requires StandsFor(a, plain) && start <= end <= |Utf16(a.text)|
    requires forall o :: o in a.offsets ==> o < start || o >= end
    ensures 0 <= BasisOffset(start, a.offsets) <= BasisOffset(end, a.offsets) <= |Utf16(plain)|
    ensures BasisOffset(end, a.offsets) - BasisOffset(start, a.offsets) == end - start
    ensures Utf16(plain)[BasisOffset(start, a.offsets)..BasisOffset(end, a.offsets)] == Utf16(a.text)[start..end]
  {
    hide Utf16;
    StretchErased(Utf16(a.text), a.offsets, start, end);
  }

  lemma StretchErased(units: seq<nat>, offsets: seq<nat>, start: nat, end: nat)
    requires Increasing(offsets) && start <= end <= |units|
    requires forall o :: o in offsets ==> o < start || o >= end
    ensures 0 <= BasisOffset(start, offsets) <= BasisOffset(end, offsets) <= |Erase(units, offsets)|
    ensures BasisOffset(end, offsets) - BasisOffset(start, offsets) == end - start
    ensures Erase(units, offsets)[BasisOffset(start, offsets)..BasisOffset(end, offsets)] == units[start..end]
  {
    hide Erase, SeparatorsBefore, Increasing;
    ErasedLength(units, offsets, start);
    ErasedLength(units, offsets, end);
    ErasePrefix(units, offsets, end);
    EraseTail(units[..start], units[start..end], offsets);
    assert units[..start] + units[start..end] == units[..end];
    var front, upTo, all := Erase(units[..start], offsets), Erase(units[..end], offsets), Erase(units, offsets);
    assert upTo == front + units[start..end] && upTo == all[..|upTo|];
    assert all[|front|..|upTo|] == upTo[|front|..];
  }

  lemma {:induction false} ErasePrefix(units: seq<nat>, offsets: seq<nat>, end: nat)
    requires end <= |units|
    ensures Erase(units[..end], offsets) <= Erase(units, offsets)
    decreases |units| - end
  {
    if end < |units| {
      ErasePrefix(units, offsets, end + 1);
      assert units[..end + 1][..end] == units[..end];
    } else {
      assert units[..end] == units;
    }
  }

  // ---------------------------------------------------------- block boundaries --

  /** Offsets of the plain text at which a block element begins or ends, when
      `nodes` start at offset `base`. */
  function Boundaries(nodes: seq<Node>, base: nat): set<nat>
    decreases nodes
  {
    if nodes == [] then {}
    else
      match nodes[0]
      case Text(t) => Boundaries(nodes[1..], base + |Utf16(t)|)
      case Element(tag, children) =>
        var end := base + |Utf16(PlainText(children))|;
        (if IsBlockElement(tag) then {base, end} else {}) + Boundaries(children, base) + Boundaries(nodes[1..], end)
      case Other(children) =>
        Boundaries(children, base) + Boundaries(nodes[1..], base + |Utf16(PlainText(children))|)
  }

  /** An inserted separator sits at plain offset `b`. */
  ghost predicate SeparatedAt(a: Separated, b: nat) {
    exists o :: o in a.offsets && BasisOffset(o, a.offsets) == b
  }

  /** Every listed boundary that has text before it got a separator. */
  ghost predicate Covers(a: Separated, bounds: set<nat>) {
    forall b :: b in bounds ==> b == 0 || SeparatedAt(a, b)
  }

  lemma {:induction false} SeparatorsBeforeSnoc(offsets: seq<nat>, later: nat, o: nat)
    requires o <= later
    ensures SeparatorsBefore(offsets + [later], o) == SeparatorsBefore(offsets, o)
  {
    if offsets != [] {
      assert (offsets + [later])[1..] == offsets[1..] + [later];
      SeparatorsBeforeSnoc(offsets[1..], later, o);
    }
  }

  lemma PushTextCovers(a: Separated, bounds: set<nat>, t: string)
    requires Covers(a, bounds)
    ensures Covers(PushText(a, t), bounds)
  {
  }

  lemma PushSeparatorKeeps(a: Separated, plain: string, b: nat)
    requires StandsFor(a, plain) && SeparatedAt(a, b)
    ensures SeparatedAt(PushSeparator(a), b)
  {
    hide Utf16;
    if a.text != "" {
      var o :| o in a.offsets && BasisOffset(o, a.offsets) == b;
      SeparatorsBeforeSnoc(a.offsets, |Utf16(a.text)|, o);
      assert o in PushSeparator(a).offsets;
    }
  }

  lemma EmptyStands(a: Separated, plain: string)
    requires StandsFor(a, plain) && a.text == ""
    ensures Utf16(plain) == []
  {
  }

  /** A pushed separator marks the current end of the plain text. */
  lemma PushSeparatorMarks(a: Separated, plain: string)
    requires StandsFor(a, plain)
    ensures |Utf16(plain)| == 0 || SeparatedAt(PushSeparator(a), |Utf16(plain)|)
  {
    hide Utf16;
    if a.text == "" {
      EmptyStands(a, plain);
    } else {
      var n := |Utf16(a.text)|;
      EndOffset(Utf16(a.text), a.offsets);
      assert n in PushSeparator(a).offsets;
    }
  }

  /** The end of the text maps to the end of what is kept. */
  lemma EndOffset(units: seq<nat>, offsets: seq<nat>)
    requires Increasing(offsets)
    ensures BasisOffset(|units|, offsets + [|units|]) == |Erase(units, offsets)|
  {
    ErasedLength(units, offsets, |units|);
    assert units[..|units|] == units;
    SeparatorsBeforeSnoc(offsets, |units|, |units|);
  }

  lemma PushSeparatorCovers(a: Separated, plain: string, bounds: set<nat>)
    requires StandsFor(a, plain) && Covers(a, bounds)
    ensures Covers(PushSeparator(a), bounds + {|Utf16(plain)|})
  {
    hide StandsFor, SeparatedAt, PushSeparator, Utf16;
    PushSeparatorMarks(a, plain);
    forall b | b in bounds && b != 0 ensures SeparatedAt(PushSeparator(a), b) {
      PushSeparatorKeeps(a, plain, b);
    }
  }

  /** For every tree, each block boundary with text before it is separated. */
  lemma {:induction false} CollectCovers(a: Separated, plain: string, nodes: seq<Node>, bounds: set<nat>)
    requires StandsFor(a, plain) && Covers(a, bounds)
    ensures Covers(Collect(a, nodes), bounds + Boundaries(nodes, |Utf16(plain)|))
    decreases nodes
  {
    hide StandsFor, Covers, IsBlockElement, PushText, PushSeparator, Utf16;
    var base := |Utf16(plain)|;
    if nodes == [] {
      assert bounds + {} == bounds;
    } else {
      match nodes[0] {
        case Text(t) =>
          PushTextStands(a, plain, t);
          PushTextCovers(a, bounds, t);
          Utf16Concat(plain, t);
          CollectCovers(PushText(a, t), plain + t, nodes[1..], bounds);
        case Element(tag, children) =>
          var text := PlainText(children);
          Utf16Concat(plain, text);
          if IsBlockElement(tag) {
            var fenced := PushSeparator(a);
            PushSeparatorStands(a, plain);
            PushSeparatorCovers(a, plain, bounds);
            CollectStands(fenced, plain, children);
            CollectCovers(fenced, plain, children, bounds + {base});
            var inner := Collect(fenced, children);
            var inside := bounds + {base} + Boundaries(children, base);
            PushSeparatorStands(inner, plain + text);
            PushSeparatorCovers(inner, plain + text, inside);
            CollectCovers(PushSeparator(inner), plain + text, nodes[1..], inside + {|Utf16(plain + text)|});
            assert inside + {|Utf16(plain + text)|} + Boundaries(nodes[1..], |Utf16(plain + text)|)
                == bounds + Boundaries(nodes, base);
          } else {
            CollectStands(a, plain, children);
            CollectCovers(a, plain, children, bounds);
            CollectCovers(Collect(a, children), plain + text, nodes[1..], bounds + Boundaries(children, base));
            assert bounds + Boundaries(children, base) + Boundaries(nodes[1..], |Utf16(plain + text)|)
                == bounds + Boundaries(nodes, base);
          }
        case Other(children) =>
          var text := PlainText(children);
          Utf16Concat(plain, text);
          CollectStands(a, plain, children);
          CollectCovers(a, plain, children, bounds);
          CollectCovers(Collect(a, children), plain + text, nodes[1..], bounds + Boundaries(children, base));
          assert bounds + Boundaries(children, base) + Boundaries(nodes[1..], |Utf16(plain + text)|)
              == bounds + Boundaries(nodes, base);
      }
    }
  }
}
