/**
 Replacing every marked region of a page: the right-to-left splice is the
 simultaneous substitution of all regions, and doing it again changes nothing.
 */
module Splice {
  import opened Markers
  import opened Sequences

  // ------------------------------------------------------------------ //
  // A structured page passes the checks
  // ------------------------------------------------------------------ //

  /** The regions of one name, in page order. */
  function OwnRegions(slots: seq<Slot>, name: string): seq<Region> {
    if slots == [] then []
    else (if slots[0].name == name then [(slots[0].from, slots[0].to)] else []) + OwnRegions(slots[1..], name)
  }

  lemma {:induction false} StructuredIsPaired(doc: string, names: seq<string>, slots: seq<Slot>, i: nat, name: string)
    requires Names(names) && Structured(doc, names, slots, i) && name in names
    ensures Regions(doc, Start(name), End(name), i) == OwnRegions(slots, name)
    ensures Count(doc, Start(name), i) == |OwnRegions(slots, name)| == Count(doc, End(name), i)
    ensures forall r :: r in OwnRegions(slots, name) ==> Quiet(doc, r)
    decreases slots
  {
    if slots == [] {
      MarkersAreMarkers(name);
      NoPrefixNoMarker(doc, Start(name), i, |doc|);
      NoPrefixNoMarker(doc, End(name), i, |doc|);
      NothingLeft(doc, Start(name), End(name), i);
    } else {
      RegionsOverSlot(doc, names, slots[0], i, name);
      MarkersOverSlot(doc, names, slots[0], i, name);
      StructuredIsPaired(doc, names, slots[1..], slots[0].After(), name);
      assert Quiet(doc, (slots[0].from, slots[0].to));
    }
  }

  lemma {:induction false} NothingLeft(doc: string, start: string, end: string, i: nat)
    requires IsMarker(start) && IsMarker(end) && i <= |doc| && Absent(doc, start, i, |doc|) && Absent(doc, end, i, |doc|)
    ensures Count(doc, start, i) == 0 && Count(doc, end, i) == 0 && Regions(doc, start, end, i) == []
  {
  }

  lemma OnlyLastCloses(m: string, name: string, tail: string)
    requires Plain(name) && |tail| >= 3 && (forall k :: 0 <= k < |tail| - 1 ==> tail[k] != '>') && m == PREFIX + name + tail
    ensures forall k :: |PREFIX| <= k < |m| - 1 ==> m[k] != '>'
  {
    forall k | |PREFIX| <= k < |m| - 1 ensures m[k] != '>' {
      if k < |PREFIX| + |name| { assert m[k] == name[k - |PREFIX|] && m[k] in name; }
      else { assert m[k] == tail[k - |PREFIX| - |name|]; }
    }
  }

  /** A marker, whatever its name, is one whole token. */
  lemma MarkerIsToken(doc: string, name: string, tail: string, i: nat)
    requires Plain(name) && |tail| >= 3 && tail[|tail| - 3..] == "-->" && (forall k :: 0 <= k < |tail| - 1 ==> tail[k] != '>')
    requires At(doc, PREFIX + name + tail, i)
    ensures TokenEnd(doc, i) == i + |PREFIX + name + tail|
  {
    var m := PREFIX + name + tail;
    OnlyLastCloses(m, name, tail);
    assert m[..|PREFIX|] == PREFIX;
    assert m[|m| - 3..] == "-->" by { assert m[|m| - 3..] == tail[|tail| - 3..]; }
    ClosedIsToken(doc, m, i, i + |m| - 1);
  }

  lemma AtChar(doc: string, c: char, j: int)
    ensures At(doc, [c], j) <==> 0 <= j < |doc| && doc[j] == c
  {
    if 0 <= j < |doc| { assert doc[j..j + 1] == [doc[j]]; }
  }

  lemma ClosedIsToken(doc: string, m: string, i: nat, g: int)
    requires |m| >= |PREFIX| + 3 && m[..|PREFIX|] == PREFIX && m[|m| - 3..] == "-->"
    requires forall k :: |PREFIX| <= k < |m| - 1 ==> m[k] != '>'
    requires At(doc, m, i) && g == i + |m| - 1
    ensures TokenEnd(doc, i) == g + 1
  {
    assert forall k :: 0 <= k < |m| ==> doc[i + k] == m[k];
    assert At(doc, PREFIX, i) by { assert doc[i..i + |PREFIX|] == m[..|PREFIX|]; }
    forall j | i + |PREFIX| <= j < g ensures !At(doc, ">", j) {
      assert doc[j] == m[j - i];
      AtChar(doc, '>', j);
    }
    assert m[|m| - 3..][0] == '-' && m[|m| - 3..][1] == '-' && m[|m| - 3..][2] == '>';
    assert doc[g] == '>';
    assert doc[g..g + 1] == ">";
    assert At(doc, ">", g);
    assert doc[g - 2..g] == "--" by { assert doc[g - 2] == '-' && doc[g - 1] == '-'; }
  }

  lemma {:induction false} TokensOverSlot(doc: string, names: seq<string>, s: Slot, i: nat)
    requires Names(names) && SlotAt(doc, names, s, i)
    ensures Tokens(doc, i) == 2 + Tokens(doc, s.After())
  {
    MarkersAreMarkers(s.name);
    MarkerHasPrefix(doc, Start(s.name), s.at);
    MarkerHasPrefix(doc, End(s.name), s.to);
    MarkerIsToken(doc, s.name, ":start -->", s.at);
    MarkerIsToken(doc, s.name, ":end -->", s.to);
    OneToken(doc, i, s.at, s.from);
    OneToken(doc, s.from, s.to, s.After());
  }

  lemma {:induction false} OneToken(doc: string, i: nat, p: nat, after: nat)
    requires i <= p && At(doc, PREFIX, p) && Absent(doc, PREFIX, i, p) && TokenEnd(doc, p) == after
    ensures Tokens(doc, i) == 1 + Tokens(doc, after)
  {
    assert Find(doc, PREFIX, i) == p;
  }

  lemma {:induction false} StructuredTokens(doc: string, names: seq<string>, slots: seq<Slot>, i: nat)
    requires Names(names) && Structured(doc, names, slots, i)
    ensures Tokens(doc, i) == 2 * |slots| == Count(doc, PREFIX, i) == Total(doc, names, i)
    decreases slots
  {
    if slots == [] {
      TotalSkips(doc, names, i, |doc|);
      NothingAtEnd(doc, names);
    } else {
      TokensOverSlot(doc, names, slots[0], i);
      TotalOverSlot(doc, names, slots[0], i);
      MarkersOverSlot(doc, names, slots[0], i, slots[0].name);
      StructuredTokens(doc, names, slots[1..], slots[0].After());
    }
  }

  /** The converse of `CheckedPageIsStructured`: whole regions in plain text pass every check. */
  lemma StructuredPageIsChecked(doc: string, names: seq<string>, slots: seq<Slot>)
    requires Names(names) && Structured(doc, names, slots, 0)
    ensures Checked(doc, names)
  {
    forall n | n in names ensures Paired(doc, n, 0) && Count(doc, End(n), 0) == Count(doc, Start(n), 0) {
      StructuredIsPaired(doc, names, slots, 0, n);
    }
    StructuredTokens(doc, names, slots, 0);
    TotalIsTwiceExpected(doc, names);
  }

  /** There is only one way to read a page as whole regions. */
  lemma {:induction false} StructureIsUnique(doc: string, names: seq<string>, a: seq<Slot>, b: seq<Slot>, i: int)
    requires Names(names) && Structured(doc, names, a, i) && Structured(doc, names, b, i)
    ensures a == b
    decreases a
  {
    if a != [] {
      MarkersAreMarkers(a[0].name);
      MarkerHasPrefix(doc, Start(a[0].name), a[0].at);
      MarkerHasPrefix(doc, End(a[0].name), a[0].to);
    }
    if b != [] {
      MarkersAreMarkers(b[0].name);
      MarkerHasPrefix(doc, Start(b[0].name), b[0].at);
      MarkerHasPrefix(doc, End(b[0].name), b[0].to);
    }
    if a != [] && b != [] {
      SlotIsUnique(doc, names, a[0], b[0], i);
      StructureIsUnique(doc, names, a[1..], b[1..], a[0].After());
    }
  }

  lemma SlotIsUnique(doc: string, names: seq<string>, a: Slot, b: Slot, i: int)
    requires Names(names) && SlotAt(doc, names, a, i) && SlotAt(doc, names, b, i)
    requires At(doc, PREFIX, a.at) && At(doc, PREFIX, a.to) && At(doc, PREFIX, b.at) && At(doc, PREFIX, b.to)
    ensures a == b
  {
    assert a.at == b.at;
    MarkersDiffer(doc, a.name, b.name, a.at);
  }

  // ------------------------------------------------------------------ //
  // The splice
  // ------------------------------------------------------------------ //

  datatype Span = Span(from: int, to: int, text: string)

  type Texts = map<string, string>

  predicate Covers(texts: Texts, names: seq<string>) {
    forall n :: n in names ==> n in texts
  }

  /** Every region replaced at once and everything else - markers included - as it was, from `i` on. */
  function Substituted(doc: string, names: seq<string>, slots: seq<Slot>, texts: Texts, i: int): string
    requires Covers(texts, names) && Structured(doc, names, slots, i)
    decreases slots
  {
    if slots == [] then doc[i..]
    else
      var s := slots[0];
      doc[i..s.from] + texts[s.name] + doc[s.to..s.After()] + Substituted(doc, names, slots[1..], texts, s.After())
  }

  /** The regions of the page, in page order, with their new text. */
  function SpansOf(slots: seq<Slot>, texts: Texts): seq<Span> {
    if slots == [] then []
    else [Span(slots[0].from, slots[0].to, if slots[0].name in texts then texts[slots[0].name] else "")]
         + SpansOf(slots[1..], texts)
  }

  function Reverse<T>(s: seq<T>): seq<T> {
    if s == [] then [] else Reverse(s[1..]) + [s[0]]
  }

  /** One splice after the other, each into the page the last one left. */
  function SpliceAll(doc: string, spans: seq<Span>): string
    decreases spans
  {
    if spans == [] then doc
    else if 0 <= spans[0].from <= spans[0].to <= |doc|
    then SpliceAll(doc[..spans[0].from] + spans[0].text + doc[spans[0].to..], spans[1..])
    else doc
  }

  lemma {:induction false} SplicesCompose(doc: string, a: seq<Span>, b: seq<Span>)
    requires forall s :: s in a ==> 0 <= s.from <= s.to
    requires Reaches(doc, a)
    ensures SpliceAll(doc, a + b) == SpliceAll(SpliceAll(doc, a), b)
    decreases a
  {
    if a == [] {
      assert a + b == b;
    } else {
      assert (a + b)[1..] == a[1..] + b;
      SplicesCompose(doc[..a[0].from] + a[0].text + doc[a[0].to..], a[1..], b);
    }
  }

  /** Every splice of the list falls inside the page it meets. */
  predicate Reaches(doc: string, spans: seq<Span>)
    decreases spans
  {
    spans == [] ||
    (0 <= spans[0].from <= spans[0].to <= |doc| &&
     Reaches(doc[..spans[0].from] + spans[0].text + doc[spans[0].to..], spans[1..]))
  }

  /** Splicing from the right is substituting everywhere at once. */
  lemma {:induction false} RightToLeftIsSubstitution(doc: string, names: seq<string>, slots: seq<Slot>, texts: Texts, i: nat)
    requires Names(names) && Covers(texts, names) && Structured(doc, names, slots, i)
    ensures SpliceAll(doc, Reverse(SpansOf(slots, texts))) == doc[..i] + Substituted(doc, names, slots, texts, i)
    ensures Reaches(doc, Reverse(SpansOf(slots, texts)))
    decreases slots
  {
    if slots == [] {
      assert doc == doc[..i] + doc[i..];
    } else {
      var s := slots[0];
      var after := s.After();
      var rest := Reverse(SpansOf(slots[1..], texts));
      RightToLeftIsSubstitution(doc, names, slots[1..], texts, after);
      var span := Span(s.from, s.to, texts[s.name]);
      assert Reverse(SpansOf(slots, texts)) == rest + [span] by {
        assert SpansOf(slots, texts)[1..] == SpansOf(slots[1..], texts);
      }
      SpansAreOrdered(doc, names, slots[1..], texts, after);
      ReverseKeeps(SpansOf(slots[1..], texts));
      SplicesCompose(doc, rest, [span]);
      LastSplice(doc, SpliceAll(doc, rest), Substituted(doc, names, slots[1..], texts, after), i, s, texts[s.name]);
      ReachesOneMore(doc, rest, span);
    }
  }

  lemma {:induction false} ReverseKeeps<T>(s: seq<T>)
    ensures |Reverse(s)| == |s|
    ensures forall x :: x in Reverse(s) <==> x in s
    ensures multiset(Reverse(s)) == multiset(s)
  {
    if s != [] {
      ReverseKeeps(s[1..]);
      assert s == [s[0]] + s[1..];
    }
  }

  lemma LastSplice(doc: string, page: string, tail: string, i: nat, s: Slot, text: string)
    requires i <= s.from <= s.to <= s.After() <= |doc| && page == doc[..s.After()] + tail
    ensures s.to <= |page|
    ensures SpliceAll(page, [Span(s.from, s.to, text)]) == doc[..i] + (doc[i..s.from] + text + doc[s.to..s.After()] + tail)
  {
    var span := Span(s.from, s.to, text);
    assert [span][1..] == [];
    Halves(doc, page, tail, i, s.from, s.to, s.After());
    Regroup(doc[..i], doc[i..s.from], text);
    Regroup(doc[..i] + doc[i..s.from] + text, doc[s.to..s.After()], tail);
    RegroupThree(doc[..i], doc[i..s.from] + text, doc[s.to..s.After()], tail);
  }

  lemma Halves(doc: string, page: string, tail: string, i: int, from: int, to: int, after: int)
    requires 0 <= i <= from <= to <= after <= |doc| && page == doc[..after] + tail
    ensures page[..from] == doc[..i] + doc[i..from]
    ensures page[to..] == doc[to..after] + tail
  {
  }

  lemma {:induction false} ReachesOneMore(doc: string, a: seq<Span>, span: Span)
    requires Reaches(doc, a) && 0 <= span.from <= span.to <= |SpliceAll(doc, a)|
    ensures Reaches(doc, a + [span])
    decreases a
  {
    if a == [] {
      assert a + [span] == [span] && [span][1..] == [];
    } else {
      assert (a + [span])[1..] == a[1..] + [span];
      ReachesOneMore(doc[..a[0].from] + a[0].text + doc[a[0].to..], a[1..], span);
    }
  }

  /** Regions follow one another without touching: pairwise disjoint, whatever their names. */
  lemma {:induction false} SpansAreOrdered(doc: string, names: seq<string>, slots: seq<Slot>, texts: Texts, i: nat)
    requires Names(names) && Structured(doc, names, slots, i)
    ensures var spans := SpansOf(slots, texts);
            && |spans| == |slots|
            && (forall k :: 0 <= k < |spans| ==> i < spans[k].from <= spans[k].to < |doc|)
            && (forall j, k :: 0 <= j < k < |spans| ==> spans[j].to < spans[k].from)
            && (forall s :: s in spans ==> 0 <= s.from <= s.to)
    decreases slots
  {
    if slots != [] {
      SpansAreOrdered(doc, names, slots[1..], texts, slots[0].After());
    }
  }

  // ------------------------------------------------------------------ //
  // The new page
  // ------------------------------------------------------------------ //

  /** Where a region lies once its new text is in: the page from `i` now starts at `at`. */
  function Shift(s: Slot, text: string, i: int, at: int): Slot {
    Slot(s.name, at + s.at - i, at + s.from - i, at + s.from - i + |text|)
  }

  function Moved(slots: seq<Slot>, texts: Texts, i: int, at: int): seq<Slot>
    requires forall s :: s in slots ==> s.name in texts
    decreases slots
  {
    if slots == [] then [] else
      var moved := Shift(slots[0], texts[slots[0].name], i, at);
      [moved] + Moved(slots[1..], texts, slots[0].After(), moved.After())
  }

  /** A stretch of one page found again in another. */
  predicate Same(doc: string, i: int, out: string, at: int, n: int) {
    0 <= i <= i + n <= |doc| && 0 <= at <= at + n <= |out| && doc[i..i + n] == out[at..at + n]
  }

  lemma SameAt(doc: string, i: int, out: string, at: int, n: int, pat: string, k: int)
    requires Same(doc, i, out, at, n) && 0 <= k <= n - |pat|
    ensures At(doc, pat, i + k) <==> At(out, pat, at + k)
  {
    SameWithin(doc, i, out, at, n, k, |pat|);
  }

  lemma SameWithin(doc: string, i: int, out: string, at: int, n: int, k: int, m: int)
    requires Same(doc, i, out, at, n) && 0 <= k <= k + m <= n
    ensures doc[i + k..i + k + m] == out[at + k..at + k + m]
  {
    forall y | i + k <= y < i + k + m ensures doc[y] == out[y - i + at] {
      assert doc[i..i + n][y - i] == out[at..at + n][y - i];
    }
  }

  lemma SameAbsent(doc: string, i: int, out: string, at: int, n: int, pat: string, upTo: int)
    requires Same(doc, i, out, at, n) && 0 <= upTo <= n - |pat| + 1 && Absent(doc, pat, i, i + upTo)
    ensures Absent(out, pat, at, at + upTo)
  {
    forall j | at <= j < at + upTo ensures !At(out, pat, j) {
      SameAt(doc, i, out, at, n, pat, j - at);
    }
  }

  predicate QuietText(text: string) {
    Absent(text, PREFIX, 0, |text|)
  }

  lemma NoStraddle(out: string, j: int, to: int)
    requires j < to < j + |PREFIX| && 0 <= to < |out| && out[to] == '<'
    ensures !At(out, PREFIX, j)
  {
    AtAll(out, PREFIX, j);
    assert PREFIX[to - j] != '<';
  }

  /** A region whose text holds no marker prefix stays quiet up to its end marker. */
  lemma NewRegionIsQuiet(out: string, from: int, text: string, end: string)
    requires QuietText(text) && IsMarker(end)
    requires 0 <= from && Same(text, 0, out, from, |text|) && At(out, end, from + |text|)
    ensures Absent(out, PREFIX, from, from + |text|)
  {
    var to := from + |text|;
    MarkerFrom("", "");
    MarkerHasPrefix(out, end, to);
    forall j | from <= j < to ensures !At(out, PREFIX, j) {
      if j + |PREFIX| <= to {
        SameAt(text, 0, out, from, |text|, PREFIX, j - from);
      } else {
        NoStraddle(out, j, to);
      }
    }
  }

  /** `out` from `at` on reads as `doc` from `i` on, up to the end of this region, with its text replaced. */
  predicate SlotReads(doc: string, s: Slot, text: string, i: int, out: string, at: int) {
    var moved := Shift(s, text, i, at);
    && i <= s.from && s.to <= s.After()
    && Same(doc, i, out, at, s.from - i)
    && Same(text, 0, out, moved.from, |text|)
    && Same(doc, s.to, out, moved.to, |End(s.name)|)
  }

  /** A slot keeps its shape when its surroundings move and its text is replaced. */
  lemma SlotMoves(doc: string, names: seq<string>, s: Slot, i: int, out: string, at: int, text: string, moved: Slot)
    requires Names(names) && SlotAt(doc, names, s, i) && QuietText(text)
    requires SlotReads(doc, s, text, i, out, at) && moved == Shift(s, text, i, at)
    ensures SlotAt(out, names, moved, at)
  {
    MarkersAreMarkers(s.name);
    SameAt(doc, i, out, at, s.from - i, Start(s.name), s.at - i);
    SameAt(doc, s.to, out, moved.to, |End(s.name)|, End(s.name), 0);
    SameAbsent(doc, i, out, at, s.from - i, PREFIX, s.at - i);
    NewRegionIsQuiet(out, moved.from, text, End(s.name));
  }

  lemma {:induction false} SlotNames(doc: string, names: seq<string>, slots: seq<Slot>, texts: Texts, i: int)
    requires Covers(texts, names) && Structured(doc, names, slots, i)
    ensures forall s :: s in slots ==> s.name in texts
    decreases slots
  {
    if slots != [] { SlotNames(doc, names, slots[1..], texts, slots[0].After()); }
  }

  lemma LastTextIsQuiet(doc: string, i: nat, out: string, at: nat)
    requires Same(doc, i, out, at, |doc| - i) && |out| == at + |doc| - i && Absent(doc, PREFIX, i, |doc|)
    ensures Absent(out, PREFIX, at, |out|)
  {
    forall j | at <= j < |out| ensures !At(out, PREFIX, j) {
      if j + |PREFIX| <= |out| { SameAt(doc, i, out, at, |doc| - i, PREFIX, j - at); }
    }
  }

  lemma Pieces(pre: string, a: string, b: string, c: string, tail: string, out: string)
    requires out == pre + (a + b + c + tail)
    ensures out == (pre + a + b + c) + tail
    ensures Same(a, 0, out, |pre|, |a|)
    ensures Same(b, 0, out, |pre| + |a|, |b|)
    ensures Same(c, 0, out, |pre| + |a| + |b|, |c|)
  {
    assert out == (pre + a + b + c) + tail;
    Part(pre, a, b + c + tail, out);
    Part(pre + a, b, c + tail, out);
    Part(pre + a + b, c, tail, out);
  }

  lemma Part(pre: string, a: string, post: string, out: string)
    requires out == pre + a + post
    ensures Same(a, 0, out, |pre|, |a|)
  {
    assert out[|pre|..|pre| + |a|] == a;
  }

  lemma SameSlice(doc: string, i: nat, k: nat, a: string, out: string, at: nat)
    requires i <= k <= |doc| && a == doc[i..k] && Same(a, 0, out, at, |a|)
    ensures Same(doc, i, out, at, k - i)
  {
    assert a[0..|a|] == a;
  }

  /** From `at` on, `out` reads as `doc` from `i` on with every region replaced. */
  predicate Reads(doc: string, slots: seq<Slot>, texts: Texts, i: int, out: string, at: int)
    requires forall s :: s in slots ==> s.name in texts
    decreases slots
  {
    if slots == [] then Same(doc, i, out, at, |doc| - i) && |out| == at + |doc| - i
    else
      && SlotReads(doc, slots[0], texts[slots[0].name], i, out, at)
      && Reads(doc, slots[1..], texts, slots[0].After(), out, Shift(slots[0], texts[slots[0].name], i, at).After())
  }

  lemma {:induction false} SubstitutedReads(
    doc: string, names: seq<string>, slots: seq<Slot>, texts: Texts, i: nat, pre: string, out: string)
    requires Names(names) && Covers(texts, names) && Structured(doc, names, slots, i)
    requires out == pre + Substituted(doc, names, slots, texts, i)
    ensures forall s :: s in slots ==> s.name in texts
    ensures Reads(doc, slots, texts, i, out, |pre|)
    decreases slots
  {
    SlotNames(doc, names, slots, texts, i);
    if slots == [] {
      Part(pre, doc[i..], "", out);
      SameSlice(doc, i, |doc|, doc[i..], out, |pre|);
    } else {
      var s := slots[0];
      var text := texts[s.name];
      var tail := Substituted(doc, names, slots[1..], texts, s.After());
      var next := pre + doc[i..s.from] + text + doc[s.to..s.After()];
      FirstReads(doc, s, text, i, pre, tail, out, next);
      SubstitutedReads(doc, names, slots[1..], texts, s.After(), next, out);
    }
  }

  lemma FirstReads(doc: string, s: Slot, text: string, i: nat, pre: string, tail: string, out: string, next: string)
    requires i <= s.from <= s.to <= s.After() <= |doc|
    requires next == pre + doc[i..s.from] + text + doc[s.to..s.After()]
    requires out == pre + (doc[i..s.from] + text + doc[s.to..s.After()] + tail)
    ensures out == next + tail && |next| == Shift(s, text, i, |pre|).After()
    ensures SlotReads(doc, s, text, i, out, |pre|)
  {
    var a, c := doc[i..s.from], doc[s.to..s.After()];
    Pieces(pre, a, text, c, tail, out);
    SameSlice(doc, i, s.from, a, out, |pre|);
    SameSlice(doc, s.to, s.After(), c, out, |pre| + |a| + |text|);
  }

  /** Reading determines the text. */
  lemma {:induction false} ReadsIsSubstituted(
    doc: string, names: seq<string>, slots: seq<Slot>, texts: Texts, i: nat, out: string, at: nat)
    requires Names(names) && Covers(texts, names) && Structured(doc, names, slots, i)
    requires forall s :: s in slots ==> s.name in texts
    requires Reads(doc, slots, texts, i, out, at) && at <= |out|
    ensures out[at..] == Substituted(doc, names, slots, texts, i)
    decreases slots
  {
    if slots == [] {
      assert doc[i..i + (|doc| - i)] == doc[i..];
      assert out[at..at + (|doc| - i)] == out[at..];
    } else {
      var s := slots[0];
      var moved := Shift(s, texts[s.name], i, at);
      ReadsIsSubstituted(doc, names, slots[1..], texts, s.After(), out, moved.After());
      FirstPieces(doc, s, texts[s.name], i, out, at, moved);
    }
  }

  lemma FirstPieces(doc: string, s: Slot, text: string, i: nat, out: string, at: nat, moved: Slot)
    requires SlotReads(doc, s, text, i, out, at) && moved == Shift(s, text, i, at)
    ensures out[at..] == doc[i..s.from] + text + doc[s.to..s.After()] + out[moved.After()..]
  {
    FourPieces(out, at, moved.from, moved.to, moved.After(), doc[i..s.from], text, doc[s.to..s.After()]);
  }

  lemma FourPieces(out: string, at: nat, from: nat, to: nat, after: nat, a: string, b: string, c: string)
    requires at <= from <= to <= after <= |out|
    requires Same(b, 0, out, from, |b|) && |b| == to - from
    requires a == out[at..from] && c == out[to..after]
    ensures out[at..] == a + b + c + out[after..]
  {
    assert b == b[0..|b|];
    assert out[at..] == out[at..from] + out[from..to] + out[to..after] + out[after..];
  }

  /** Whatever reads as a substitution of quiet texts is plain text interleaved with whole regions. */
  lemma {:induction false} ReadsIsStructured(
    doc: string, names: seq<string>, slots: seq<Slot>, texts: Texts, i: nat, out: string, at: nat)
    requires Names(names) && Covers(texts, names) && Structured(doc, names, slots, i)
    requires forall n :: n in names ==> QuietText(texts[n])
    requires forall s :: s in slots ==> s.name in texts
    requires Reads(doc, slots, texts, i, out, at)
    ensures Structured(out, names, Moved(slots, texts, i, at), at)
    decreases slots
  {
    if slots == [] {
      LastTextIsQuiet(doc, i, out, at);
    } else {
      var s := slots[0];
      var moved := Shift(s, texts[s.name], i, at);
      SlotMoves(doc, names, s, i, out, at, texts[s.name], moved);
      ReadsIsStructured(doc, names, slots[1..], texts, s.After(), out, moved.After());
      OneMoreSlot(out, names, moved, Moved(slots[1..], texts, s.After(), moved.After()), at);
    }
  }

  lemma OneMoreSlot(out: string, names: seq<string>, s: Slot, rest: seq<Slot>, at: int)
    requires SlotAt(out, names, s, at) && Structured(out, names, rest, s.After())
    ensures Structured(out, names, [s] + rest, at)
  {
    assert ([s] + rest)[1..] == rest;
  }

  /** The new page reads as a substitution of itself: the texts are already in place. */
  lemma {:induction false} ReadsAgain(doc: string, slots: seq<Slot>, texts: Texts, i: nat, out: string, at: nat)
    requires forall s :: s in slots ==> s.name in texts
    requires Reads(doc, slots, texts, i, out, at)
    ensures forall s :: s in Moved(slots, texts, i, at) ==> s.name in texts
    ensures Reads(out, Moved(slots, texts, i, at), texts, at, out, at)
    decreases slots
  {
    if slots != [] {
      var s := slots[0];
      var moved := Shift(s, texts[s.name], i, at);
      ReadsAgain(doc, slots[1..], texts, s.After(), out, moved.After());
      OneMoreReads(out, moved, Moved(slots[1..], texts, s.After(), moved.After()), texts, at);
    }
  }

  lemma OneMoreReads(out: string, s: Slot, rest: seq<Slot>, texts: Texts, at: nat)
    requires s.name in texts && forall r :: r in rest ==> r.name in texts
    requires at <= s.from && s.to == s.from + |texts[s.name]| && s.After() <= |out|
    requires Same(texts[s.name], 0, out, s.from, |texts[s.name]|)
    requires Reads(out, rest, texts, s.After(), out, s.After())
    ensures Reads(out, [s] + rest, texts, at, out, at)
  {
    assert ([s] + rest)[1..] == rest;
    ReadsItself(out, s, texts[s.name], at);
  }

  lemma ReadsItself(out: string, s: Slot, text: string, at: nat)
    requires at <= s.from && s.to == s.from + |text| && s.After() <= |out| && Same(text, 0, out, s.from, |text|)
    ensures SlotReads(out, s, text, at, out, at) && Shift(s, text, at, at) == s
  {
  }

  /**
   The page after substitution is again plain text interleaved with whole regions,
   and substituting the same texts again changes nothing.
   */
  lemma SubstitutedAgain(doc: string, names: seq<string>, slots: seq<Slot>, texts: Texts)
    requires Names(names) && Covers(texts, names) && Structured(doc, names, slots, 0)
    requires forall n :: n in names ==> QuietText(texts[n])
    ensures forall s :: s in slots ==> s.name in texts
    ensures var out, moved := Substituted(doc, names, slots, texts, 0), Moved(slots, texts, 0, 0);
            Structured(out, names, moved, 0) && Substituted(out, names, moved, texts, 0) == out
  {
    var out := Substituted(doc, names, slots, texts, 0);
    assert out == "" + out;
    SubstitutedReads(doc, names, slots, texts, 0, "", out);
    ReadsIsStructured(doc, names, slots, texts, 0, out, 0);
    ReadsAgain(doc, slots, texts, 0, out, 0);
    ReadsIsSubstituted(out, names, Moved(slots, texts, 0, 0), texts, 0, out, 0);
    assert out[0..] == out;
  }

  /** How often each name occurs does not change either. */
  lemma {:induction false} MovedKeepsCounts(slots: seq<Slot>, texts: Texts, i: int, at: int, name: string)
    requires forall s :: s in slots ==> s.name in texts
    ensures |OwnRegions(Moved(slots, texts, i, at), name)| == |OwnRegions(slots, name)|
    decreases slots
  {
    if slots != [] {
      MovedKeepsCounts(slots[1..], texts, slots[0].After(), Shift(slots[0], texts[slots[0].name], i, at).After(), name);
    }
  }

  /** Each of these regions of the page holds exactly this text. */
  predicate AllHold(doc: string, regions: seq<Region>, text: string) {
    forall k :: 0 <= k < |regions| ==>
      0 <= regions[k].0 <= regions[k].1 <= |doc| && doc[regions[k].0..regions[k].1] == text
  }

  /** In the new page every region of a name holds the text given for that name. */
  lemma {:induction false} MovedHoldTexts(doc: string, slots: seq<Slot>, texts: Texts, i: int, out: string, at: int, name: string)
    requires forall s :: s in slots ==> s.name in texts
    requires name in texts && Reads(doc, slots, texts, i, out, at)
    ensures AllHold(out, OwnRegions(Moved(slots, texts, i, at), name), texts[name])
    decreases slots
  {
    if slots != [] {
      var moved := Shift(slots[0], texts[slots[0].name], i, at);
      var rest := Moved(slots[1..], texts, slots[0].After(), moved.After());
      MovedHoldTexts(doc, slots[1..], texts, slots[0].After(), out, moved.After(), name);
      assert ([moved] + rest)[1..] == rest;
      assert texts[slots[0].name][0..|texts[slots[0].name]|] == texts[slots[0].name];
    }
  }
}
