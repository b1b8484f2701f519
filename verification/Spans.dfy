/**
 The searches of the page renderer as loops, and the order in which it splices:
 spans collected name by name, then sorted, are the regions of the page from its
 last to its first.

 The spans of all names together are the spans of the regions in page order, up to
 the order in which they were found; regions follow one another without touching,
 so there is one way to put their spans in descending order, and that is to read
 the page backwards.  Sorting never has to compare two texts.
 */
module Spans {
  import opened Markers
  import opened Sequences
  import opened Splice

  // ------------------------------------------------------------------ //
  // Searching, as loops
  // ------------------------------------------------------------------ //

  method FindText(doc: string, pat: string, i: nat) returns (r: int)
    requires i <= |doc|
    ensures r == Find(doc, pat, i)
  {
    var j := i;
    while j + |pat| <= |doc|
      invariant i <= j
      invariant forall k :: i <= k < j ==> !At(doc, pat, k)
    {
      if doc[j..j + |pat|] == pat {
        assert At(doc, pat, j);
        return j;
      }
      j := j + 1;
    }
    r := -1;
  }

  method CountText(doc: string, pat: string) returns (n: nat)
    requires pat != ""
    ensures n == Count(doc, pat, 0)
  {
    n := 0;
    var at := 0;
    var p := FindText(doc, pat, at);
    while p >= 0
      invariant at <= |doc| && p == Find(doc, pat, at)
      invariant n + Count(doc, pat, at) == Count(doc, pat, 0)
      decreases |doc| - at
    {
      n := n + 1;
      at := p + |pat|;
      p := FindText(doc, pat, at);
    }
  }

  /** The next match of `start(.*?)end` from `at` on, by the positions of its group. */
  method NextMatch(doc: string, start: string, end: string, at: nat) returns (found: bool, from: nat, to: nat)
    requires start != "" && at <= |doc|
    ensures found ==> at < from <= to <= |doc| - |end|
    ensures found ==> Regions(doc, start, end, at) == [(from, to)] + Regions(doc, start, end, to + |end|)
    ensures !found ==> Regions(doc, start, end, at) == []
  {
    found, from, to := false, 0, 0;
    var p := FindText(doc, start, at);
    if p >= 0 {
      var q := FindText(doc, end, p + |start|);
      if q >= 0 {
        found, from, to := true, p + |start|, q;
      }
    }
  }

  method MatchRegions(doc: string, start: string, end: string, at: nat) returns (regions: seq<Region>)
    requires start != "" && at <= |doc|
    ensures regions == Regions(doc, start, end, at)
    decreases |doc| - at
  {
    var found, from, to := NextMatch(doc, start, end, at);
    regions := [];
    if found {
      var rest := MatchRegions(doc, start, end, to + |end|);
      regions := [(from, to)] + rest;
    }
  }

  method EndOfToken(doc: string, p: nat) returns (r: int)
    requires At(doc, PREFIX, p)
    ensures r == TokenEnd(doc, p)
  {
    var g := FindText(doc, ">", p + |PREFIX|);
    r := if g >= p + |PREFIX| + 2 && doc[g - 2..g] == "--" then g + 1 else -1;
  }

  method CountTokens(doc: string) returns (n: nat)
    ensures n == Tokens(doc, 0)
  {
    n := 0;
    var at := 0;
    var p := FindText(doc, PREFIX, at);
    while p >= 0
      invariant at <= |doc| && p == Find(doc, PREFIX, at)
      invariant n + Tokens(doc, at) == Tokens(doc, 0)
      decreases |doc| - at
    {
      var end := EndOfToken(doc, p);
      NextToken(doc, at, p, end);
      if end >= 0 {
        n := n + 1;
        at := end;
      } else {
        at := p + 1;
      }
      p := FindText(doc, PREFIX, at);
    }
  }

  lemma NextToken(doc: string, at: nat, p: nat, end: int)
    requires at <= |doc| && p == Find(doc, PREFIX, at) && end == TokenEnd(doc, p)
    ensures Tokens(doc, at) == if end >= 0 then 1 + Tokens(doc, end) else Tokens(doc, p + 1)
  {
  }

  // ------------------------------------------------------------------ //
  // Spans in replacement order
  // ------------------------------------------------------------------ //

  function SpansIn(regions: seq<Region>, text: string): seq<Span> {
    if regions == [] then [] else [Span(regions[0].0, regions[0].1, text)] + SpansIn(regions[1..], text)
  }

  lemma {:induction false} SpansInAppend(regions: seq<Region>, r: Region, text: string)
    ensures SpansIn(regions + [r], text) == SpansIn(regions, text) + [Span(r.0, r.1, text)]
  {
    if regions == [] {
      assert (regions + [r])[1..] == [];
    } else {
      assert (regions + [r])[1..] == regions[1..] + [r];
      SpansInAppend(regions[1..], r, text);
    }
  }

  /** The spans of the first `k` names, name by name. */
  ghost function Collected(doc: string, names: seq<string>, texts: Texts, k: nat): seq<Span>
    requires k <= |names| && Covers(texts, names)
  {
    if k == 0 then []
    else Collected(doc, names, texts, k - 1) + SpansIn(Regions(doc, Start(names[k - 1]), End(names[k - 1]), 0), texts[names[k - 1]])
  }

  function Gathered(slots: seq<Slot>, names: seq<string>, texts: Texts, k: nat): seq<Span>
    requires k <= |names| && Covers(texts, names)
  {
    if k == 0 then []
    else Gathered(slots, names, texts, k - 1) + SpansIn(OwnRegions(slots, names[k - 1]), texts[names[k - 1]])
  }

  lemma {:induction false} CollectedIsGathered(doc: string, names: seq<string>, slots: seq<Slot>, texts: Texts, k: nat)
    requires k <= |names| && Covers(texts, names)
    requires forall n :: n in names ==> Regions(doc, Start(n), End(n), 0) == OwnRegions(slots, n)
    ensures Collected(doc, names, texts, k) == Gathered(slots, names, texts, k)
  {
    if k > 0 { CollectedIsGathered(doc, names, slots, texts, k - 1); }
  }

  lemma RegionsAreOwn(doc: string, names: seq<string>, slots: seq<Slot>, name: string)
    requires Names(names) && Structured(doc, names, slots, 0) && name in names
    ensures Start(name) != "" && Regions(doc, Start(name), End(name), 0) == OwnRegions(slots, name)
  {
    StructuredIsPaired(doc, names, slots, 0, name);
  }

  function SpanOf(s: Slot, texts: Texts): Span {
    Span(s.from, s.to, if s.name in texts then texts[s.name] else "")
  }

  function If<T>(b: bool, x: T): seq<T> {
    if b then [x] else []
  }

  /** One more slot in front adds one span, under its own name. */
  lemma {:induction false} GatheredOneMore(slots: seq<Slot>, names: seq<string>, texts: Texts, k: nat)
    requires slots != [] && k <= |names| && Names(names) && Covers(texts, names)
    ensures multiset(Gathered(slots, names, texts, k)) ==
            multiset(Gathered(slots[1..], names, texts, k)) + multiset(If(slots[0].name in names[..k], SpanOf(slots[0], texts)))
  {
    if k > 0 {
      GatheredOneMore(slots, names, texts, k - 1);
      GatheredStep(slots, names, texts, k);
      OneSpan(names, k, slots[0].name, SpanOf(slots[0], texts));
    }
  }

  lemma OwnFirst(slots: seq<Slot>, n: string, texts: Texts)
    requires slots != [] && n in texts
    ensures SpansIn(OwnRegions(slots, n), texts[n])
            == If(slots[0].name == n, SpanOf(slots[0], texts)) + SpansIn(OwnRegions(slots[1..], n), texts[n])
  {
    OwnOneMore(slots, n, texts[n]);
  }

  lemma OneSpan(names: seq<string>, k: nat, name: string, span: Span)
    requires 0 < k <= |names| && Names(names)
    ensures multiset(If(name in names[..k], span))
            == multiset(If(name in names[..k - 1], span)) + multiset(If(name == names[k - 1], span))
  {
    assert names[..k] == names[..k - 1] + [names[k - 1]];
  }

  lemma GatheredStep(slots: seq<Slot>, names: seq<string>, texts: Texts, k: nat)
    requires slots != [] && 0 < k <= |names| && Covers(texts, names)
    requires multiset(Gathered(slots, names, texts, k - 1)) ==
             multiset(Gathered(slots[1..], names, texts, k - 1))
             + multiset(If(slots[0].name in names[..k - 1], SpanOf(slots[0], texts)))
    ensures multiset(Gathered(slots, names, texts, k)) ==
            multiset(Gathered(slots[1..], names, texts, k))
            + (multiset(If(slots[0].name in names[..k - 1], SpanOf(slots[0], texts)))
               + multiset(If(slots[0].name == names[k - 1], SpanOf(slots[0], texts))))
  {
    var n := names[k - 1];
    OwnFirst(slots, n, texts);
    MultisetStep(Gathered(slots, names, texts, k - 1), Gathered(slots[1..], names, texts, k - 1),
                 SpansIn(OwnRegions(slots[1..], n), texts[n]), If(slots[0].name == n, SpanOf(slots[0], texts)),
                 multiset(If(slots[0].name in names[..k - 1], SpanOf(slots[0], texts))));
  }

  lemma MultisetStep<T>(g: seq<T>, h: seq<T>, y: seq<T>, e: seq<T>, d: multiset<T>)
    requires multiset(g) == multiset(h) + d
    ensures multiset(g + (e + y)) == multiset(h + y) + (d + multiset(e))
  {
  }

  lemma OwnOneMore(slots: seq<Slot>, n: string, text: string)
    requires slots != []
    ensures SpansIn(OwnRegions(slots, n), text) ==
            If(slots[0].name == n, Span(slots[0].from, slots[0].to, text)) + SpansIn(OwnRegions(slots[1..], n), text)
  {
    var r := (slots[0].from, slots[0].to);
    var rest := OwnRegions(slots[1..], n);
    if slots[0].name == n {
      assert OwnRegions(slots, n) == [r] + rest;
      assert ([r] + rest)[1..] == rest;
    } else {
      assert OwnRegions(slots, n) == rest;
    }
  }

  lemma {:induction false} NothingGathered(names: seq<string>, texts: Texts, k: nat)
    requires k <= |names| && Covers(texts, names)
    ensures Gathered([], names, texts, k) == []
  {
    if k > 0 { NothingGathered(names, texts, k - 1); }
  }

  lemma {:induction false} GatheredAreSpans(doc: string, names: seq<string>, slots: seq<Slot>, texts: Texts, i: int)
    requires Names(names) && Covers(texts, names) && Structured(doc, names, slots, i)
    ensures multiset(Gathered(slots, names, texts, |names|)) == multiset(SpansOf(slots, texts))
    decreases slots
  {
    if slots == [] {
      NothingGathered(names, texts, |names|);
    } else {
      GatheredOneMore(slots, names, texts, |names|);
      assert names[..|names|] == names;
      GatheredAreSpans(doc, names, slots[1..], texts, slots[0].After());
      assert SpansOf(slots, texts) == [SpanOf(slots[0], texts)] + SpansOf(slots[1..], texts);
    }
  }

  predicate Descending(spans: seq<Span>) {
    forall i, j :: 0 <= i < j < |spans| ==>
      spans[i].from > spans[j].from || (spans[i].from == spans[j].from && spans[i].to >= spans[j].to)
  }

  /** `sorted(spans, reverse=True)`; no two regions start at one place, so their texts are never compared. */
  method SortDescending(spans: seq<Span>) returns (sorted: seq<Span>)
    ensures multiset(sorted) == multiset(spans) && Descending(sorted)
  {
    sorted := [];
    for i := 0 to |spans|
      invariant multiset(sorted) == multiset(spans[..i]) && Descending(sorted)
    {
      assert spans[..i + 1] == spans[..i] + [spans[i]];
      sorted := InsertDescending(sorted, spans[i]);
    }
    assert spans[..|spans|] == spans;
  }

  predicate Above(a: Span, b: Span) {
    a.from > b.from || (a.from == b.from && a.to > b.to)
  }

  method InsertDescending(spans: seq<Span>, x: Span) returns (r: seq<Span>)
    requires Descending(spans)
    ensures multiset(r) == multiset(spans) + multiset{x} && Descending(r)
  {
    var p := 0;
    while p < |spans| && Above(spans[p], x)
      invariant p <= |spans|
      invariant forall k :: 0 <= k < p ==> Above(spans[k], x)
    {
      p := p + 1;
    }
    InsertedMembers(spans, p, x);
    StillDescending(spans, p, x);
    r := spans[..p] + [x] + spans[p..];
  }

  lemma StillDescending(s: seq<Span>, p: nat, x: Span)
    requires Descending(s) && p <= |s| && (forall k :: 0 <= k < p ==> Above(s[k], x)) && (p < |s| ==> !Above(s[p], x))
    ensures Descending(s[..p] + [x] + s[p..])
  {
    var r := s[..p] + [x] + s[p..];
    forall i, j | 0 <= i < j < |r|
      ensures r[i].from > r[j].from || (r[i].from == r[j].from && r[i].to >= r[j].to)
    {
      var a := if i < p then s[i] else if i == p then x else s[i - 1];
      var b := if j < p then s[j] else if j == p then x else s[j - 1];
      assert r[i] == a && r[j] == b;
    }
  }

  predicate StrictlyDescending(spans: seq<Span>) {
    forall i, j :: 0 <= i < j < |spans| ==> spans[i].from > spans[j].from
  }

  /** There is one way to put spans with different starts in descending order. */
  lemma {:induction false} OneDescendingOrder(a: seq<Span>, b: seq<Span>)
    requires Descending(a) && StrictlyDescending(b) && multiset(a) == multiset(b)
    ensures a == b
  {
    assert |a| == |multiset(a)| == |multiset(b)| == |b|;
    if a != [] {
      HeadsAgree(a, b);
      SameRest(a, b);
      OneDescendingOrder(a[1..], b[1..]);
    }
  }

  lemma HeadsAgree(a: seq<Span>, b: seq<Span>)
    requires Descending(a) && StrictlyDescending(b) && a != [] && b != []
    requires multiset(a) == multiset(b)
    ensures a[0] == b[0]
  {
    assert a[0] in multiset(b) && b[0] in multiset(a);
    var i :| 0 <= i < |a| && a[i] == b[0];
    var j :| 0 <= j < |b| && b[j] == a[0];
  }

  lemma {:induction false} ReverseDescends(spans: seq<Span>)
    requires forall j, k :: 0 <= j < k < |spans| ==> spans[j].from < spans[k].from
    ensures StrictlyDescending(Reverse(spans))
  {
    if spans != [] {
      ReverseDescends(spans[1..]);
      ReverseKeeps(spans[1..]);
      var r := Reverse(spans[1..]);
      forall i | 0 <= i < |r| ensures r[i].from > spans[0].from {
        assert r[i] in r;
        assert r[i] in spans[1..];
      }
    }
  }

  /** However they were collected, sorting puts the spans of a page in reverse page order. */
  lemma SortedIsReversePageOrder(doc: string, names: seq<string>, slots: seq<Slot>, texts: Texts, sorted: seq<Span>)
    requires Names(names) && Covers(texts, names) && Structured(doc, names, slots, 0)
    requires multiset(sorted) == multiset(Collected(doc, names, texts, |names|)) && Descending(sorted)
    ensures sorted == Reverse(SpansOf(slots, texts))
  {
    forall n | n in names ensures Regions(doc, Start(n), End(n), 0) == OwnRegions(slots, n) {
      RegionsAreOwn(doc, names, slots, n);
    }
    CollectedIsGathered(doc, names, slots, texts, |names|);
    GatheredAreSpans(doc, names, slots, texts, 0);
    SpansAreOrdered(doc, names, slots, texts, 0);
    ReverseDescends(SpansOf(slots, texts));
    ReverseKeeps(SpansOf(slots, texts));
    OneDescendingOrder(sorted, Reverse(SpansOf(slots, texts)));
  }
}
