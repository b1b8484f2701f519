/**
 Marked regions of a page: the text between `<!-- brains:NAME:start -->` and the
 first `<!-- brains:NAME:end -->` after it.  A page that passes the renderer's
 checks is plain text interleaved with whole regions, and nothing else.
 */
module Markers {
  const PREFIX := "<!-- brains:"

  function Start(name: string): string {
    PREFIX + name + ":start -->"
  }

  function End(name: string): string {
    PREFIX + name + ":end -->"
  }

  /** A name that cannot be confused with the rest of a marker. */
  predicate Plain(name: string) {
    forall c :: c in name ==> c != '<' && c != '>' && c != ':'
  }

  ghost predicate Names(names: seq<string>) {
    && (forall n :: n in names ==> Plain(n))
    && (forall i, j :: 0 <= i < j < |names| ==> names[i] != names[j])
  }

  // ------------------------------------------------------------------ //
  // Searching
  // ------------------------------------------------------------------ //

  predicate At(doc: string, pat: string, i: int) {
    0 <= i <= |doc| - |pat| && doc[i..i + |pat|] == pat
  }

  lemma AtAll(doc: string, pat: string, i: int)
    ensures At(doc, pat, i) <==> 0 <= i <= |doc| - |pat| && forall y :: i <= y < i + |pat| ==> doc[y] == pat[y - i]
  {
  }

  ghost predicate IsFirst(doc: string, pat: string, i: int, r: int) {
    r >= i && At(doc, pat, r) && forall j :: i <= j < r ==> !At(doc, pat, j)
  }

  lemma {:induction false} FirstExists(doc: string, pat: string, i: int, j: int)
    requires i <= j && At(doc, pat, j)
    ensures exists r :: IsFirst(doc, pat, i, r)
    decreases j - i
  {
    if At(doc, pat, i) {
      assert IsFirst(doc, pat, i, i);
    } else {
      FirstExists(doc, pat, i + 1, j);
      var r :| IsFirst(doc, pat, i + 1, r);
      assert IsFirst(doc, pat, i, r);
    }
  }

  /** `str.find`: the first occurrence from `i` on, or -1. */
  ghost function Find(doc: string, pat: string, i: nat): (r: int)
    requires i <= |doc|
    ensures r >= 0 ==> At(doc, pat, r) && r >= i
    ensures forall j :: At(doc, pat, j) && j >= i ==> 0 <= r <= j
    ensures r >= -1
  {
    if j: int :| j >= i && At(doc, pat, j) then
      FirstExists(doc, pat, i, j);
      var r :| IsFirst(doc, pat, i, r);
      r
    else -1
  }

  /** `str.count`: occurrences that do not overlap, from `i` on. */
  ghost function Count(doc: string, pat: string, i: nat): nat
    requires pat != "" && i <= |doc|
    decreases |doc| - i
  {
    var p := Find(doc, pat, i);
    if p < 0 then 0 else 1 + Count(doc, pat, p + |pat|)
  }

  type Region = (int, int)

  /** The groups of `start(.*?)end` from `i` on, as positions. */
  ghost function Regions(doc: string, start: string, end: string, i: nat): seq<Region>
    requires start != "" && i <= |doc|
    decreases |doc| - i
  {
    var p := Find(doc, start, i);
    if p < 0 then [] else
      var q := Find(doc, end, p + |start|);
      if q < 0 then [] else [(p + |start|, q)] + Regions(doc, start, end, q + |end|)
  }

  /** Where a match of `<!-- brains:[^>]*-->` at `i` ends, or -1. */
  ghost function TokenEnd(doc: string, i: nat): (r: int)
    requires i <= |doc|
    ensures r >= 0 ==> i + |PREFIX| < r <= |doc|
  {
    if !At(doc, PREFIX, i) then -1 else
      var g := Find(doc, ">", i + |PREFIX|);
      if g >= i + |PREFIX| + 2 && doc[g - 2..g] == "--" then g + 1 else -1
  }

  ghost function Tokens(doc: string, i: nat): nat
    requires i <= |doc|
    decreases |doc| - i
  {
    var p := Find(doc, PREFIX, i);
    if p < 0 then 0
    else if TokenEnd(doc, p) >= 0 then 1 + Tokens(doc, TokenEnd(doc, p))
    else Tokens(doc, p + 1)
  }

  /** The start and end markers of all names together, from `i` on. */
  ghost function Total(doc: string, names: seq<string>, i: nat): nat
    requires i <= |doc|
  {
    if names == [] then 0
    else Count(doc, Start(names[0]), i) + Count(doc, End(names[0]), i) + Total(doc, names[1..], i)
  }

  ghost function Expected(doc: string, names: seq<string>): nat {
    if names == [] then 0 else Count(doc, Start(names[0]), 0) + Expected(doc, names[1..])
  }

  predicate Absent(doc: string, pat: string, from: int, to: int) {
    forall i :: from <= i < to ==> !At(doc, pat, i)
  }

  /** No marker of any kind inside a region: `"<!-- brains:" in match[1]` is false. */
  predicate Quiet(doc: string, r: Region) {
    Absent(doc, PREFIX, r.0, r.1 - |PREFIX| + 1)
  }

  /** The checks made on one name from `i` on, apart from how often it may occur. */
  ghost predicate Paired(doc: string, name: string, i: nat)
    requires i <= |doc|
  {
    var regions := Regions(doc, Start(name), End(name), i);
    && Count(doc, End(name), i) == Count(doc, Start(name), i)
    && |regions| == Count(doc, Start(name), i)
    && forall k :: 0 <= k < |regions| ==> Quiet(doc, regions[k])
  }

  /** Every check on a page, apart from how often each name may occur. */
  ghost predicate Checked(doc: string, names: seq<string>) {
    && (forall n :: n in names ==> Paired(doc, n, 0))
    && Tokens(doc, 0) == 2 * Expected(doc, names)
    && Count(doc, PREFIX, 0) == Tokens(doc, 0)
  }

  // ------------------------------------------------------------------ //
  // Markers cannot overlap
  // ------------------------------------------------------------------ //

  predicate IsMarker(m: string) {
    |m| >= |PREFIX| && m[..|PREFIX|] == PREFIX && forall i :: 1 <= i < |m| ==> m[i] != '<'
  }

  lemma MarkerFrom(name: string, tail: string)
    requires Plain(name) && '<' !in tail
    ensures IsMarker(PREFIX + name + tail) && IsMarker(PREFIX)
  {
    var m := PREFIX + name + tail;
    forall i | 1 <= i < |m| ensures m[i] != '<' {
      if i < |PREFIX| { assert m[i] == PREFIX[i]; }
      else if i < |PREFIX| + |name| { assert m[i] == name[i - |PREFIX|] && name[i - |PREFIX|] in name; }
      else { assert m[i] == tail[i - |PREFIX| - |name|] && tail[i - |PREFIX| - |name|] in tail; }
    }
  }

  lemma MarkersAreMarkers(name: string)
    requires Plain(name)
    ensures IsMarker(Start(name)) && IsMarker(End(name)) && IsMarker(PREFIX)
  {
    MarkerFrom(name, ":start -->");
    MarkerFrom(name, ":end -->");
  }

  lemma MarkerHasPrefix(doc: string, m: string, i: int)
    requires IsMarker(m) && At(doc, m, i)
    ensures At(doc, PREFIX, i) && doc[i] == '<'
  {
    assert doc[i..i + |PREFIX|] == m[..|PREFIX|];
    assert doc[i] == m[0] == '<';
  }

  /** The name inside a marker runs up to the first colon after the prefix. */
  lemma NameInMarker(doc: string, i: int, a: string, ta: string)
    requires Plain(a) && |ta| > 1 && ta[0] == ':' && At(doc, PREFIX + a + ta, i)
    ensures |doc| >= i + |PREFIX| + |a| + 2
    ensures doc[i + |PREFIX| + |a|] == ':' && doc[i + |PREFIX| + |a| + 1] == ta[1]
    ensures forall k :: 0 <= k < |a| ==> doc[i + |PREFIX| + k] == a[k] && a[k] != ':'
  {
    var m, p := PREFIX + a + ta, |PREFIX|;
    assert forall k :: 0 <= k < |m| ==> doc[i + k] == m[k];
    assert m[p + |a|] == ':' && m[p + |a| + 1] == ta[1];
    forall k | 0 <= k < |a| ensures doc[i + p + k] == a[k] && a[k] != ':' {
      assert m[p + k] == a[k] && a[k] in a;
    }
  }

  lemma NamesAgree(doc: string, i: int, a: string, b: string, ta: string, tb: string)
    requires Plain(a) && Plain(b) && |ta| > 1 && ta[0] == ':' && |tb| > 1 && tb[0] == ':'
    requires At(doc, PREFIX + a + ta, i) && At(doc, PREFIX + b + tb, i)
    ensures a == b && ta[1] == tb[1]
  {
    NameInMarker(doc, i, a, ta);
    NameInMarker(doc, i, b, tb);
    assert |a| == |b|;
  }

  /** Different markers never start at the same place. */
  lemma MarkersDiffer(doc: string, a: string, b: string, i: int)
    requires Plain(a) && Plain(b)
    ensures At(doc, Start(a), i) && At(doc, Start(b), i) ==> a == b
    ensures At(doc, End(a), i) && At(doc, End(b), i) ==> a == b
    ensures !(At(doc, Start(a), i) && At(doc, End(b), i))
  {
    if At(doc, Start(a), i) && At(doc, Start(b), i) { NamesAgree(doc, i, a, b, ":start -->", ":start -->"); }
    if At(doc, End(a), i) && At(doc, End(b), i) { NamesAgree(doc, i, a, b, ":end -->", ":end -->"); }
    if At(doc, Start(a), i) && At(doc, End(b), i) { NamesAgree(doc, i, a, b, ":start -->", ":end -->"); }
  }

  /** Nothing starts strictly inside a marker. */
  lemma InsideMarker(doc: string, m: string, pat: string, i: int)
    requires IsMarker(m) && IsMarker(pat) && At(doc, m, i)
    ensures Absent(doc, pat, i + 1, i + |m|)
  {
    forall j | i + 1 <= j < i + |m| ensures !At(doc, pat, j) {
      assert doc[j] == m[j - i];
      if At(doc, pat, j) { MarkerHasPrefix(doc, pat, j); }
    }
  }

  lemma NoPrefixNoMarker(doc: string, m: string, from: int, to: int)
    requires IsMarker(m) && Absent(doc, PREFIX, from, to)
    ensures Absent(doc, m, from, to)
  {
    forall j | from <= j < to ensures !At(doc, m, j) {
      if At(doc, m, j) { MarkerHasPrefix(doc, m, j); }
    }
  }

  // ------------------------------------------------------------------ //
  // Skipping text in which nothing starts
  // ------------------------------------------------------------------ //

  lemma FindSkips(doc: string, pat: string, i: nat, k: nat)
    requires i <= k <= |doc| && Absent(doc, pat, i, k)
    ensures Find(doc, pat, i) == Find(doc, pat, k)
  {
    var a, b := Find(doc, pat, i), Find(doc, pat, k);
    if a >= 0 { assert At(doc, pat, a) && a >= k; }
  }

  lemma CountSkips(doc: string, pat: string, i: nat, k: nat)
    requires i <= k <= |doc| && Absent(doc, pat, i, k) && pat != ""
    ensures Count(doc, pat, i) == Count(doc, pat, k)
  {
    FindSkips(doc, pat, i, k);
  }

  lemma {:induction false} RegionsSkip(doc: string, start: string, end: string, i: nat, k: nat)
    requires i <= k <= |doc| && Absent(doc, start, i, k) && start != ""
    ensures Regions(doc, start, end, i) == Regions(doc, start, end, k)
  {
    FindSkips(doc, start, i, k);
  }

  /** The count with a marker in front, down to any point inside that marker. */
  lemma {:induction false} CountInFront(doc: string, m: string, pat: string, i: nat, k: nat)
    requires IsMarker(m) && IsMarker(pat) && At(doc, m, i) && i < k <= i + |m|
    ensures Count(doc, pat, i) == (if At(doc, pat, i) then 1 else 0) + Count(doc, pat, k)
  {
    InsideMarker(doc, m, pat, i);
    if !At(doc, pat, i) {
      CountSkips(doc, pat, i, k);
    } else {
      var n := i + |pat|;
      assert Count(doc, pat, i) == 1 + Count(doc, pat, n);
      InsideMarker(doc, pat, pat, i);
      CountBetween(doc, pat, if k < n then k else n, if k < n then n else k);
    }
  }

  lemma {:induction false} CountBetween(doc: string, pat: string, i: nat, k: nat)
    requires i <= k <= |doc| && pat != "" && Absent(doc, pat, i, k)
    ensures Count(doc, pat, i) == Count(doc, pat, k)
  {
    CountSkips(doc, pat, i, k);
  }

  lemma {:induction false} TotalSkips(doc: string, names: seq<string>, i: nat, k: nat)
    requires Names(names) && i <= k <= |doc| && Absent(doc, PREFIX, i, k)
    ensures Total(doc, names, i) == Total(doc, names, k)
  {
    if names != [] {
      MarkersAreMarkers(names[0]);
      NoPrefixNoMarker(doc, Start(names[0]), i, k);
      NoPrefixNoMarker(doc, End(names[0]), i, k);
      CountSkips(doc, Start(names[0]), i, k);
      CountSkips(doc, End(names[0]), i, k);
      TotalSkips(doc, names[1..], i, k);
    }
  }

  /** Whether a known marker starts at `i`. */
  predicate Known(doc: string, names: seq<string>, i: int) {
    exists n :: n in names && (At(doc, Start(n), i) || At(doc, End(n), i))
  }

  /** A prefix in front takes one from the total if it belongs to a known marker, and nothing otherwise. */
  lemma {:induction false} TotalInFront(doc: string, names: seq<string>, i: nat)
    requires Names(names) && At(doc, PREFIX, i)
    ensures Total(doc, names, i) == (if Known(doc, names, i) then 1 else 0) + Total(doc, names, i + |PREFIX|)
  {
    if names != [] {
      var n, rest := names[0], names[1..];
      MarkersAreMarkers(n);
      CountInFront(doc, PREFIX, Start(n), i, i + |PREFIX|);
      CountInFront(doc, PREFIX, End(n), i, i + |PREFIX|);
      MarkersDiffer(doc, n, n, i);
      TotalInFront(doc, rest, i);
      if (At(doc, Start(n), i) || At(doc, End(n), i)) && Known(doc, rest, i) {
        var b :| b in rest && (At(doc, Start(b), i) || At(doc, End(b), i));
        MarkersDiffer(doc, n, b, i);
        MarkersDiffer(doc, b, n, i);
      }
      assert Known(doc, names, i) <==> At(doc, Start(n), i) || At(doc, End(n), i) || Known(doc, rest, i);
    }
  }

  /** Known markers are among the prefixes. */
  lemma {:induction false} TotalAtMostPrefixes(doc: string, names: seq<string>, i: nat)
    requires Names(names) && i <= |doc|
    ensures Total(doc, names, i) <= Count(doc, PREFIX, i)
    decreases |doc| - i
  {
    var p := Find(doc, PREFIX, i);
    if p < 0 {
      TotalSkips(doc, names, i, |doc|);
      NothingAtEnd(doc, names);
    } else {
      TotalSkips(doc, names, i, p);
      TotalInFront(doc, names, p);
      TotalAtMostPrefixes(doc, names, p + |PREFIX|);
    }
  }

  lemma {:induction false} NothingAtEnd(doc: string, names: seq<string>)
    ensures Total(doc, names, |doc|) == 0
  {
    if names != [] { NothingAtEnd(doc, names[1..]); }
  }

  // ------------------------------------------------------------------ //
  // The shape of an accepted page
  // ------------------------------------------------------------------ //

  /** One whole region: its start marker is at `at`, its text from `from` to `to`, its end marker right after. */
  datatype Slot = Slot(name: string, at: int, from: int, to: int) {
    function After(): int {
      to + |End(name)|
    }
  }

  predicate SlotAt(doc: string, names: seq<string>, s: Slot, i: int) {
    && 0 <= i <= s.at && s.name in names
    && At(doc, Start(s.name), s.at) && s.from == s.at + |Start(s.name)|
    && s.from <= s.to && At(doc, End(s.name), s.to)
    && Absent(doc, PREFIX, i, s.at)
    && Absent(doc, PREFIX, s.from, s.to)
  }

  /** From `i` on, the page is text without markers interleaved with these whole regions. */
  predicate Structured(doc: string, names: seq<string>, slots: seq<Slot>, i: int)
    decreases slots
  {
    if slots == [] then 0 <= i <= |doc| && Absent(doc, PREFIX, i, |doc|)
    else SlotAt(doc, names, slots[0], i) && Structured(doc, names, slots[1..], slots[0].After())
  }

  /** A marker at neither end of a slot is nowhere up to its end. */
  lemma AbsentOverSlot(doc: string, names: seq<string>, s: Slot, i: int, m: string)
    requires Names(names) && SlotAt(doc, names, s, i) && IsMarker(m)
    requires !At(doc, m, s.at) && !At(doc, m, s.to)
    ensures Absent(doc, m, i, s.After())
  {
    MarkersAreMarkers(s.name);
    NoPrefixNoMarker(doc, m, i, s.at);
    InsideMarker(doc, Start(s.name), m, s.at);
    NoPrefixNoMarker(doc, m, s.from, s.to);
    InsideMarker(doc, End(s.name), m, s.to);
  }

  /** A slot adds two prefixes, and one start and one end of its own name. */
  lemma {:induction false} CountOverSlot(doc: string, names: seq<string>, s: Slot, i: nat, m: string)
    requires Names(names) && SlotAt(doc, names, s, i) && IsMarker(m)
    ensures Count(doc, m, i) == (if At(doc, m, s.at) then 1 else 0) + (if At(doc, m, s.to) then 1 else 0)
                                + Count(doc, m, s.After())
  {
    MarkersAreMarkers(s.name);
    NoPrefixNoMarker(doc, m, i, s.at);
    CountSkips(doc, m, i, s.at);
    CountInFront(doc, Start(s.name), m, s.at, s.from);
    NoPrefixNoMarker(doc, m, s.from, s.to);
    CountSkips(doc, m, s.from, s.to);
    CountInFront(doc, End(s.name), m, s.to, s.After());
  }

  /** A slot adds its own region and no other. */
  lemma {:induction false} RegionsOverSlot(doc: string, names: seq<string>, s: Slot, i: nat, name: string)
    requires Names(names) && SlotAt(doc, names, s, i) && name in names
    ensures Regions(doc, Start(name), End(name), i) ==
            (if name == s.name then [(s.from, s.to)] else []) + Regions(doc, Start(name), End(name), s.After())
  {
    if name == s.name { OwnRegion(doc, names, s, i); } else { OtherRegions(doc, names, s, i, name); }
  }

  lemma {:induction false} OtherRegions(doc: string, names: seq<string>, s: Slot, i: nat, name: string)
    requires Names(names) && SlotAt(doc, names, s, i) && name in names && name != s.name
    ensures Regions(doc, Start(name), End(name), i) == Regions(doc, Start(name), End(name), s.After())
  {
    MarkersAreMarkers(name);
    MarkersDiffer(doc, name, s.name, s.at);
    MarkersDiffer(doc, name, s.name, s.to);
    AbsentOverSlot(doc, names, s, i, Start(name));
    RegionsSkip(doc, Start(name), End(name), i, s.After());
  }

  lemma {:induction false} OwnRegion(doc: string, names: seq<string>, s: Slot, i: nat)
    requires Names(names) && SlotAt(doc, names, s, i)
    ensures Regions(doc, Start(s.name), End(s.name), i) ==
            [(s.from, s.to)] + Regions(doc, Start(s.name), End(s.name), s.After())
  {
    MarkersAreMarkers(s.name);
    NoPrefixNoMarker(doc, Start(s.name), i, s.at);
    NoPrefixNoMarker(doc, End(s.name), s.from, s.to);
    RegionsFoundAt(doc, Start(s.name), End(s.name), i, s.at, s.from, s.to, s.After());
  }

  lemma {:induction false} RegionsFoundAt(
    doc: string, start: string, end: string, i: nat, p: nat, from: int, q: nat, after: int)
    requires start != "" && i <= p && At(doc, start, p) && Absent(doc, start, i, p)
    requires from == p + |start| && after == q + |end|
    requires from <= q && At(doc, end, q) && Absent(doc, end, from, q)
    ensures Regions(doc, start, end, i) == [(from, q)] + Regions(doc, start, end, after)
  {
    assert IsFirst(doc, start, i, p);
    assert IsFirst(doc, end, from, q);
    RegionsFound(doc, start, end, i, p, q);
  }

  /** Two counts of a slot's own markers, seen from outside. */
  lemma {:induction false} MarkersOverSlot(doc: string, names: seq<string>, s: Slot, i: nat, name: string)
    requires Names(names) && SlotAt(doc, names, s, i) && name in names
    ensures var one := if name == s.name then 1 else 0;
            && Count(doc, Start(name), i) == one + Count(doc, Start(name), s.After())
            && Count(doc, End(name), i) == one + Count(doc, End(name), s.After())
    ensures Count(doc, PREFIX, i) == 2 + Count(doc, PREFIX, s.After())
  {
    MarkersAreMarkers(name);
    MarkersAreMarkers(s.name);
    MarkerHasPrefix(doc, Start(s.name), s.at);
    MarkerHasPrefix(doc, End(s.name), s.to);
    MarkersDiffer(doc, name, s.name, s.at);
    MarkersDiffer(doc, name, s.name, s.to);
    MarkersDiffer(doc, s.name, name, s.at);
    MarkersDiffer(doc, s.name, name, s.to);
    CountOverSlot(doc, names, s, i, Start(name));
    CountOverSlot(doc, names, s, i, End(name));
    CountOverSlot(doc, names, s, i, PREFIX);
  }

  /** A prefix cannot straddle the `<` that opens an end marker. */
  lemma QuietUpToMarker(doc: string, m: string, r: Region)
    requires IsMarker(m) && At(doc, m, r.1) && Quiet(doc, r)
    ensures Absent(doc, PREFIX, r.0, r.1)
  {
    forall j | r.0 <= j < r.1 ensures !At(doc, PREFIX, j) {
      if At(doc, PREFIX, j) {
        MarkerFrom("", "");
        assert doc[j..j + |PREFIX|][r.1 - j] == PREFIX[r.1 - j];
        MarkerHasPrefix(doc, m, r.1);
      }
    }
  }

  /** A marker's count, one position at a time. */
  lemma {:induction false} CountStep(doc: string, pat: string, i: nat)
    requires IsMarker(pat) && i < |doc|
    ensures Count(doc, pat, i) == (if At(doc, pat, i) then 1 else 0) + Count(doc, pat, i + 1)
  {
    if At(doc, pat, i) { CountInFront(doc, pat, pat, i, i + 1); } else { CountSkips(doc, pat, i, i + 1); }
  }

  lemma {:induction false} CountMonotone(doc: string, pat: string, i: nat, k: nat)
    requires IsMarker(pat) && i <= k <= |doc|
    ensures Count(doc, pat, i) >= Count(doc, pat, k)
    decreases k - i
  {
    if i < k {
      CountStep(doc, pat, i);
      CountMonotone(doc, pat, i + 1, k);
    }
  }

  /** An end is needed for each region. */
  lemma {:induction false} RegionsAtMostEnds(doc: string, start: string, end: string, i: nat)
    requires start != "" && IsMarker(end) && i <= |doc|
    ensures |Regions(doc, start, end, i)| <= Count(doc, end, i)
    decreases |doc| - i
  {
    var p := Find(doc, start, i);
    if p < 0 || Find(doc, end, p + |start|) < 0 {
      assert Regions(doc, start, end, i) == [];
    } else {
      var q := Find(doc, end, p + |start|);
      FindIsFirst(doc, start, i);
      FindIsFirst(doc, end, p + |start|);
      var after := q + |end|;
      RegionsAtMostEnds(doc, start, end, after);
      FirstRegionHasAnEnd(doc, start, end, i, p, q, after);
    }
  }

  lemma FindIsFirst(doc: string, pat: string, i: nat)
    requires i <= |doc|
    ensures Find(doc, pat, i) >= 0 ==> IsFirst(doc, pat, i, Find(doc, pat, i))
  {
  }

  lemma {:induction false} FirstRegionHasAnEnd(doc: string, start: string, end: string, i: nat, p: nat, q: nat, after: nat)
    requires start != "" && IsMarker(end) && i <= |doc| && IsFirst(doc, start, i, p) && IsFirst(doc, end, p + |start|, q)
    requires after == q + |end| && |Regions(doc, start, end, after)| <= Count(doc, end, after)
    ensures |Regions(doc, start, end, i)| <= Count(doc, end, i)
  {
    OneMoreEnd(doc, end, i, q, after);
    RegionsFoundAt(doc, start, end, i, p, p + |start|, q, after);
  }

  lemma {:induction false} OneMoreEnd(doc: string, end: string, i: nat, q: nat, after: nat)
    requires IsMarker(end) && i <= q && At(doc, end, q) && after == q + |end|
    ensures Count(doc, end, i) >= 1 + Count(doc, end, after)
  {
    CountInFront(doc, end, end, q, after);
    CountMonotone(doc, end, i, q);
  }

  lemma {:induction false} RegionsFound(doc: string, start: string, end: string, i: nat, p: nat, q: nat)
    requires start != "" && i <= |doc| && IsFirst(doc, start, i, p) && IsFirst(doc, end, p + |start|, q)
    ensures Regions(doc, start, end, i) == [(p + |start|, q)] + Regions(doc, start, end, q + |end|)
  {
    assert Find(doc, start, i) == p;
    assert Find(doc, end, p + |start|) == q;
  }

  /** The checks from `i` on, in the form that survives taking one slot off. */
  ghost predicate CheckedFrom(doc: string, names: seq<string>, i: nat)
    requires i <= |doc|
  {
    (forall n :: n in names ==> Paired(doc, n, i)) && Total(doc, names, i) == Count(doc, PREFIX, i)
  }

  /** Where the checks hold, the first prefix is a known marker. */
  lemma FirstPrefixIsKnown(doc: string, names: seq<string>, i: nat, p: nat)
    requires Names(names) && i <= |doc| && CheckedFrom(doc, names, i) && IsFirst(doc, PREFIX, i, p)
    ensures Known(doc, names, p)
  {
    TotalSkips(doc, names, i, p);
    CountSkips(doc, PREFIX, i, p);
    TotalInFront(doc, names, p);
    TotalAtMostPrefixes(doc, names, p + |PREFIX|);
    MarkerFrom("", "");
    CountInFront(doc, PREFIX, PREFIX, p, p + |PREFIX|);
  }

  /** An end marker cannot come first: its start would be missing. */
  lemma FirstMarkerIsAStart(doc: string, names: seq<string>, i: nat, p: nat, name: string)
    requires Names(names) && i <= |doc| && name in names && Paired(doc, name, i) && IsFirst(doc, PREFIX, i, p)
    ensures !At(doc, End(name), p)
  {
    if At(doc, End(name), p) {
      var start, end := Start(name), End(name);
      var after := p + |end|;
      MarkersAreMarkers(name);
      MarkersDiffer(doc, name, name, p);
      NoPrefixNoMarker(doc, start, i, p);
      InsideMarker(doc, end, start, p);
      RegionsSkip(doc, start, end, i, after);
      NoPrefixNoMarker(doc, end, i, p);
      CountSkips(doc, end, i, p);
      CountInFront(doc, end, end, p, after);
      RegionsAtMostEnds(doc, start, end, after);
    }
  }

  /** The first start marker opens a whole region. */
  lemma FirstStartOpensSlot(doc: string, names: seq<string>, i: nat, p: nat, name: string) returns (s: Slot)
    requires Names(names) && i <= |doc| && name in names && Paired(doc, name, i) && IsFirst(doc, PREFIX, i, p)
    requires At(doc, Start(name), p)
    ensures SlotAt(doc, names, s, i) && s.name == name && s.at == p
  {
    var start, end := Start(name), End(name);
    MarkersAreMarkers(name);
    NoPrefixNoMarker(doc, start, i, p);
    CountSkips(doc, start, i, p);
    CountInFront(doc, start, start, p, p + |start|);
    var from := p + |start|;
    var q := Find(doc, end, from);
    assert Find(doc, start, i) == p;
    assert q >= 0;
    FindIsFirst(doc, end, from);
    RegionsFoundAt(doc, start, end, i, p, from, q, q + |end|);
    assert Regions(doc, start, end, i)[0] == (from, q);
    assert Quiet(doc, (from, q));
    QuietUpToMarker(doc, end, (from, q));
    s := Slot(name, p, from, q);
  }

  lemma PairedAfterSlot(doc: string, names: seq<string>, s: Slot, i: nat, n: string)
    requires Names(names) && i <= |doc| && n in names && Paired(doc, n, i) && SlotAt(doc, names, s, i)
    ensures Paired(doc, n, s.After())
  {
    MarkersOverSlot(doc, names, s, i, n);
    RegionsOverSlot(doc, names, s, i, n);
    QuietTail(doc, Regions(doc, Start(n), End(n), i), if n == s.name then [(s.from, s.to)] else [],
              Regions(doc, Start(n), End(n), s.After()));
  }

  lemma QuietTail(doc: string, all: seq<Region>, front: seq<Region>, tail: seq<Region>)
    requires all == front + tail && forall k :: 0 <= k < |all| ==> Quiet(doc, all[k])
    ensures forall k :: 0 <= k < |tail| ==> Quiet(doc, tail[k])
  {
    forall k | 0 <= k < |tail| ensures Quiet(doc, tail[k]) { assert tail[k] == all[|front| + k]; }
  }

  /** The checks still hold after the slot. */
  lemma CheckedAfterSlot(doc: string, names: seq<string>, s: Slot, i: nat)
    requires Names(names) && i <= |doc| && CheckedFrom(doc, names, i) && SlotAt(doc, names, s, i)
    ensures CheckedFrom(doc, names, s.After())
  {
    forall n | n in names ensures Paired(doc, n, s.After()) { PairedAfterSlot(doc, names, s, i, n); }
    TotalOverSlot(doc, names, s, i);
    MarkersOverSlot(doc, names, s, i, s.name);
  }

  lemma {:induction false} TotalOverMarker(doc: string, names: seq<string>, m: string, i: nat, k: nat)
    requires Names(names) && IsMarker(m) && At(doc, m, i) && Known(doc, names, i) && k == i + |m|
    ensures Total(doc, names, i) == 1 + Total(doc, names, k)
  {
    MarkerHasPrefix(doc, m, i);
    TotalInFront(doc, names, i);
    MarkerFrom("", "");
    InsideMarker(doc, m, PREFIX, i);
    TotalSkips(doc, names, i + |PREFIX|, k);
  }

  lemma {:induction false} TotalOverSlot(doc: string, names: seq<string>, s: Slot, i: nat)
    requires Names(names) && SlotAt(doc, names, s, i)
    ensures Total(doc, names, i) == 2 + Total(doc, names, s.After())
  {
    MarkersAreMarkers(s.name);
    TotalSkips(doc, names, i, s.at);
    assert Known(doc, names, s.at) && Known(doc, names, s.to);
    TotalOverMarker(doc, names, Start(s.name), s.at, s.from);
    TotalSkips(doc, names, s.from, s.to);
    TotalOverMarker(doc, names, End(s.name), s.to, s.After());
  }

  lemma {:induction false} StructureFrom(doc: string, names: seq<string>, i: nat) returns (slots: seq<Slot>)
    requires Names(names) && i <= |doc| && CheckedFrom(doc, names, i)
    ensures Structured(doc, names, slots, i)
    decreases |doc| - i
  {
    var p := Find(doc, PREFIX, i);
    FindIsFirst(doc, PREFIX, i);
    if p < 0 {
      slots := [];
    } else {
      FirstPrefixIsKnown(doc, names, i, p);
      var n :| n in names && (At(doc, Start(n), p) || At(doc, End(n), p));
      FirstMarkerIsAStart(doc, names, i, p, n);
      var s := FirstStartOpensSlot(doc, names, i, p, n);
      CheckedAfterSlot(doc, names, s, i);
      var rest := StructureFrom(doc, names, s.After());
      slots := [s] + rest;
      assert slots[1..] == rest;
    }
  }

  lemma {:induction false} TotalIsTwiceExpected(doc: string, names: seq<string>)
    requires forall n :: n in names ==> Count(doc, End(n), 0) == Count(doc, Start(n), 0)
    ensures Total(doc, names, 0) == 2 * Expected(doc, names)
  {
    if names != [] { TotalIsTwiceExpected(doc, names[1..]); }
  }

  /** Every page that passes the checks is plain text interleaved with whole regions. */
  lemma CheckedPageIsStructured(doc: string, names: seq<string>) returns (slots: seq<Slot>)
    requires Names(names) && Checked(doc, names)
    ensures Structured(doc, names, slots, 0)
  {
    TotalIsTwiceExpected(doc, names);
    slots := StructureFrom(doc, names, 0);
  }
}
