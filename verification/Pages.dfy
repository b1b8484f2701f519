/**
 A page written out: plain text, and in between whole regions with their markers
 spelled in full.  The checks accept exactly the pages that can be written so, and
 the new page is the same text with the facts in the regions of their names.
 */
module Pages {
  import opened Markers
  import opened Splice
  import opened Site
  import opened SiteRun

  /** Some text, then a region. */
  datatype Piece = Piece(before: string, name: string, text: string)

  function Opening(name: string): string {
    "<!-- brains:" + name + ":start -->"
  }

  function Closing(name: string): string {
    "<!-- brains:" + name + ":end -->"
  }

  function Written(pieces: seq<Piece>, tail: string): string {
    if pieces == [] then tail
    else
      var p := pieces[0];
      p.before + Opening(p.name) + p.text + Closing(p.name) + Written(pieces[1..], tail)
  }

  /** Markers appear only as markers, and only these names do. */
  predicate Whole(pieces: seq<Piece>, tail: string, names: seq<string>) {
    && QuietText(tail)
    && forall p :: p in pieces ==> p.name in names && QuietText(p.before) && QuietText(p.text)
  }

  lemma QuietTextIff(text: string)
    ensures QuietText(text) <==> forall i :: !At(text, "<!-- brains:", i)
  {
  }

  function Replaced(pieces: seq<Piece>, texts: Texts): seq<Piece>
    requires forall p :: p in pieces ==> p.name in texts
  {
    if pieces == [] then [] else [pieces[0].(text := texts[pieces[0].name])] + Replaced(pieces[1..], texts)
  }

  function CountOf(pieces: seq<Piece>, name: string): nat {
    if pieces == [] then 0 else (if pieces[0].name == name then 1 else 0) + CountOf(pieces[1..], name)
  }

  // ------------------------------------------------------------------ //
  // From the page to its pieces
  // ------------------------------------------------------------------ //

  predicate Inside(doc: string, slots: seq<Slot>, i: int)
    decreases slots
  {
    if slots == [] then 0 <= i <= |doc|
    else
      var s := slots[0];
      0 <= i <= s.at <= s.from <= s.to <= s.After() && Inside(doc, slots[1..], s.After())
  }

  lemma {:induction false} InsideIsWithin(doc: string, slots: seq<Slot>, i: int)
    requires Inside(doc, slots, i)
    ensures 0 <= i <= |doc|
    decreases slots
  {
    if slots != [] { InsideIsWithin(doc, slots[1..], slots[0].After()); }
  }

  function PiecesOf(doc: string, slots: seq<Slot>, i: int): seq<Piece>
    requires Inside(doc, slots, i)
    decreases slots
  {
    if slots == [] then [] else
      var s := slots[0];
      InsideIsWithin(doc, slots[1..], s.After());
      [Piece(doc[i..s.at], s.name, doc[s.from..s.to])] + PiecesOf(doc, slots[1..], s.After())
  }

  function TailOf(doc: string, slots: seq<Slot>, i: int): string
    requires Inside(doc, slots, i)
    decreases slots
  {
    if slots == [] then doc[i..] else TailOf(doc, slots[1..], slots[0].After())
  }

  lemma {:induction false} StructuredIsInside(doc: string, names: seq<string>, slots: seq<Slot>, i: int)
    requires Structured(doc, names, slots, i)
    ensures Inside(doc, slots, i)
    decreases slots
  {
    if slots != [] { StructuredIsInside(doc, names, slots[1..], slots[0].After()); }
  }

  /** Text between two places without a marker in it is quiet by itself. */
  lemma QuietSlice(doc: string, from: nat, to: nat)
    requires from <= to <= |doc| && Absent(doc, PREFIX, from, to)
    ensures QuietText(doc[from..to])
  {
    var text := doc[from..to];
    forall k | 0 <= k < |text| ensures !At(text, PREFIX, k) {
      if k <= |text| - |PREFIX| { WithinSlice(doc, from, to, from + k); }
    }
  }

  lemma SlotInPieces(doc: string, names: seq<string>, s: Slot, i: nat)
    requires SlotAt(doc, names, s, i) && s.After() <= |doc|
    ensures doc[i..s.from] == doc[i..s.at] + Opening(s.name)
    ensures doc[s.to..s.After()] == Closing(s.name)
    ensures QuietText(doc[i..s.at]) && QuietText(doc[s.from..s.to])
  {
    assert doc[i..s.from] == doc[i..s.at] + doc[s.at..s.from];
    QuietSlice(doc, i, s.at);
    QuietSlice(doc, s.from, s.to);
  }

  lemma FromHere(doc: string, i: nat, from: nat, to: nat, after: nat)
    requires i <= from <= to <= after <= |doc|
    ensures doc[i..] == doc[i..from] + doc[from..to] + doc[to..after] + doc[after..]
  {
  }

  lemma {:induction false} StructuredIsWritten(doc: string, names: seq<string>, slots: seq<Slot>, i: nat)
    requires Structured(doc, names, slots, i) && Inside(doc, slots, i)
    ensures i <= |doc| && doc[i..] == Written(PiecesOf(doc, slots, i), TailOf(doc, slots, i))
    ensures Whole(PiecesOf(doc, slots, i), TailOf(doc, slots, i), names)
    decreases slots
  {
    if slots == [] {
      QuietSlice(doc, i, |doc|);
      assert doc[i..|doc|] == doc[i..];
    } else {
      var s := slots[0];
      InsideIsWithin(doc, slots[1..], s.After());
      StructuredIsWritten(doc, names, slots[1..], s.After());
      SlotInPieces(doc, names, s, i);
      FromHere(doc, i, s.from, s.to, s.After());
      FirstPiece(doc, slots, i);
    }
  }

  lemma FirstPiece(doc: string, slots: seq<Slot>, i: int)
    requires slots != [] && Inside(doc, slots, i) && Inside(doc, slots[1..], slots[0].After())
    ensures 0 <= i <= slots[0].at <= slots[0].from <= slots[0].to <= |doc|
    ensures var pieces := PiecesOf(doc, slots, i);
            && pieces != [] && pieces[0] == Piece(doc[i..slots[0].at], slots[0].name, doc[slots[0].from..slots[0].to])
            && pieces[1..] == PiecesOf(doc, slots[1..], slots[0].After())
  {
    InsideIsWithin(doc, slots[1..], slots[0].After());
  }

  lemma {:induction false} SubstitutedIsWritten(doc: string, names: seq<string>, slots: seq<Slot>, texts: Texts, i: nat)
    requires Covers(texts, names) && Structured(doc, names, slots, i) && Inside(doc, slots, i)
    requires forall p :: p in PiecesOf(doc, slots, i) ==> p.name in texts
    ensures Substituted(doc, names, slots, texts, i) == Written(Replaced(PiecesOf(doc, slots, i), texts), TailOf(doc, slots, i))
    decreases slots
  {
    if slots != [] {
      var s := slots[0];
      FirstPiece(doc, slots, i);
      InsideIsWithin(doc, slots[1..], s.After());
      SubstitutedIsWritten(doc, names, slots[1..], texts, s.After());
      SlotInPieces(doc, names, s, i);
      FirstReplaced(PiecesOf(doc, slots, i), texts, TailOf(doc, slots, i));
    }
  }

  lemma FirstReplaced(pieces: seq<Piece>, texts: Texts, tail: string)
    requires pieces != [] && forall p :: p in pieces ==> p.name in texts
    ensures var p := pieces[0];
            Written(Replaced(pieces, texts), tail)
            == p.before + Opening(p.name) + texts[p.name] + Closing(p.name) + Written(Replaced(pieces[1..], texts), tail)
  {
    assert Replaced(pieces, texts)[1..] == Replaced(pieces[1..], texts);
  }

  // ------------------------------------------------------------------ //
  // From the pieces to the page
  // ------------------------------------------------------------------ //

  /** Where the regions are, the first piece beginning at `at`. */
  function SlotsAt(pieces: seq<Piece>, at: nat): seq<Slot> {
    if pieces == [] then []
    else
      var p := pieces[0];
      var s := Slot(p.name, at + |p.before|, at + |p.before| + |Start(p.name)|, at + |p.before| + |Start(p.name)| + |p.text|);
      [s] + SlotsAt(pieces[1..], s.After())
  }

  lemma PartAt(pre: string, a: string, post: string, out: string)
    requires out == pre + a + post
    ensures At(out, a, |pre|) && out[|pre|..|pre| + |a|] == a && Same(a, 0, out, |pre|, |a|)
  {
    assert a[0..|a|] == a;
  }

  /** A quiet text in front of a marker holds no marker prefix, not even one that runs on into the marker. */
  lemma QuietInFront(out: string, pre: string, text: string, m: string, post: string)
    requires out == pre + text + (m + post) && QuietText(text) && IsMarker(m)
    ensures Absent(out, PREFIX, |pre|, |pre| + |text|)
  {
    PartAt(pre, text, m + post, out);
    assert out == (pre + text) + m + post;
    PartAt(pre + text, m, post, out);
    NewRegionIsQuiet(out, |pre|, text, m);
  }

  lemma FiveForms<T>(pre: seq<T>, a: seq<T>, b: seq<T>, c: seq<T>, d: seq<T>, rest: seq<T>, out: seq<T>)
    requires out == pre + (a + b + c + d + rest)
    ensures out == pre + a + (b + (c + d + rest)) && out == (pre + a) + b + (c + d + rest)
    ensures out == (pre + a + b) + c + (d + rest) && out == (pre + a + b + c) + d + rest
  {
  }

  lemma FirstSlot(pre: string, p: Piece, rest: string, names: seq<string>, out: string)
    requires Names(names) && p.name in names && QuietText(p.before) && QuietText(p.text)
    requires out == pre + (p.before + Opening(p.name) + p.text + Closing(p.name) + rest)
    ensures var s := SlotsAt([p], |pre|)[0];
            && SlotAt(out, names, s, |pre|) && s.After() == |pre + p.before + Opening(p.name) + p.text + Closing(p.name)|
            && out[|pre|..s.at] == p.before && out[s.from..s.to] == p.text
  {
    MarkersAreMarkers(p.name);
    var o, c := Opening(p.name), Closing(p.name);
    var a := pre + p.before;
    FiveForms(pre, p.before, o, p.text, c, rest, out);
    QuietInFront(out, pre, p.before, o, p.text + c + rest);
    QuietInFront(out, a + o, p.text, c, rest);
    PartAt(pre, p.before, o + (p.text + c + rest), out);
    PartAt(a, o, p.text + c + rest, out);
    PartAt(a + o, p.text, c + rest, out);
    PartAt(a + o + p.text, c, rest, out);
  }

  lemma QuietAtEnd(pre: string, tail: string, out: string)
    requires QuietText(tail) && out == pre + tail
    ensures Absent(out, PREFIX, |pre|, |out|) && out[|pre|..] == tail
  {
    assert out == pre + tail + "";
    PartAt(pre, tail, "", out);
    forall i | |pre| <= i < |out| ensures !At(out, PREFIX, i) {
      assert !At(tail, PREFIX, i - |pre|);
      if i <= |out| - |PREFIX| { SameAt(tail, 0, out, |pre|, |tail|, PREFIX, i - |pre|); }
    }
  }

  lemma SlotsFrom(pieces: seq<Piece>, at: nat, next: nat)
    requires pieces != []
    requires next == at + |pieces[0].before| + |Start(pieces[0].name)| + |pieces[0].text| + |End(pieces[0].name)|
    ensures SlotsAt(pieces, at) != [] && SlotsAt(pieces, at)[0] == SlotsAt([pieces[0]], at)[0]
    ensures SlotsAt(pieces, at)[0].After() == next && SlotsAt(pieces, at)[1..] == SlotsAt(pieces[1..], next)
  {
  }

  lemma NextPiece(pre: string, pieces: seq<Piece>, tail: string) returns (next: string)
    requires pieces != []
    ensures next == pre + pieces[0].before + Opening(pieces[0].name) + pieces[0].text + Closing(pieces[0].name)
    ensures pre + Written(pieces, tail) == next + Written(pieces[1..], tail)
  {
    var p := pieces[0];
    next := pre + p.before + Opening(p.name) + p.text + Closing(p.name);
  }

  lemma {:induction false} WrittenIsStructured(pre: string, pieces: seq<Piece>, tail: string, names: seq<string>, out: string)
    requires Names(names) && Whole(pieces, tail, names) && out == pre + Written(pieces, tail)
    ensures Structured(out, names, SlotsAt(pieces, |pre|), |pre|) && Inside(out, SlotsAt(pieces, |pre|), |pre|)
    ensures PiecesOf(out, SlotsAt(pieces, |pre|), |pre|) == pieces && TailOf(out, SlotsAt(pieces, |pre|), |pre|) == tail
    decreases |pieces|
  {
    if pieces == [] {
      QuietAtEnd(pre, tail, out);
    } else {
      assert pieces[0] in pieces;
      FirstSlot(pre, pieces[0], Written(pieces[1..], tail), names, out);
      var next := NextPiece(pre, pieces, tail);
      WrittenIsStructured(next, pieces[1..], tail, names, out);
      SlotsFrom(pieces, |pre|, |next|);
      FirstPiece(out, SlotsAt(pieces, |pre|), |pre|);
    }
  }

  // ------------------------------------------------------------------ //
  // The checks and the new page
  // ------------------------------------------------------------------ //

  /** A page passes every check on its markers exactly when it can be written out. */
  lemma CheckedIff(doc: string, names: seq<string>)
    requires Names(names)
    ensures Checked(doc, names) <==> exists pieces, tail :: doc == Written(pieces, tail) && Whole(pieces, tail, names)
  {
    if Checked(doc, names) {
      var slots := SlotsOn(doc, names);
      StructuredIsInside(doc, names, slots, 0);
      StructuredIsWritten(doc, names, slots, 0);
      assert doc[0..] == doc;
      assert doc == Written(PiecesOf(doc, slots, 0), TailOf(doc, slots, 0));
    }
    forall pieces, tail | doc == Written(pieces, tail) && Whole(pieces, tail, names) ensures Checked(doc, names) {
      assert doc == "" + doc;
      WrittenIsStructured("", pieces, tail, names, doc);
      StructuredPageIsChecked(doc, names, SlotsAt(pieces, 0));
    }
  }

  /** However a page is written out, the new page is the same with the new texts. */
  lemma SyncedIsWritten(pieces: seq<Piece>, tail: string, names: seq<string>, texts: Texts)
    requires Names(names) && Covers(texts, names) && Whole(pieces, tail, names)
    ensures forall p :: p in pieces ==> p.name in texts
    ensures var doc := Written(pieces, tail);
            Checked(doc, names) && Synced(doc, names, texts) == Written(Replaced(pieces, texts), tail)
  {
    var doc := Written(pieces, tail);
    var slots := SlotsAt(pieces, 0);
    assert doc == "" + doc;
    WrittenIsStructured("", pieces, tail, names, doc);
    StructuredPageIsChecked(doc, names, slots);
    StructureIsUnique(doc, names, SlotsOn(doc, names), slots, 0);
    SubstitutedIsWritten(doc, names, slots, texts, 0);
  }

  lemma {:induction false} CountsAre(pieces: seq<Piece>, at: nat, name: string)
    ensures |OwnRegions(SlotsAt(pieces, at), name)| == CountOf(pieces, name)
    decreases |pieces|
  {
    if pieces != [] { CountsAre(pieces[1..], SlotsAt(pieces, at)[0].After(), name); }
  }

  lemma MarkersCounted(pieces: seq<Piece>, tail: string, names: seq<string>, name: string)
    requires Names(names) && Whole(pieces, tail, names) && name in names
    ensures Count(Written(pieces, tail), Start(name), 0) == CountOf(pieces, name)
  {
    var doc := Written(pieces, tail);
    assert doc == "" + doc;
    WrittenIsStructured("", pieces, tail, names, doc);
    StructuredIsPaired(doc, names, SlotsAt(pieces, 0), 0, name);
    CountsAre(pieces, 0, name);
  }

  /** The markers a page must and may have: all in one page on a legacy site, spread over the pages otherwise. */
  predicate Fits(file: string, legacy: bool, pieces: seq<Piece>) {
    if legacy then
      && CountOf(pieces, "release-history") == 1
      && 1 <= CountOf(pieces, "release-version") <= 2 && 1 <= CountOf(pieces, "mcp-count") <= 2
    else
      && CountOf(pieces, "release-history") == (if file == "releases.html" then 1 else 0)
      && CountOf(pieces, "release-summary") == (if file == "index.html" then 1 else 0)
      && CountOf(pieces, "release-version") <= 4 && CountOf(pieces, "mcp-count") <= 4
  }

  function NamesOf(legacy: bool): seq<string> {
    ["release-history", "release-version", "mcp-count"] + if legacy then [] else ["release-summary"]
  }

  ghost predicate WellMade(file: string, doc: string, legacy: bool) {
    exists pieces, tail :: doc == Written(pieces, tail) && Whole(pieces, tail, NamesOf(legacy)) && Fits(file, legacy, pieces)
  }

  lemma SameNames(legacy: bool)
    ensures Names(NamesOf(legacy)) && NamesFor(legacy) == NamesOf(legacy)
  {
    NamesAreNames(legacy, Facts("", "", "", ""));
  }

  lemma NamesCounted(legacy: bool, pieces: seq<Piece>, tail: string)
    requires Whole(pieces, tail, NamesOf(legacy))
    ensures forall n :: n in NamesOf(legacy) ==> Count(Written(pieces, tail), Start(n), 0) == CountOf(pieces, n)
  {
    SameNames(legacy);
    forall n | n in NamesOf(legacy) ensures Count(Written(pieces, tail), Start(n), 0) == CountOf(pieces, n) {
      MarkersCounted(pieces, tail, NamesOf(legacy), n);
    }
  }

  lemma AllowedFits(file: string, legacy: bool, pieces: seq<Piece>)
    ensures Fits(file, legacy, pieces) <==> forall n :: n in NamesOf(legacy) ==> Allowed(legacy, file, n, CountOf(pieces, n))
  {
    var names := NamesOf(legacy);
    assert names[0] in names && names[1] in names && names[2] in names && (!legacy ==> names[3] in names);
    assert names[0] == HISTORY && names[1] == VERSION && names[2] == COUNT && (!legacy ==> names[3] == SUMMARY);
    NamesAreNames(legacy, Facts("", "", "", ""));
    assert NamesFor(legacy) == names;
  }

  lemma WrittenFits(file: string, legacy: bool, pieces: seq<Piece>, tail: string)
    requires Whole(pieces, tail, NamesOf(legacy))
    ensures PageOk(file, Written(pieces, tail), legacy) <==> Fits(file, legacy, pieces)
  {
    SameNames(legacy);
    CheckedIff(Written(pieces, tail), NamesOf(legacy));
    NamesCounted(legacy, pieces, tail);
    AllowedFits(file, legacy, pieces);
  }

  /** A page is accepted exactly when it can be written out with the markers it must have. */
  lemma PageOkIff(file: string, doc: string, legacy: bool)
    ensures PageOk(file, doc, legacy) <==> WellMade(file, doc, legacy)
  {
    SameNames(legacy);
    if PageOk(file, doc, legacy) {
      CheckedIff(doc, NamesOf(legacy));
      var pieces, tail :| doc == Written(pieces, tail) && Whole(pieces, tail, NamesOf(legacy));
      WrittenFits(file, legacy, pieces, tail);
    }
    forall pieces, tail | doc == Written(pieces, tail) && Whole(pieces, tail, NamesOf(legacy)) && Fits(file, legacy, pieces)
      ensures PageOk(file, doc, legacy)
    {
      WrittenFits(file, legacy, pieces, tail);
    }
  }

  /** The fact each region is for. */
  function FactFor(name: string, facts: Facts): string {
    if name == "release-history" then facts.history
    else if name == "release-version" then facts.version
    else if name == "mcp-count" then facts.count
    else facts.summary
  }

  function Filled(pieces: seq<Piece>, facts: Facts): seq<Piece> {
    if pieces == [] then [] else [pieces[0].(text := FactFor(pieces[0].name, facts))] + Filled(pieces[1..], facts)
  }

  lemma {:induction false} FilledIsReplaced(pieces: seq<Piece>, legacy: bool, facts: Facts)
    requires forall p :: p in pieces ==> p.name in NamesOf(legacy)
    ensures forall p :: p in pieces ==> p.name in TextsFor(facts)
    ensures Replaced(pieces, TextsFor(facts)) == Filled(pieces, facts)
  {
    if pieces != [] {
      FilledIsReplaced(pieces[1..], legacy, facts);
      assert pieces[0] in pieces;
      FactsByName(facts);
    }
  }

  lemma FactsByName(facts: Facts)
    ensures forall n :: n in NamesOf(false) ==> n in TextsFor(facts) && TextsFor(facts)[n] == FactFor(n, facts)
  {
    assert HISTORY[8] == 'h' && VERSION[8] == 'v' && SUMMARY[8] == 's';
    assert |COUNT| == 9 && |HISTORY| == |VERSION| == |SUMMARY| == 15;
  }

  /**
   One page, written out: it is refused exactly if its markers are not those it must
   have, and otherwise comes out the same with every region filled with its fact.
   */
  method SyncWrittenPage(file: string, pieces: seq<Piece>, tail: string, legacy: bool, facts: Facts) returns (r: PageResult)
    requires Whole(pieces, tail, NamesOf(legacy))
    ensures r.Page? <==> Fits(file, legacy, pieces)
    ensures r.Page? ==>
              r == Page(Written(Filled(pieces, facts), tail), CountOf(pieces, "release-version"), CountOf(pieces, "mcp-count"))
  {
    SameNames(legacy);
    WrittenFits(file, legacy, pieces, tail);
    r := SyncPage(file, Written(pieces, tail), legacy, facts);
    if r.Page? {
      var names := NamesOf(legacy);
      SyncedIsWritten(pieces, tail, names, TextsFor(facts));
      FilledIsReplaced(pieces, legacy, facts);
      MarkersCounted(pieces, tail, names, "release-version");
      MarkersCounted(pieces, tail, names, "mcp-count");
    }
  }

  // ------------------------------------------------------------------ //
  // The site
  // ------------------------------------------------------------------ //

  /** The pages a run reads: every page of a directory with one of the four names, or the one file given. */
  predicate Read(directory: bool, file: string) {
    directory ==> file in {"index.html", "quickstart.html", "mcp.html", "releases.html"}
  }

  /** The one page of a directory is the index, and carries the history itself; a single file is taken for such a page. */
  ghost predicate OnePage(directory: bool, pages: seq<PageFile>) {
    !directory || (|pages| == 1 && pages[0].name == "index.html" && exists i :: At(pages[0].text, "<!-- brains:release-history:", i))
  }

  ghost predicate SomeMarker(directory: bool, pages: seq<PageFile>, marker: string) {
    exists k, i :: 0 <= k < |pages| && Read(directory, pages[k].name) && At(pages[k].text, marker, i)
  }

  lemma {:induction false} TotalIsSome(directory: bool, pages: seq<PageFile>, name: string)
    ensures TotalMarkers(directory, pages, name) > 0 <==> SomeMarker(directory, pages, Start(name))
    decreases |pages|
  {
    if pages != [] {
      var n := |pages| - 1;
      var last := pages[n];
      TotalIsSome(directory, pages[..n], name);
      CountIsSome(last.text, Start(name));
      if SomeMarker(directory, pages[..n], Start(name)) {
        var k, i :| 0 <= k < n && Read(directory, pages[..n][k].name) && At(pages[..n][k].text, Start(name), i);
        assert pages[k] == pages[..n][k];
      }
      if SomeMarker(directory, pages, Start(name)) {
        var k, i :| 0 <= k < |pages| && Read(directory, pages[k].name) && At(pages[k].text, Start(name), i);
        if k < n { assert pages[..n][k] == pages[k]; }
      }
    }
  }

  lemma CountIsSome(text: string, pat: string)
    requires pat != ""
    ensures Count(text, pat, 0) > 0 <==> exists i :: At(text, pat, i)
  {
  }

  lemma LegacyIff(directory: bool, pages: seq<PageFile>)
    ensures Legacy(directory, pages) <==> OnePage(directory, pages)
  {
    assert HISTORY_MARK == "<!-- brains:release-history:";
  }

  ghost predicate AllWellMade(directory: bool, legacy: bool, pages: seq<PageFile>) {
    forall k :: 0 <= k < |pages| && Read(directory, pages[k].name) ==> WellMade(pages[k].name, pages[k].text, legacy)
  }

  lemma AllOkIff(directory: bool, legacy: bool, pages: seq<PageFile>)
    ensures AllOk(directory, legacy, pages) <==> AllWellMade(directory, legacy, pages)
  {
    forall k | 0 <= k < |pages|
      ensures PageOk(pages[k].name, pages[k].text, legacy) <==> WellMade(pages[k].name, pages[k].text, legacy)
    {
      PageOkIff(pages[k].name, pages[k].text, legacy);
    }
  }

  ghost predicate OthersUnmarked(directory: bool, pages: seq<PageFile>) {
    forall k, i :: 0 <= k < |pages| && !Read(directory, pages[k].name) ==> !At(pages[k].text, "<!-- brains:", i)
  }

  lemma NoStrayIff(directory: bool, pages: seq<PageFile>)
    ensures NoStray(directory, pages) <==> OthersUnmarked(directory, pages)
  {
  }

  lemma HasPageIff(pages: seq<PageFile>, name: string)
    ensures HasPage(pages, name) <==> exists p :: p in pages && p.name == name
  {
    if HasPage(pages, name) {
      var k :| 0 <= k < |pages| && pages[k].name == name;
      assert pages[k] in pages;
    }
  }

  /**
   A site is accepted exactly if it is one page or has its index and its releases
   page, every page read is well made, the other pages carry no marker, and the
   version and the tool count have a place somewhere.
   */
  lemma SiteOkIff(directory: bool, pages: seq<PageFile>)
    ensures SiteOk(directory, pages) <==>
              && (OnePage(directory, pages)
                  || ((exists p :: p in pages && p.name == "index.html") && exists p :: p in pages && p.name == "releases.html"))
              && AllWellMade(directory, OnePage(directory, pages), pages) && OthersUnmarked(directory, pages)
              && SomeMarker(directory, pages, "<!-- brains:" + "release-version" + ":start -->")
              && SomeMarker(directory, pages, "<!-- brains:" + "mcp-count" + ":start -->")
  {
    TotalIsSome(directory, pages, VERSION);
    TotalIsSome(directory, pages, COUNT);
    LegacyIff(directory, pages);
    HasPageIff(pages, "index.html");
    HasPageIff(pages, "releases.html");
    AllOkIff(directory, OnePage(directory, pages), pages);
    NoStrayIff(directory, pages);
  }
}
