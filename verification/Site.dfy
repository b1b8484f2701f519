/**
 One page of the site: the checks on its markers, name by name, and the
 replacement of all its regions, from the last to the first.
 */
module Site {
  import opened Markers
  import opened Splice
  import opened Spans

  const HISTORY := "release-history"
  const VERSION := "release-version"
  const COUNT := "mcp-count"
  const SUMMARY := "release-summary"

  datatype Facts = Facts(history: string, version: string, count: string, summary: string)

  function NamesFor(legacy: bool): seq<string> {
    if legacy then [HISTORY, VERSION, COUNT] else [HISTORY, VERSION, COUNT, SUMMARY]
  }

  function TextsFor(facts: Facts): Texts {
    map[HISTORY := facts.history, VERSION := facts.version, COUNT := facts.count, SUMMARY := facts.summary]
  }

  predicate SitePage(file: string) {
    file == "index.html" || file == "quickstart.html" || file == "mcp.html" || file == "releases.html"
  }

  predicate Allowed(legacy: bool, file: string, name: string, count: nat) {
    if legacy then count == 1 || (name != HISTORY && count == 2)
    else if name == VERSION || name == COUNT then count < 5
    else
      var owner := if name == SUMMARY then "index.html" else "releases.html";
      count == if file == owner then 1 else 0
  }

  lemma NamesAreNames(legacy: bool, facts: Facts)
    ensures Names(NamesFor(legacy)) && Covers(TextsFor(facts), NamesFor(legacy))
  {
    PlainNames();
    assert HISTORY[8] == 'h' && VERSION[8] == 'v' && SUMMARY[8] == 's';
    assert |COUNT| == 9 && |HISTORY| == |VERSION| == |SUMMARY| == 15;
  }

  lemma PlainNames()
    ensures Plain(HISTORY) && Plain(VERSION) && Plain(COUNT) && Plain(SUMMARY)
  {
  }

  // ------------------------------------------------------------------ //
  // One page
  // ------------------------------------------------------------------ //

  ghost predicate NameOk(file: string, doc: string, legacy: bool, name: string) {
    Allowed(legacy, file, name, Count(doc, Start(name), 0)) && Paired(doc, name, 0)
  }

  ghost predicate PageOk(file: string, doc: string, legacy: bool) {
    && (forall n :: n in NamesFor(legacy) ==> Allowed(legacy, file, n, Count(doc, Start(n), 0)))
    && Checked(doc, NamesFor(legacy))
  }

  lemma SlotsExist(doc: string, names: seq<string>)
    requires Names(names) && Checked(doc, names)
    ensures exists slots :: Structured(doc, names, slots, 0)
  {
    var slots := CheckedPageIsStructured(doc, names);
  }

  ghost function SlotsOn(doc: string, names: seq<string>): (slots: seq<Slot>)
    requires Names(names) && Checked(doc, names)
    ensures Structured(doc, names, slots, 0)
  {
    SlotsExist(doc, names);
    var slots :| Structured(doc, names, slots, 0);
    slots
  }

  /** The page with every region replaced at once. */
  ghost function Synced(doc: string, names: seq<string>, texts: Texts): string
    requires Names(names) && Covers(texts, names) && Checked(doc, names)
  {
    Substituted(doc, names, SlotsOn(doc, names), texts, 0)
  }

  /** Idempotence of one page: the new page is accepted, has the same markers, and is its own new page. */
  lemma SyncedTwice(doc: string, names: seq<string>, texts: Texts)
    requires Names(names) && Covers(texts, names) && Checked(doc, names)
    requires forall n :: n in names ==> QuietText(texts[n])
    ensures var out := Synced(doc, names, texts);
            && Checked(out, names)
            && (forall n :: n in names ==> Count(out, Start(n), 0) == Count(doc, Start(n), 0))
            && Synced(out, names, texts) == out
  {
    var slots := SlotsOn(doc, names);
    var out := Synced(doc, names, texts);
    SubstitutedAgain(doc, names, slots, texts);
    var moved := Moved(slots, texts, 0, 0);
    StructuredPageIsChecked(out, names, moved);
    forall n | n in names ensures Count(out, Start(n), 0) == Count(doc, Start(n), 0) {
      StructuredIsPaired(doc, names, slots, 0, n);
      StructuredIsPaired(out, names, moved, 0, n);
      MovedKeepsCounts(slots, texts, 0, 0, n);
    }
    StructureIsUnique(out, names, SlotsOn(out, names), moved, 0);
  }

  /** Every region of this name on the page holds exactly this text. */
  ghost predicate Shows(doc: string, name: string, text: string) {
    Start(name) != "" && AllHold(doc, Regions(doc, Start(name), End(name), 0), text)
  }

  lemma SyncedShows(doc: string, names: seq<string>, texts: Texts, name: string)
    requires Names(names) && Covers(texts, names) && Checked(doc, names) && name in names
    requires forall n :: n in names ==> QuietText(texts[n])
    ensures Shows(Synced(doc, names, texts), name, texts[name])
  {
    var slots, out := SlotsOn(doc, names), Synced(doc, names, texts);
    assert out == "" + out;
    SubstitutedReads(doc, names, slots, texts, 0, "", out);
    SubstitutedAgain(doc, names, slots, texts);
    MovedHoldTexts(doc, slots, texts, 0, out, 0, name);
    RegionsAreOwn(out, names, Moved(slots, texts, 0, 0), name);
  }

  predicate QuietFacts(facts: Facts) {
    QuietText(facts.history) && QuietText(facts.version) && QuietText(facts.count) && QuietText(facts.summary)
  }

  /** Each fact stands in its own regions: history, version, tool count and, beside them on a full site, the summary. */
  ghost predicate ShowsFacts(doc: string, legacy: bool, facts: Facts) {
    && Shows(doc, "release-history", facts.history)
    && Shows(doc, "release-version", facts.version)
    && Shows(doc, "mcp-count", facts.count)
    && (!legacy ==> Shows(doc, "release-summary", facts.summary))
  }

  lemma SyncedShowsFacts(doc: string, legacy: bool, facts: Facts)
    requires Checked(doc, NamesFor(legacy)) && QuietFacts(facts)
    ensures Names(NamesFor(legacy)) && Covers(TextsFor(facts), NamesFor(legacy))
    ensures ShowsFacts(Synced(doc, NamesFor(legacy), TextsFor(facts)), legacy, facts)
  {
    NamesAreNames(legacy, facts);
    TextsByName(legacy, facts);
    var names, texts := NamesFor(legacy), TextsFor(facts);
    SyncedShows(doc, names, texts, "release-history");
    SyncedShows(doc, names, texts, "release-version");
    SyncedShows(doc, names, texts, "mcp-count");
    if !legacy { SyncedShows(doc, names, texts, "release-summary"); }
  }

  lemma TextsByName(legacy: bool, facts: Facts)
    requires QuietFacts(facts)
    ensures forall n :: n in NamesFor(legacy) ==> n in TextsFor(facts) && QuietText(TextsFor(facts)[n])
    ensures "release-history" in NamesFor(legacy) && TextsFor(facts)["release-history"] == facts.history
    ensures "release-version" in NamesFor(legacy) && TextsFor(facts)["release-version"] == facts.version
    ensures "mcp-count" in NamesFor(legacy) && TextsFor(facts)["mcp-count"] == facts.count
    ensures !legacy ==> "release-summary" in NamesFor(legacy) && TextsFor(facts)["release-summary"] == facts.summary
  {
    assert HISTORY[8] == 'h' && VERSION[8] == 'v' && SUMMARY[8] == 's';
    assert |COUNT| == 9 && |HISTORY| == |VERSION| == |SUMMARY| == 15;
  }

  datatype Problem =
    | WrongCount(name: string)
    | Malformed(name: string)
    | Nested(name: string)
    | BadTokens
    | StrayMarkers(file: string)
    | MissingPages
    | MissingMarkers

  /** What each refusal of one page says about it. */
  ghost predicate Explains(p: Problem, file: string, doc: string, legacy: bool) {
    match p
    case WrongCount(n) =>
      n in NamesFor(legacy) &&
      (!Allowed(legacy, file, n, Count(doc, Start(n), 0)) || Count(doc, End(n), 0) != Count(doc, Start(n), 0))
    case Malformed(n) =>
      n in NamesFor(legacy) && |Regions(doc, Start(n), End(n), 0)| != Count(doc, Start(n), 0) == Count(doc, End(n), 0)
    case Nested(n) =>
      n in NamesFor(legacy) && (var regions := Regions(doc, Start(n), End(n), 0);
                                 exists k :: 0 <= k < |regions| && !Quiet(doc, regions[k]))
    case BadTokens =>
      && (forall n :: n in NamesFor(legacy) ==> NameOk(file, doc, legacy, n))
      && (Tokens(doc, 0) != 2 * Expected(doc, NamesFor(legacy)) || Count(doc, PREFIX, 0) != Tokens(doc, 0))
    case _ => false
  }

  lemma ExplainedIsRefused(p: Problem, file: string, doc: string, legacy: bool)
    requires Explains(p, file, doc, legacy)
    ensures !PageOk(file, doc, legacy)
  {
    if p.WrongCount? || p.Malformed? || p.Nested? { assert PageOk(file, doc, legacy) ==> Paired(doc, p.name, 0); }
  }

  /** `"<!-- brains:" in match[1]`, negated. */
  method IsQuiet(doc: string, from: nat, to: nat) returns (quiet: bool)
    requires from <= to <= |doc|
    ensures quiet == Quiet(doc, (from, to))
  {
    var text := doc[from..to];
    var p := FindText(text, PREFIX, 0);
    quiet := p < 0;
    forall i | from <= i <= to - |PREFIX| ensures At(text, PREFIX, i - from) <==> At(doc, PREFIX, i) {
      WithinSlice(doc, from, to, i);
    }
    if p >= 0 { WithinSlice(doc, from, to, p + from); }
  }

  lemma WithinSlice(doc: string, from: nat, to: nat, i: nat)
    requires from <= i <= to - |PREFIX| && to <= |doc|
    ensures At(doc[from..to], PREFIX, i - from) <==> At(doc, PREFIX, i)
  {
    var text := doc[from..to];
    AtAll(text, PREFIX, i - from);
    AtAll(doc, PREFIX, i);
    assert forall k :: 0 <= k < |text| ==> text[k] == doc[from + k];
    forall y | i <= y < i + |PREFIX| ensures doc[y] == text[y - from] { }
  }

  predicate Inside(doc: string, regions: seq<Region>) {
    forall k :: 0 <= k < |regions| ==> 0 <= regions[k].0 <= regions[k].1 <= |doc|
  }

  /** The spans of some regions, unless one of them holds a marker. */
  method QuietSpans(doc: string, regions: seq<Region>, text: string) returns (quiet: bool, spans: seq<Span>)
    requires Inside(doc, regions)
    ensures quiet <==> forall k :: 0 <= k < |regions| ==> Quiet(doc, regions[k])
    ensures quiet ==> spans == SpansIn(regions, text)
  {
    spans := [];
    for k := 0 to |regions|
      invariant spans == SpansIn(regions[..k], text)
      invariant forall j :: 0 <= j < k ==> Quiet(doc, regions[j])
    {
      quiet := IsQuiet(doc, regions[k].0, regions[k].1);
      if !quiet { return; }
      assert regions[..k + 1] == regions[..k] + [regions[k]];
      SpansInAppend(regions[..k], regions[k], text);
      spans := spans + [Span(regions[k].0, regions[k].1, text)];
    }
    assert regions[..|regions|] == regions;
    quiet := true;
  }

  /** The checks made on one name, and its spans. */
  method CheckName(file: string, doc: string, legacy: bool, name: string, text: string)
    returns (problem: seq<Problem>, spans: seq<Span>, count: nat)
    requires name in NamesFor(legacy)
    ensures |problem| <= 1 && (problem == [] <==> NameOk(file, doc, legacy, name))
    ensures problem != [] ==> Explains(problem[0], file, doc, legacy)
    ensures problem == [] ==> spans == SpansIn(Regions(doc, Start(name), End(name), 0), text)
    ensures problem == [] ==> count == Count(doc, Start(name), 0)
  {
    var start, end := Start(name), End(name);
    problem, spans := [], [];
    count := CountText(doc, start);
    var ends := CountText(doc, end);
    if !Allowed(legacy, file, name, count) || ends != count {
      problem := [WrongCount(name)];
      return;
    }
    var matches := MatchRegions(doc, start, end, 0);
    if |matches| != count {
      problem := [Malformed(name)];
      return;
    }
    RegionsInside(doc, start, end, 0);
    var quiet;
    quiet, spans := QuietSpans(doc, matches, text);
    if !quiet {
      problem := [Nested(name)];
    }
  }

  lemma {:induction false} RegionsInside(doc: string, start: string, end: string, i: nat)
    requires start != "" && i <= |doc|
    ensures Inside(doc, Regions(doc, start, end, i))
    decreases |doc| - i
  {
    var p := Find(doc, start, i);
    if p >= 0 {
      var q := Find(doc, end, p + |start|);
      if q >= 0 { RegionsInside(doc, start, end, q + |end|); }
    }
  }

  method CountExpected(doc: string, names: seq<string>) returns (n: nat)
    ensures n == Expected(doc, names)
  {
    n := 0;
    for k := 0 to |names|
      invariant n + Expected(doc, names[k..]) == Expected(doc, names)
    {
      assert names[k..][1..] == names[k + 1..];
      var one := CountText(doc, Start(names[k]));
      n := n + one;
    }
  }

  /** The splice: spans in descending order, each into the page the last one left. */
  method SpliceSpans(doc: string, spans: seq<Span>) returns (page: string)
    requires Reaches(doc, spans)
    ensures page == SpliceAll(doc, spans)
  {
    page := doc;
    for k := 0 to |spans|
      invariant Reaches(page, spans[k..])
      invariant SpliceAll(page, spans[k..]) == SpliceAll(doc, spans)
    {
      assert spans[k..][1..] == spans[k + 1..] && spans[k..][0] == spans[k];
      page := page[..spans[k].from] + spans[k].text + page[spans[k].to..];
    }
  }

  datatype PageResult = Page(text: string, versions: nat, counts: nat) | Refused(problem: Problem)

  /** One page: refused with a reason, or every region replaced at once and nothing else touched. */
  method SyncPage(file: string, doc: string, legacy: bool, facts: Facts) returns (r: PageResult)
    ensures r.Page? <==> PageOk(file, doc, legacy)
    ensures r.Refused? ==> Explains(r.problem, file, doc, legacy)
    ensures r.Page? ==> Names(NamesFor(legacy)) && Covers(TextsFor(facts), NamesFor(legacy))
    ensures r.Page? ==> r.text == Synced(doc, NamesFor(legacy), TextsFor(facts))
    ensures r.Page? && QuietFacts(facts) ==> ShowsFacts(r.text, legacy, facts)
    ensures r.Page? ==> r.versions == Count(doc, Start(VERSION), 0) && r.counts == Count(doc, Start(COUNT), 0)
  {
    var names, texts := NamesFor(legacy), TextsFor(facts);
    NamesAreNames(legacy, facts);
    var problem, spans := CheckNames(file, doc, legacy, facts);
    if problem != [] {
      ExplainedIsRefused(problem[0], file, doc, legacy);
      return Refused(problem[0]);
    }
    var tokens := CountTokens(doc);
    var expected := CountExpected(doc, names);
    var prefixes := CountText(doc, PREFIX);
    if tokens != 2 * expected || prefixes != tokens {
      return Refused(BadTokens);
    }
    var sorted := SortDescending(spans);
    SortedSplices(doc, names, texts, sorted);
    var page := SpliceSpans(doc, sorted);
    var versions := CountText(doc, Start(VERSION));
    var counts := CountText(doc, Start(COUNT));
    r := Page(page, versions, counts);
    if QuietFacts(facts) { SyncedShowsFacts(doc, legacy, facts); }
  }

  lemma SortedSplices(doc: string, names: seq<string>, texts: Texts, sorted: seq<Span>)
    requires Names(names) && Covers(texts, names) && Checked(doc, names)
    requires multiset(sorted) == multiset(Collected(doc, names, texts, |names|)) && Descending(sorted)
    ensures Reaches(doc, sorted) && SpliceAll(doc, sorted) == Synced(doc, names, texts)
  {
    var slots := SlotsOn(doc, names);
    SortedIsReversePageOrder(doc, names, slots, texts, sorted);
    RightToLeftIsSubstitution(doc, names, slots, texts, 0);
    assert doc[..0] + Synced(doc, names, texts) == Synced(doc, names, texts);
  }

  /** The checks name by name, collecting spans; the first failing name is reported. */
  lemma CollectedNext(doc: string, names: seq<string>, texts: Texts, k: nat)
    requires k < |names| && Covers(texts, names)
    ensures Collected(doc, names, texts, k + 1)
            == Collected(doc, names, texts, k)
               + SpansIn(Regions(doc, Start(names[k]), End(names[k]), 0), texts[names[k]])
  {
  }

  method CheckNames(file: string, doc: string, legacy: bool, facts: Facts) returns (problem: seq<Problem>, spans: seq<Span>)
    ensures |problem| <= 1 && (problem == [] <==> forall n :: n in NamesFor(legacy) ==> NameOk(file, doc, legacy, n))
    ensures problem != [] ==> Explains(problem[0], file, doc, legacy)
    ensures Covers(TextsFor(facts), NamesFor(legacy))
    ensures problem == [] ==> spans == Collected(doc, NamesFor(legacy), TextsFor(facts), |NamesFor(legacy)|)
  {
    var names, texts := NamesFor(legacy), TextsFor(facts);
    NamesAreNames(legacy, facts);
    problem, spans := [], [];
    for k := 0 to |names|
      invariant problem == []
      invariant forall j :: 0 <= j < k ==> NameOk(file, doc, legacy, names[j])
      invariant spans == Collected(doc, names, texts, k)
    {
      var found, count;
      problem, found, count := CheckName(file, doc, legacy, names[k], texts[names[k]]);
      if problem != [] {
        assert names[k] in names && !NameOk(file, doc, legacy, names[k]);
        return;
      }
      CollectedNext(doc, names, texts, k);
      spans := spans + found;
    }
  }
}
