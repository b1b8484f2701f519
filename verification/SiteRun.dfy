/**
 A whole run over a site: nothing is rendered unless every page is accepted, and
 a second run over what the first one rendered is accepted and changes nothing.
 */
module SiteRun {
  import opened Markers
  import opened Splice
  import opened Spans
  import opened Site

  const HISTORY_MARK := PREFIX + HISTORY + ":"

  datatype PageFile = PageFile(name: string, text: string)

  /** The HTML files of a directory, or the one file given. */
  predicate Input(directory: bool, pages: seq<PageFile>) {
    && (!directory ==> |pages| == 1)
    && forall i, j :: 0 <= i < j < |pages| ==> pages[i].name != pages[j].name
  }

  ghost predicate Has(text: string, pat: string) {
    exists i :: At(text, pat, i)
  }

  /** One index page that still carries the history itself. */
  ghost predicate Legacy(directory: bool, pages: seq<PageFile>) {
    !directory || (|pages| == 1 && pages[0].name == "index.html" && Has(pages[0].text, HISTORY_MARK))
  }

  predicate HasPage(pages: seq<PageFile>, name: string) {
    exists k :: 0 <= k < |pages| && pages[k].name == name
  }

  predicate InScope(directory: bool, file: string) {
    directory ==> SitePage(file)
  }

  ghost function TotalMarkers(directory: bool, pages: seq<PageFile>, name: string): nat {
    if pages == [] then 0 else
      var last := pages[|pages| - 1];
      TotalMarkers(directory, pages[..|pages| - 1], name)
      + if InScope(directory, last.name) then Count(last.text, Start(name), 0) else 0
  }

  /** No page outside the site carries a marker. */
  ghost predicate NoStray(directory: bool, pages: seq<PageFile>) {
    forall k :: 0 <= k < |pages| && !InScope(directory, pages[k].name) ==> !Has(pages[k].text, PREFIX)
  }

  ghost predicate AllOk(directory: bool, legacy: bool, pages: seq<PageFile>) {
    forall k :: 0 <= k < |pages| && InScope(directory, pages[k].name) ==> PageOk(pages[k].name, pages[k].text, legacy)
  }

  ghost predicate SiteOk(directory: bool, pages: seq<PageFile>) {
    && NoStray(directory, pages)
    && (Legacy(directory, pages) || (HasPage(pages, "index.html") && HasPage(pages, "releases.html")))
    && AllOk(directory, Legacy(directory, pages), pages)
    && TotalMarkers(directory, pages, VERSION) > 0 && TotalMarkers(directory, pages, COUNT) > 0
  }

  /** The page a run leaves in place of this one. */
  ghost function NewText(directory: bool, legacy: bool, p: PageFile, facts: Facts): string {
    NamesAreNames(legacy, facts);
    if InScope(directory, p.name) && PageOk(p.name, p.text, legacy)
    then Synced(p.text, NamesFor(legacy), TextsFor(facts))
    else p.text
  }

  ghost predicate Renders(directory: bool, legacy: bool, pages: seq<PageFile>, facts: Facts, out: seq<PageFile>) {
    && |out| == |pages|
    && forall k :: 0 <= k < |pages| ==>
         out[k].name == pages[k].name && out[k].text == NewText(directory, legacy, pages[k], facts)
  }

  datatype SiteResult = Rendered(pages: seq<PageFile>, changed: bool) | Rejected(file: string, why: Problem)

  method Contains(text: string, pat: string) returns (has: bool)
    ensures has <==> Has(text, pat)
  {
    var p := FindText(text, pat, 0);
    has := p >= 0;
  }

  /** A page outside the site may not carry markers. */
  method FindStray(directory: bool, pages: seq<PageFile>) returns (stray: int)
    ensures -1 <= stray < |pages|
    ensures stray < 0 <==> NoStray(directory, pages)
    ensures stray >= 0 ==> !InScope(directory, pages[stray].name) && Has(pages[stray].text, PREFIX)
  {
    for k := 0 to |pages|
      invariant forall j :: 0 <= j < k && !InScope(directory, pages[j].name) ==> !Has(pages[j].text, PREFIX)
    {
      if !InScope(directory, pages[k].name) {
        var has := Contains(pages[k].text, PREFIX);
        if has { return k; }
      }
    }
    stray := -1;
  }

  method IsLegacy(directory: bool, pages: seq<PageFile>) returns (legacy: bool)
    ensures legacy <==> Legacy(directory, pages)
  {
    legacy := !directory;
    if directory && |pages| == 1 && pages[0].name == "index.html" {
      legacy := Contains(pages[0].text, HISTORY_MARK);
    }
  }

  method RenderPage(directory: bool, legacy: bool, p: PageFile, facts: Facts)
    returns (refused: seq<(string, Problem)>, q: PageFile, versions: nat, counts: nat)
    ensures refused == [] <==> (InScope(directory, p.name) ==> PageOk(p.name, p.text, legacy))
    ensures |refused| <= 1 && (refused != [] ==> refused[0].0 == p.name && Explains(refused[0].1, p.name, p.text, legacy))
    ensures refused == [] ==> q == PageFile(p.name, NewText(directory, legacy, p, facts))
    ensures refused == [] ==> versions == if InScope(directory, p.name) then Count(p.text, Start(VERSION), 0) else 0
    ensures refused == [] ==> counts == if InScope(directory, p.name) then Count(p.text, Start(COUNT), 0) else 0
  {
    refused, q, versions, counts := [], p, 0, 0;
    if InScope(directory, p.name) {
      var r := SyncPage(p.name, p.text, legacy, facts);
      if r.Refused? {
        refused := [(p.name, r.problem)];
      } else {
        q, versions, counts := PageFile(p.name, r.text), r.versions, r.counts;
      }
    }
  }

  /** This page is among those read, and is refused for this reason. */
  ghost predicate SomePageRefused(directory: bool, legacy: bool, pages: seq<PageFile>, file: string, why: Problem) {
    exists p :: p in pages && p.name == file && InScope(directory, file) && Explains(why, file, p.text, legacy)
  }

  /** What each refusal of a site says about it. */
  ghost predicate Tells(directory: bool, pages: seq<PageFile>, file: string, why: Problem) {
    match why
    case StrayMarkers(f) =>
      f == file && !InScope(directory, file) && exists p :: p in pages && p.name == file && Has(p.text, PREFIX)
    case MissingPages => !Legacy(directory, pages) && !(HasPage(pages, "index.html") && HasPage(pages, "releases.html"))
    case MissingMarkers => TotalMarkers(directory, pages, VERSION) == 0 || TotalMarkers(directory, pages, COUNT) == 0
    case _ => SomePageRefused(directory, Legacy(directory, pages), pages, file, why)
  }

  method RenderPages(directory: bool, legacy: bool, pages: seq<PageFile>, facts: Facts)
    returns (refused: seq<(string, Problem)>, out: seq<PageFile>, changed: bool, versions: nat, counts: nat)
    ensures refused == [] <==> AllOk(directory, legacy, pages)
    ensures |refused| <= 1 && (refused != [] ==> SomePageRefused(directory, legacy, pages, refused[0].0, refused[0].1))
    ensures refused == [] ==> Renders(directory, legacy, pages, facts, out) && (changed <==> out != pages)
    ensures refused == [] ==> versions == TotalMarkers(directory, pages, VERSION) && counts == TotalMarkers(directory, pages, COUNT)
  {
    refused, out, changed, versions, counts := [], [], false, 0, 0;
    for k := 0 to |pages|
      invariant refused == [] && AllOk(directory, legacy, pages[..k])
      invariant Renders(directory, legacy, pages[..k], facts, out)
      invariant changed <==> out != pages[..k]
      invariant versions == TotalMarkers(directory, pages[..k], VERSION)
      invariant counts == TotalMarkers(directory, pages[..k], COUNT)
    {
      var q, v, c;
      refused, q, v, c := RenderPage(directory, legacy, pages[k], facts);
      if refused != [] {
        assert SomePageRefused(directory, legacy, pages, pages[k].name, refused[0].1);
        return;
      }
      Snoc(pages, k);
      OneMorePage(directory, legacy, pages[..k], facts, out, pages[k], q);
      changed := changed || q.text != pages[k].text;
      out := out + [q];
      versions, counts := versions + v, counts + c;
    }
    assert pages[..|pages|] == pages;
  }

  lemma OneMorePage(
    directory: bool, legacy: bool, pages: seq<PageFile>, facts: Facts, out: seq<PageFile>, p: PageFile, q: PageFile)
    requires AllOk(directory, legacy, pages) && Renders(directory, legacy, pages, facts, out)
    requires InScope(directory, p.name) ==> PageOk(p.name, p.text, legacy)
    requires q == PageFile(p.name, NewText(directory, legacy, p, facts))
    ensures AllOk(directory, legacy, pages + [p]) && Renders(directory, legacy, pages + [p], facts, out + [q])
    ensures out + [q] != pages + [p] <==> out != pages || q.text != p.text
  {
    if out + [q] == pages + [p] {
      assert out == (out + [q])[..|out|] && pages == (pages + [p])[..|out|];
      assert q == (out + [q])[|out|] && p == (pages + [p])[|out|];
    }
  }

  lemma Snoc<T>(s: seq<T>, k: nat)
    requires k < |s|
    ensures s[..k + 1] == s[..k] + [s[k]] && s[..k + 1][..k] == s[..k]
  {
  }

  /** The run: every page is accepted and rendered, or nothing is. */
  method SyncSite(directory: bool, pages: seq<PageFile>, facts: Facts) returns (r: SiteResult)
    requires Input(directory, pages)
    ensures r.Rendered? <==> SiteOk(directory, pages)
    ensures r.Rejected? ==> Tells(directory, pages, r.file, r.why)
    ensures r.Rendered? ==> Renders(directory, Legacy(directory, pages), pages, facts, r.pages) && (r.changed <==> r.pages != pages)
    ensures r.Rendered? && QuietFacts(facts) ==> AllShow(directory, Legacy(directory, pages), r.pages, facts)
  {
    var stray := FindStray(directory, pages);
    if stray >= 0 {
      assert pages[stray] in pages;
      return Rejected(pages[stray].name, StrayMarkers(pages[stray].name));
    }
    var legacy := IsLegacy(directory, pages);
    if !legacy && !(HasPage(pages, "index.html") && HasPage(pages, "releases.html")) {
      return Rejected("", MissingPages);
    }
    var refused, out, changed, versions, counts := RenderPages(directory, legacy, pages, facts);
    if refused != [] { return Rejected(refused[0].0, refused[0].1); }
    if versions == 0 || counts == 0 { return Rejected("", MissingMarkers); }
    r := Rendered(out, changed);
    if QuietFacts(facts) { RenderedShows(directory, legacy, pages, facts, out); }
  }

  /** Every page in scope shows each fact in that fact's regions; the others are not touched. */
  ghost predicate AllShow(directory: bool, legacy: bool, pages: seq<PageFile>, facts: Facts) {
    forall k :: 0 <= k < |pages| && InScope(directory, pages[k].name) ==> ShowsFacts(pages[k].text, legacy, facts)
  }

  lemma RenderedShows(directory: bool, legacy: bool, pages: seq<PageFile>, facts: Facts, out: seq<PageFile>)
    requires AllOk(directory, legacy, pages) && Renders(directory, legacy, pages, facts, out) && QuietFacts(facts)
    ensures AllShow(directory, legacy, out, facts)
  {
    forall k | 0 <= k < |out| && InScope(directory, out[k].name) ensures ShowsFacts(out[k].text, legacy, facts) {
      assert PageOk(pages[k].name, pages[k].text, legacy);
      SyncedShowsFacts(pages[k].text, legacy, facts);
    }
  }

  // ------------------------------------------------------------------ //
  // The second run
  // ------------------------------------------------------------------ //

  lemma NewTextIsStable(directory: bool, legacy: bool, p: PageFile, facts: Facts, q: PageFile)
    requires InScope(directory, p.name) && PageOk(p.name, p.text, legacy) && QuietFacts(facts)
    requires q == PageFile(p.name, NewText(directory, legacy, p, facts))
    ensures PageOk(q.name, q.text, legacy) && NewText(directory, legacy, q, facts) == q.text
    ensures forall n :: n in NamesFor(legacy) ==> Count(q.text, Start(n), 0) == Count(p.text, Start(n), 0)
  {
    NamesAreNames(legacy, facts);
    SyncedTwice(p.text, NamesFor(legacy), TextsFor(facts));
  }

  lemma {:induction false} TotalsStay(
    directory: bool, legacy: bool, pages: seq<PageFile>, facts: Facts, out: seq<PageFile>, name: string)
    requires Renders(directory, legacy, pages, facts, out) && QuietFacts(facts) && name in NamesFor(legacy)
    requires AllOk(directory, legacy, pages)
    ensures TotalMarkers(directory, out, name) == TotalMarkers(directory, pages, name)
    decreases |pages|
  {
    if pages != [] {
      var n := |pages| - 1;
      TotalsStay(directory, legacy, pages[..n], facts, out[..n], name);
      if InScope(directory, pages[n].name) { NewTextIsStable(directory, legacy, pages[n], facts, out[n]); }
    }
  }

  /** A marker's own prefix stays with it. */
  lemma CountedIsThere(text: string)
    requires Count(text, Start(HISTORY), 0) > 0
    ensures Has(text, HISTORY_MARK)
  {
    var p := Find(text, Start(HISTORY), 0);
    var start := Start(HISTORY);
    assert start[..|HISTORY_MARK|] == HISTORY_MARK;
    assert At(text, start, p);
    assert text[p..p + |start|][..|HISTORY_MARK|] == text[p..p + |HISTORY_MARK|];
    assert At(text, HISTORY_MARK, p);
  }

  lemma LegacyStays(directory: bool, pages: seq<PageFile>, facts: Facts, out: seq<PageFile>)
    requires Input(directory, pages) && SiteOk(directory, pages) && QuietFacts(facts)
    requires Renders(directory, Legacy(directory, pages), pages, facts, out)
    ensures Legacy(directory, out) <==> Legacy(directory, pages)
  {
    if directory && Legacy(directory, pages) {
      NewTextIsStable(directory, true, pages[0], facts, out[0]);
      assert HISTORY in NamesFor(true);
      CountedIsThere(out[0].text);
    }
    if directory && !Legacy(directory, pages) {
      var i :| 0 <= i < |pages| && pages[i].name == "index.html";
      var j :| 0 <= j < |pages| && pages[j].name == "releases.html";
      assert i != j;
    }
  }

  lemma EachStable(directory: bool, legacy: bool, pages: seq<PageFile>, facts: Facts, out: seq<PageFile>)
    requires AllOk(directory, legacy, pages) && NoStray(directory, pages) && QuietFacts(facts)
    requires Renders(directory, legacy, pages, facts, out)
    ensures AllOk(directory, legacy, out) && NoStray(directory, out)
    ensures Renders(directory, legacy, out, facts, out)
  {
    forall k | 0 <= k < |pages| && InScope(directory, pages[k].name)
      ensures PageOk(out[k].name, out[k].text, legacy) && NewText(directory, legacy, out[k], facts) == out[k].text
    {
      NewTextIsStable(directory, legacy, pages[k], facts, out[k]);
    }
  }

  lemma PagesStay(pages: seq<PageFile>, out: seq<PageFile>, name: string)
    requires HasPage(pages, name) && |out| == |pages| && forall k :: 0 <= k < |pages| ==> out[k].name == pages[k].name
    ensures HasPage(out, name)
  {
    var k :| 0 <= k < |pages| && pages[k].name == name;
    assert out[k].name == name;
  }

  /** Idempotence of the whole run. */
  lemma SecondRunChangesNothing(directory: bool, pages: seq<PageFile>, facts: Facts, out: seq<PageFile>)
    requires Input(directory, pages) && SiteOk(directory, pages) && QuietFacts(facts)
    requires Renders(directory, Legacy(directory, pages), pages, facts, out)
    ensures Input(directory, out) && SiteOk(directory, out)
    ensures Renders(directory, Legacy(directory, out), out, facts, out)
  {
    var legacy := Legacy(directory, pages);
    LegacyStays(directory, pages, facts, out);
    EachStable(directory, legacy, pages, facts, out);
    if !legacy {
      PagesStay(pages, out, "index.html");
      PagesStay(pages, out, "releases.html");
    }
    assert VERSION in NamesFor(legacy) && COUNT in NamesFor(legacy);
    TotalsStay(directory, legacy, pages, facts, out, VERSION);
    TotalsStay(directory, legacy, pages, facts, out, COUNT);
  }
}
