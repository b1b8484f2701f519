/**
 The renderer end to end: from a release listing to the pages of the site.
 */
module ReleaseSite {
  import opened Options
  import opened Splice
  import opened Numerals
  import opened StableReleases
  import opened Render
  import opened Strings
  import Highlights
  import Reading
  import Site
  import SiteRun

  /** How a release is read as a card. */
  type Reader = Release -> Card

  ghost predicate Reads(read: Reader, how: Highlights.Text) {
    forall r: Release {:trigger CardOf(r, how)} :: read(r) == CardOf(r, how)
  }

  ghost function ReaderFor(how: Highlights.Text): Reader {
    r => CardOf(r, how)
  }

  lemma ReaderReads(how: Highlights.Text)
    ensures Reads(ReaderFor(how), how)
  {
  }

  /** The cards of the first `k` releases. */
  function Cards(releases: seq<Release>, k: nat, read: Reader): seq<Card>
    requires k <= |releases|
  {
    if k == 0 then [] else Cards(releases, k - 1, read) + [read(releases[k - 1])]
  }

  function Shown(releases: seq<Release>): nat {
    if |releases| < 6 then |releases| else 6
  }

  /** What the marked regions of the site are to hold. */
  function FactsOf(releases: seq<Release>, tools: nat, read: Reader): Site.Facts
    requires Sound(releases) && releases != []
  {
    Site.Facts(History(Cards(releases, Shown(releases), read)), releases[0].tag[1..], Numeral(tools), Summary(read(releases[0])))
  }

  lemma {:induction false} ArticlesOfPrefix(cards: seq<Card>, c: Card, k: nat)
    requires k <= |cards|
    ensures Articles(cards + [c], k) == Articles(cards, k)
  {
    if k > 0 { ArticlesOfPrefix(cards, c, k - 1); }
  }

  lemma OneMoreArticle(cards: seq<Card>, c: Card, articles: seq<string>, a: string)
    requires articles == Articles(cards, |cards|) && a == Article(c, |cards| == 0)
    ensures articles + [a] == Articles(cards + [c], |cards| + 1)
  {
    ArticlesOfPrefix(cards, c, |cards|);
  }

  method ReadAs(r: Release, how: Highlights.Text, ghost read: Reader) returns (c: Card)
    requires Reads(read, how)
    ensures c == read(r)
  {
    c := ReadCard(r, how);
  }

  /** The articles of the first `k` releases. */
  function ArticlesFor(releases: seq<Release>, k: nat, read: Reader): seq<string>
    requires k <= |releases|
  {
    Articles(Cards(releases, k, read), |Cards(releases, k, read)|)
  }

  lemma NextArticle(releases: seq<Release>, k: nat, read: Reader)
    requires k < |releases|
    ensures ArticlesFor(releases, k + 1, read) == ArticlesFor(releases, k, read) + [Article(read(releases[k]), k == 0)]
  {
    var cards := Cards(releases, k, read);
    CardsAre(releases, k, read);
    OneMoreArticle(cards, read(releases[k]), Articles(cards, k), Article(read(releases[k]), k == 0));
  }

  method RenderArticles(releases: seq<Release>, shown: nat, how: Highlights.Text, ghost read: Reader) returns (articles: seq<string>)
    requires Reads(read, how) && shown <= |releases|
    ensures articles == ArticlesFor(releases, shown, read)
  {
    articles := [];
    for index := 0 to shown
      invariant articles == ArticlesFor(releases, index, read)
    {
      NextArticle(releases, index, read);
      var card := ReadAs(releases[index], how, read);
      articles := articles + [Article(card, index == 0)];
    }
  }

  method RenderHistory(releases: seq<Release>, how: Highlights.Text, ghost read: Reader) returns (text: string)
    requires Reads(read, how)
    ensures text == History(Cards(releases, Shown(releases), read))
  {
    var articles := RenderArticles(releases, Shown(releases), how, read);
    text := "\n" + JoinWith(articles, '\n') + "\n";
  }

  datatype Outcome = Done(pages: seq<SiteRun.PageFile>, changed: bool) | NoListing(why: Problem) | OtherVersion | NoSite

  /** The pages of the site, from a listing; nothing is changed unless all of it is accepted. */
  method Sync(
    directory: bool, pages: seq<SiteRun.PageFile>, entries: seq<Entry>, repository: string,
    version: Option<string>, tools: nat, how: Highlights.Text, ghost read: Reader)
    returns (r: Outcome, ghost releases: seq<Release>)
    requires SiteRun.Input(directory, pages) && Reads(read, how)
    ensures Showable(entries, repository) ==> Chosen(releases, entries, repository)
    ensures r.NoListing? <==> !Showable(entries, repository)
    ensures r.OtherVersion? <==> Showable(entries, repository) && version != Some(releases[0].tag[1..])
    ensures r.Done? <==> Showable(entries, repository) && version == Some(releases[0].tag[1..]) && SiteRun.SiteOk(directory, pages)
    ensures r.Done? ==>
              && SiteRun.Renders(directory, SiteRun.Legacy(directory, pages), pages, FactsOf(releases, tools, read), r.pages)
              && (r.changed <==> r.pages != pages)
    // Region by region: the history of the cards, the tag without its `v`, the tool count, the summary.
    ensures r.Done? ==>
              SiteRun.AllShow(directory, SiteRun.Legacy(directory, pages), r.pages,
                Site.Facts(History(Cards(releases, Shown(releases), read)), releases[0].tag[1..], Numeral(tools),
                           Summary(read(releases[0]))))
  {
    releases := [];
    var chosen := Choose(entries, repository);
    if chosen.Rejected? { return NoListing(chosen.problem), releases; }
    releases := chosen.releases;
    if version != Some(chosen.releases[0].tag[1..]) { return OtherVersion, releases; }
    var history := RenderHistory(chosen.releases, how, read);
    var card := ReadAs(chosen.releases[0], how, read);
    var facts := Site.Facts(history, chosen.releases[0].tag[1..], Numeral(tools), Summary(card));
    RenderedFactsAreQuiet(releases, tools, how, read);
    var done := SiteRun.SyncSite(directory, pages, facts);
    r := if done.Rendered? then Done(done.pages, done.changed) else NoSite;
  }

  predicate AllNeat(cards: seq<Card>) {
    forall i :: 0 <= i < |cards| ==> Neat(cards[i])
  }

  lemma {:induction false} CardsAreNeat(releases: seq<Release>, k: nat, read: Reader)
    requires k <= |releases| && forall i :: 0 <= i < |releases| ==> Neat(read(releases[i]))
    ensures |Cards(releases, k, read)| == k && AllNeat(Cards(releases, k, read))
  {
    if k > 0 { CardsAreNeat(releases, k - 1, read); }
  }

  lemma ReadIsNeat(r: Release, how: Highlights.Text, read: Reader)
    requires Reads(read, how) && StableTag(r.tag)
    ensures Neat(read(r))
  {
    TagIsTame(r.tag);
    CardIsNeat(r, how);
    assert read(r) == CardOf(r, how);
  }

  /** Nothing rendered from a listing can be read as a marker. */
  lemma RenderedFactsAreQuiet(releases: seq<Release>, tools: nat, how: Highlights.Text, read: Reader)
    requires Sound(releases) && releases != [] && Reads(read, how)
    ensures Site.QuietFacts(FactsOf(releases, tools, read))
  {
    forall i | 0 <= i < |releases| ensures Neat(read(releases[i])) { ReadIsNeat(releases[i], how, read); }
    var cards := Cards(releases, Shown(releases), read);
    CardsAreNeat(releases, Shown(releases), read);
    HistoryIsTame(cards);
    TameIsQuiet(History(cards));
    TagIsTame(releases[0].tag);
    TameIsQuiet(releases[0].tag[1..]);
    NumeralIsTame(tools);
    TameIsQuiet(Numeral(tools));
    SummaryIsTame(read(releases[0]));
    TameIsQuiet(Summary(read(releases[0])));
  }

  lemma RenderedAgain(
    directory: bool, pages: seq<SiteRun.PageFile>, releases: seq<Release>, tools: nat, how: Highlights.Text, read: Reader,
    out: seq<SiteRun.PageFile>)
    requires SiteRun.Input(directory, pages) && SiteRun.SiteOk(directory, pages)
    requires Sound(releases) && releases != [] && Reads(read, how)
    requires SiteRun.Renders(directory, SiteRun.Legacy(directory, pages), pages, FactsOf(releases, tools, read), out)
    ensures SiteRun.Input(directory, out) && SiteRun.SiteOk(directory, out)
    ensures SiteRun.Renders(directory, SiteRun.Legacy(directory, out), out, FactsOf(releases, tools, read), out)
  {
    RenderedFactsAreQuiet(releases, tools, how, read);
    SiteRun.SecondRunChangesNothing(directory, pages, FactsOf(releases, tools, read), out);
  }

  lemma RenderedOneWay(directory: bool, pages: seq<SiteRun.PageFile>, facts: Site.Facts, out: seq<SiteRun.PageFile>)
    requires SiteRun.Renders(directory, SiteRun.Legacy(directory, pages), pages, facts, pages)
    requires SiteRun.Renders(directory, SiteRun.Legacy(directory, pages), pages, facts, out)
    ensures out == pages
  {
  }

  /** Whatever a run made of the pages, a second run from the same listing accepts it and changes nothing. */
  method SyncTwice(
    directory: bool, pages: seq<SiteRun.PageFile>, entries: seq<Entry>, repository: string,
    version: Option<string>, tools: nat, how: Highlights.Text, ghost read: Reader)
    returns (first: Outcome, second: Outcome)
    requires SiteRun.Input(directory, pages) && Reads(read, how)
    ensures first.Done? ==> second == Done(first.pages, false)
  {
    ghost var once, twice;
    first, once := Sync(directory, pages, entries, repository, version, tools, how, read);
    if !first.Done? { return first, first; }
    RenderedAgain(directory, pages, once, tools, how, read, first.pages);
    second, twice := Sync(directory, first.pages, entries, repository, version, tools, how, read);
    ChosenIsUnique(once, twice, entries, repository);
    RenderedOneWay(directory, first.pages, FactsOf(once, tools, read), second.pages);
  }

  lemma {:induction false} CardsAre(releases: seq<Release>, k: nat, read: Reader)
    requires k <= |releases|
    ensures |Cards(releases, k, read)| == k && forall i :: 0 <= i < k ==> Cards(releases, k, read)[i] == read(releases[i])
  {
    if k > 0 { CardsAre(releases, k - 1, read); }
  }

  lemma {:induction false} ArticlesAre(cards: seq<Card>, k: nat)
    requires k <= |cards|
    ensures |Articles(cards, k)| == k && forall i :: 0 <= i < k ==> Articles(cards, k)[i] == Article(cards[i], i == 0)
  {
    if k > 0 { ArticlesAre(cards, k - 1); }
  }

  /** What a reader sees of one release in the history. */
  ghost function Entry(r: Release, latest: bool, how: Highlights.Text): string {
    r.tag + (Label(r.date) + if latest then "Latest release" else "")
    + (Reading.Heading(CardOf(r, how)) + Reading.Together(Highlights.HighlightsOf(SplitLines(r.body), how)) + "Full release notes")
  }

  /** The history has an entry for each of the first six releases, in order, and only the first is marked as the latest. */
  lemma HistoryEntries(releases: seq<Release>, how: Highlights.Text, read: Reader)
    requires Sound(releases) && Reads(read, how)
    ensures var cards := Cards(releases, Shown(releases), read);
            var entries := Articles(cards, |cards|);
            && History(cards) == "\n" + JoinWith(entries, '\n') + "\n"
            && |entries| == (if |releases| >= 6 then 6 else |releases|)
            && forall i :: 0 <= i < |entries| ==> Reading.Seen(entries[i]) == Entry(releases[i], i == 0, how)
  {
    var n := Shown(releases);
    var cards := Cards(releases, n, read);
    CardsAre(releases, n, read);
    ArticlesAre(cards, n);
    forall i | 0 <= i < n ensures Reading.Seen(Articles(cards, n)[i]) == Entry(releases[i], i == 0, how) {
      EntryIsSeen(releases[i], i == 0, how);
      assert read(releases[i]) == CardOf(releases[i], how);
    }
  }

  lemma EntryIsSeen(r: Release, latest: bool, how: Highlights.Text)
    requires StableTag(r.tag) && Dated(r)
    ensures Reading.Seen(Article(CardOf(r, how), latest)) == Entry(r, latest, how)
  {
    Reading.CardIsClean(r, how);
    Reading.CardIs(r, how);
    Reading.ArticleSays(CardOf(r, how), latest);
  }
}
