/**
 The HTML written for releases.  Whatever the release notes contain, the text
 rendered from them never holds `<!`, so it can hold no marker and no comment.

 A release is first read as a card: its tag, its address, its date written out,
 its title and its highlights.  The history and the summary are lists of pieces
 written from cards, some fixed and some escaped.  A text is tame if every `<` in
 it is followed, within the text, by something other than `!`; tame pieces make
 tame texts, fixed pieces are tame as they stand, and escaped text has no `<`.
 */
module Render {
  import opened Markers
  import opened Splice
  import opened Numerals
  import opened StableReleases
  import opened Strings
  import opened Highlights
  import opened ReleaseNotes

  const MONTHS := ["Jan", "Feb", "Mar", "Apr", "May", "Jun", "Jul", "Aug", "Sep", "Oct", "Nov", "Dec"]

  /** `html.escape` */
  function Escaped(c: char, quote: bool): string {
    if c == '&' then "&amp;"
    else if c == '<' then "&lt;"
    else if c == '>' then "&gt;"
    else if quote && c == '"' then "&quot;"
    else if quote && c == '\'' then "&#x27;"
    else [c]
  }

  function Escape(text: string, quote: bool): string {
    if text == "" then "" else Escaped(text[0], quote) + Escape(text[1..], quote)
  }

  predicate LineBreak(c: char) {
    '\n' <= c <= '\r' || '\U{1C}' <= c <= '\U{1E}' || c == '\U{85}' || c == '\U{2028}' || c == '\U{2029}'
  }

  function FirstBreak(s: string): (i: nat)
    ensures i <= |s| && (i < |s| ==> LineBreak(s[i])) && forall k :: 0 <= k < i ==> !LineBreak(s[k])
  {
    if s == "" || LineBreak(s[0]) then 0 else 1 + FirstBreak(s[1..])
  }

  /** `str.splitlines` */
  function SplitLines(s: string): (lines: seq<string>)
    ensures forall l :: l in lines ==> '\n' !in l
  {
    var i := FirstBreak(s);
    if s == "" then []
    else if i == |s| then [s]
    else [s[..i]] + SplitLines(s[if "\r\n" <= s[i..] then i + 2 else i + 1..])
  }

  function Concat(pieces: seq<string>): string {
    if pieces == [] then "" else Concat(pieces[..|pieces| - 1]) + pieces[|pieces| - 1]
  }

  function ListItems(items: seq<string>): string {
    if items == [] then "" else "<li>" + Escape(items[0], true) + "</li>" + ListItems(items[1..])
  }

  function List(items: seq<string>): string {
    if items == [] then "" else "<ul>" + ListItems(items) + "</ul>"
  }

  function Dashed(tag: string): string {
    if tag == "" then "" else [if tag[0] == '.' then '-' else tag[0]] + Dashed(tag[1..])
  }

  function Padded(n: nat, width: nat): string {
    Zeros(width - |Numeral(n)|) + Numeral(n)
  }

  function Zeros(n: int): string
    decreases n
  {
    if n <= 0 then "" else "0" + Zeros(n - 1)
  }

  function MonthName(month: nat): string {
    if 1 <= month <= 12 then MONTHS[month - 1] else ""
  }

  function Label(date: Instant): string {
    MonthName(date.month) + " " + Numeral(date.day) + ", " + Numeral(date.year)
  }

  function Day(date: Instant): string {
    Padded(date.year, 4) + "-" + Padded(date.month, 2) + "-" + Padded(date.day, 2)
  }

  /** What is written of one release. */
  datatype Card = Card(tag: string, url: string, day: string, caption: string, title: string, items: seq<string>)

  function CardWith(r: Release, how: Text, items: seq<string>): Card {
    Card(r.tag, r.url, Day(r.date), Label(r.date), how.plain(r.name), items)
  }

  ghost function CardOf(r: Release, how: Text): Card {
    CardWith(r, how, HighlightsOf(SplitLines(r.body), how))
  }

  /** The title, unless it only repeats the tag. */
  function Title(c: Card): string {
    if c.title != "" && c.title != c.tag && (c.tag == "" || c.title != c.tag[1..])
    then "<h4>" + Escape(c.title, true) + "</h4>" else ""
  }

  function Badge(latest: bool): string {
    if latest then "<span class=\"release-badge\">" + "Latest release" + "</span>" else ""
  }

  function Meta(c: Card, latest: bool): string {
    Concat([ "<div class=\"release-meta\"><h3><a href=\"", Escape(c.url, true), "\">", c.tag, "</a></h3>",
             "<time datetime=\"", c.day, "\">", c.caption, "</time>", Badge(latest), "</div>" ])
  }

  function Details(c: Card): string {
    Concat([ "<div class=\"release-details\">", Title(c), List(c.items),
             "<a class=\"release-link\" href=\"", Escape(c.url, true), "\">", "Full release notes", "</a></div></article>" ])
  }

  function Article(c: Card, latest: bool): string {
    Concat([ "<article class=\"release-entry\" id=\"release-", Dashed(c.tag), "\">", Meta(c, latest), Details(c) ])
  }

  function Articles(cards: seq<Card>, k: nat): seq<string>
    requires k <= |cards|
  {
    if k == 0 then [] else Articles(cards, k - 1) + [Article(cards[k - 1], k == 1)]
  }

  function History(cards: seq<Card>): string {
    "\n" + JoinWith(Articles(cards, |cards|), '\n') + "\n"
  }

  function FirstTwo(items: seq<string>): seq<string> {
    if |items| <= 2 then items else items[..2]
  }

  function SummaryLink(c: Card): string {
    Concat([ "<a href=\"releases.html#release-", Escape(Dashed(c.tag), true), "\">",
             "Latest release: ", Escape(c.tag, true), "</a>" ])
  }

  function SummaryBox(c: Card): string {
    Concat([ "<div class=\"release-summary\">", "<p class=\"release-summary-meta\">", SummaryLink(c), " ",
             "<time datetime=\"", c.day, "\">", c.caption, "</time></p>", List(FirstTwo(c.items)),
             "<a class=\"release-link\" " + "href=\"releases.html\">", "All release notes" + "</a></div>" ])
  }

  function Summary(c: Card): string {
    "\n" + SummaryBox(c) + "\n"
  }

  method ReadCard(r: Release, how: Text) returns (c: Card)
    ensures c == CardOf(r, how)
  {
    var items := ReadHighlights(SplitLines(r.body), how);
    c := CardWith(r, how, items);
  }

  // ------------------------------------------------------------------ //
  // No declaration, no comment, no marker
  // ------------------------------------------------------------------ //

  /** Every `<` is followed within the text by something other than `!`. */
  predicate Tame(s: string) {
    forall i :: 0 <= i < |s| && s[i] == '<' ==> i + 1 < |s| && s[i + 1] != '!'
  }

  predicate Angleless(s: string) {
    forall i :: 0 <= i < |s| ==> s[i] != '<'
  }

  lemma TameTogether(a: string, b: string)
    requires Tame(a) && Tame(b)
    ensures Tame(a + b)
  {
    var s := a + b;
    forall i | 0 <= i < |s| && s[i] == '<' ensures i + 1 < |s| && s[i + 1] != '!' {
      if i < |a| { assert a[i] == '<' && s[i + 1] == a[i + 1]; }
      else { assert b[i - |a|] == '<' && s[i + 1] == b[i - |a| + 1]; }
    }
  }

  /** A text written of tame pieces is tame. */
  lemma {:induction false} TamePieces(pieces: seq<string>)
    requires forall k :: 0 <= k < |pieces| ==> Tame(pieces[k])
    ensures Tame(Concat(pieces))
  {
    if pieces != [] {
      TamePieces(pieces[..|pieces| - 1]);
      TameTogether(Concat(pieces[..|pieces| - 1]), pieces[|pieces| - 1]);
    }
  }

  lemma TameIsQuiet(text: string)
    requires Tame(text)
    ensures QuietText(text)
  {
    forall i | 0 <= i < |text| ensures !At(text, PREFIX, i) {
      AtAll(text, PREFIX, i);
      assert PREFIX[0] == '<' && PREFIX[1] == '!';
    }
  }

  lemma {:induction false} EscapedIsTame(text: string, quote: bool)
    ensures Angleless(Escape(text, quote)) && Tame(Escape(text, quote))
  {
    if text != "" {
      EscapedIsTame(text[1..], quote);
      assert Angleless(Escaped(text[0], quote));
    }
  }

  lemma {:induction false} ListIsTame(items: seq<string>)
    ensures Tame(ListItems(items)) && Tame(List(items))
  {
    if items != [] {
      ListIsTame(items[1..]);
      EscapedIsTame(items[0], true);
      TameTogether("<li>", Escape(items[0], true));
      TameTogether("<li>" + Escape(items[0], true), "</li>");
      TameTogether("<li>" + Escape(items[0], true) + "</li>", ListItems(items[1..]));
      TameTogether("<ul>", ListItems(items));
      TameTogether("<ul>" + ListItems(items), "</ul>");
    }
  }

  lemma {:induction false} LinesAreTame(parts: seq<string>)
    requires forall k :: 0 <= k < |parts| ==> Tame(parts[k])
    ensures Tame(JoinWith(parts, '\n'))
  {
    if |parts| > 1 {
      LinesAreTame(parts[1..]);
      TameTogether(parts[0], "\n");
      TameTogether(parts[0] + "\n", JoinWith(parts[1..], '\n'));
    }
  }

  /** A stable tag is letters, digits and dots, whatever else the listing holds. */
  lemma TagIsTame(tag: string)
    requires StableTag(tag)
    ensures Angleless(tag) && Angleless(tag[1..])
  {
    TripleOfTag(tag);
    var t := TripleOf(tag);
    NumeralIsTame(t.major);
    NumeralIsTame(t.minor);
    NumeralIsTame(t.patch);
  }

  lemma NumeralIsTame(n: nat)
    ensures Angleless(Numeral(n))
  {
    assert Numerals.Digits(Numeral(n));
  }

  lemma {:induction false} DashedIsTame(tag: string)
    requires Angleless(tag)
    ensures Angleless(Dashed(tag))
  {
    if tag != "" { DashedIsTame(tag[1..]); }
  }

  lemma {:induction false} ZerosAreTame(n: int)
    ensures Angleless(Zeros(n))
    decreases n
  {
    if n > 0 { ZerosAreTame(n - 1); }
  }

  lemma PaddedIsTame(n: nat, width: nat)
    ensures Angleless(Padded(n, width))
  {
    ZerosAreTame(width - |Numeral(n)|);
    NumeralIsTame(n);
  }

  lemma MonthIsTame(month: nat)
    ensures Angleless(MonthName(month))
  {
  }

  lemma DateIsTame(date: Instant)
    ensures Angleless(Day(date)) && Angleless(Label(date))
  {
    MonthIsTame(date.month);
    NumeralIsTame(date.day);
    NumeralIsTame(date.year);
    PaddedIsTame(date.year, 4);
    PaddedIsTame(date.month, 2);
    PaddedIsTame(date.day, 2);
  }

  /** Tags, dates and labels are written as they are. */
  predicate Neat(c: Card) {
    Angleless(c.tag) && Angleless(c.day) && Angleless(c.caption)
  }

  lemma CardIsNeat(r: Release, how: Text)
    requires Angleless(r.tag)
    ensures Neat(CardOf(r, how))
  {
    DateIsTame(r.date);
  }

  lemma TameThree(a: string, b: string, c: string)
    requires Tame(a) && Tame(b) && Tame(c)
    ensures Tame(a + b + c)
  {
    TameTogether(a, b);
    TameTogether(a + b, c);
  }

  lemma TameSix(a: string, b: string, c: string, d: string, e: string, f: string)
    requires Tame(a) && Tame(b) && Tame(c) && Tame(d) && Tame(e) && Tame(f)
    ensures Tame(Concat([a, b, c, d, e, f])) && Tame(Concat([a, b, c, d, e]))
  {
    TamePieces([a, b, c, d, e, f]);
    TamePieces([a, b, c, d, e]);
  }

  lemma TameEight(a: string, b: string, c: string, d: string, e: string, f: string, g: string, h: string)
    requires Tame(a) && Tame(b) && Tame(c) && Tame(d) && Tame(e) && Tame(f) && Tame(g) && Tame(h)
    ensures Tame(Concat([a, b, c, d, e, f, g, h]))
  {
    TamePieces([a, b, c, d, e, f, g, h]);
  }

  lemma TameTwelve(
    a: string, b: string, c: string, d: string, e: string, f: string,
    g: string, h: string, i: string, j: string, k: string, l: string)
    requires Tame(a) && Tame(b) && Tame(c) && Tame(d) && Tame(e) && Tame(f)
    requires Tame(g) && Tame(h) && Tame(i) && Tame(j) && Tame(k) && Tame(l)
    ensures Tame(Concat([a, b, c, d, e, f, g, h, i, j, k])) && Tame(Concat([a, b, c, d, e, f, g, h, i, j, k, l]))
  {
    TamePieces([a, b, c, d, e, f, g, h, i, j, k]);
    TamePieces([a, b, c, d, e, f, g, h, i, j, k, l]);
  }

  lemma TitleIsTame(c: Card)
    ensures Tame(Title(c))
  {
    EscapedIsTame(c.title, true);
    TameThree("<h4>", Escape(c.title, true), "</h4>");
  }

  lemma BadgeIsTame(latest: bool)
    ensures Tame(Badge(latest))
  {
    assert Tame("<span class=\"release-badge\">");
    assert Tame("Latest release") && Tame("</span>");
    TameThree("<span class=\"release-badge\">", "Latest release", "</span>");
  }

  lemma TimeTagsAreTame()
    ensures Tame("<time datetime=\"") && Tame("\">") && Tame("</time>") && Tame("</time></p>") && Tame("</div>") && Tame("</a></h3>")
    ensures Tame("</a>") && Tame("</a></div></article>") && Tame("Latest release: ")
  {
  }

  lemma MetaTagIsTame()
    ensures Tame("<div class=\"release-meta\"><h3><a href=\"")
  {
  }

  lemma MetaIsTame(c: Card, latest: bool)
    requires Neat(c)
    ensures Tame(Meta(c, latest))
  {
    MetaTagIsTame();
    TimeTagsAreTame();
    EscapedIsTame(c.url, true);
    BadgeIsTame(latest);
    TameTwelve("<div class=\"release-meta\"><h3><a href=\"", Escape(c.url, true), "\">", c.tag, "</a></h3>",
               "<time datetime=\"", c.day, "\">", c.caption, "</time>", Badge(latest), "</div>");
  }

  lemma DetailTagsAreTame()
    ensures Tame("<div class=\"release-details\">") && Tame("<a class=\"release-link\" href=\"") && Tame("Full release notes")
  {
  }

  lemma DetailsAreTame(c: Card)
    ensures Tame(Details(c))
  {
    DetailTagsAreTame();
    TimeTagsAreTame();
    EscapedIsTame(c.url, true);
    TitleIsTame(c);
    ListIsTame(c.items);
    TameEight("<div class=\"release-details\">", Title(c), List(c.items),
              "<a class=\"release-link\" href=\"", Escape(c.url, true), "\">", "Full release notes", "</a></div></article>");
  }

  lemma ArticleTagIsTame()
    ensures Tame("<article class=\"release-entry\" id=\"release-")
  {
  }

  lemma ArticleIsTame(c: Card, latest: bool)
    requires Neat(c)
    ensures Tame(Article(c, latest))
  {
    ArticleTagIsTame();
    TimeTagsAreTame();
    DashedIsTame(c.tag);
    MetaIsTame(c, latest);
    DetailsAreTame(c);
    TameSix("<article class=\"release-entry\" id=\"release-", Dashed(c.tag), "\">", Meta(c, latest), Details(c), "");
  }

  lemma {:induction false} ArticlesAreTame(cards: seq<Card>, k: nat)
    requires k <= |cards| && forall i :: 0 <= i < |cards| ==> Neat(cards[i])
    ensures |Articles(cards, k)| == k && forall i :: 0 <= i < k ==> Tame(Articles(cards, k)[i])
  {
    if k > 0 {
      ArticlesAreTame(cards, k - 1);
      ArticleIsTame(cards[k - 1], k == 1);
    }
  }

  /** The release history can hold no marker, whatever the notes hold. */
  lemma HistoryIsTame(cards: seq<Card>)
    requires forall i :: 0 <= i < |cards| ==> Neat(cards[i])
    ensures Tame(History(cards))
  {
    ArticlesAreTame(cards, |cards|);
    LinesAreTame(Articles(cards, |cards|));
    TameThree("\n", JoinWith(Articles(cards, |cards|), '\n'), "\n");
  }

  lemma SummaryTagsAreTame()
    ensures Tame("<div class=\"release-summary\">") && Tame("<p class=\"release-summary-meta\">") && Tame(" ")
    ensures Tame("All release notes") && Tame("</a></div>") && Tame("\n")
  {
  }

  lemma SummaryLinksAreTame()
    ensures Tame("<a class=\"release-link\" ") && Tame("href=\"releases.html\">") && Tame("<a href=\"releases.html#release-")
  {
  }

  lemma SummaryLinkIsTame(c: Card)
    requires Neat(c)
    ensures Tame(SummaryLink(c))
  {
    SummaryLinksAreTame();
    TimeTagsAreTame();
    EscapedIsTame(Dashed(c.tag), true);
    EscapedIsTame(c.tag, true);
    TameSix("<a href=\"releases.html#release-", Escape(Dashed(c.tag), true), "\">", "Latest release: ", Escape(c.tag, true), "</a>");
  }

  /** Nor can the summary. */
  lemma SummaryIsTame(c: Card)
    requires Neat(c)
    ensures Tame(Summary(c))
  {
    SummaryTagsAreTame();
    SummaryLinksAreTame();
    TimeTagsAreTame();
    SummaryLinkIsTame(c);
    ListIsTame(FirstTwo(c.items));
    TameTogether("All release notes", "</a></div>");
    TameTogether("<a class=\"release-link\" ", "href=\"releases.html\">");
    TameTwelve("<div class=\"release-summary\">", "<p class=\"release-summary-meta\">", SummaryLink(c), " ",
               "<time datetime=\"", c.day, "\">", c.caption, "</time></p>", List(FirstTwo(c.items)),
               "<a class=\"release-link\" " + "href=\"releases.html\">", "All release notes" + "</a></div>");
    TameThree("\n", SummaryBox(c), "\n");
  }
}
