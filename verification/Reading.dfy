/**
 What a reader of the rendered HTML sees: its text without the tags, with the
 escapes read back.
 */
module Reading {
  import opened Numerals
  import opened Render
  import opened Sequences
  import opened StableReleases
  import opened Strings
  import Highlights

  /** The text outside the tags. */
  function Outside(html: string, inTag: bool): string {
    if html == "" then ""
    else if inTag then Outside(html[1..], html[0] != '>')
    else if html[0] == '<' then Outside(html[1..], true)
    else [html[0]] + Outside(html[1..], false)
  }

  /** Whether the text ends inside a tag. */
  function EndsInTag(html: string, inTag: bool): bool {
    if html == "" then inTag
    else EndsInTag(html[1..], if inTag then html[0] != '>' else html[0] == '<')
  }

  /** The first character of an escaped text, and what stands for it. */
  function First(s: string): (r: (char, nat))
    requires s != ""
    ensures 1 <= r.1 <= |s|
  {
    if "&amp;" <= s then ('&', 5)
    else if "&lt;" <= s then ('<', 4)
    else if "&gt;" <= s then ('>', 4)
    else if "&quot;" <= s then ('"', 6)
    else if "&#x27;" <= s then ('\'', 6)
    else (s[0], 1)
  }

  function Unescape(s: string): string {
    if s == "" then "" else [First(s).0] + Unescape(s[First(s).1..])
  }

  function Seen(html: string): string {
    Unescape(Outside(html, false))
  }

  lemma EntityIsFirst(c: char, x: string)
    requires c == '&' || c == '<' || c == '>' || c == '"' || c == '\''
    ensures First(Escaped(c, true) + x) == (c, |Escaped(c, true)|)
  {
    var s := Escaped(c, true) + x;
    assert s[1] == Escaped(c, true)[1] && s[0] == '&';
  }

  lemma OneReadsBack(c: char, x: string)
    ensures Escaped(c, true) != "" && First(Escaped(c, true) + x) == (c, |Escaped(c, true)|)
  {
    if c == '&' || c == '<' || c == '>' || c == '"' || c == '\'' {
      EntityIsFirst(c, x);
    } else {
      assert (Escaped(c, true) + x)[0] == c;
    }
  }

  lemma UnescapeFirst(s: string, a: string, c: char, x: string)
    requires a != "" && s == a + x && First(s) == (c, |a|)
    ensures Unescape(s) == [c] + Unescape(x)
  {
    assert s[|a|..] == x;
  }

  /** Escaped text reads back as what it was, whatever follows. */
  lemma {:induction false} EscapeReadsBack(text: string, x: string)
    ensures Unescape(Escape(text, true) + x) == text + Unescape(x)
    decreases |text|
  {
    if text == "" {
      Nothing(x);
      Nothing(Unescape(x));
    } else {
      var a, y := Escaped(text[0], true), Escape(text[1..], true) + x;
      EscapeReadsBack(text[1..], x);
      OneReadsBack(text[0], y);
      Regroup(a, Escape(text[1..], true), x);
      UnescapeFirst(Escape(text, true) + x, a, text[0], y);
      Regroup([text[0]], text[1..], Unescape(x));
      assert text == [text[0]] + text[1..];
    }
  }

  lemma Nothing<T>(x: seq<T>)
    ensures [] + x == x
  {
  }

  /** Escaped text can neither open nor close a tag nor end an attribute. */
  lemma {:induction false} EscapedIsInert(text: string)
    ensures forall k :: 0 <= k < |Escape(text, true)| ==> Escape(text, true)[k] !in "<>\"'"
  {
    if text != "" {
      EscapedIsInert(text[1..]);
      var a, b := Escaped(text[0], true), Escape(text[1..], true);
      assert forall k :: 0 <= k < |a| ==> a[k] !in "<>\"'";
      assert forall k :: 0 <= k < |a + b| ==> (a + b)[k] == if k < |a| then a[k] else b[k - |a|];
    }
  }

  // ------------------------------------------------------------------ //
  // Piece by piece
  // ------------------------------------------------------------------ //

  /** Begun inside or outside a tag, the piece shows this text and ends inside or outside one. */
  predicate Shows(html: string, inTag: bool, text: string, after: bool) {
    Outside(html, inTag) == text && EndsInTag(html, inTag) == after
  }

  lemma {:induction false} ShowsTogether(a: string, b: string, s0: bool, ta: string, s1: bool, tb: string, s2: bool)
    requires Shows(a, s0, ta, s1) && Shows(b, s1, tb, s2)
    ensures Shows(a + b, s0, ta + tb, s2)
    decreases |a|
  {
    if a == "" {
      Nothing(b);
      Nothing(tb);
    } else {
      var s := if s0 then a[0] != '>' else a[0] == '<';
      assert (a + b)[0] == a[0] && (a + b)[1..] == a[1..] + b;
      ShowsTogether(a[1..], b, s, Outside(a[1..], s), s1, tb, s2);
      if !s0 && a[0] != '<' { Regroup([a[0]], Outside(a[1..], s), tb); }
    }
  }

  /** No angle bracket: text where it stands outside, nothing inside a tag. */
  predicate Flat(a: string) {
    forall k :: 0 <= k < |a| ==> a[k] != '<' && a[k] != '>'
  }

  lemma {:induction false} ShowsFlat(a: string)
    requires Flat(a)
    ensures Shows(a, false, a, false) && Shows(a, true, "", true)
  {
    if a != "" {
      ShowsFlat(a[1..]);
      assert a == [a[0]] + a[1..];
    }
  }

  /** Nothing but tags, from where the piece begins; it ends outside of them exactly at a closing bracket. */
  predicate Silent(a: string, inTag: bool, after: bool) {
    && a != "" && (inTag || a[0] == '<') && (after <==> a[|a| - 1] != '>')
    && forall k :: 0 <= k < |a| - 1 && a[k] == '>' ==> a[k + 1] == '<'
  }

  lemma {:induction false} ShowsNothing(a: string, inTag: bool, after: bool)
    requires Silent(a, inTag, after)
    ensures Shows(a, inTag, "", after)
    decreases |a|
  {
    if |a| == 1 {
      assert a[1..] == "";
    } else {
      ShowsNothing(a[1..], a[0] != '>', after);
    }
  }

  // Escaping takes a text apart as well as together, so what a page shows is the escape of what it says.

  lemma {:induction false} EscapeTogether(a: string, b: string)
    ensures Escape(a + b, true) == Escape(a, true) + Escape(b, true)
    decreases |a|
  {
    if a == "" {
      Nothing(b);
      Nothing(Escape(b, true));
    } else {
      EscapeTogether(a[1..], b);
      assert (a + b)[0] == a[0] && (a + b)[1..] == a[1..] + b;
      Regroup(Escaped(a[0], true), Escape(a[1..], true), Escape(b, true));
    }
  }

  /** The piece says this where it stands. */
  predicate Says(html: string, inTag: bool, text: string, after: bool) {
    Shows(html, inTag, Escape(text, true), after)
  }

  lemma SaysTogether(a: string, b: string, s0: bool, ta: string, s1: bool, tb: string, s2: bool)
    requires Says(a, s0, ta, s1) && Says(b, s1, tb, s2)
    ensures Says(a + b, s0, ta + tb, s2)
  {
    EscapeTogether(ta, tb);
    ShowsTogether(a, b, s0, Escape(ta, true), s1, Escape(tb, true), s2);
  }

  lemma SaysEscaped(text: string)
    ensures Says(Escape(text, true), false, text, false)
    ensures Shows(Escape(text, true), true, "", true)
  {
    EscapedIsInert(text);
    ShowsFlat(Escape(text, true));
  }

  /** Nothing that escaping would change. */
  predicate Bare(s: string) {
    forall k :: 0 <= k < |s| ==> s[k] != '&' && s[k] != '<' && s[k] != '>' && s[k] != '"' && s[k] != '\''
  }

  lemma {:induction false} BareIsEscaped(s: string)
    requires Bare(s)
    ensures Escape(s, true) == s
  {
    if s != "" {
      BareIsEscaped(s[1..]);
      assert s == [s[0]] + s[1..];
    }
  }

  lemma SaysBare(s: string)
    requires Bare(s)
    ensures Says(s, false, s, false) && Shows(s, true, "", true)
  {
    BareIsEscaped(s);
    SaysEscaped(s);
  }

  lemma SaysNothing(a: string, inTag: bool, after: bool)
    requires Silent(a, inTag, after)
    ensures Says(a, inTag, "", after)
  {
    ShowsNothing(a, inTag, after);
  }

  lemma {:induction false} SaysPieces(pieces: seq<string>, texts: seq<string>, states: seq<bool>)
    requires |texts| == |pieces| && |states| == |pieces| + 1
    requires forall k :: 0 <= k < |pieces| ==> Says(pieces[k], states[k], texts[k], states[k + 1])
    ensures Says(Concat(pieces), states[0], Concat(texts), states[|pieces|])
  {
    if pieces != [] {
      var n := |pieces| - 1;
      SaysPieces(pieces[..n], texts[..n], states[..n + 1]);
      SaysTogether(Concat(pieces[..n]), pieces[n], states[0], Concat(texts[..n]), states[n], texts[n], states[n + 1]);
    }
  }

  /** What is said outside of all tags is what a reader sees. */
  lemma SaidIsSeen(html: string, text: string, after: bool)
    requires Says(html, false, text, after)
    ensures Seen(html) == text
  {
    EscapeReadsBack(text, "");
    assert Escape(text, true) + "" == Escape(text, true) && text + Unescape("") == text;
  }

  function Together(items: seq<string>): string {
    if items == [] then "" else items[0] + Together(items[1..])
  }

  lemma EmptyAround(a: string, b: string)
    ensures "" + a + "" + b == a + b && "" + a == a
  {
  }

  lemma ItemSays(open: string, item: string, close: string, rest: string, text: string)
    requires Silent(open, false, false) && Silent(close, false, false) && Says(rest, false, text, false)
    ensures Says(open + Escape(item, true) + close + rest, false, item + text, false)
  {
    SaysNothing(open, false, false);
    SaysEscaped(item);
    SaysNothing(close, false, false);
    SaysFour(open, "", Escape(item, true), item, close, "", rest, text, false, false, false, false, false);
    EmptyAround(item, text);
  }

  lemma ListTags()
    ensures Silent("<li>", false, false) && Silent("</li>", false, false)
    ensures Silent("<ul>", false, false) && Silent("</ul>", false, false)
    ensures Silent("<h4>", false, false) && Silent("</h4>", false, false)
  {
  }

  lemma {:induction false} ItemsSay(items: seq<string>)
    ensures Says(ListItems(items), false, Together(items), false)
    decreases |items|
  {
    if items != [] {
      ListTags();
      ItemsSay(items[1..]);
      ItemSays("<li>", items[0], "</li>", ListItems(items[1..]), Together(items[1..]));
    }
  }

  lemma Wrapped(open: string, inside: string, close: string, text: string)
    requires Silent(open, false, false) && Silent(close, false, false) && Says(inside, false, text, false)
    ensures Says(open + inside + close, false, text, false)
  {
    SaysNothing(open, false, false);
    SaysNothing(close, false, false);
    SaysTogether(open, inside, false, "", false, text, false);
    SaysTogether(open + inside, close, false, "" + text, false, "", false);
    assert "" + text + "" == text;
  }

  lemma ListSays(items: seq<string>)
    ensures Says(List(items), false, Together(items), false)
  {
    ListTags();
    ItemsSay(items);
    if items != [] { Wrapped("<ul>", ListItems(items), "</ul>", Together(items)); }
  }

  /** The heading of an entry: nothing where it would only repeat the tag. */
  function Heading(c: Card): string {
    if c.title == c.tag || (c.tag != "" && c.title == c.tag[1..]) then "" else c.title
  }

  lemma TitleSays(c: Card)
    ensures Says(Title(c), false, Heading(c), false)
  {
    ListTags();
    SaysEscaped(c.title);
    if Title(c) != "" { Wrapped("<h4>", Escape(c.title, true), "</h4>", c.title); }
  }

  lemma BadgeSays(latest: bool)
    ensures Says(Badge(latest), false, if latest then "Latest release" else "", false)
  {
    if latest {
      assert Silent("<span class=\"release-badge\">", false, false) && Silent("</span>", false, false);
      SaysBare("Latest release");
      Wrapped("<span class=\"release-badge\">", "Latest release", "</span>", "Latest release");
    }
  }

  lemma {:induction false} ConcatTwice(a: seq<string>, b: seq<string>)
    ensures Concat(a + b) == Concat(a) + Concat(b)
    decreases |b|
  {
    if b == [] {
      assert a + b == a && Concat(a) + "" == Concat(a);
    } else {
      var n := |b| - 1;
      ConcatTwice(a, b[..n]);
      assert (a + b)[..|a + b| - 1] == a + b[..n];
      Regroup(Concat(a), Concat(b[..n]), b[n]);
    }
  }

  lemma OneMore(s: seq<string>, x: string)
    ensures Concat(s + [x]) == Concat(s) + x
  {
    assert (s + [x])[..|s|] == s;
  }

  lemma ConcatFour(a: string, b: string, c: string, d: string)
    ensures Concat([a, b, c, d]) == a + b + c + d
  {
    OneMore([], a);
    OneMore([a], b);
    OneMore([a, b], c);
    OneMore([a, b, c], d);
    assert [] + [a] == [a] && [a] + [b] == [a, b] && [a, b] + [c] == [a, b, c] && [a, b, c] + [d] == [a, b, c, d];
    Nothing(a);
  }

  lemma ConcatTwelve(
    a: string, b: string, c: string, d: string, e: string, f: string,
    g: string, h: string, i: string, j: string, k: string, l: string)
    ensures Concat([a, b, c, d, e, f, g, h, i, j, k, l]) == (a + b + c + d) + ((e + f + g + h) + (i + j + k + l))
  {
    assert [a, b, c, d, e, f, g, h, i, j, k, l] == [a, b, c, d] + ([e, f, g, h] + [i, j, k, l]);
    ConcatTwice([a, b, c, d], [e, f, g, h] + [i, j, k, l]);
    ConcatTwice([e, f, g, h], [i, j, k, l]);
    ConcatFour(a, b, c, d);
    ConcatFour(e, f, g, h);
    ConcatFour(i, j, k, l);
  }

  lemma MetaTags()
    ensures Silent("<div class=\"release-meta\"><h3><a href=\"", false, true)
    ensures Silent("</a></h3>", false, false) && Silent("<time datetime=\"", false, true) && Silent("\">", true, false)
    ensures Silent("</time>", false, false) && Silent("</div>", false, false)
  {
  }

  lemma DetailTags()
    ensures Silent("<div class=\"release-details\">", false, false)
    ensures Silent("<a class=\"release-link\" href=\"", false, true) && Silent("\">", true, false)
    ensures Silent("</a></div></article>", false, false)
  {
  }

  lemma SaysFour(a: string, ta: string, b: string, tb: string, c: string, tc: string, d: string, td: string,
                 s0: bool, s1: bool, s2: bool, s3: bool, s4: bool)
    requires Says(a, s0, ta, s1) && Says(b, s1, tb, s2) && Says(c, s2, tc, s3) && Says(d, s3, td, s4)
    ensures Says(a + b + c + d, s0, ta + tb + tc + td, s4)
  {
    SaysTogether(a, b, s0, ta, s1, tb, s2);
    SaysTogether(a + b, c, s0, ta + tb, s2, tc, s3);
    SaysTogether(a + b + c, d, s0, ta + tb + tc, s3, td, s4);
  }

  lemma LastOfFour(t: string)
    ensures "" + "" + "" + t == t && t + "" == t
  {
  }

  lemma EmptySays()
    ensures Escape("", true) == ""
  {
  }

  /** `<a href="url">text` */
  lemma LinkSays(a: string, url: string, b: string, text: string)
    requires Silent(a, false, true) && Silent(b, true, false) && Bare(text)
    ensures Says(a + Escape(url, true) + b + text, false, text, false)
  {
    SaysBare(text);
    SaysNothing(a, false, true);
    SaysEscaped(url);
    EmptySays();
    SaysNothing(b, true, false);
    SaysFour(a, "", Escape(url, true), "", b, "", text, text, false, true, true, false, false);
    LastOfFour(text);
  }

  /** `</a><time datetime="day">` */
  lemma StampSays(c: string, d: string, day: string, e: string)
    requires Silent(c, false, false) && Silent(d, false, true) && Bare(day) && Silent(e, true, false)
    ensures Says(c + d + day + e, false, "", false)
  {
    SaysNothing(c, false, false);
    SaysNothing(d, false, true);
    SaysBare(day);
    EmptySays();
    SaysNothing(e, true, false);
    SaysFour(c, "", d, "", day, "", e, "", false, false, true, true, false);
    LastOfFour("");
  }

  /** `text</time>more</div>` */
  lemma EndSays(text: string, f: string, more: string, g: string, moreText: string)
    requires Bare(text) && Silent(f, false, false) && Says(more, false, moreText, false) && Silent(g, false, false)
    ensures Says(text + f + more + g, false, text + moreText, false)
  {
    SaysBare(text);
    SaysNothing(f, false, false);
    SaysNothing(g, false, false);
    SaysFour(text, text, f, "", more, moreText, g, "", false, false, false, false, false);
    LastOfFour(text);
    LastOfFour(text + moreText);
  }

  lemma SaysThree(a: string, ta: string, b: string, tb: string, c: string, tc: string)
    requires Says(a, false, ta, false) && Says(b, false, tb, false) && Says(c, false, tc, false)
    ensures Says(a + (b + c), false, ta + (tb + tc), false)
  {
    SaysTogether(b, c, false, tb, false, tc, false);
    SaysTogether(a, b + c, false, ta, false, tb + tc, false);
  }

  lemma MetaPieces(a: string, url: string, b: string, tag: string, c: string, d: string, day: string, e: string, caption: string,
                   f: string, badge: string, g: string, badgeText: string)
    requires Silent(a, false, true) && Silent(b, true, false) && Silent(c, false, false) && Silent(d, false, true)
    requires Silent(e, true, false) && Silent(f, false, false) && Silent(g, false, false)
    requires Bare(tag) && Bare(day) && Bare(caption) && Says(badge, false, badgeText, false)
    ensures Says(Concat([a, Escape(url, true), b, tag, c, d, day, e, caption, f, badge, g]), false, tag + (caption + badgeText), false)
  {
    LinkSays(a, url, b, tag);
    StampSays(c, d, day, e);
    EndSays(caption, f, badge, g, badgeText);
    ConcatTwelve(a, Escape(url, true), b, tag, c, d, day, e, caption, f, badge, g);
    SaysThree(a + Escape(url, true) + b + tag, tag, c + d + day + e, "", caption + f + badge + g, caption + badgeText);
    Nothing(caption + badgeText);
  }

  predicate Clean(c: Card) {
    Bare(c.tag) && Bare(c.day) && Bare(c.caption)
  }

  lemma MetaSays(c: Card, latest: bool)
    requires Clean(c)
    ensures Says(Meta(c, latest), false, c.tag + (c.caption + if latest then "Latest release" else ""), false)
  {
    MetaTags();
    BadgeSays(latest);
    MetaPieces("<div class=\"release-meta\"><h3><a href=\"", c.url, "\">", c.tag, "</a></h3>", "<time datetime=\"", c.day, "\">",
               c.caption, "</time>", Badge(latest), "</div>", if latest then "Latest release" else "");
  }

  lemma ConcatEight(a: string, b: string, c: string, d: string, e: string, f: string, g: string, h: string)
    ensures Concat([a, b, c, d, e, f, g, h]) == (a + b + c + d) + (e + f + g + h)
  {
    assert [a, b, c, d, e, f, g, h] == [a, b, c, d] + [e, f, g, h];
    ConcatTwice([a, b, c, d], [e, f, g, h]);
    ConcatFour(a, b, c, d);
    ConcatFour(e, f, g, h);
  }

  /** A box with a heading and a list in it, and the beginning of a link. */
  lemma BoxSays(box: string, head: string, headText: string, list: string, listText: string, link: string)
    requires Silent(box, false, false) && Says(head, false, headText, false) && Says(list, false, listText, false)
    requires Silent(link, false, true)
    ensures Says(box + head + list + link, false, headText + listText, true)
  {
    SaysNothing(box, false, false);
    SaysNothing(link, false, true);
    SaysFour(box, "", head, headText, list, listText, link, "", false, false, false, false, true);
    Nothing(headText);
    LastOfFour(headText + listText);
  }

  /** `url">text</a>` */
  lemma LinkEndSays(url: string, b: string, text: string, g: string)
    requires Silent(b, true, false) && Bare(text) && Silent(g, false, false)
    ensures Says(Escape(url, true) + b + text + g, true, text, false)
  {
    SaysBare(text);
    SaysEscaped(url);
    EmptySays();
    SaysNothing(b, true, false);
    SaysNothing(g, false, false);
    SaysFour(Escape(url, true), "", b, "", text, text, g, "", true, true, false, false, false);
    LastOfFour(text);
    Nothing(text);
  }

  lemma DetailPieces(box: string, head: string, headText: string, list: string, listText: string, a: string, url: string,
                     b: string, text: string, g: string)
    requires Silent(box, false, false) && Says(head, false, headText, false) && Says(list, false, listText, false)
    requires Silent(a, false, true) && Silent(b, true, false) && Bare(text) && Silent(g, false, false)
    ensures Says(Concat([box, head, list, a, Escape(url, true), b, text, g]), false, headText + listText + text, false)
  {
    BoxSays(box, head, headText, list, listText, a);
    LinkEndSays(url, b, text, g);
    ConcatEight(box, head, list, a, Escape(url, true), b, text, g);
    SaysTogether(box + head + list + a, Escape(url, true) + b + text + g, false, headText + listText, true, text, false);
  }

  lemma DetailsSay(c: Card)
    ensures Says(Details(c), false, Heading(c) + Together(c.items) + "Full release notes", false)
  {
    DetailTags();
    TitleSays(c);
    ListSays(c.items);
    DetailPieces("<div class=\"release-details\">", Title(c), Heading(c), List(c.items), Together(c.items),
                 "<a class=\"release-link\" href=\"", c.url, "\">", "Full release notes", "</a></div></article>");
  }

  lemma {:induction false} DashedIsBare(tag: string)
    requires Bare(tag)
    ensures Bare(Dashed(tag))
  {
    if tag != "" { DashedIsBare(tag[1..]); }
  }

  lemma ArticleTags()
    ensures Silent("<article class=\"release-entry\" id=\"release-", false, true) && Silent("\">", true, false)
  {
  }

  lemma FrameSays(a: string, id: string, b: string, meta: string, metaText: string, details: string, detailsText: string)
    requires Silent(a, false, true) && Bare(id) && Silent(b, true, false)
    requires Says(meta, false, metaText, false) && Says(details, false, detailsText, false)
    ensures Says(Concat([a, id, b, meta, details]), false, metaText + detailsText, false)
  {
    SaysNothing(a, false, true);
    SaysBare(id);
    EmptySays();
    SaysNothing(b, true, false);
    SaysFour(a, "", id, "", b, "", meta, metaText, false, true, true, false, false);
    LastOfFour(metaText);
    SaysTogether(a + id + b + meta, details, false, metaText, false, detailsText, false);
    ConcatFour(a, id, b, meta);
    OneMore([a, id, b, meta], details);
    assert [a, id, b, meta] + [details] == [a, id, b, meta, details];
  }

  /** An entry of the history says its tag, its date, whether it is the latest, its heading, all its items, and no more. */
  lemma ArticleSays(c: Card, latest: bool)
    requires Clean(c)
    ensures Seen(Article(c, latest)) ==
            c.tag + (c.caption + if latest then "Latest release" else "") + (Heading(c) + Together(c.items) + "Full release notes")
  {
    ArticleTags();
    DashedIsBare(c.tag);
    MetaSays(c, latest);
    DetailsSay(c);
    var metaText := c.tag + (c.caption + if latest then "Latest release" else "");
    var detailsText := Heading(c) + Together(c.items) + "Full release notes";
    FrameSays("<article class=\"release-entry\" id=\"release-", Dashed(c.tag), "\">", Meta(c, latest), metaText, Details(c), detailsText);
    SaidIsSeen(Article(c, latest), metaText + detailsText, false);
  }

  lemma SummaryTags()
    ensures Silent("<div class=\"release-summary\">", false, false) && Silent("<p class=\"release-summary-meta\">", false, false)
    ensures Silent("<time datetime=\"", false, true) && Silent("\">", true, false)
    ensures Silent("</time></p>", false, false) && Silent("</a></div>", false, false)
  {
  }

  lemma SummaryLinkTags()
    ensures Silent("<a href=\"releases.html#release-", false, true) && Silent("\">", true, false) && Silent("</a>", false, false)
  {
  }

  lemma MoreTags()
    ensures Silent("<a class=\"release-link\" ", false, true) && Silent("href=\"releases.html\">", true, false)
  {
  }

  lemma SilentTogether(a: string, b: string)
    requires Silent(a, false, true) && Silent(b, true, false)
    ensures Silent(a + b, false, false)
  {
  }

  lemma ConcatSix(a: string, b: string, c: string, d: string, e: string, f: string)
    ensures Concat([a, b, c, d, e, f]) == a + b + c + d + e + f
  {
    ConcatFour(a, b, c, d);
    OneMore([a, b, c, d], e);
    OneMore([a, b, c, d, e], f);
    assert [a, b, c, d] + [e] == [a, b, c, d, e] && [a, b, c, d, e] + [f] == [a, b, c, d, e, f];
  }

  /** `<a href="#id">text tag</a>` */
  lemma LinkPieces(a: string, id: string, b: string, text: string, tag: string, g: string)
    requires Silent(a, false, true) && Silent(b, true, false) && Bare(text) && Silent(g, false, false)
    ensures Says(Concat([a, Escape(id, true), b, text, Escape(tag, true), g]), false, text + tag, false)
  {
    LinkSays(a, id, b, text);
    SaysEscaped(tag);
    SaysNothing(g, false, false);
    var front := a + Escape(id, true) + b + text;
    SaysTogether(front, Escape(tag, true), false, text, false, tag, false);
    SaysTogether(front + Escape(tag, true), g, false, text + tag, false, "", false);
    LastOfFour(text + tag);
    ConcatSix(a, Escape(id, true), b, text, Escape(tag, true), g);
  }

  lemma SummaryLinkSays(c: Card)
    ensures Says(SummaryLink(c), false, "Latest release: " + c.tag, false)
  {
    SummaryLinkTags();
    LinkPieces("<a href=\"releases.html#release-", Dashed(c.tag), "\">", "Latest release: ", c.tag, "</a>");
  }

  lemma BoxPieces(div: string, p: string, link: string, linkText: string, gap: string, time: string, day: string, e: string,
                  caption: string, f: string, list: string, listText: string, more: string, end: string, endText: string)
    requires Silent(div, false, false) && Silent(p, false, false) && Says(link, false, linkText, false) && Bare(gap)
    requires Silent(time, false, true) && Bare(day) && Silent(e, true, false) && Bare(caption)
    requires Silent(f, false, false) && Says(list, false, listText, false) && Silent(more, false, false)
    requires Bare(endText) && Silent(end, false, false)
    ensures Says(Concat([div, p, link, gap, time, day, e, caption, f, list, more, endText + end]), false,
                 (linkText + gap) + (caption + (listText + endText)), false)
  {
    SaysNothing(div, false, false);
    SaysNothing(p, false, false);
    SaysBare(gap);
    SaysBare(endText);
    SaysNothing(end, false, false);
    SaysTogether(endText, end, false, endText, false, "", false);
    LastOfFour(endText);
    SaysFour(div, "", p, "", link, linkText, gap, gap, false, false, false, false, false);
    Nothing(linkText);
    LinkOfDay(time, day, e, caption);
    SaysNothing(f, false, false);
    SaysNothing(more, false, false);
    SaysFour(f, "", list, listText, more, "", endText + end, endText, false, false, false, false, false);
    Nothing(listText);
    LastOfFour(listText);
    ConcatTwelve(div, p, link, gap, time, day, e, caption, f, list, more, endText + end);
    SaysThree(div + p + link + gap, linkText + gap, time + day + e + caption, caption, f + list + more + (endText + end), listText + endText);
  }

  /** `<time datetime="day">caption` */
  lemma LinkOfDay(time: string, day: string, e: string, caption: string)
    requires Silent(time, false, true) && Bare(day) && Silent(e, true, false) && Bare(caption)
    ensures Says(time + day + e + caption, false, caption, false)
  {
    SaysNothing(time, false, true);
    SaysBare(day);
    EmptySays();
    SaysNothing(e, true, false);
    SaysBare(caption);
    SaysFour(time, "", day, "", e, "", caption, caption, false, true, true, false, false);
    LastOfFour(caption);
  }

  lemma SummaryBoxSays(c: Card)
    requires Clean(c)
    ensures Says(SummaryBox(c), false,
                 ("Latest release: " + c.tag + " ") + (c.caption + (Together(FirstTwo(c.items)) + "All release notes")), false)
  {
    SummaryTags();
    MoreTags();
    SilentTogether("<a class=\"release-link\" ", "href=\"releases.html\">");
    SummaryLinkSays(c);
    ListSays(FirstTwo(c.items));
    BoxPieces("<div class=\"release-summary\">", "<p class=\"release-summary-meta\">", SummaryLink(c), "Latest release: " + c.tag, " ",
              "<time datetime=\"", c.day, "\">", c.caption, "</time></p>", List(FirstTwo(c.items)), Together(FirstTwo(c.items)),
              "<a class=\"release-link\" " + "href=\"releases.html\">", "</a></div>", "All release notes");
  }

  lemma BreaksSay(box: string, text: string)
    requires Says(box, false, text, false)
    ensures Says("\n" + box + "\n", false, "\n" + text + "\n", false)
  {
    SaysBare("\n");
    SaysTogether("\n", box, false, "\n", false, text, false);
    SaysTogether("\n" + box, "\n", false, "\n" + text, false, "\n", false);
  }

  /** The summary says the tag and the date of the latest release and its first two items, and no more. */
  lemma SummarySays(c: Card)
    requires Clean(c)
    ensures Seen(Summary(c)) ==
            "\n" + (("Latest release: " + c.tag + " ")
                    + (c.caption + (Together(if |c.items| < 2 then c.items else [c.items[0], c.items[1]]) + "All release notes"))) + "\n"
  {
    SummaryBoxSays(c);
    assert FirstTwo(c.items) == if |c.items| < 2 then c.items else [c.items[0], c.items[1]];
    var text := ("Latest release: " + c.tag + " ") + (c.caption + (Together(FirstTwo(c.items)) + "All release notes"));
    BreaksSay(SummaryBox(c), text);
    SaidIsSeen(Summary(c), "\n" + text + "\n", false);
  }

  // ------------------------------------------------------------------ //
  // Dates and tags
  // ------------------------------------------------------------------ //

  lemma {:induction false} LeadingZero(g: string)
    requires Digits(g)
    ensures Digits("0" + g) && Value("0" + g) == Value(g)
    decreases |g|
  {
    var f := "0" + g;
    if g == "" {
      assert f[..0] == "";
    } else {
      assert f[..|f| - 1] == "0" + g[..|g| - 1];
      LeadingZero(g[..|g| - 1]);
    }
  }

  /** Digits are their value, padded to their length. */
  lemma {:induction false} PaddedValue(f: string)
    requires Digits(f) && f != ""
    ensures Padded(Value(f), |f|) == f
    decreases |f|
  {
    if f[0] != '0' || |f| == 1 {
      NumeralOfValue(f);
      assert "" + f == f;
    } else {
      var g := f[1..];
      assert f == "0" + g;
      LeadingZero(g);
      PaddedValue(g);
      var n := Numeral(Value(g));
      assert |Zeros(|g| - |n|)| >= 0;
      ZerosAreAsMany(|g| - |n|);
      Regroup("0", Zeros(|g| - |n|), n);
    }
  }

  lemma {:induction false} ZerosAreAsMany(n: int)
    ensures |Zeros(n)| == if n <= 0 then 0 else n
    decreases n
  {
    if n > 0 { ZerosAreAsMany(n - 1); }
  }

  lemma DateFields(s: string)
    requires Shaped(s)
    ensures s[..10] == s[0..4] + "-" + s[5..7] + "-" + s[8..10] && Bare(s[..10])
  {
    assert s[..10] == s[0..4] + [s[4]] + s[5..7] + [s[7]] + s[8..10];
    assert forall k :: 0 <= k < 10 ==> s[..10][k] == '-' || Digit(s[..10][k]);
  }

  /** The day written in an entry is the day of publication, as the listing has it. */
  lemma DayIsPublished(r: Release)
    requires Dated(r)
    ensures Day(r.date) == r.published[..10]
  {
    var s := r.published;
    PaddedValue(s[0..4]);
    PaddedValue(s[5..7]);
    PaddedValue(s[8..10]);
    DateFields(s);
  }

  lemma CaptionIs(date: Instant)
    requires 1 <= date.month <= 12
    ensures Label(date) ==
            ["Jan", "Feb", "Mar", "Apr", "May", "Jun", "Jul", "Aug", "Sep", "Oct", "Nov", "Dec"][date.month - 1]
            + " " + Numeral(date.day) + ", " + Numeral(date.year)
  {
  }

  lemma BareTogether(a: string, b: string)
    requires Bare(a) && Bare(b)
    ensures Bare(a + b)
  {
  }

  lemma NumeralIsBare(n: nat)
    ensures Bare(Numeral(n))
  {
    assert Digits(Numeral(n));
  }

  lemma CaptionIsBare(date: Instant)
    ensures Bare(Label(date))
  {
    NumeralIsBare(date.day);
    NumeralIsBare(date.year);
    var m := MonthName(date.month);
    assert Bare(m);
    BareTogether(m, " ");
    BareTogether(m + " ", Numeral(date.day));
    BareTogether(m + " " + Numeral(date.day), ", ");
    BareTogether(m + " " + Numeral(date.day) + ", ", Numeral(date.year));
  }

  lemma TagIsBare(tag: string)
    requires StableTag(tag)
    ensures Bare(tag)
  {
    TripleOfTag(tag);
    var t := TripleOf(tag);
    NumeralIsBare(t.major);
    NumeralIsBare(t.minor);
    NumeralIsBare(t.patch);
  }

  lemma CleanWith(r: Release, how: Highlights.Text, items: seq<string>)
    requires Bare(r.tag) && Bare(Day(r.date)) && Bare(Label(r.date))
    ensures Clean(CardWith(r, how, items))
  {
  }

  lemma CardIsClean(r: Release, how: Highlights.Text)
    requires StableTag(r.tag) && Dated(r)
    ensures Clean(CardOf(r, how))
  {
    TagIsBare(r.tag);
    DayIsPublished(r);
    DateFields(r.published);
    CaptionIsBare(r.date);
    CleanWith(r, how, Highlights.HighlightsOf(SplitLines(r.body), how));
  }

  /** What is read of a release: its own fields, its day and its caption. */
  lemma CardIs(r: Release, how: Highlights.Text)
    requires Dated(r)
    ensures var c := CardOf(r, how);
            && c.tag == r.tag && c.url == r.url && c.day == r.published[..10] && c.caption == Label(r.date)
            && c.title == how.plain(r.name) && c.items == Highlights.HighlightsOf(SplitLines(r.body), how)
  {
    DayIsPublished(r);
  }

  /** In the name of an entry the dots of its tag are dashes. */
  lemma {:induction false} DashedIs(tag: string)
    ensures Dashed(tag) == JoinWith(SplitOn(tag, '.'), '-')
    decreases |tag|
  {
    if tag != "" {
      DashedIs(tag[1..]);
      var rest := SplitOn(tag[1..], '.');
      if tag[0] == '.' {
        assert ([""] + rest)[1..] == rest;
        assert "" + ['-'] + JoinWith(rest, '-') == ['-'] + JoinWith(rest, '-');
      } else {
        JoinFront([tag[0]], rest, '-');
      }
    }
  }

  // ------------------------------------------------------------------ //
  // Lines
  // ------------------------------------------------------------------ //

  /** The characters at which a text is broken into lines. */
  const BREAKS := {
    '\n', '\U{0B}', '\U{0C}', '\r', '\U{1C}', '\U{1D}', '\U{1E}', '\U{85}', '\U{2028}', '\U{2029}'}

  lemma LineBreakIff(c: char)
    ensures LineBreak(c) <==> c in BREAKS
  {
  }

  lemma {:induction false} FirstBreakIs(line: string, x: string)
    requires (forall c :: c in line ==> !LineBreak(c)) && (x != "" ==> LineBreak(x[0]))
    ensures FirstBreak(line + x) == |line|
    decreases |line|
  {
    if line == "" {
      Nothing(x);
    } else {
      assert line[0] in line;
      assert (line + x)[0] == line[0] && (line + x)[1..] == line[1..] + x;
      FirstBreakIs(line[1..], x);
    }
  }

  /** A line ends at any of them, and at a carriage return together with the line feed after it. */
  lemma LinesOf(line: string, end: string, rest: string)
    requires forall c :: c in line ==> c !in BREAKS
    requires end == "\r\n" || (|end| == 1 && end[0] in BREAKS && !(end == "\r" && rest != "" && rest[0] == '\n'))
    ensures SplitLines(line + end + rest) == [line] + SplitLines(rest)
    ensures SplitLines(line) == if line == "" then [] else [line]
  {
    forall c ensures LineBreak(c) <==> c in BREAKS { LineBreakIff(c); }
    FirstBreakIs(line, end + rest);
    FirstBreakIs(line, "");
    Regroup(line, end, rest);
    assert line + "" == line;
    var s := line + end + rest;
    assert s[..|line|] == line && s[|line|..] == end + rest;
    assert s[|line| + |end|..] == rest;
    if end == "\r\n" {
      assert "\r\n" <= s[|line|..];
    } else {
      assert (end + rest)[0] == end[0] && (rest != "" ==> (end + rest)[1] == rest[0]);
    }
  }
}
