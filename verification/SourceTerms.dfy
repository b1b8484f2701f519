/**
 What the call and tag scanners read, as a grammar: plain characters, quoted text
 with its escapes, and bracketed groups.

 A text leaves the scanner where it was, without ever closing more than it opened,
 exactly when it is written in this grammar; so the bracket after a call's opening
 one that is taken for its end is the right one exactly there.
 */
module SourceTerms {
  import opened Options
  import opened CallScanner
  import Highlights

  datatype Terms =
    | End
    | Plain(c: char, rest: Terms)
    | Quoted(q: char, body: string, rest: Terms)
    | Group(open: char, inside: Terms, close: char, rest: Terms)

  function Openers(kind: Kind): string {
    if kind.Calls? then "([{" else "{"
  }

  function Closers(kind: Kind): string {
    if kind.Calls? then ")]}" else "}"
  }

  /** Neither a quote nor a bracket. */
  predicate Mark(kind: Kind, c: char) {
    c !in "\"'`" && c !in Openers(kind) && c !in Closers(kind)
  }

  /** No quote of this kind but after a backslash, which takes any character with it. */
  predicate Inner(q: char, body: string) {
    body == ""
    || (body[0] == '\\' && |body| >= 2 && Inner(q, body[2..]))
    || (body[0] != '\\' && body[0] != q && Inner(q, body[1..]))
  }

  /** Any closing bracket closes any opening one. */
  predicate Proper(kind: Kind, t: Terms) {
    match t
    case End => true
    case Plain(c, rest) => Mark(kind, c) && Proper(kind, rest)
    case Quoted(q, body, rest) => q in "\"'`" && Inner(q, body) && Proper(kind, rest)
    case Group(open, inside, close, rest) =>
      open in Openers(kind) && close in Closers(kind) && Proper(kind, inside) && Proper(kind, rest)
  }

  function Source(t: Terms): string {
    match t
    case End => ""
    case Plain(c, rest) => [c] + Source(rest)
    case Quoted(q, body, rest) => [q] + (body + ([q] + Source(rest)))
    case Group(open, inside, close, rest) => [open] + (Source(inside) + ([close] + Source(rest)))
  }

  /** `c` does not stand outside all quotes and groups. */
  predicate NowhereOnTop(c: char, t: Terms) {
    match t
    case End => true
    case Plain(d, rest) => c != d && NowhereOnTop(c, rest)
    case Quoted(_, _, rest) => NowhereOnTop(c, rest)
    case Group(_, _, _, rest) => NowhereOnTop(c, rest)
  }

  function Open(d: int): State {
    State(d, None, false)
  }

  // ------------------------------------------------------------------ //
  // What is written so leaves the scanner where it was
  // ------------------------------------------------------------------ //

  lemma First(c: char, x: string)
    ensures ([c] + x)[0] == c && ([c] + x)[1..] == x
  {
  }

  /** From two states with nothing in between that falls below the floor, the scanner ends in the same one. */
  ghost predicate Same(kind: Kind, s: State, text: string, floor: int, s': State, text': string) {
    Run(kind, s, text) == Run(kind, s', text') && (Above(kind, s, text, floor) <==> Above(kind, s', text', floor))
  }

  lemma SameAfterOne(kind: Kind, s: State, c: char, x: string, floor: int)
    requires floor <= s.depth
    ensures Same(kind, s, [c] + x, floor, Step(kind, s, c), x)
  {
    First(c, x);
  }

  lemma {:induction false} SameAfterInner(kind: Kind, d: int, q: char, body: string, x: string, floor: int)
    requires Inner(q, body) && q != '\\' && floor <= d
    ensures Same(kind, State(d, Some(q), false), body + ([q] + x), floor, Open(d), x)
    decreases |body|
  {
    var s, all := State(d, Some(q), false), body + ([q] + x);
    if body == "" {
      assert all == [q] + x;
      SameAfterOne(kind, s, q, x, floor);
    } else if body[0] == '\\' {
      var tail := body[2..] + ([q] + x);
      SameAfterInner(kind, d, q, body[2..], x, floor);
      assert all == [body[0]] + ([body[1]] + tail);
      SameAfterOne(kind, s, body[0], [body[1]] + tail, floor);
      SameAfterOne(kind, s.(escaped := true), body[1], tail, floor);
    } else {
      SameAfterInner(kind, d, q, body[1..], x, floor);
      assert all == [body[0]] + (body[1..] + ([q] + x));
      SameAfterOne(kind, s, body[0], body[1..] + ([q] + x), floor);
    }
  }

  lemma Four<T>(a: seq<T>, b: seq<T>, c: seq<T>, d: seq<T>, x: seq<T>)
    ensures (a + (b + (c + d))) + x == a + (b + (c + (d + x)))
    ensures (a + d) + x == a + (d + x)
  {
  }

  lemma AfterQuoted(kind: Kind, d: int, q: char, body: string, y: string, floor: int)
    requires q in "\"'`" && Inner(q, body) && floor <= d
    ensures Same(kind, Open(d), [q] + (body + ([q] + y)), floor, Open(d), y)
  {
    SameAfterOne(kind, Open(d), q, body + ([q] + y), floor);
    SameAfterInner(kind, d, q, body, y, floor);
  }

  lemma AfterOpener(kind: Kind, d: int, c: char, y: string, floor: int)
    requires c in Openers(kind) && floor <= d
    ensures Same(kind, Open(d), [c] + y, floor, Open(d + 1), y)
  {
    SameAfterOne(kind, Open(d), c, y, floor);
  }

  lemma AfterCloser(kind: Kind, d: int, c: char, y: string, floor: int)
    requires c in Closers(kind) && floor <= d
    ensures Same(kind, Open(d), [c] + y, floor, Open(d - 1), y)
  {
    SameAfterOne(kind, Open(d), c, y, floor);
  }

  lemma AfterPlain(kind: Kind, d: int, c: char, y: string, floor: int)
    requires Mark(kind, c) && floor <= d
    ensures Same(kind, Open(d), [c] + y, floor, Open(d), y)
  {
    SameAfterOne(kind, Open(d), c, y, floor);
  }

  /** What is written in the grammar leaves the scanner where it was. */
  lemma {:induction false} SameAfterTerms(kind: Kind, d: int, t: Terms, x: string, floor: int)
    requires Proper(kind, t) && floor <= d
    ensures Same(kind, Open(d), Source(t) + x, floor, Open(d), x)
    decreases t
  {
    match t
    case End =>
      assert "" + x == x;
    case Plain(c, rest) =>
      Four([c], "", "", Source(rest), x);
      SameAfterTerms(kind, d, rest, x, floor);
      AfterPlain(kind, d, c, Source(rest) + x, floor);
    case Quoted(q, body, rest) =>
      Four([q], body, [q], Source(rest), x);
      SameAfterTerms(kind, d, rest, x, floor);
      AfterQuoted(kind, d, q, body, Source(rest) + x, floor);
    case Group(open, inside, close, rest) =>
      Four([open], Source(inside), [close], Source(rest), x);
      SameAfterTerms(kind, d, rest, x, floor);
      SameAfterTerms(kind, d + 1, inside, [close] + (Source(rest) + x), floor);
      AfterCloser(kind, d + 1, close, Source(rest) + x, floor);
      AfterOpener(kind, d, open, Source(inside) + ([close] + (Source(rest) + x)), floor);
  }

  // ------------------------------------------------------------------ //
  // What leaves the scanner where it was is written so
  // ------------------------------------------------------------------ //

  /** Text in which a quote is closed again, up to there. */
  lemma {:induction false} Unquote(kind: Kind, d: int, q: char, text: string) returns (body: string, rest: string)
    requires q != '\\' && Run(kind, State(d, Some(q), false), text).quote.None?
    ensures Inner(q, body) && text == body + ([q] + rest)
    decreases |text|
  {
    if text[0] == q {
      body, rest := "", text[1..];
    } else if text[0] == '\\' {
      body, rest := Unquote(kind, d, q, text[2..]);
      body := text[..2] + body;
    } else {
      body, rest := Unquote(kind, d, q, text[1..]);
      body := [text[0]] + body;
    }
  }

  /** As much of a text as can be read, up to a bracket that closes more than was opened. */
  lemma {:induction false} Parse(kind: Kind, d: int, text: string) returns (t: Terms, rest: string)
    requires var e := Run(kind, Open(d), text); e.quote.None? && e.depth <= d
    ensures Proper(kind, t) && text == Source(t) + rest && (rest != "" ==> rest[0] in Closers(kind))
    decreases |text|
  {
    if text == "" || text[0] in Closers(kind) {
      t, rest := End, text;
      return;
    }
    var c, x := text[0], text[1..];
    assert text == [c] + x;
    if c in "\"'`" {
      SameAfterOne(kind, Open(d), c, x, d);
      var body, y := Unquote(kind, d, c, x);
      AfterQuoted(kind, d, c, body, y, d);
      t, rest := Parse(kind, d, y);
      Four([c], body, [c], Source(t), rest);
      t := Quoted(c, body, t);
    } else if c in Openers(kind) {
      AfterOpener(kind, d, c, x, d);
      var inside, y := Parse(kind, d + 1, x);
      SameAfterTerms(kind, d + 1, inside, y, d);
      assert y != "" && y == [y[0]] + y[1..];
      AfterCloser(kind, d + 1, y[0], y[1..], d);
      t, rest := Parse(kind, d, y[1..]);
      Four([c], Source(inside), [y[0]], Source(t), rest);
      t := Group(c, inside, y[0], t);
    } else {
      AfterPlain(kind, d, c, x, d);
      t, rest := Parse(kind, d, x);
      Four([c], "", "", Source(t), rest);
      t := Plain(c, t);
    }
  }

  /** The scanner ends where it began, never having closed more than was opened, exactly after such text. */
  lemma BalancedIff(kind: Kind, text: string)
    ensures Run(kind, START, text) == START && Above(kind, START, text, 0)
            <==> exists t :: Proper(kind, t) && text == Source(t)
  {
    if Run(kind, START, text) == START && Above(kind, START, text, 0) {
      var t, rest := Parse(kind, 0, text);
      SameAfterTerms(kind, 0, t, rest, 0);
      if rest != "" {
        assert rest == [rest[0]] + rest[1..];
        AfterCloser(kind, 0, rest[0], rest[1..], 0);
      }
      assert text == Source(t);
    }
    forall t | Proper(kind, t) && text == Source(t)
      ensures Run(kind, START, text) == START && Above(kind, START, text, 0)
    {
      SameAfterTerms(kind, 0, t, "", 0);
      assert Source(t) + "" == Source(t);
    }
  }

  lemma {:induction false} ClosesThere(s: State, a: string, b: string)
    requires (s.quote.None? ==> !s.escaped) && s.depth >= 1 && b != "" && CloseAt(s, a + b) == |a|
    ensures Run(Calls, s, a) == Open(1) && Above(Calls, s, a, 1)
    decreases |a|
  {
    if a == "" {
      assert a + b == b;
    } else {
      assert (a + b)[0] == a[0] && (a + b)[1..] == a[1..] + b;
      ClosesThere(Step(Calls, s, a[0]), a[1..], b);
    }
  }

  lemma {:induction false} OneUp(s: State, text: string)
    ensures Above(Calls, s.(depth := s.depth + 1), text, 1) ==> Above(Calls, s, text, 0)
    decreases |text|
  {
    if text != "" { OneUp(Step(Calls, s, text[0]), text[1..]); }
  }

  lemma ClosesWhenBalanced(body: string, tail: string)
    requires tail != "" && tail[0] == ')'
    ensures CloseAt(Open(1), body + tail) == |body| <==> Run(Calls, START, body) == START && Above(Calls, START, body, 0)
  {
    OneDeeper(START, body);
    OneUp(START, body);
    if CloseAt(Open(1), body + tail) == |body| { ClosesThere(Open(1), body, tail); }
    if Above(Calls, Open(1), body, 1) { CloseSkips(Open(1), body, tail); }
  }

  lemma CallOpens(x: string)
    ensures CloseAt(START, "(" + x) == Further(CloseAt(Open(1), x), 1)
  {
    First('(', x);
  }

  /** The bracket put behind a text is the one that ends its call exactly when the text is written in the grammar. */
  lemma CallClosesIff(body: string, post: string)
    ensures CloseAt(START, "(" + (body + (")" + post))) == |body| + 1 <==> exists t :: Proper(Calls, t) && body == Source(t)
  {
    CallOpens(body + (")" + post));
    ClosesWhenBalanced(body, ")" + post);
    BalancedIff(Calls, body);
  }

  // ------------------------------------------------------------------ //
  // Commas between arguments and the end of a tag
  // ------------------------------------------------------------------ //

  lemma ClearFirst(kind: Kind, mark: char, s: State, c: char, x: string)
    ensures Clear(kind, mark, s, [c] + x)
            <==> !(s.quote.None? && s.depth == 0 && c == mark) && Clear(kind, mark, Step(kind, s, c), x)
  {
    First(c, x);
  }

  lemma ClearEscape(kind: Kind, mark: char, d: int, q: char, c: char, x: string)
    ensures Clear(kind, mark, State(d, Some(q), false), ['\\'] + ([c] + x)) <==> Clear(kind, mark, State(d, Some(q), false), x)
  {
    ClearFirst(kind, mark, State(d, Some(q), false), '\\', [c] + x);
    ClearFirst(kind, mark, State(d, Some(q), true), c, x);
  }

  lemma ClearLetter(kind: Kind, mark: char, d: int, q: char, c: char, x: string)
    requires c != '\\'
    ensures Clear(kind, mark, State(d, Some(q), false), [c] + x)
            <==> Clear(kind, mark, State(d, if c == q then None else Some(q), false), x)
  {
    ClearFirst(kind, mark, State(d, Some(q), false), c, x);
  }

  lemma {:induction false} ClearInner(kind: Kind, mark: char, d: int, q: char, body: string, x: string)
    requires Inner(q, body) && q != '\\'
    ensures Clear(kind, mark, State(d, Some(q), false), body + ([q] + x)) <==> Clear(kind, mark, Open(d), x)
    decreases |body|
  {
    if body == "" {
      assert body + ([q] + x) == [q] + x;
      ClearLetter(kind, mark, d, q, q, x);
    } else if body[0] == '\\' {
      ClearInner(kind, mark, d, q, body[2..], x);
      Four([body[0]], "", [body[1]], body[2..], [q] + x);
      assert body == [body[0]] + ("" + ([body[1]] + body[2..]));
      assert "" + ([body[1]] + (body[2..] + ([q] + x))) == [body[1]] + (body[2..] + ([q] + x));
      ClearEscape(kind, mark, d, q, body[1], body[2..] + ([q] + x));
    } else {
      ClearInner(kind, mark, d, q, body[1..], x);
      Four([body[0]], "", "", body[1..], [q] + x);
      assert body == [body[0]] + body[1..];
      ClearLetter(kind, mark, d, q, body[0], body[1..] + ([q] + x));
    }
  }

  lemma ClearQuoted(kind: Kind, mark: char, d: int, q: char, body: string, y: string)
    requires Mark(kind, mark) && q in "\"'`" && Inner(q, body)
    ensures Clear(kind, mark, Open(d), [q] + (body + ([q] + y))) <==> Clear(kind, mark, Open(d), y)
  {
    ClearFirst(kind, mark, Open(d), q, body + ([q] + y));
    ClearInner(kind, mark, d, q, body, y);
  }

  lemma ClearOpener(kind: Kind, mark: char, d: int, c: char, y: string)
    requires Mark(kind, mark) && c in Openers(kind)
    ensures Clear(kind, mark, Open(d), [c] + y) <==> Clear(kind, mark, Open(d + 1), y)
  {
    ClearFirst(kind, mark, Open(d), c, y);
  }

  lemma ClearCloser(kind: Kind, mark: char, d: int, c: char, y: string)
    requires Mark(kind, mark) && c in Closers(kind)
    ensures Clear(kind, mark, Open(d), [c] + y) <==> Clear(kind, mark, Open(d - 1), y)
  {
    ClearFirst(kind, mark, Open(d), c, y);
  }

  lemma ClearPlain(kind: Kind, mark: char, d: int, c: char, y: string)
    requires Mark(kind, c)
    ensures Clear(kind, mark, Open(d), [c] + y) <==> !(d == 0 && c == mark) && Clear(kind, mark, Open(d), y)
  {
    ClearFirst(kind, mark, Open(d), c, y);
  }

  lemma ClearGroup(kind: Kind, mark: char, d: int, open: char, inside: string, close: char, y: string)
    requires Mark(kind, mark) && open in Openers(kind) && close in Closers(kind)
    requires Clear(kind, mark, Open(d + 1), inside + ([close] + y)) <==> Clear(kind, mark, Open(d + 1), [close] + y)
    ensures Clear(kind, mark, Open(d), [open] + (inside + ([close] + y))) <==> Clear(kind, mark, Open(d), y)
  {
    ClearCloser(kind, mark, d + 1, close, y);
    ClearOpener(kind, mark, d, open, inside + ([close] + y));
  }

  lemma {:induction false} ClearTerms(kind: Kind, mark: char, d: int, t: Terms, x: string)
    requires Proper(kind, t) && d >= 0 && Mark(kind, mark)
    ensures Clear(kind, mark, Open(d), Source(t) + x) <==> (d == 0 ==> NowhereOnTop(mark, t)) && Clear(kind, mark, Open(d), x)
    decreases t
  {
    match t
    case End =>
      assert "" + x == x;
    case Plain(c, rest) =>
      Four([c], "", "", Source(rest), x);
      ClearTerms(kind, mark, d, rest, x);
      ClearPlain(kind, mark, d, c, Source(rest) + x);
    case Quoted(q, body, rest) =>
      Four([q], body, [q], Source(rest), x);
      ClearTerms(kind, mark, d, rest, x);
      ClearQuoted(kind, mark, d, q, body, Source(rest) + x);
    case Group(open, inside, close, rest) =>
      Four([open], Source(inside), [close], Source(rest), x);
      ClearTerms(kind, mark, d, rest, x);
      ClearTerms(kind, mark, d + 1, inside, [close] + (Source(rest) + x));
      ClearGroup(kind, mark, d, open, Source(inside), close, Source(rest) + x);
  }

  /** An argument is text of the grammar, stripped and not blank, with no comma outside quotes and groups. */
  lemma ArgumentIff(a: string)
    ensures Argument(a) <==> Highlights.Trim(a) == a && a != ""
                             && exists t :: Proper(Calls, t) && a == Source(t) && NowhereOnTop(',', t)
  {
    BalancedIff(Calls, a);
    forall t | Proper(Calls, t) && a == Source(t) ensures Uncut(START, a) <==> NowhereOnTop(',', t) {
      ClearTerms(Calls, ',', 0, t, "");
      assert Source(t) + "" == a;
    }
  }

  lemma {:induction false} EndsSooner(s: State, a: string, b: string)
    requires !Unbounded(s, a)
    ensures 0 <= TagEnd(s, a + b) < |a|
    decreases |a|
  {
    assert (a + b)[0] == a[0] && (a + b)[1..] == a[1..] + b;
    if !Bounds(s, a[0]) { EndsSooner(Step(Tags, s, a[0]), a[1..], b); }
  }

  /** Attributes written in the grammar end at the mark put behind them exactly when none stands outside quotes and braces. */
  lemma TagEndsIff(t: Terms, post: string)
    requires Proper(Tags, t)
    ensures TagEnd(START, Source(t) + (">" + post)) == |Source(t)| <==> NowhereOnTop('>', t)
  {
    var a := Source(t);
    SameAfterTerms(Tags, 0, t, "", 0);
    ClearTerms(Tags, '>', 0, t, "");
    assert a + "" == a;
    if Unbounded(START, a) {
      TagSkips(START, a, ">" + post);
    } else {
      EndsSooner(START, a, ">" + post);
    }
  }
}
