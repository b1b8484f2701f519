/**
 The bracket and quote scanners that read calls out of source text: an automaton
 over characters, the loops that run it, and the round trip from arguments to a
 call and back.
 */
module CallScanner {
  import opened Options
  import opened Sequences
  import opened Strings
  import Highlights

  /** Which brackets nest: all three kinds in calls, braces only in tags. */
  datatype Kind = Calls | Tags

  predicate Opener(kind: Kind, c: char) {
    c == '{' || (kind.Calls? && (c == '(' || c == '['))
  }

  predicate Closer(kind: Kind, c: char) {
    c == '}' || (kind.Calls? && (c == ')' || c == ']'))
  }

  predicate Quote(c: char) {
    c == '"' || c == '\'' || c == '`'
  }

  /** Nesting, the quote that is open, and whether its last character was a backslash. */
  datatype State = State(depth: int, quote: Option<char>, escaped: bool)

  const START := State(0, None, false)

  function Step(kind: Kind, s: State, c: char): State {
    if s.quote.Some? then
      if s.escaped then s.(escaped := false)
      else if c == '\\' then s.(escaped := true)
      else if c == s.quote.value then s.(quote := None)
      else s
    else if Quote(c) then State(s.depth, Some(c), false)
    else if Opener(kind, c) then s.(depth := s.depth + 1)
    else if Closer(kind, c) then s.(depth := s.depth - 1)
    else s
  }

  function Run(kind: Kind, s: State, text: string): State
    decreases |text|
  {
    if text == "" then s else Run(kind, Step(kind, s, text[0]), text[1..])
  }

  // ------------------------------------------------------------------ //
  // The argument list of a call
  // ------------------------------------------------------------------ //

  /** How far on the bracket is that closes the first level, or -1. */
  function CloseAt(s: State, text: string): (k: int)
    ensures -1 <= k < |text|
    decreases |text|
  {
    if text == "" then -1
    else if s.quote.None? && Closer(Calls, text[0]) && s.depth == 1 then 0
    else
      var k := CloseAt(Step(Calls, s, text[0]), text[1..]);
      if k < 0 then -1 else k + 1
  }

  lemma {:induction false} CloseIsAfterStart(s: State, text: string)
    requires s.depth != 1
    ensures CloseAt(s, text) != 0
  {
  }

  method ArgumentList(text: string, open: nat) returns (r: Option<string>)
    requires open <= |text|
    ensures var k := CloseAt(START, text[open..]);
            r == if k < 0 then None else Some(text[open + 1..open + k])
  {
    var depth, index, quote := 0, open, Option<char>.None;
    ghost var goal := CloseAt(START, text[open..]);
    CloseIsAfterStart(START, text[open..]);
    while index < |text|
      invariant open <= index
      invariant index <= |text| ==> goal == Further(CloseAt(State(depth, quote, false), text[index..]), index - open)
      invariant index > |text| ==> goal == -1
      decreases |text| - index
    {
      var c := text[index];
      if quote.Some? {
        CloseQuoted(depth, quote.value, text, index, open);
        if c == '\\' {
          index := index + 2;
        } else {
          if c == quote.value { quote := None; }
          index := index + 1;
        }
      } else {
        CloseStep(State(depth, None, false), text, index, open);
        if Quote(c) {
          quote := Some(c);
        } else if Opener(Calls, c) {
          depth := depth + 1;
        } else if Closer(Calls, c) {
          depth := depth - 1;
          if depth == 0 { return Some(text[open + 1..index]); }
        }
        index := index + 1;
      }
    }
    r := None;
  }

  function Further(k: int, n: int): int {
    if k < 0 then -1 else k + n
  }

  /** Inside a quote nothing closes: a backslash takes the next character with it, if there is one. */
  lemma CloseQuoted(depth: int, q: char, text: string, index: nat, open: nat)
    requires index < |text|
    ensures var all := Further(CloseAt(State(depth, Some(q), false), text[index..]), index - open);
            if text[index] != '\\' then
              all == Further(CloseAt(State(depth, if text[index] == q then None else Some(q), false), text[index + 1..]),
                             index + 1 - open)
            else if index + 1 < |text| then
              all == Further(CloseAt(State(depth, Some(q), false), text[index + 2..]), index + 2 - open)
            else all == -1
  {
    CloseStep(State(depth, Some(q), false), text, index, open);
    if text[index] == '\\' && index + 1 < |text| { CloseStep(State(depth, Some(q), true), text, index + 1, open); }
  }

  lemma CloseStep(s: State, text: string, index: nat, open: nat)
    requires index < |text|
    ensures Further(CloseAt(s, text[index..]), index - open) ==
            if s.quote.None? && Closer(Calls, text[index]) && s.depth == 1 then index - open
            else Further(CloseAt(Step(Calls, s, text[index]), text[index + 1..]), index + 1 - open)
  {
    assert text[index..][0] == text[index] && text[index..][1..] == text[index + 1..];
  }

  // ------------------------------------------------------------------ //
  // Splitting at the commas of the first level
  // ------------------------------------------------------------------ //

  predicate Cuts(s: State, c: char) {
    s.quote.None? && c == ',' && s.depth == 0
  }

  function Glue(front: string, pieces: seq<string>): seq<string>
    requires pieces != []
  {
    [front + pieces[0]] + pieces[1..]
  }

  /** The raw pieces between top-level commas. */
  function Pieces(s: State, text: string): (pieces: seq<string>)
    ensures pieces != []
    decreases |text|
  {
    if text == "" then [""]
    else if Cuts(s, text[0]) then [""] + Pieces(s, text[1..])
    else Glue([text[0]], Pieces(Step(Calls, s, text[0]), text[1..]))
  }

  function Cleaned(pieces: seq<string>): seq<string> {
    if pieces == [] then []
    else
      var p := Highlights.Trim(pieces[0]);
      (if p != "" then [p] else []) + Cleaned(pieces[1..])
  }

  /** The pieces still to come, the current one begun. */
  function Left(s: State, text: string, index: nat, current: string): seq<string> {
    if index >= |text| then [current] else Glue(current, Pieces(s, text[index..]))
  }

  lemma LeftIsGlue(s: State, text: string, index: nat, current: string)
    requires index <= |text|
    ensures Left(s, text, index, current) == Glue(current, Pieces(s, text[index..]))
  {
    assert current + "" == current;
  }

  lemma LeftStep(s: State, text: string, index: nat, current: string)
    requires index < |text|
    ensures Left(s, text, index, current) ==
            if Cuts(s, text[index]) then [current] + Left(s, text, index + 1, "")
            else Left(Step(Calls, s, text[index]), text, index + 1, current + [text[index]])
  {
    var c, next := text[index], Step(Calls, s, text[index]);
    assert text[index..][0] == c && text[index..][1..] == text[index + 1..];
    if Cuts(s, c) {
      LeftIsGlue(s, text, index + 1, "");
      GlueNothing(Pieces(s, text[index + 1..]));
      GlueEmpty(current, Pieces(s, text[index + 1..]));
    } else {
      LeftIsGlue(next, text, index + 1, current + [c]);
      GlueTwice(current, [c], Pieces(next, text[index + 1..]));
    }
  }

  lemma GlueEmpty(current: string, pieces: seq<string>)
    ensures Glue(current, [""] + pieces) == [current] + pieces
  {
    assert current + "" == current;
  }

  lemma GlueNothing(pieces: seq<string>)
    requires pieces != []
    ensures Glue("", pieces) == pieces
  {
    assert "" + pieces[0] == pieces[0];
  }

  lemma GlueTwice(a: string, b: string, pieces: seq<string>)
    requires pieces != []
    ensures Glue(a, Glue(b, pieces)) == Glue(a + b, pieces)
  {
    assert a + (b + pieces[0]) == (a + b) + pieces[0];
  }

  method SplitRaw(arguments: string) returns (parts: seq<string>)
    ensures parts == Pieces(START, arguments)
  {
    parts := [];
    var depth, quote, current, index := 0, Option<char>.None, "", 0;
    ghost var goal := Pieces(START, arguments);
    GlueNothing(goal);
    LeftIsGlue(START, arguments, 0, "");
    assert arguments[0..] == arguments;
    while index < |arguments|
      invariant parts + Left(State(depth, quote, false), arguments, index, current) == goal
      decreases |arguments| - index
    {
      var c := arguments[index];
      LeftStep(State(depth, quote, false), arguments, index, current);
      if quote.Some? {
        current := current + [c];
        if c == '\\' {
          if index + 1 < |arguments| {
            LeftStep(State(depth, quote, true), arguments, index + 1, current);
            current := current + [arguments[index + 1]];
          }
          index := index + 2;
        } else {
          if c == quote.value { quote := None; }
          index := index + 1;
        }
      } else if c == ',' && depth == 0 {
        Regroup(parts, [current], Left(State(depth, quote, false), arguments, index + 1, ""));
        parts := parts + [current];
        current := "";
        index := index + 1;
      } else {
        if Quote(c) {
          quote := Some(c);
        } else if Opener(Calls, c) {
          depth := depth + 1;
        } else if Closer(Calls, c) {
          depth := depth - 1;
        }
        current := current + [c];
        index := index + 1;
      }
    }
    parts := parts + [current];
  }

  /** The arguments: pieces stripped, blank ones dropped. */
  method SplitTopLevel(arguments: string) returns (parts: seq<string>)
    ensures parts == Cleaned(Pieces(START, arguments))
  {
    var raw := SplitRaw(arguments);
    parts := Cleaned(raw);
  }

  // ------------------------------------------------------------------ //
  // The attributes of a tag
  // ------------------------------------------------------------------ //

  predicate Bounds(s: State, c: char) {
    s.quote.None? && c == '>' && s.depth == 0
  }

  /** How far on the tag ends, or -1. */
  function TagEnd(s: State, text: string): (k: int)
    ensures -1 <= k < |text|
    decreases |text|
  {
    if text == "" then -1
    else if Bounds(s, text[0]) then 0
    else Further(TagEnd(Step(Tags, s, text[0]), text[1..]), 1)
  }

  lemma TagUnquoted(goal: int, depth: int, text: string, index: nat, start: nat)
    requires index < |text| && Seeks(goal, depth, None, text, index, start)
    ensures var c := text[index];
            if c == '>' && depth == 0 then goal == index - start
            else
              var deeper := if c == '{' then depth + 1 else if c == '}' then depth - 1 else depth;
              Seeks(goal, deeper, if Quote(c) then Some(c) else None, text, index + 1, start)
  {
    TagStep(State(depth, None, false), text, index, start);
  }

  /** Inside a quote the tag does not end: a backslash takes the next character with it, if there is one. */
  lemma TagQuoted(goal: int, depth: int, q: char, text: string, index: nat, start: nat)
    requires index < |text| && Seeks(goal, depth, Some(q), text, index, start)
    ensures if text[index] == '\\' then Seeks(goal, depth, Some(q), text, index + 2, start)
            else Seeks(goal, depth, if text[index] == q then None else Some(q), text, index + 1, start)
  {
    TagStep(State(depth, Some(q), false), text, index, start);
    if text[index] == '\\' && index + 1 < |text| { TagStep(State(depth, Some(q), true), text, index + 1, start); }
  }

  lemma TagStep(s: State, text: string, index: nat, start: nat)
    requires index < |text|
    ensures Further(TagEnd(s, text[index..]), index - start) ==
            if Bounds(s, text[index]) then index - start
            else Further(TagEnd(Step(Tags, s, text[index]), text[index + 1..]), index + 1 - start)
  {
    assert text[index..][0] == text[index] && text[index..][1..] == text[index + 1..];
  }

  /** The end sought is `goal` beyond `start`, as seen from `index` in this state. */
  ghost predicate Seeks(goal: int, depth: int, quote: Option<char>, text: string, index: nat, start: nat) {
    goal == if index <= |text| then Further(TagEnd(State(depth, quote, false), text[index..]), index - start) else -1
  }

  method JsxTagBody(text: string, start: nat) returns (r: Option<(string, nat)>)
    requires start <= |text|
    ensures var k := TagEnd(START, text[start..]);
            r == if k < 0 then None else Some((text[start..start + k], start + k))
  {
    var index, depth, quote := start, 0, Option<char>.None;
    ghost var goal := TagEnd(START, text[start..]);
    while index < |text|
      invariant start <= index && Seeks(goal, depth, quote, text, index, start)
      decreases |text| - index
    {
      var c := text[index];
      if quote.Some? {
        TagQuoted(goal, depth, quote.value, text, index, start);
        if c == '\\' {
          index := index + 2;
        } else {
          if c == quote.value { quote := None; }
          index := index + 1;
        }
      } else {
        TagUnquoted(goal, depth, text, index, start);
        if Quote(c) {
          quote := Some(c);
        } else if c == '{' {
          depth := depth + 1;
        } else if c == '}' {
          depth := depth - 1;
        } else if c == '>' && depth == 0 {
          return Some((text[start..index], index));
        }
        index := index + 1;
      }
    }
    r := None;
  }

  // ------------------------------------------------------------------ //
  // Conservation
  // ------------------------------------------------------------------ //

  /** Splitting loses nothing, whatever the text: joined with commas, the raw pieces are the text. */
  lemma {:induction false} SplitConserves(s: State, text: string)
    ensures JoinWith(Pieces(s, text), ',') == text
    decreases |text|
  {
    if text != "" {
      assert text == [text[0]] + text[1..];
      if Cuts(s, text[0]) {
        var rest := Pieces(s, text[1..]);
        SplitConserves(s, text[1..]);
        assert ([""] + rest)[1..] == rest;
        assert "" + [','] + text[1..] == [text[0]] + text[1..];
      } else {
        var next := Step(Calls, s, text[0]);
        SplitConserves(next, text[1..]);
        JoinFront([text[0]], Pieces(next, text[1..]), ',');
      }
    }
  }

  // ------------------------------------------------------------------ //
  // Round trips
  // ------------------------------------------------------------------ //

  /** `mark` stands nowhere at the first level. */
  predicate Clear(kind: Kind, mark: char, s: State, text: string)
    decreases |text|
  {
    text == "" || (!(s.quote.None? && s.depth == 0 && text[0] == mark) && Clear(kind, mark, Step(kind, s, text[0]), text[1..]))
  }

  /** No comma at the first level. */
  predicate Uncut(s: State, text: string) {
    Clear(Calls, ',', s, text)
  }

  /** The nesting never falls below `floor`. */
  predicate Above(kind: Kind, s: State, text: string, floor: int)
    decreases |text|
  {
    s.depth >= floor && (text == "" || Above(kind, Step(kind, s, text[0]), text[1..], floor))
  }

  lemma {:induction false} RunTwice(kind: Kind, s: State, a: string, b: string)
    ensures Run(kind, s, a + b) == Run(kind, Run(kind, s, a), b)
    decreases |a|
  {
    if a == "" {
      assert a + b == b;
    } else {
      assert (a + b)[0] == a[0] && (a + b)[1..] == a[1..] + b;
      RunTwice(kind, Step(kind, s, a[0]), a[1..], b);
    }
  }

  lemma {:induction false} AboveTwice(kind: Kind, s: State, a: string, b: string, floor: int)
    requires Above(kind, s, a, floor) && Above(kind, Run(kind, s, a), b, floor)
    ensures Above(kind, s, a + b, floor)
    decreases |a|
  {
    if a == "" {
      assert a + b == b;
    } else {
      assert (a + b)[0] == a[0] && (a + b)[1..] == a[1..] + b;
      AboveTwice(kind, Step(kind, s, a[0]), a[1..], b, floor);
    }
  }

  /** Inside one more bracket everything is one level deeper. */
  lemma {:induction false} OneDeeper(s: State, text: string)
    ensures Run(Calls, s.(depth := s.depth + 1), text) == Run(Calls, s, text).(depth := Run(Calls, s, text).depth + 1)
    ensures Above(Calls, s, text, 0) ==> Above(Calls, s.(depth := s.depth + 1), text, 1)
    decreases |text|
  {
    if text != "" { OneDeeper(Step(Calls, s, text[0]), text[1..]); }
  }

  lemma {:induction false} CloseSkips(s: State, a: string, b: string)
    requires Above(Calls, s, a, 1)
    ensures CloseAt(s, a + b) == Further(CloseAt(Run(Calls, s, a), b), |a|)
    decreases |a|
  {
    if a == "" {
      assert a + b == b;
    } else {
      assert (a + b)[0] == a[0] && (a + b)[1..] == a[1..] + b;
      CloseSkips(Step(Calls, s, a[0]), a[1..], b);
    }
  }

  lemma {:induction false} PiecesSkip(s: State, a: string, b: string)
    requires Uncut(s, a)
    ensures Pieces(s, a + b) == Glue(a, Pieces(Run(Calls, s, a), b))
    decreases |a|
  {
    if a == "" {
      assert a + b == b;
      GlueNothing(Pieces(s, b));
    } else {
      assert (a + b)[0] == a[0] && (a + b)[1..] == a[1..] + b;
      PiecesSkip(Step(Calls, s, a[0]), a[1..], b);
      GlueTwice([a[0]], a[1..], Pieces(Run(Calls, s, a), b));
      assert [a[0]] + a[1..] == a;
    }
  }

  /** What can be written as one argument: balanced, quotes closed, no top-level comma, stripped, not blank. */
  predicate Argument(a: string) {
    && Run(Calls, START, a) == START && Uncut(START, a) && Above(Calls, START, a, 0)
    && Highlights.Trim(a) == a && a != ""
  }

  function Written(args: seq<string>): string {
    if args == [] then "" else JoinWith(args, ',')
  }

  lemma CommaIsPlain()
    ensures Run(Calls, START, [',']) == START && Above(Calls, START, [','], 0)
  {
    assert [','][1..] == "";
    assert Step(Calls, START, ',') == START;
  }

  lemma {:induction false} WrittenIsBalanced(args: seq<string>)
    requires forall a :: a in args ==> Argument(a)
    ensures Run(Calls, START, Written(args)) == START && Above(Calls, START, Written(args), 0)
  {
    if args != [] { assert Argument(args[0]); }
    if |args| > 1 {
      var rest := Written(args[1..]);
      WrittenIsBalanced(args[1..]);
      var comma := args[0] + [','];
      CommaIsPlain();
      RunTwice(Calls, START, args[0], [',']);
      AboveTwice(Calls, START, args[0], [','], 0);
      RunTwice(Calls, START, comma, rest);
      AboveTwice(Calls, START, comma, rest, 0);
    }
  }

  lemma {:induction false} PiecesOfWritten(args: seq<string>)
    requires args != [] && forall a :: a in args ==> Argument(a)
    ensures Pieces(START, Written(args)) == args
  {
    var a := args[0];
    assert Argument(a);
    if |args| == 1 {
      PiecesSkip(START, a, "");
      assert a + "" == a;
    } else {
      var rest := Written(args[1..]);
      PiecesOfWritten(args[1..]);
      PiecesSkip(START, a, [','] + rest);
      assert a + ([','] + rest) == a + [','] + rest;
      assert ([','] + rest)[1..] == rest;
      GlueEmpty(a, args[1..]);
    }
  }

  lemma {:induction false} CleanedArguments(args: seq<string>)
    requires forall a :: a in args ==> Argument(a)
    ensures Cleaned(args) == args
  {
    if args != [] {
      assert Argument(args[0]);
      CleanedArguments(args[1..]);
    }
  }

  /**
   The call round trip: arguments written between parentheses, in any source text,
   are found and split again, whatever quotes, escapes and nesting they contain.
   */
  lemma CallRoundTrip(pre: string, args: seq<string>, post: string)
    requires forall a :: a in args ==> Argument(a)
    ensures var text := pre + "(" + Written(args) + ")" + post;
            var k := CloseAt(START, text[|pre|..]);
            && k == |Written(args)| + 1
            && text[|pre| + 1..|pre| + k] == Written(args)
            && Cleaned(Pieces(START, Written(args))) == args
  {
    var body := Written(args);
    var text := pre + "(" + body + ")" + post;
    WrittenIsBalanced(args);
    OneDeeper(START, body);
    var inside := State(1, None, false);
    CloseSkips(inside, body, ")" + post);
    assert text[|pre|..] == "(" + (body + (")" + post));
    assert ("(" + (body + (")" + post)))[1..] == body + (")" + post);
    assert text[|pre| + 1..|pre| + 1 + |body|] == body;
    if args == [] {
      assert Highlights.Trim("") == "";
    } else {
      PiecesOfWritten(args);
      CleanedArguments(args);
    }
  }

  /** No end of tag at the first level. */
  predicate Unbounded(s: State, text: string) {
    Clear(Tags, '>', s, text)
  }

  lemma {:induction false} TagSkips(s: State, a: string, b: string)
    requires Unbounded(s, a)
    ensures TagEnd(s, a + b) == Further(TagEnd(Run(Tags, s, a), b), |a|)
    decreases |a|
  {
    if a == "" {
      assert a + b == b;
    } else {
      assert (a + b)[0] == a[0] && (a + b)[1..] == a[1..] + b;
      TagSkips(Step(Tags, s, a[0]), a[1..], b);
    }
  }

  /** The tag round trip: attributes that nest and quote properly end at their own `>`, and no sooner. */
  lemma TagRoundTrip(pre: string, attrs: string, post: string)
    requires Run(Tags, START, attrs) == START && Unbounded(START, attrs)
    ensures TagEnd(START, (pre + attrs + ">" + post)[|pre|..]) == |attrs|
  {
    TagSkips(START, attrs, ">" + post);
    assert (pre + attrs + ">" + post)[|pre|..] == attrs + (">" + post);
  }

  // ------------------------------------------------------------------ //
  // The element attribute, where quotes do not count
  // ------------------------------------------------------------------ //

  /** How far on the brace is that closes the one already open, or -1. */
  function BraceEnd(depth: nat, text: string): (k: int)
    ensures -1 <= k < |text|
    decreases |text|
  {
    if text == "" then -1
    else if text[0] == '}' && depth <= 1 then 0
    else Further(BraceEnd(if text[0] == '{' then depth + 1 else if text[0] == '}' then depth - 1 else depth, text[1..]), 1)
  }

  /** The text up to the closing brace, or all of it. */
  function Element(text: string): string {
    var k := BraceEnd(1, text);
    if k < 0 then text else text[..k]
  }

  method ElementExpression(attrs: string, open: nat) returns (r: string)
    requires open < |attrs| && attrs[open] == '{'
    ensures r == Element(attrs[open + 1..])
  {
    var depth, index := 1, open + 1;
    ghost var goal := BraceEnd(1, attrs[open + 1..]);
    while index < |attrs|
      invariant open < index <= |attrs| && depth >= 1
      invariant goal == Further(BraceEnd(depth, attrs[index..]), index - (open + 1))
    {
      assert attrs[index..][0] == attrs[index] && attrs[index..][1..] == attrs[index + 1..];
      if attrs[index] == '{' {
        depth := depth + 1;
      } else if attrs[index] == '}' {
        if depth == 1 { return attrs[open + 1..index]; }
        depth := depth - 1;
      }
      index := index + 1;
    }
    r := attrs[open + 1..];
  }

  /** The nesting at the end of a text, or none if the brace that was open is closed in it. */
  function Nesting(depth: nat, text: string): Option<nat>
    decreases |text|
  {
    if text == "" then Some(depth)
    else if text[0] == '}' && depth <= 1 then None
    else Nesting(if text[0] == '{' then depth + 1 else if text[0] == '}' then depth - 1 else depth, text[1..])
  }

  lemma {:induction false} BraceEndBeyond(depth: nat, a: string, b: string)
    ensures Nesting(depth, a).None? ==> BraceEnd(depth, a + b) == BraceEnd(depth, a) >= 0
    ensures Nesting(depth, a).Some? ==> BraceEnd(depth, a + b) == Further(BraceEnd(Nesting(depth, a).value, b), |a|)
    decreases |a|
  {
    if a == "" {
      assert a + b == b;
    } else {
      assert (a + b)[0] == a[0] && (a + b)[1..] == a[1..] + b;
      if !(a[0] == '}' && depth <= 1) {
        BraceEndBeyond(if a[0] == '{' then depth + 1 else if a[0] == '}' then depth - 1 else depth, a[1..], b);
      }
    }
  }

  lemma {:induction false} NestingStaysPositive(depth: nat, text: string)
    requires depth >= 1
    ensures Nesting(depth, text).Some? ==> Nesting(depth, text).value >= 1
    decreases |text|
  {
    if text != "" && !(text[0] == '}' && depth <= 1) {
      NestingStaysPositive(if text[0] == '{' then depth + 1 else if text[0] == '}' then depth - 1 else depth, text[1..]);
    }
  }

  /**
   An element expression is read back exactly when its braces nest - all of them,
   for the scanner counts those inside quotes as well.
   */
  lemma ElementRoundTripIff(expression: string, post: string)
    ensures Element(expression + ("}" + post)) == expression <==> Nesting(1, expression) == Some(1)
  {
    var text := expression + ("}" + post);
    BraceEndBeyond(1, expression, "}" + post);
    NestingStaysPositive(1, expression);
    assert text[..|expression|] == expression;
  }

  /** A brace in a quoted attribute cuts the expression short. */
  lemma QuotedBraceCutsShort()
    ensures Element("<X a='}'/>" + ("}" + "")) == "<X a='"
  {
    var text := "<X a='}'/>" + ("}" + "");
    assert text[6..][0] == '}';
    BraceEndBeyond(1, "<X a='", text[6..]);
    assert text == "<X a='" + text[6..];
    NoBraces(1, "<X a='");
  }

  lemma {:induction false} NoBraces(depth: nat, text: string)
    requires '{' !in text && '}' !in text
    ensures Nesting(depth, text) == Some(depth)
    decreases |text|
  {
    if text != "" {
      assert text[0] in text;
      NoBraces(depth, text[1..]);
    }
  }
}
