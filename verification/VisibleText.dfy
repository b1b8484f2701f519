/**
 What the release-note scanner leaves visible: the notes with their comments cut
 out, read again from where each cut was made.

 No visible line holds the opening of a comment, and what is hidden can be
 exchanged for other hidden text without changing what is visible.  Where no fence
 opens, the scanner, which works line by line, agrees with cutting the comments out
 of the text as a whole.
 */
module VisibleText {
  import opened Markers
  import opened ReleaseNotes
  import opened Strings

  // ------------------------------------------------------------------ //
  // Nothing hidden shows
  // ------------------------------------------------------------------ //

  predicate Free(text: string, pat: string) {
    forall i :: 0 <= i < |text| ==> !At(text, pat, i)
  }

  lemma FreeIsNotFound(text: string, pat: string)
    requires pat != ""
    ensures Free(text, pat) <==> Find(text, pat, 0) < 0
  {
  }

  lemma BeforeFirstIsFree(text: string, pat: string, i: nat)
    requires pat != "" && i == Find(text, pat, 0)
    ensures Free(text[..i], pat)
  {
    forall j | 0 <= j < i ensures !At(text[..i], pat, j) {
      assert !At(text, pat, j);
      if j + |pat| <= i { assert text[..i][j..j + |pat|] == text[j..j + |pat|]; }
    }
  }

  lemma {:induction false} ShownIsFree(line: string)
    ensures FromText(line).Shown? ==> Free(FromText(line).line, OPEN) && FenceOpened(FromText(line).line) == ""
    ensures FromText(line).Hiding? && FromText(line).state.Commented? ==> Free(FromText(line).state.pending, OPEN)
    decreases |line|
  {
    var start := Find(line, OPEN, 0);
    FreeIsNotFound(line, OPEN);
    if FenceOpened(line) == "" && start >= 0 {
      BeforeFirstIsFree(line, OPEN, start);
      HeldIsFree(line[..start], line[start + 4..]);
    }
  }

  lemma {:induction false} HeldIsFree(pending: string, line: string)
    requires Free(pending, OPEN)
    ensures var r := FromComment(pending, line);
            && (r.Shown? ==> Free(r.line, OPEN) && FenceOpened(r.line) == "")
            && (r.Hiding? && r.state.Commented? ==> Free(r.state.pending, OPEN))
    decreases |pending| + |line|
  {
    var end := Find(line, CLOSE, 0);
    if end >= 0 { ShownIsFree(pending + line[end + 3..]); }
  }

  /** No visible line opens a comment, whatever the notes contain. */
  lemma {:induction false} NoVisibleComment(s: State, lines: seq<string>)
    requires s.Fenced? ==> s.fence != ""
    requires s.Commented? ==> Free(s.pending, OPEN)
    ensures forall l :: l in Visible(s, lines) ==> Free(l, "<!--")
    decreases |lines|
  {
    if lines != [] {
      if s.Fenced? {
        NoVisibleComment(if FenceClosed(s.fence, lines[0]) then Plainly else s, lines[1..]);
      } else {
        var r := if s.Commented? then FromComment(s.pending, lines[0]) else FromText(lines[0]);
        AlwaysRealFence(s, lines[0]);
        ShownIsFree(lines[0]);
        if s.Commented? { HeldIsFree(s.pending, lines[0]); }
        NoVisibleComment(if r.Shown? then Plainly else r.state, lines[1..]);
      }
    }
  }

  /** The state after one line. */
  ghost function Next(s: State, line: string): (r: State)
    requires s.Fenced? ==> s.fence != ""
    ensures r.Fenced? ==> r.fence != ""
  {
    AlwaysRealFence(s, line);
    if s.Fenced? then (if FenceClosed(s.fence, line) then Plainly else s)
    else
      var r := if s.Commented? then FromComment(s.pending, line) else FromText(line);
      if r.Shown? then Plainly else r.state
  }

  ghost function EndState(s: State, lines: seq<string>): (r: State)
    requires s.Fenced? ==> s.fence != ""
    ensures r.Fenced? ==> r.fence != ""
    decreases |lines|
  {
    if lines == [] then s else EndState(Next(s, lines[0]), lines[1..])
  }

  /** A line that leaves a hidden state as it is. */
  ghost predicate StaysHidden(s: State, line: string) {
    match s
    case Plainly => false
    case Fenced(fence) => fence != "" && !FenceClosed(fence, line)
    case Commented(_) => Find(line, "-->", 0) < 0
  }

  lemma {:induction false} HiddenLinesAreDropped(s: State, block: seq<string>, rest: seq<string>)
    requires (s.Fenced? ==> s.fence != "") && forall l :: l in block ==> StaysHidden(s, l)
    ensures Visible(s, block + rest) == Visible(s, rest)
    decreases |block|
  {
    if block == [] {
      assert block + rest == rest;
    } else {
      assert (block + rest)[0] == block[0] && (block + rest)[1..] == block[1..] + rest;
      assert StaysHidden(s, block[0]);
      HiddenLinesAreDropped(s, block[1..], rest);
    }
  }

  lemma HeadAndTail<T>(pre: seq<T>, a: seq<T>)
    requires pre != []
    ensures (pre + a)[0] == pre[0] && (pre + a)[1..] == pre[1..] + a
  {
  }

  /** What comes before decides only through its own lines and the state it ends in. */
  lemma {:induction false} SameEndSameRest(s: State, pre: seq<string>, a: seq<string>, b: seq<string>)
    requires s.Fenced? ==> s.fence != ""
    requires Visible(EndState(s, pre), a) == Visible(EndState(s, pre), b)
    ensures Visible(s, pre + a) == Visible(s, pre + b)
    decreases |pre|
  {
    if pre == [] {
      assert pre + a == a && pre + b == b;
    } else {
      HeadAndTail(pre, a);
      HeadAndTail(pre, b);
      SameEndSameRest(Next(s, pre[0]), pre[1..], a, b);
    }
  }

  /**
   Noninterference: inside a fence or a comment, lines that do not end it can be
   replaced by any other such lines without changing what is visible anywhere.
   */
  lemma HiddenTextDoesNotMatter(pre: seq<string>, block: seq<string>, other: seq<string>, post: seq<string>)
    requires forall l :: l in block || l in other ==> StaysHidden(EndState(Plainly, pre), l)
    ensures Visible(Plainly, pre + (block + post)) == Visible(Plainly, pre + (other + post))
  {
    var s := EndState(Plainly, pre);
    HiddenLinesAreDropped(s, block, post);
    HiddenLinesAreDropped(s, other, post);
    SameEndSameRest(Plainly, pre, block + post, other + post);
  }

  // ------------------------------------------------------------------ //
  // Cutting comments out of a text
  // ------------------------------------------------------------------ //

  /** Every comment cut out, from the left; a cut may bring a new opening together. */
  ghost function Strip(text: string): string
    decreases |text|
  {
    var start := Find(text, "<!--", 0);
    if start < 0 then text else StripInside(text[..start], text[start + 4..])
  }

  /** `pending` is before the comment that `rest` begins inside. */
  ghost function StripInside(pending: string, rest: string): string
    decreases |pending| + |rest|
  {
    var end := Find(rest, "-->", 0);
    if end < 0 then pending else Strip(pending + rest[end + 3..])
  }

  predicate Line(text: string) {
    '\n' !in text
  }

  // A pattern without a line break is either in the text up to a line break or after it.

  predicate Ends(a: string) {
    a != "" && a[|a| - 1] == '\n'
  }

  lemma AtBeyond(a: string, x: string, pat: string, i: int)
    requires pat != ""
    ensures i >= |a| ==> (At(a + x, pat, i) <==> At(x, pat, i - |a|))
    ensures i + |pat| <= |a| ==> (At(a + x, pat, i) <==> At(a, pat, i))
  {
    if |a| <= i <= |a + x| - |pat| {
      assert (a + x)[i..i + |pat|] == x[i - |a|..i - |a| + |pat|];
    }
    if 0 <= i <= |a| - |pat| {
      assert (a + x)[i..i + |pat|] == a[i..i + |pat|];
    }
  }

  lemma NotAcross(a: string, x: string, pat: string, i: int)
    requires Ends(a) && '\n' !in pat && i < |a| < i + |pat|
    ensures !At(a + x, pat, i)
  {
    AtAll(a + x, pat, i);
    var y := |a| - 1;
    if 0 <= i <= |a + x| - |pat| {
      assert (a + x)[y] == '\n';
      assert pat[y - i] in pat;
    }
  }

  lemma FindBeyond(a: string, x: string, pat: string)
    requires pat != "" && '\n' !in pat && Ends(a) && Free(a, pat)
    ensures var f := Find(x, pat, 0); Find(a + x, pat, 0) == if f < 0 then -1 else |a| + f
  {
    forall i | 0 <= i < |a| ensures !At(a + x, pat, i) {
      if i + |pat| <= |a| { AtBeyond(a, x, pat, i); } else { NotAcross(a, x, pat, i); }
    }
    forall i | i >= |a| ensures At(a + x, pat, i) <==> At(x, pat, i - |a|) { AtBeyond(a, x, pat, i); }
    var f, g := Find(x, pat, 0), Find(a + x, pat, 0);
    if f >= 0 { AtBeyond(a, x, pat, |a| + f); }
  }

  lemma FindWithin(a: string, x: string, pat: string)
    requires pat != "" && Find(a, pat, 0) >= 0
    ensures Find(a + x, pat, 0) == Find(a, pat, 0)
  {
    var f := Find(a, pat, 0);
    AtBeyond(a, x, pat, f);
    forall i | 0 <= i < f ensures !At(a + x, pat, i) { AtBeyond(a, x, pat, i); }
  }

  /** A finished line is untouched by cuts after it. */
  lemma {:induction false} StripKeepsLine(a: string, x: string)
    requires Ends(a) && Free(a, OPEN)
    ensures Strip(a + x) == a + Strip(x)
    decreases |x|
  {
    FindBeyond(a, x, OPEN);
    var f := Find(x, OPEN, 0);
    if f >= 0 {
      assert (a + x)[..|a| + f] == a + x[..f] && (a + x)[|a| + f + 4..] == x[f + 4..];
      InsideKeepsLine(a, x[..f], x[f + 4..]);
    }
  }

  lemma {:induction false} InsideKeepsLine(a: string, p: string, rest: string)
    requires Ends(a) && Free(a, OPEN)
    ensures StripInside(a + p, rest) == a + StripInside(p, rest)
    decreases |p| + |rest|
  {
    var end := Find(rest, CLOSE, 0);
    if end >= 0 {
      assert a + p + rest[end + 3..] == a + (p + rest[end + 3..]);
      StripKeepsLine(a, p + rest[end + 3..]);
    }
  }

  /** A whole line without an end of comment stays inside the comment. */
  lemma InsideSkipsLine(p: string, a: string, x: string)
    requires Ends(a) && Free(a, CLOSE)
    ensures StripInside(p, a + x) == StripInside(p, x)
  {
    FindBeyond(a, x, CLOSE);
    var f := Find(x, CLOSE, 0);
    if f >= 0 { assert (a + x)[|a| + f + 3..] == x[f + 3..]; }
  }

  function Then(line: string, more: bool, x: string): string {
    if more then line + "\n" + x else line
  }

  /** What cutting does to one line and the text after it, in terms of what the scanner makes of the line. */
  ghost function CutAs(r: Outcome, more: bool, x: string): string
    requires r.Hiding? ==> r.state.Commented?
  {
    if r.Shown? then Then(r.line, more, Strip(x))
    else if more then StripInside(r.state.pending, x) else r.state.pending
  }

  lemma {:induction false} CutLine(line: string, more: bool, x: string)
    requires Line(line) && (FromText(line).Hiding? ==> FromText(line).state.Commented?)
    ensures Strip(Then(line, more, x)) == CutAs(FromText(line), more, x)
    decreases |line|
  {
    var start := Find(line, OPEN, 0);
    if start < 0 {
      CutNowhere(line, more, x);
    } else {
      CutOpens(line, more, x, start);
      CutHeld(line[..start], line[start + 4..], more, x);
    }
  }

  lemma {:induction false} CutHeld(p: string, line: string, more: bool, x: string)
    requires Line(p) && Line(line) && (FromComment(p, line).Hiding? ==> FromComment(p, line).state.Commented?)
    ensures StripInside(p, Then(line, more, x)) == CutAs(FromComment(p, line), more, x)
    decreases |p| + |line|
  {
    var end := Find(line, CLOSE, 0);
    if end < 0 {
      CutToEnd(p, line, more, x);
    } else {
      CutCloses(p, line, more, x, end);
      CutLine(p + line[end + 3..], more, x);
    }
  }

  lemma CutNowhere(line: string, more: bool, x: string)
    requires Line(line) && Find(line, OPEN, 0) < 0
    ensures Strip(Then(line, more, x)) == Then(line, more, Strip(x))
  {
    if more { KeepFree(line, OPEN); StripKeepsLine(line + "\n", x); }
  }

  lemma CutOpens(line: string, more: bool, x: string, start: nat)
    requires Line(line) && Find(line, OPEN, 0) == start
    ensures start + 4 <= |line|
    ensures Strip(Then(line, more, x)) == StripInside(line[..start], Then(line[start + 4..], more, x))
  {
    var tail := if more then "\n" + x else "";
    ThenIs(line, more, x, tail);
    FindWithin(line, tail, OPEN);
    CutAt(line, tail, start);
    CutAt(line, tail, start + 4);
    ThenIs(line[start + 4..], more, x, tail);
  }

  lemma CutToEnd(p: string, line: string, more: bool, x: string)
    requires Line(line) && Find(line, CLOSE, 0) < 0
    ensures StripInside(p, Then(line, more, x)) == if more then StripInside(p, x) else p
  {
    if more { KeepFree(line, CLOSE); InsideSkipsLine(p, line + "\n", x); }
  }

  lemma CutCloses(p: string, line: string, more: bool, x: string, end: nat)
    requires Line(line) && Find(line, CLOSE, 0) == end
    ensures end + 3 <= |line|
    ensures StripInside(p, Then(line, more, x)) == Strip(Then(p + line[end + 3..], more, x))
  {
    var tail := if more then "\n" + x else "";
    ThenIs(line, more, x, tail);
    FindWithin(line, tail, CLOSE);
    CutOut(p, line, tail, end + 3);
    ThenIs(p + line[end + 3..], more, x, tail);
  }

  lemma CutAt(line: string, tail: string, k: nat)
    requires k <= |line|
    ensures (line + tail)[..k] == line[..k] && (line + tail)[k..] == line[k..] + tail
  {
  }

  lemma CutOut(p: string, line: string, tail: string, k: nat)
    requires k <= |line|
    ensures p + (line + tail)[k..] == (p + line[k..]) + tail
  {
    assert (line + tail)[k..] == line[k..] + tail;
  }

  lemma ThenIs(line: string, more: bool, x: string, tail: string)
    requires tail == if more then "\n" + x else ""
    ensures Then(line, more, x) == line + tail
  {
  }

  lemma KeepFree(line: string, pat: string)
    requires pat != "" && '\n' !in pat && Find(line, pat, 0) < 0
    ensures Free(line + "\n", pat)
  {
    forall i | 0 <= i < |line + "\n"| ensures !At(line + "\n", pat, i) {
      if i + |pat| <= |line| { AtBeyond(line, "\n", pat, i); }
      else {
        assert line + "\n" == (line + "\n") + "";
        AtAll(line + "\n", pat, i);
        assert i + |pat| == |line| + 1 ==> pat[|pat| - 1] in pat && (line + "\n")[|line|] == '\n';
      }
    }
  }

  /** No line opens a fence. */
  ghost predicate Unfenced(s: State, lines: seq<string>)
    requires !s.Fenced?
    decreases |lines|
  {
    lines == [] || (!Next(s, lines[0]).Fenced? && Unfenced(Next(s, lines[0]), lines[1..]))
  }

  /** The visible lines, with the last one held back even when it is empty. */
  ghost function Kept(s: State, lines: seq<string>): seq<string>
    requires !s.Fenced? && Unfenced(s, lines)
  {
    Visible(s, lines) + if EndState(s, lines) == Commented("") then [""] else []
  }

  lemma {:induction false} KeptLine(s: State, lines: seq<string>)
    requires !s.Fenced? && Unfenced(s, lines) && lines != []
    ensures var r := if s.Commented? then FromComment(s.pending, lines[0]) else FromText(lines[0]);
            && (r.Hiding? ==> r.state.Commented?)
            && Kept(s, lines) == (if r.Shown? then [r.line] + Kept(Plainly, lines[1..]) else Kept(r.state, lines[1..]))
  {
    AlwaysRealFence(s, lines[0]);
  }

  lemma {:induction false} SomethingKept(s: State, lines: seq<string>)
    requires !s.Fenced? && Unfenced(s, lines) && (s.Commented? || lines != [])
    ensures Kept(s, lines) != []
    decreases |lines|
  {
    if lines != [] {
      KeptLine(s, lines);
      if !Next(s, lines[0]).Plainly? { SomethingKept(Next(s, lines[0]), lines[1..]); }
    }
  }

  /**
   Notes in which no fence opens: the visible lines are the lines of the notes
   with every comment cut out.
   */
  lemma {:induction false} VisibleIsStripped(s: State, lines: seq<string>)
    requires !s.Fenced? && Unfenced(s, lines) && lines != [] && forall l :: l in lines ==> Line(l)
    requires s.Commented? ==> Line(s.pending)
    ensures var text := JoinWith(lines, '\n');
            (if s.Commented? then StripInside(s.pending, text) else Strip(text)) == JoinWith(Kept(s, lines), '\n')
    decreases |lines|
  {
    var more, x := |lines| > 1, JoinWith(lines[1..], '\n');
    var r := if s.Commented? then FromComment(s.pending, lines[0]) else FromText(lines[0]);
    KeptLine(s, lines);
    assert JoinWith(lines, '\n') == Then(lines[0], more, x);
    if s.Commented? { CutHeld(s.pending, lines[0], more, x); } else { CutLine(lines[0], more, x); }
    var next := Next(s, lines[0]);
    if more {
      HeldIsLine(s, lines[0]);
      VisibleIsStripped(next, lines[1..]);
      SomethingKept(next, lines[1..]);
    }
    if r.Shown? {
      assert ([r.line] + Kept(Plainly, lines[1..]))[1..] == Kept(Plainly, lines[1..]);
    }
  }

  lemma HeldIsLine(s: State, line: string)
    requires !s.Fenced? && Line(line) && (s.Commented? ==> Line(s.pending))
    ensures Next(s, line).Commented? ==> Line(Next(s, line).pending)
  {
    if s.Commented? { FromCommentIsLine(s.pending, line); } else { FromTextIsLine(line); }
  }

  lemma {:induction false} FromTextIsLine(line: string)
    requires Line(line)
    ensures FromText(line).Hiding? && FromText(line).state.Commented? ==> Line(FromText(line).state.pending)
    decreases |line|
  {
    var start := Find(line, OPEN, 0);
    if FenceOpened(line) == "" && start >= 0 { FromCommentIsLine(line[..start], line[start + 4..]); }
  }

  lemma {:induction false} FromCommentIsLine(p: string, line: string)
    requires Line(p) && Line(line)
    ensures FromComment(p, line).Hiding? && FromComment(p, line).state.Commented? ==> Line(FromComment(p, line).state.pending)
    decreases |p| + |line|
  {
    var end := Find(line, CLOSE, 0);
    if end >= 0 { FromTextIsLine(p + line[end + 3..]); }
  }
}
