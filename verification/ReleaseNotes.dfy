/**
 Reading the highlights out of release notes.  Comments and fenced code are
 filtered out before any heading is looked for, one line at a time, by a scanner
 that is in plain text, inside a fence, or inside a comment that may have begun
 in the middle of a line.
 */
module ReleaseNotes {
  import opened Markers
  import opened Sequences
  import opened Spans

  const OPEN := "<!--"
  const CLOSE := "-->"

  // ------------------------------------------------------------------ //
  // Fences, as in section 4.5 of CommonMark
  // ------------------------------------------------------------------ //

  /** How many copies of `c` stand at `i`. */
  function RunOf(line: string, i: nat, c: char): (n: nat)
    requires i <= |line|
    ensures i + n <= |line| && (forall k :: i <= k < i + n ==> line[k] == c)
    ensures i + n < |line| ==> line[i + n] != c
    decreases |line| - i
  {
    if i < |line| && line[i] == c then 1 + RunOf(line, i + 1, c) else 0
  }

  /** The run that opens a fence, or the empty string. */
  function FenceOpened(line: string): (fence: string)
    ensures fence != "" ==> |fence| >= 3 && (fence[0] == '`' || fence[0] == '~')
    ensures forall k :: 0 <= k < |fence| ==> fence[k] == fence[0]
  {
    var i := RunOf(line, 0, ' ');
    var ticks, tildes := RunOf(line, i, '`'), RunOf(line, i, '~');
    if i > 3 then ""
    else if ticks >= 3 && '`' !in line[i + ticks..] then line[i..i + ticks]
    else if tildes >= 3 then line[i..i + tildes]
    else ""
  }

  predicate FenceClosed(fence: string, line: string)
    requires fence != ""
  {
    var i := RunOf(line, 0, ' ');
    var n := RunOf(line, i, fence[0]);
    i <= 3 && n >= |fence| && forall k :: i + n <= k < |line| ==> line[k] == ' ' || line[k] == '\t'
  }

  // ------------------------------------------------------------------ //
  // The scanner
  // ------------------------------------------------------------------ //

  /** Never a fence and a comment at once; text is held back only while a comment is open. */
  datatype State = Plainly | Fenced(fence: string) | Commented(pending: string)

  /** What one line comes to: a visible line, or a state that hides what follows. */
  datatype Outcome = Shown(line: string) | Hiding(state: State)

  ghost function FromText(line: string): (r: Outcome)
    ensures r.Hiding? ==> !r.state.Plainly?
    decreases |line|
  {
    if FenceOpened(line) != "" then Hiding(Fenced(FenceOpened(line)))
    else
      var start := Find(line, OPEN, 0);
      if start < 0 then Shown(line) else FromComment(line[..start], line[start + 4..])
  }

  ghost function FromComment(pending: string, line: string): (r: Outcome)
    ensures r.Hiding? ==> !r.state.Plainly?
    decreases |pending| + |line|
  {
    var end := Find(line, CLOSE, 0);
    if end < 0 then Hiding(Commented(pending)) else FromText(pending + line[end + 3..])
  }

  /** The lines still to come, read from a state; text held back at the very end is shown. */
  ghost function Visible(s: State, lines: seq<string>): seq<string>
    requires s.Fenced? ==> s.fence != ""
    decreases |lines|
  {
    if lines == [] then (if s.Commented? && s.pending != "" then [s.pending] else [])
    else if s.Fenced? then Visible(if FenceClosed(s.fence, lines[0]) then Plainly else s, lines[1..])
    else
      var r := if s.Commented? then FromComment(s.pending, lines[0]) else FromText(lines[0]);
      AlwaysRealFence(s, lines[0]);
      if r.Shown? then [r.line] + Visible(Plainly, lines[1..]) else Visible(r.state, lines[1..])
  }

  lemma AlwaysRealFence(s: State, line: string)
    ensures FromText(line).Hiding? && FromText(line).state.Fenced? ==> FromText(line).state.fence != ""
    ensures s.Commented? && FromComment(s.pending, line).Hiding? && FromComment(s.pending, line).state.Fenced? ==>
              FromComment(s.pending, line).state.fence != ""
  {
    RealFenceFromText(line);
    if s.Commented? { RealFenceFromComment(s.pending, line); }
  }

  lemma {:induction false} RealFenceFromText(line: string)
    ensures FromText(line).Hiding? && FromText(line).state.Fenced? ==> FromText(line).state.fence != ""
    decreases |line|
  {
    var start := Find(line, OPEN, 0);
    if FenceOpened(line) == "" && start >= 0 { RealFenceFromComment(line[..start], line[start + 4..]); }
  }

  lemma {:induction false} RealFenceFromComment(pending: string, line: string)
    ensures FromComment(pending, line).Hiding? && FromComment(pending, line).state.Fenced? ==>
              FromComment(pending, line).state.fence != ""
    decreases |pending| + |line|
  {
    var end := Find(line, CLOSE, 0);
    if end >= 0 { RealFenceFromText(pending + line[end + 3..]); }
  }

  function StateOf(fence: string, comment: bool, pending: string): State {
    if fence != "" then Fenced(fence) else if comment then Commented(pending) else Plainly
  }

  /** What the rest of a line comes to, inside a comment or not. */
  ghost function Rest(comment: bool, pending: string, line: string): Outcome {
    if comment then FromComment(pending, line) else FromText(pending + line)
  }

  lemma LeavesComment(pending: string, line: string)
    ensures var end := Find(line, CLOSE, 0);
            FromComment(pending, line) == if end < 0 then Hiding(Commented(pending)) else FromText(pending + line[end + 3..])
  {
  }

  lemma EntersComment(line: string)
    ensures var start := Find(line, OPEN, 0);
            FromText(line) == if FenceOpened(line) != "" then Hiding(Fenced(FenceOpened(line)))
                              else if start < 0 then Shown(line) else FromComment(line[..start], line[start + 4..])
  {
  }

  /**
   One line.  The loop ends because each turn that goes on takes a comment's
   opening off the text that is left together with the text held back.
   */
  method ScanLine(comment0: bool, pending0: string, line0: string)
    returns (shown: seq<string>, fence: string, comment: bool, pending: string)
    requires pending0 != "" ==> comment0
    ensures fence != "" ==> !comment
    ensures pending != "" ==> comment
    ensures var r := Rest(comment0, pending0, line0);
            if r.Shown? then shown == [r.line] && StateOf(fence, comment, pending) == Plainly
            else shown == [] && StateOf(fence, comment, pending) == r.state
  {
    shown, fence, comment, pending := [], "", comment0, pending0;
    ghost var goal := Rest(comment0, pending0, line0);
    var line := line0;
    while true
      invariant pending != "" ==> comment
      invariant goal == Rest(comment, pending, line)
      decreases |line| + |pending|
    {
      if comment {
        LeavesComment(pending, line);
        var end := FindText(line, CLOSE, 0);
        if end < 0 { return; }
        line := line[end + 3..];
        comment := false;
      }
      line := pending + line;
      pending := "";
      EntersComment(line);
      var opening := FenceOpened(line);
      if opening != "" {
        fence := opening;
        return;
      }
      var start := FindText(line, OPEN, 0);
      if start < 0 {
        shown := [line];
        return;
      }
      pending := line[..start];
      line := line[start + 4..];
      comment := true;
    }
  }

  /** The scanner over all lines. */
  method VisibleLines(lines: seq<string>) returns (visible: seq<string>)
    ensures visible == Visible(Plainly, lines)
  {
    visible := [];
    var fence, comment, pending := "", false, "";
    for k := 0 to |lines|
      invariant fence != "" ==> !comment
      invariant pending != "" ==> comment
      invariant visible + Visible(StateOf(fence, comment, pending), lines[k..]) == Visible(Plainly, lines)
    {
      ghost var before := StateOf(fence, comment, pending);
      var shown := [];
      if fence != "" {
        if FenceClosed(fence, lines[k]) { fence := ""; }
      } else {
        assert "" + lines[k] == lines[k];
        shown, fence, comment, pending := ScanLine(comment, pending, lines[k]);
      }
      OneLine(before, lines, k, shown, StateOf(fence, comment, pending), visible, Visible(Plainly, lines));
      visible := visible + shown;
    }
    if pending != "" { visible := visible + [pending]; }
  }

  /** How a state takes one line. */
  ghost predicate Takes(s: State, line: string, shown: seq<string>, next: State) {
    if s.Fenced? then s.fence != "" && shown == [] && next == if FenceClosed(s.fence, line) then Plainly else s
    else
      var r := if s.Commented? then FromComment(s.pending, line) else FromText(line);
      if r.Shown? then shown == [r.line] && next == Plainly else shown == [] && next == r.state
  }

  lemma OneLine(s: State, lines: seq<string>, k: nat, shown: seq<string>, next: State, visible: seq<string>, all: seq<string>)
    requires k < |lines| && (s.Fenced? ==> s.fence != "") && Takes(s, lines[k], shown, next)
    requires visible + Visible(s, lines[k..]) == all
    ensures next.Fenced? ==> next.fence != ""
    ensures (visible + shown) + Visible(next, lines[k + 1..]) == all
  {
    AlwaysRealFence(s, lines[k]);
    TakenLine(s, lines[k..], shown, next);
    assert lines[k..][1..] == lines[k + 1..];
    Regroup(visible, shown, Visible(next, lines[k + 1..]));
  }

  lemma TakenLine(s: State, lines: seq<string>, shown: seq<string>, next: State)
    requires lines != [] && (s.Fenced? ==> s.fence != "") && Takes(s, lines[0], shown, next)
    ensures next.Fenced? ==> next.fence != ""
    ensures Visible(s, lines) == shown + Visible(next, lines[1..])
  {
    AlwaysRealFence(s, lines[0]);
  }

  // ------------------------------------------------------------------ //
  // What the fences are, as the expressions that match them
  // ------------------------------------------------------------------ //

  /** `c*` */
  predicate AllAre(s: string, c: char) {
    forall k :: 0 <= k < |s| ==> s[k] == c
  }

  /** `[ \t]*` */
  predicate AllBlank(s: string) {
    forall k :: 0 <= k < |s| ==> s[k] == ' ' || s[k] == '\t'
  }

  /** Where copies of `c` stand and then something else, or nothing, the run is those copies. */
  lemma RunIs(line: string, i: nat, c: char, n: nat)
    requires i + n <= |line| && (forall k :: i <= k < i + n ==> line[k] == c) && (i + n < |line| ==> line[i + n] != c)
    ensures RunOf(line, i, c) == n
  {
  }

  /** An indent of at most three, a run at least as long as the one that opened, and blanks. */
  ghost predicate Closes(fence: string, line: string, indent: string, run: string, rest: string) {
    && line == indent + run + rest
    && AllAre(indent, ' ') && |indent| <= 3
    && fence != "" && AllAre(run, fence[0]) && |run| >= |fence|
    && AllBlank(rest)
  }

  lemma ClosedByThese(fence: string, line: string, indent: string, run: string, rest: string)
    requires Closes(fence, line, indent, run, rest) && fence[0] != ' ' && fence[0] != '\t'
    ensures FenceClosed(fence, line)
  {
    InThree(line, indent, run, rest);
    RunIs(line, 0, ' ', |indent|);
    RunIs(line, |indent|, fence[0], |run|);
  }

  /** The same by places in the line. */
  ghost predicate ClosesAt(fence: string, line: string, i: nat, n: nat) {
    && i <= 3 && |fence| <= n && i + n <= |line| && fence != ""
    && (forall k :: 0 <= k < i ==> line[k] == ' ')
    && (forall k :: i <= k < i + n ==> line[k] == fence[0])
    && forall k :: i + n <= k < |line| ==> line[k] == ' ' || line[k] == '\t'
  }

  lemma ClosedThere(fence: string, line: string)
    requires fence != "" && FenceClosed(fence, line)
    ensures ClosesAt(fence, line, RunOf(line, 0, ' '), RunOf(line, RunOf(line, 0, ' '), fence[0]))
  {
  }

  lemma ClosesThere(fence: string, line: string, i: nat, n: nat)
    requires ClosesAt(fence, line, i, n)
    ensures exists indent, run, rest :: Closes(fence, line, indent, run, rest)
  {
    CutInThree(line, i, i + n);
    assert Closes(fence, line, line[..i], line[i..i + n], line[i + n..]);
  }

  /** A fence of backticks or tildes is closed by exactly those lines. */
  lemma FenceClosedIff(fence: string, line: string)
    requires fence != "" && (fence[0] == '`' || fence[0] == '~')
    ensures FenceClosed(fence, line) <==> exists indent, run, rest :: Closes(fence, line, indent, run, rest)
  {
    if FenceClosed(fence, line) {
      ClosedThere(fence, line);
      ClosesThere(fence, line, RunOf(line, 0, ' '), RunOf(line, RunOf(line, 0, ' '), fence[0]));
    } else {
      forall indent, run, rest ensures !Closes(fence, line, indent, run, rest) {
        if Closes(fence, line, indent, run, rest) { ClosedByThese(fence, line, indent, run, rest); }
      }
    }
  }

  /** An indent of at most three, three or more of one kind, and no backtick after backticks. */
  ghost predicate Opens(fence: string, line: string, indent: string, rest: string) {
    && line == indent + fence + rest
    && AllAre(indent, ' ') && |indent| <= 3
    && |fence| >= 3 && (AllAre(fence, '`') || AllAre(fence, '~'))
    && (rest != "" ==> rest[0] != fence[0])
    && (fence[0] == '`' ==> '`' !in rest)
  }

  lemma OpenedByThese(fence: string, line: string, indent: string, rest: string)
    requires Opens(fence, line, indent, rest)
    ensures FenceOpened(line) == fence
  {
    InThree(line, indent, fence, rest);
    RunIs(line, 0, ' ', |indent|);
    RunIs(line, |indent|, fence[0], |fence|);
    RunIs(line, |indent|, if fence[0] == '`' then '~' else '`', 0);
  }

  /** What stands after `i` blanks, as the parts of an opening line. */
  ghost predicate OpensAt(fence: string, line: string, i: nat) {
    && i <= 3 && 3 <= |fence| && i + |fence| <= |line| && line[i..i + |fence|] == fence
    && (forall k :: 0 <= k < i ==> line[k] == ' ')
    && (AllAre(fence, '`') || AllAre(fence, '~'))
    && (i + |fence| < |line| ==> line[i + |fence|] != fence[0])
    && (fence[0] == '`' ==> '`' !in line[i + |fence|..])
  }

  lemma OpenedThere(line: string)
    requires FenceOpened(line) != ""
    ensures OpensAt(FenceOpened(line), line, RunOf(line, 0, ' '))
  {
  }

  lemma OpensThere(fence: string, line: string, i: nat)
    requires OpensAt(fence, line, i)
    ensures exists indent, rest :: Opens(fence, line, indent, rest)
  {
    CutInThree(line, i, i + |fence|);
    assert Opens(fence, line, line[..i], line[i + |fence|..]);
  }

  /** A line opens a fence with exactly the run that stands there. */
  lemma FenceOpenedIff(fence: string, line: string)
    requires fence != ""
    ensures FenceOpened(line) == fence <==> exists indent, rest :: Opens(fence, line, indent, rest)
  {
    if FenceOpened(line) == fence {
      OpenedThere(line);
      OpensThere(fence, line, RunOf(line, 0, ' '));
    } else {
      forall indent, rest ensures !Opens(fence, line, indent, rest) {
        if Opens(fence, line, indent, rest) { OpenedByThese(fence, line, indent, rest); }
      }
    }
  }
}
