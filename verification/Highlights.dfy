/**
 The highlights of a release: a few short plain lines, taken from the visible
 text of its notes and, where there is one, from its Highlights section only.
 */
module Highlights {
  import opened Options
  import opened Markers
  import opened Numerals
  import opened ReleaseNotes
  import opened Sequences
  import opened VisibleText

  const MOST_ITEMS := 6
  const MOST_CHARS := 500

  /** What `str.isspace` and `\s` accept. */
  predicate Space(c: char) {
    || '\t' <= c <= '\r' || '\U{1C}' <= c <= ' ' || c == '\U{85}' || c == '\U{A0}' || c == '\U{1680}'
    || '\U{2000}' <= c <= '\U{200A}' || c == '\U{2028}' || c == '\U{2029}' || c == '\U{202F}' || c == '\U{205F}'
    || c == '\U{3000}'
  }

  predicate Blank(c: char) {
    c == ' ' || c == '\t'
  }

  /** Equal up to case; two letters of the word have further forms that fold to them. */
  predicate Folds(c: char, low: char) {
    || c == low
    || ('A' <= c <= 'Z' && (c as int) + 32 == low as int)
    || (low == 'i' && (c == '\U{130}' || c == '\U{131}'))
    || (low == 's' && c == '\U{17F}')
  }

  function BlanksFrom(line: string, i: nat): (n: nat)
    requires i <= |line|
    ensures i + n <= |line|
    decreases |line| - i
  {
    if i < |line| && Blank(line[i]) then 1 + BlanksFrom(line, i + 1) else 0
  }

  predicate Heading(line: string) {
    var word := "highlights";
    |line| >= 2 && line[..2] == "##" &&
    var i := 2 + BlanksFrom(line, 2);
    && i > 2 && i + |word| <= |line|
    && (forall k :: 0 <= k < |word| ==> Folds(line[i + k], word[k]))
    && i + |word| + BlanksFrom(line, i + |word|) == |line|
  }

  /** A heading of the first two levels, which ends a section. */
  predicate SectionEnd(line: string) {
    || (|line| >= 2 && line[0] == '#' && Space(line[1]))
    || (|line| >= 3 && line[0] == '#' && line[1] == '#' && Space(line[2]))
  }

  function TrimLeft(line: string): string {
    if line != "" && Space(line[0]) then TrimLeft(line[1..]) else line
  }

  function TrimRight(line: string): string {
    if line != "" && Space(line[|line| - 1]) then TrimRight(line[..|line| - 1]) else line
  }

  function Trim(line: string): string {
    TrimRight(TrimLeft(line))
  }

  function DigitRun(line: string, i: nat): (n: nat)
    requires i <= |line|
    ensures i + n <= |line|
    decreases |line| - i
  {
    if i < |line| && Digit(line[i]) then 1 + DigitRun(line, i + 1) else 0
  }

  /** A bullet or a number in front of the text. */
  function Unbulleted(line: string): string {
    var d := DigitRun(line, 0);
    if |line| >= 2 && line[0] in "-*+" && line[1] == ' ' then line[2..]
    else if d > 0 && d + 1 < |line| && line[d] in ".)" && line[d + 1] == ' ' then line[d + 2..]
    else line
  }

  /** How Markdown is reduced to text and which characters are word characters. */
  datatype Text = Text(plain: string -> string, word: char -> bool)

  predicate Worded(text: string, how: Text) {
    exists k :: 0 <= k < |text| && how.word(text[k])
  }

  function Item(line: string, how: Text): (r: Option<string>)
    ensures r.Some? ==> 0 < |r.value| <= MOST_CHARS
  {
    var t := Trim(line);
    if t == "" || t[0] == '#' || At(t, "```", 0) || At(t, OPEN, 0) then None
    else
      var p := how.plain(Unbulleted(t));
      if p == "" || !Worded(p, how) then None else Some(if |p| > MOST_CHARS then p[..MOST_CHARS] else p)
  }

  /** At most `room` items of the lines, up to the end of the section. */
  function Picked(lines: seq<string>, section: bool, room: nat, how: Text): seq<string> {
    if lines == [] || room == 0 || (section && SectionEnd(lines[0])) then []
    else
      var item := Item(lines[0], how);
      if item.None? then Picked(lines[1..], section, room, how)
      else [item.value] + Picked(lines[1..], section, room - 1, how)
  }

  /** The first Highlights heading, or the number of lines. */
  function HeadingAt(lines: seq<string>): (k: nat)
    ensures k <= |lines|
    ensures forall j :: 0 <= j < k ==> !Heading(lines[j])
    ensures k < |lines| ==> Heading(lines[k])
  {
    if lines == [] || Heading(lines[0]) then 0 else 1 + HeadingAt(lines[1..])
  }

  function Chosen(visible: seq<string>, how: Text): seq<string> {
    var k := HeadingAt(visible);
    if k < |visible| then Picked(visible[k + 1..], true, MOST_ITEMS, how) else Picked(visible, false, 1, how)
  }

  ghost function HighlightsOf(lines: seq<string>, how: Text): seq<string> {
    Chosen(Visible(Plainly, lines), how)
  }

  method Pick(visible: seq<string>, how: Text) returns (result: seq<string>)
    ensures result == Chosen(visible, how)
  {
    var k := 0;
    while k < |visible| && !Heading(visible[k])
      invariant k <= |visible| && forall j :: 0 <= j < k ==> !Heading(visible[j])
    {
      k := k + 1;
    }
    assert k == HeadingAt(visible);
    var section := k < |visible|;
    result := PickFrom(if section then visible[k + 1..] else visible, section, if section then MOST_ITEMS else 1, how);
  }

  method PickFrom(lines: seq<string>, section: bool, most: nat, how: Text) returns (result: seq<string>)
    requires most > 0
    ensures result == Picked(lines, section, most, how)
  {
    result := [];
    var room := most;
    ghost var all := Picked(lines, section, most, how);
    assert lines[0..] == lines;
    for i := 0 to |lines|
      invariant room > 0 && room + |result| == most
      invariant StillToPick(lines, i, section, room, how, result, all)
    {
      if section && SectionEnd(lines[i]) {
        PickedToEnd(lines, i, section, room, how, result, all);
        return;
      }
      OnePicked(lines, i, section, room, how, result, all);
      var item := Item(lines[i], how);
      if item.Some? {
        result := result + [item.value];
        room := room - 1;
        if room == 0 { return; }
      }
    }
  }

  /** What was picked before line `i`, with what is picked from there on, is everything. */
  predicate StillToPick(lines: seq<string>, i: nat, section: bool, room: nat, how: Text, result: seq<string>, all: seq<string>) {
    i <= |lines| && result + Picked(lines[i..], section, room, how) == all
  }

  lemma PickedToEnd(lines: seq<string>, i: nat, section: bool, room: nat, how: Text, result: seq<string>, all: seq<string>)
    requires i < |lines| && StillToPick(lines, i, section, room, how, result, all) && section && SectionEnd(lines[i])
    ensures result == all
  {
    assert lines[i..][0] == lines[i];
  }

  lemma OnePicked(lines: seq<string>, i: nat, section: bool, room: nat, how: Text, result: seq<string>, all: seq<string>)
    requires i < |lines| && room > 0 && StillToPick(lines, i, section, room, how, result, all)
    requires !(section && SectionEnd(lines[i]))
    ensures var item := Item(lines[i], how);
            if item.None? then StillToPick(lines, i + 1, section, room, how, result, all)
            else StillToPick(lines, i + 1, section, room - 1, how, result + [item.value], all)
                 && (room == 1 ==> result + [item.value] == all)
  {
    assert lines[i..][0] == lines[i] && lines[i..][1..] == lines[i + 1..];
    var item := Item(lines[i], how);
    if item.Some? { Regroup(result, [item.value], Picked(lines[i + 1..], section, room - 1, how)); }
  }

  /** The highlights of notes already split into lines. */
  method ReadHighlights(lines: seq<string>, how: Text) returns (result: seq<string>)
    ensures result == HighlightsOf(lines, how)
  {
    var visible := VisibleLines(lines);
    result := Pick(visible, how);
  }

  // ------------------------------------------------------------------ //
  // What comes out
  // ------------------------------------------------------------------ //

  predicate HasSection(visible: seq<string>) {
    HeadingAt(visible) < |visible|
  }

  function SectionStart(visible: seq<string>): nat {
    if HasSection(visible) then HeadingAt(visible) + 1 else 0
  }

  predicate Unended(lines: seq<string>, from: int, to: int) {
    forall j :: from <= j < to && 0 <= j < |lines| ==> !SectionEnd(lines[j])
  }

  /** The item is the text of line `k`, which no heading after line `from` separates from it. */
  predicate ReadAt(lines: seq<string>, section: bool, from: int, item: string, how: Text, k: int) {
    from <= k && 0 <= k < |lines| && Item(lines[k], how) == Some(item) && (section ==> Unended(lines, from, k + 1))
  }

  ghost predicate ReadOff(lines: seq<string>, section: bool, from: int, item: string, how: Text) {
    exists k :: ReadAt(lines, section, from, item, how, k)
  }

  lemma ReadLater(lines: seq<string>, section: bool, item: string, how: Text, k: int, skip: nat)
    requires skip <= |lines| && ReadAt(lines[skip..], section, 0, item, how, k)
    ensures ReadAt(lines, section, skip, item, how, skip + k) && ReadOff(lines, section, skip, item, how)
  {
    var rest := lines[skip..];
    forall j | skip <= j < skip + k + 1 && section ensures !SectionEnd(lines[j]) {
      assert lines[j] == rest[j - skip];
    }
    assert ReadAt(lines, section, skip, item, how, skip + k);
  }

  lemma {:induction false} PickedComesFrom(lines: seq<string>, section: bool, room: nat, how: Text)
    ensures |Picked(lines, section, room, how)| <= room
    ensures forall item :: item in Picked(lines, section, room, how) ==>
              0 < |item| <= MOST_CHARS && ReadOff(lines, section, 0, item, how)
  {
    if lines != [] && room > 0 && !(section && SectionEnd(lines[0])) {
      var got := Item(lines[0], how);
      var left := if got.None? then room else room - 1;
      PickedComesFrom(lines[1..], section, left, how);
      var rest := Picked(lines[1..], section, left, how);
      forall item | item in rest ensures ReadOff(lines, section, 0, item, how) {
        var k :| ReadAt(lines[1..], section, 0, item, how, k);
        ReadLater(lines, section, item, how, k, 1);
        assert ReadAt(lines, section, 0, item, how, 1 + k);
      }
      if got.Some? { assert ReadAt(lines, section, 0, got.value, how, 0); }
    }
  }

  /**
   At most six items, one where no Highlights section is visible, each of one to
   500 characters and read off a visible line: one between the first visible
   Highlights heading and the next heading, where there is such a heading.
   */
  lemma HighlightsAreVisible(lines: seq<string>, how: Text)
    ensures var visible := Visible(Plainly, lines);
            && |HighlightsOf(lines, how)| <= (if HasSection(visible) then MOST_ITEMS else 1)
            && (forall l :: l in visible ==> Free(l, OPEN))
            && forall item :: item in HighlightsOf(lines, how) ==>
                 0 < |item| <= MOST_CHARS && ReadOff(visible, HasSection(visible), SectionStart(visible), item, how)
  {
    NoVisibleComment(Plainly, lines);
    ChosenComesFrom(Visible(Plainly, lines), how);
  }

  lemma ChosenComesFrom(visible: seq<string>, how: Text)
    ensures |Chosen(visible, how)| <= (if HasSection(visible) then MOST_ITEMS else 1)
    ensures forall item :: item in Chosen(visible, how) ==>
              0 < |item| <= MOST_CHARS && ReadOff(visible, HasSection(visible), SectionStart(visible), item, how)
  {
    var from := visible[SectionStart(visible)..];
    assert !HasSection(visible) ==> from == visible;
    PickedComesFrom(from, HasSection(visible), if HasSection(visible) then MOST_ITEMS else 1, how);
    forall item | item in Chosen(visible, how)
      ensures ReadOff(visible, HasSection(visible), SectionStart(visible), item, how)
    {
      var k :| ReadAt(from, HasSection(visible), 0, item, how, k);
      ReadLater(visible, HasSection(visible), item, how, k, SectionStart(visible));
    }
  }

  /** Text hidden in a fence or a comment cannot select the section or become a highlight. */
  lemma HiddenTextIsNotRead(pre: seq<string>, block: seq<string>, other: seq<string>, post: seq<string>, how: Text)
    requires forall l :: l in block || l in other ==> StaysHidden(EndState(Plainly, pre), l)
    ensures HighlightsOf(pre + (block + post), how) == HighlightsOf(pre + (other + post), how)
  {
    HiddenTextDoesNotMatter(pre, block, other, post);
  }

  // ------------------------------------------------------------------ //
  // What the lines are, as the expressions that match them
  // ------------------------------------------------------------------ //

  /** The word in any case, letter by letter: an i may be dotted or not, and an s long. */
  predicate IsHighlights(word: string) {
    && |word| == 10
    && word[0] in "hH" && word[1] in "iI\U{130}\U{131}" && word[2] in "gG" && word[3] in "hH" && word[4] in "lL"
    && word[5] in "iI\U{130}\U{131}" && word[6] in "gG" && word[7] in "hH" && word[8] in "tT" && word[9] in "sS\U{17F}"
  }

  lemma IsHighlightsIff(word: string)
    ensures IsHighlights(word) <==> |word| == 10 && forall k :: 0 <= k < 10 ==> Folds(word[k], "highlights"[k])
  {
    if |word| == 10 {
      var h := "highlights";
      assert (forall k :: 0 <= k < 10 ==> Folds(word[k], h[k])) <==>
             && Folds(word[0], h[0]) && Folds(word[1], h[1]) && Folds(word[2], h[2]) && Folds(word[3], h[3]) && Folds(word[4], h[4])
             && Folds(word[5], h[5]) && Folds(word[6], h[6]) && Folds(word[7], h[7]) && Folds(word[8], h[8]) && Folds(word[9], h[9]);
    }
  }

  ghost predicate Heads(line: string, blanks: string, word: string, rest: string) {
    line == "##" + blanks + word + rest && blanks != "" && AllBlank(blanks) && IsHighlights(word) && AllBlank(rest)
  }

  lemma {:induction false} BlanksAre(line: string, i: nat, n: nat)
    requires i + n <= |line| && (forall k :: i <= k < i + n ==> Blank(line[k])) && (i + n < |line| ==> !Blank(line[i + n]))
    ensures BlanksFrom(line, i) == n
    decreases n
  {
    if n > 0 { BlanksAre(line, i + 1, n - 1); }
  }

  lemma {:induction false} BlanksFromAre(line: string, i: nat)
    requires i <= |line|
    ensures forall k :: i <= k < i + BlanksFrom(line, i) ==> Blank(line[k])
    decreases |line| - i
  {
    if i < |line| && Blank(line[i]) { BlanksFromAre(line, i + 1); }
  }

  /** The same by places in the line, the word beginning at `i`. */
  ghost predicate HeadsAt(line: string, i: nat) {
    && 2 < i && i + 10 <= |line| && line[..2] == "##"
    && (forall k :: 2 <= k < i ==> Blank(line[k]))
    && IsHighlights(line[i..i + 10])
    && forall k :: i + 10 <= k < |line| ==> Blank(line[k])
  }

  lemma HeadingThere(line: string)
    requires Heading(line)
    ensures HeadsAt(line, 2 + BlanksFrom(line, 2))
  {
    var i := 2 + BlanksFrom(line, 2);
    BlanksFromAre(line, 2);
    BlanksFromAre(line, i + 10);
    IsHighlightsIff(line[i..i + 10]);
  }

  lemma HeadsThere(line: string, i: nat)
    requires HeadsAt(line, i)
    ensures exists blanks, word, rest :: Heads(line, blanks, word, rest)
  {
    assert line == "##" + line[2..i] + line[i..i + 10] + line[i + 10..];
    assert Heads(line, line[2..i], line[i..i + 10], line[i + 10..]);
  }

  lemma HeadsIsHeading(line: string, blanks: string, word: string, rest: string)
    requires Heads(line, blanks, word, rest)
    ensures Heading(line)
  {
    var i := 2 + |blanks|;
    IsHighlightsIff(word);
    InThree(line[2..], blanks, word, rest);
    assert line[2..] == blanks + word + rest;
    assert forall k :: 2 <= k < i ==> line[k] == line[2..][k - 2];
    assert forall k :: i <= k < i + 10 ==> line[k] == line[2..][k - 2];
    assert forall k :: i + 10 <= k < |line| ==> line[k] == line[2..][k - 2];
    BlanksAre(line, 2, |blanks|);
    BlanksAre(line, i + 10, |rest|);
    assert line[..2] == "##";
  }

  /** `^##[ \t]+Highlights[ \t]*$`, in any case. */
  lemma HeadingIff(line: string)
    ensures Heading(line) <==> exists blanks, word, rest :: Heads(line, blanks, word, rest)
  {
    if Heading(line) {
      HeadingThere(line);
      HeadsThere(line, 2 + BlanksFrom(line, 2));
    } else {
      forall blanks, word, rest ensures !Heads(line, blanks, word, rest) {
        if Heads(line, blanks, word, rest) { HeadsIsHeading(line, blanks, word, rest); }
      }
    }
  }

  /** `^#{1,2}\s` */
  lemma SectionEndIff(line: string)
    ensures SectionEnd(line) <==>
              exists c: char, rest: string :: Space(c) && (line == "#" + [c] + rest || line == "##" + [c] + rest)
  {
    if SectionEnd(line) {
      if line[0] == '#' && Space(line[1]) {
        assert line == "#" + [line[1]] + line[2..];
      } else {
        assert line == "##" + [line[2]] + line[3..];
      }
    }
  }

  predicate AllSpace(s: string) {
    forall k :: 0 <= k < |s| ==> Space(s[k])
  }

  /** `str.strip`: what is left has no space at either end, and only spaces went. */
  ghost predicate Strips(line: string, before: string, t: string, after: string) {
    && line == before + t + after && AllSpace(before) && AllSpace(after)
    && (t != "" ==> !Space(t[0]) && !Space(t[|t| - 1]))
  }

  lemma {:induction false} TrimLeftIs(line: string) returns (before: string)
    ensures line == before + TrimLeft(line) && AllSpace(before) && (TrimLeft(line) != "" ==> !Space(TrimLeft(line)[0]))
  {
    if line != "" && Space(line[0]) {
      var b := TrimLeftIs(line[1..]);
      before := [line[0]] + b;
      assert line == [line[0]] + line[1..];
    } else {
      before := "";
    }
  }

  lemma {:induction false} TrimRightIs(line: string) returns (after: string)
    ensures line == TrimRight(line) + after && AllSpace(after)
    ensures TrimRight(line) != "" ==> !Space(TrimRight(line)[|TrimRight(line)| - 1]) && TrimRight(line)[0] == line[0]
  {
    if line != "" && Space(line[|line| - 1]) {
      var a := TrimRightIs(line[..|line| - 1]);
      after := a + [line[|line| - 1]];
      assert line == line[..|line| - 1] + [line[|line| - 1]];
    } else {
      after := "";
    }
  }

  lemma TrimStrips(line: string) returns (before: string, after: string)
    ensures Strips(line, before, Trim(line), after)
  {
    before := TrimLeftIs(line);
    after := TrimRightIs(TrimLeft(line));
    assert line == before + (Trim(line) + after) == before + Trim(line) + after;
  }

  /** `[0-9]+` */
  predicate Number(s: string) {
    s != "" && Digits(s)
  }

  /** `^(?:[-*+] |[0-9]+[.)] )` in front of the text. */
  ghost predicate Bulleted(line: string, bullet: string, text: string) {
    && line == bullet + text
    && (|| bullet == "- " || bullet == "* " || bullet == "+ "
        || exists digits: string :: Number(digits) && (bullet == digits + ". " || bullet == digits + ") "))
  }

  lemma {:induction false} DigitRunIs(line: string, i: nat, n: nat)
    requires i + n <= |line| && (forall k :: i <= k < i + n ==> Digit(line[k])) && (i + n < |line| ==> !Digit(line[i + n]))
    ensures DigitRun(line, i) == n
    decreases n
  {
    if n > 0 { DigitRunIs(line, i + 1, n - 1); }
  }

  lemma {:induction false} DigitRunAre(line: string, i: nat)
    requires i <= |line|
    ensures forall k :: i <= k < i + DigitRun(line, i) ==> Digit(line[k])
    decreases |line| - i
  {
    if i < |line| && Digit(line[i]) { DigitRunAre(line, i + 1); }
  }

  /** One bullet is taken off where there is one, and nothing otherwise. */
  lemma UnbulletedIs(line: string)
    ensures forall bullet, text :: Bulleted(line, bullet, text) ==> Unbulleted(line) == text
    ensures Unbulleted(line) == line || exists bullet :: Bulleted(line, bullet, Unbulleted(line))
  {
    forall bullet, text | Bulleted(line, bullet, text) ensures Unbulleted(line) == text {
      BulletIsTaken(line, bullet, text);
    }
    BulletWasThere(line);
  }

  lemma BulletIsTaken(line: string, bullet: string, text: string)
    requires Bulleted(line, bullet, text)
    ensures Unbulleted(line) == text
  {
    if bullet == "- " || bullet == "* " || bullet == "+ " {
      assert line[2..] == text;
    } else {
      var digits :| Number(digits) && (bullet == digits + ". " || bullet == digits + ") ");
      var d := |digits|;
      assert forall k :: 0 <= k < d ==> line[k] == digits[k];
      assert line[d] == bullet[d] && line[d + 1] == bullet[d + 1] == ' ';
      assert Digit(digits[0]) && line[0] == digits[0];
      DigitRunIs(line, 0, d);
      assert line[d + 2..] == text;
    }
  }

  lemma BulletWasThere(line: string)
    ensures Unbulleted(line) == line || exists bullet :: Bulleted(line, bullet, Unbulleted(line))
  {
    var d := DigitRun(line, 0);
    if |line| >= 2 && line[0] in "-*+" && line[1] == ' ' {
      assert line == line[..2] + line[2..] && line[..2] == [line[0], ' '];
      assert Bulleted(line, line[..2], line[2..]);
    } else if d > 0 && d + 1 < |line| && line[d] in ".)" && line[d + 1] == ' ' {
      DigitRunAre(line, 0);
      var digits := line[..d];
      assert Number(digits);
      assert line == line[..d + 2] + line[d + 2..] && line[..d + 2] == digits + [line[d], ' '];
      assert line[..d + 2] == digits + ". " || line[..d + 2] == digits + ") ";
      assert Bulleted(line, line[..d + 2], line[d + 2..]);
    }
  }

  /** Which lines are skipped, and what the others become: at most 500 characters of their reduced text. */
  lemma ItemIs(line: string, how: Text, t: string, before: string, after: string)
    requires Strips(line, before, t, after) && t == Trim(line)
    ensures var p := how.plain(Unbulleted(t));
            var skipped := t == "" || "#" <= t || "```" <= t || "<!--" <= t || p == ""
                           || forall k :: 0 <= k < |p| ==> !how.word(p[k]);
            Item(line, how) == if skipped then None else Some(if |p| <= 500 then p else p[..500])
  {
    assert At(t, "```", 0) <==> "```" <= t;
    assert At(t, OPEN, 0) <==> "<!--" <= t;
  }

  /** The item of every line from `i` to `j` is none, and no section ends there. */
  ghost predicate Passes(lines: seq<string>, section: bool, how: Text, i: nat, j: nat)
    requires i <= j <= |lines|
  {
    forall k :: i <= k < j ==> Item(lines[k], how).None? && !(section && SectionEnd(lines[k]))
  }

  /**
   The items are those of the first lines that have one, in order, up to `room` of
   them; only the end of the section or of the lines comes sooner.
   */
  ghost predicate FirstItems(lines: seq<string>, section: bool, room: nat, how: Text, result: seq<string>)
    decreases |result|
  {
    if result == [] then
      room == 0 || exists j {:trigger Passes(lines, section, how, 0, j)} :: 0 <= j <= |lines| && Passes(lines, section, how, 0, j)
                                && (j < |lines| ==> section && SectionEnd(lines[j]))
    else
      room > 0 && exists j {:trigger Passes(lines, section, how, 0, j)} :: 0 <= j < |lines| && Passes(lines, section, how, 0, j)
                                && !(section && SectionEnd(lines[j])) && Item(lines[j], how) == Some(result[0])
                                && FirstItems(lines[j + 1..], section, room - 1, how, result[1..])
  }

  lemma {:induction false} PickedAreFirst(lines: seq<string>, section: bool, room: nat, how: Text)
    ensures FirstItems(lines, section, room, how, Picked(lines, section, room, how))
    decreases |lines|
  {
    var result := Picked(lines, section, room, how);
    if lines == [] || room == 0 || (section && SectionEnd(lines[0])) {
      assert Passes(lines, section, how, 0, 0);
    } else if Item(lines[0], how).Some? {
      PickedAreFirst(lines[1..], section, room - 1, how);
      assert Passes(lines, section, how, 0, 0) && result[1..] == Picked(lines[1..], section, room - 1, how);
    } else {
      PickedAreFirst(lines[1..], section, room, how);
      OneMorePassed(lines, section, room, how, result);
    }
  }

  lemma OneMorePassed(lines: seq<string>, section: bool, room: nat, how: Text, result: seq<string>)
    requires lines != [] && Item(lines[0], how).None? && !(section && SectionEnd(lines[0])) && room > 0
    requires FirstItems(lines[1..], section, room, how, result)
    ensures FirstItems(lines, section, room, how, result)
  {
    var rest := lines[1..];
    if result == [] {
      var j :| 0 <= j <= |rest| && Passes(rest, section, how, 0, j) && (j < |rest| ==> section && SectionEnd(rest[j]));
      assert forall k :: 1 <= k < |lines| ==> lines[k] == rest[k - 1];
      assert Passes(lines, section, how, 0, j + 1);
    } else {
      var j :| 0 <= j < |rest| && Passes(rest, section, how, 0, j) && !(section && SectionEnd(rest[j]))
               && Item(rest[j], how) == Some(result[0])
               && FirstItems(rest[j + 1..], section, room - 1, how, result[1..]);
      assert forall k :: 1 <= k < |lines| ==> lines[k] == rest[k - 1];
      assert Passes(lines, section, how, 0, j + 1);
      assert lines[j + 2..] == rest[j + 1..];
    }
  }

  /** Six items of the first Highlights section of the visible lines, or one of all of them where there is none. */
  lemma HighlightsAreFirst(lines: seq<string>, how: Text)
    ensures var visible := Visible(Plainly, lines);
            || (exists k :: 0 <= k < |visible| && Heading(visible[k]) && (forall j :: 0 <= j < k ==> !Heading(visible[j]))
                  && FirstItems(visible[k + 1..], true, 6, how, HighlightsOf(lines, how)))
            || ((forall k :: 0 <= k < |visible| ==> !Heading(visible[k]))
                  && FirstItems(visible, false, 1, how, HighlightsOf(lines, how)))
  {
    var visible := Visible(Plainly, lines);
    var k := HeadingAt(visible);
    if k < |visible| {
      PickedAreFirst(visible[k + 1..], true, 6, how);
    } else {
      PickedAreFirst(visible, false, 1, how);
    }
  }
}
