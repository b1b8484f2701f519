/**
 Splitting a text at a character and joining it again.

 A split always has at least one part, none of which holds the character, and the
 parts joined are the text; a text put in front with the character after it is the
 first part.  Version tags and repository names are split here at dots and at a
 slash; lines are joined here with line breaks, and the arguments of a call with
 commas: what splits those has to know about quotes and brackets and is found with
 the call scanners.
 */
module Strings {
  function SplitOn(s: string, c: char): (parts: seq<string>)
    ensures parts != []
    ensures forall p :: p in parts ==> c !in p
  {
    if s == "" then [""]
    else
      var rest := SplitOn(s[1..], c);
      if s[0] == c then [""] + rest else [[s[0]] + rest[0]] + rest[1..]
  }

  function JoinWith(parts: seq<string>, c: char): string {
    if parts == [] then "" else if |parts| == 1 then parts[0] else parts[0] + [c] + JoinWith(parts[1..], c)
  }

  lemma JoinFront(front: string, parts: seq<string>, c: char)
    requires parts != []
    ensures JoinWith([front + parts[0]] + parts[1..], c) == front + JoinWith(parts, c)
  {
    var g := [front + parts[0]] + parts[1..];
    if |parts| > 1 {
      assert g[1..] == parts[1..];
      var rest := [c] + JoinWith(parts[1..], c);
      assert (front + parts[0]) + rest == front + (parts[0] + rest);
      assert parts[0] + [c] + JoinWith(parts[1..], c) == parts[0] + rest;
      assert (front + parts[0]) + [c] + JoinWith(parts[1..], c) == (front + parts[0]) + rest;
    }
  }

  lemma {:induction false} JoinOfSplit(s: string, c: char)
    ensures JoinWith(SplitOn(s, c), c) == s
  {
    if s != "" {
      JoinOfSplit(s[1..], c);
      var rest := SplitOn(s[1..], c);
      assert s == [s[0]] + s[1..];
      if s[0] == c {
        assert ([""] + rest)[1..] == rest;
      } else {
        assert SplitOn(s, c)[1..] == rest[1..];
      }
    }
  }

  lemma {:induction false} SplitOfText(p: string, c: char, x: string)
    requires c !in p
    ensures SplitOn(p + [c] + x, c) == [p] + SplitOn(x, c)
    ensures SplitOn(p, c) == [p]
  {
    if p == "" {
      assert p + [c] + x == [c] + x && ([c] + x)[1..] == x;
    } else {
      assert p[1..] + [c] + x == (p + [c] + x)[1..];
      SplitOfText(p[1..], c, x);
      assert p == [p[0]] + p[1..];
    }
  }
}
