/**
 Ending a process tree: the processes below a root, in the order in which they
 are ended - every process after all of its own descendants, the root last.
 */
module ProcessTree {
  import opened Sequences

  /** One line of the process listing. */
  datatype Entry = Entry(child: int, parent: int)

  type Heights = int -> nat

  /** Every process once, and none below itself. */
  ghost predicate Forest(listing: seq<Entry>, height: Heights) {
    && (forall i, j :: 0 <= i < j < |listing| ==> listing[i].child != listing[j].child)
    && forall i :: 0 <= i < |listing| ==> height(listing[i].child) < height(listing[i].parent)
  }

  function ChildrenOf(listing: seq<Entry>, p: int): seq<int> {
    if listing == [] then []
    else
      var last := listing[|listing| - 1];
      ChildrenOf(listing[..|listing| - 1], p) + if last.parent == p then [last.child] else []
  }

  lemma {:induction false} ChildrenAreListed(listing: seq<Entry>, p: int)
    ensures forall c :: c in ChildrenOf(listing, p) <==> Entry(c, p) in listing
  {
    if listing != [] {
      var n := |listing| - 1;
      assert listing == listing[..n] + [listing[n]];
      ChildrenAreListed(listing[..n], p);
    }
  }

  ghost predicate Lower(listing: seq<Entry>, height: Heights, cs: seq<int>, bound: nat) {
    forall c :: c in cs ==> height(c) < bound
  }

  lemma ChildrenAreLower(listing: seq<Entry>, height: Heights, p: int)
    requires Forest(listing, height)
    ensures Lower(listing, height, ChildrenOf(listing, p), height(p))
  {
    ChildrenAreListed(listing, p);
  }

  /** What visiting these children in turn appends: for each, everything below it and then itself. */
  ghost function Visited(listing: seq<Entry>, height: Heights, cs: seq<int>, bound: nat): seq<int>
    requires Forest(listing, height) && Lower(listing, height, cs, bound)
    decreases bound, |cs|
  {
    if cs == [] then []
    else
      ChildrenAreLower(listing, height, cs[0]);
      Visited(listing, height, ChildrenOf(listing, cs[0]), height(cs[0])) + [cs[0]] + Visited(listing, height, cs[1..], bound)
  }

  ghost function Below(listing: seq<Entry>, height: Heights, p: int): seq<int>
    requires Forest(listing, height)
  {
    ChildrenAreLower(listing, height, p);
    Visited(listing, height, ChildrenOf(listing, p), height(p))
  }

  function Kids(children: map<int, seq<int>>, p: int): seq<int> {
    if p in children then children[p] else []
  }

  method Table(listing: seq<Entry>) returns (children: map<int, seq<int>>)
    ensures forall p {:trigger Kids(children, p)} :: Kids(children, p) == ChildrenOf(listing, p)
  {
    children := map[];
    for k := 0 to |listing|
      invariant forall p :: Kids(children, p) == ChildrenOf(listing[..k], p)
    {
      var e := listing[k];
      assert listing[..k + 1][..k] == listing[..k] && listing[..k + 1][k] == e;
      children := children[e.parent := Kids(children, e.parent) + [e.child]];
    }
    assert listing[..|listing|] == listing;
  }

  /** `visit`, which appends to `ordered`. */
  method Visit(children: map<int, seq<int>>, p: int, ordered: seq<int>, ghost listing: seq<Entry>, ghost height: Heights)
    returns (r: seq<int>)
    requires Forest(listing, height)
    requires forall q {:trigger Kids(children, q)} :: Kids(children, q) == ChildrenOf(listing, q)
    ensures r == ordered + Below(listing, height, p)
    decreases height(p), 1
  {
    ChildrenAreLower(listing, height, p);
    r := VisitAll(children, Kids(children, p), ordered, listing, height, height(p));
  }

  /** The loop of `visit`. */
  method VisitAll(
    children: map<int, seq<int>>, cs: seq<int>, ordered: seq<int>, ghost listing: seq<Entry>, ghost height: Heights, ghost bound: nat)
    returns (r: seq<int>)
    requires Forest(listing, height) && Lower(listing, height, cs, bound)
    requires forall q {:trigger Kids(children, q)} :: Kids(children, q) == ChildrenOf(listing, q)
    ensures r == ordered + Visited(listing, height, cs, bound)
    decreases bound, 0
  {
    r := ordered;
    ghost var all := ordered + Visited(listing, height, cs, bound);
    for k := 0 to |cs|
      invariant Lower(listing, height, cs[k..], bound)
      invariant r + Visited(listing, height, cs[k..], bound) == all
    {
      ghost var before := r;
      VisitedStep(listing, height, cs, k, bound);
      r := Visit(children, cs[k], r, listing, height);
      r := r + [cs[k]];
      RegroupThree(before, Below(listing, height, cs[k]), [cs[k]], Visited(listing, height, cs[k + 1..], bound));
    }
  }

  lemma VisitedStep(listing: seq<Entry>, height: Heights, cs: seq<int>, k: nat, bound: nat)
    requires Forest(listing, height) && k < |cs| && Lower(listing, height, cs[k..], bound)
    ensures Lower(listing, height, cs[k + 1..], bound) && height(cs[k]) < bound
    ensures Visited(listing, height, cs[k..], bound)
            == Below(listing, height, cs[k]) + [cs[k]] + Visited(listing, height, cs[k + 1..], bound)
  {
    assert cs[k..][0] == cs[k] && cs[k..][1..] == cs[k + 1..];
    assert forall c :: c in cs[k + 1..] ==> c in cs[k..];
  }

  /** The processes to end, in order. */
  method KillOrder(listing: seq<Entry>, pid: int, ghost height: Heights) returns (targets: seq<int>)
    requires Forest(listing, height)
    ensures targets == Below(listing, height, pid) + [pid]
  {
    var children := Table(listing);
    var ordered := Visit(children, pid, [], listing, height);
    targets := ordered + [pid];
  }

  // ------------------------------------------------------------------ //
  // Descendants
  // ------------------------------------------------------------------ //

  /** A line of descent, from ancestor to descendant. */
  predicate Descent(listing: seq<Entry>, line: seq<int>) {
    line != [] && forall i :: 0 < i < |line| ==> Entry(line[i], line[i - 1]) in listing
  }

  ghost predicate Descends(listing: seq<Entry>, line: seq<int>, from: int, to: int) {
    Descent(listing, line) && line[0] == from && line[|line| - 1] == to
  }

  ghost predicate StrictlyBelow(listing: seq<Entry>, x: int, p: int) {
    exists line :: Descends(listing, line, p, x) && |line| > 1
  }

  /** At or below one of these. */
  ghost predicate Under(listing: seq<Entry>, cs: seq<int>, x: int) {
    exists k, line :: 0 <= k < |cs| && Descends(listing, line, cs[k], x)
  }

  lemma OneStepDown(listing: seq<Entry>, c: int, p: int, line: seq<int>, x: int)
    requires Entry(c, p) in listing && Descends(listing, line, c, x)
    ensures Descends(listing, [p] + line, p, x)
  {
  }

  /** Below a process are its children and what is under them. */
  lemma BelowIsUnderChildren(listing: seq<Entry>, p: int, x: int)
    ensures StrictlyBelow(listing, x, p) <==> Under(listing, ChildrenOf(listing, p), x)
  {
    var cs := ChildrenOf(listing, p);
    ChildrenAreListed(listing, p);
    if StrictlyBelow(listing, x, p) {
      var line :| Descends(listing, line, p, x) && |line| > 1;
      assert Entry(line[1], line[0]) in listing;
      var k :| 0 <= k < |cs| && cs[k] == line[1];
      assert Descends(listing, line[1..], cs[k], x);
    }
    if Under(listing, cs, x) {
      var k, line :| 0 <= k < |cs| && Descends(listing, line, cs[k], x);
      assert cs[k] in cs;
      OneStepDown(listing, cs[k], p, line, x);
    }
  }

  lemma UnderSplits(listing: seq<Entry>, cs: seq<int>, x: int)
    requires cs != []
    ensures Under(listing, cs, x) <==> x == cs[0] || StrictlyBelow(listing, x, cs[0]) || Under(listing, cs[1..], x)
  {
    if Under(listing, cs, x) {
      var k, line :| 0 <= k < |cs| && Descends(listing, line, cs[k], x);
      if k > 0 { assert Descends(listing, line, cs[1..][k - 1], x); }
    }
    if x == cs[0] { assert Descends(listing, [x], cs[0], x); }
    if StrictlyBelow(listing, x, cs[0]) {
      var line :| Descends(listing, line, cs[0], x) && |line| > 1;
    }
    if Under(listing, cs[1..], x) {
      var k, line :| 0 <= k < |cs[1..]| && Descends(listing, line, cs[1..][k], x);
      assert Descends(listing, line, cs[k + 1], x);
    }
  }

  lemma {:induction false} VisitedExactly(listing: seq<Entry>, height: Heights, cs: seq<int>, bound: nat, x: int)
    requires Forest(listing, height) && Lower(listing, height, cs, bound)
    ensures x in Visited(listing, height, cs, bound) <==> Under(listing, cs, x)
    decreases bound, |cs|
  {
    if cs != [] {
      ChildrenAreLower(listing, height, cs[0]);
      VisitedExactly(listing, height, ChildrenOf(listing, cs[0]), height(cs[0]), x);
      VisitedExactly(listing, height, cs[1..], bound, x);
      BelowIsUnderChildren(listing, cs[0], x);
      UnderSplits(listing, cs, x);
    }
  }

  /** Exactly the strict descendants of the root are visited. */
  lemma ExactlyDescendants(listing: seq<Entry>, height: Heights, p: int, x: int)
    requires Forest(listing, height)
    ensures x in Below(listing, height, p) <==> StrictlyBelow(listing, x, p)
  {
    ChildrenAreLower(listing, height, p);
    VisitedExactly(listing, height, ChildrenOf(listing, p), height(p), x);
    BelowIsUnderChildren(listing, p, x);
  }

  /** Each visited process is followed by its parent, or is one of those the visit began with. */
  lemma {:induction false} ParentFollows(listing: seq<Entry>, height: Heights, cs: seq<int>, bound: nat, i: nat)
    requires Forest(listing, height) && Lower(listing, height, cs, bound) && i < |Visited(listing, height, cs, bound)|
    ensures var r := Visited(listing, height, cs, bound);
            r[i] in cs || exists j :: i < j < |r| && Entry(r[i], r[j]) in listing
    decreases bound, |cs|
  {
    ChildrenAreLower(listing, height, cs[0]);
    ChildrenAreListed(listing, cs[0]);
    var r := Visited(listing, height, cs, bound);
    var a := Visited(listing, height, ChildrenOf(listing, cs[0]), height(cs[0]));
    var b := Visited(listing, height, cs[1..], bound);
    assert r == a + [cs[0]] + b;
    if i < |a| {
      ParentFollows(listing, height, ChildrenOf(listing, cs[0]), height(cs[0]), i);
      if a[i] in ChildrenOf(listing, cs[0]) {
        assert Entry(r[i], r[|a|]) in listing;
      } else {
        var j :| i < j < |a| && Entry(a[i], a[j]) in listing;
        assert Entry(r[i], r[j]) in listing;
      }
    } else if i > |a| {
      var m := |a| + 1;
      ParentFollows(listing, height, cs[1..], bound, i - m);
      if b[i - m] !in cs[1..] {
        var j :| i - m < j < |b| && Entry(b[i - m], b[j]) in listing;
        assert Entry(r[i], r[j + m]) in listing;
      }
    }
  }

  lemma {:induction false} LineDescends(listing: seq<Entry>, height: Heights, line: seq<int>)
    requires Forest(listing, height) && Descent(listing, line)
    ensures height(line[|line| - 1]) <= height(line[0])
    ensures |line| > 1 ==> height(line[|line| - 1]) < height(line[0])
  {
    if |line| > 1 {
      var n := |line| - 1;
      assert Descent(listing, line[..n]);
      LineDescends(listing, height, line[..n]);
      assert Entry(line[n], line[n - 1]) in listing;
    }
  }

  /** Two lines to one process agree from the end: a process has one parent. */
  lemma {:induction false} LinesAgree(listing: seq<Entry>, height: Heights, a: seq<int>, b: seq<int>)
    requires Forest(listing, height) && Descent(listing, a) && Descent(listing, b) && |a| <= |b|
    requires a[|a| - 1] == b[|b| - 1]
    ensures b[|b| - |a|] == a[0]
  {
    if |a| > 1 {
      var n, m := |a| - 1, |b| - 1;
      OneParent(listing, height, a[n], a[n - 1], b[m - 1]);
      LinesAgree(listing, height, a[..n], b[..m]);
    }
  }

  lemma OneParent(listing: seq<Entry>, height: Heights, c: int, p: int, q: int)
    requires Forest(listing, height) && Entry(c, p) in listing && Entry(c, q) in listing
    ensures p == q
  {
    var i :| 0 <= i < |listing| && listing[i] == Entry(c, p);
    var j :| 0 <= j < |listing| && listing[j] == Entry(c, q);
  }

  /** Nothing is under two children of one process. */
  lemma SiblingsAreApart(listing: seq<Entry>, height: Heights, p: int, c: int, d: int, x: int, a: seq<int>, b: seq<int>)
    requires Forest(listing, height) && Entry(c, p) in listing && Entry(d, p) in listing
    requires Descends(listing, a, c, x) && Descends(listing, b, d, x) && |a| <= |b|
    ensures c == d
  {
    LinesAgree(listing, height, a, b);
    var k := |b| - |a|;
    if k > 0 {
      assert Entry(b[k], b[k - 1]) in listing;
      OneParent(listing, height, c, p, b[k - 1]);
      LineDescends(listing, height, b[..k]);
    }
  }

  lemma {:induction false} ChildrenOnce(listing: seq<Entry>, height: Heights, p: int)
    requires Forest(listing, height)
    ensures NoRepeats(ChildrenOf(listing, p))
  {
    if listing != [] {
      var n := |listing| - 1;
      ChildrenOnce(listing[..n], height, p);
      ChildrenAreListed(listing[..n], p);
      assert forall c :: Entry(c, p) in listing[..n] ==> c != listing[n].child;
    }
  }

  lemma NotBelowItself(listing: seq<Entry>, height: Heights, p: int)
    requires Forest(listing, height)
    ensures !StrictlyBelow(listing, p, p)
  {
    forall line | Descends(listing, line, p, p) ensures |line| <= 1 { LineDescends(listing, height, line); }
  }

  /** What is under one child is under no other. */
  lemma ApartFromRest(listing: seq<Entry>, height: Heights, cs: seq<int>, p: int, x: int)
    requires Forest(listing, height) && cs != [] && NoRepeats(cs) && forall c :: c in cs ==> Entry(c, p) in listing
    ensures !((x == cs[0] || StrictlyBelow(listing, x, cs[0])) && Under(listing, cs[1..], x))
  {
    if x == cs[0] { assert Descends(listing, [x], cs[0], x); }
    forall a, k, b | Descends(listing, a, cs[0], x) && 0 <= k < |cs[1..]| && Descends(listing, b, cs[1..][k], x)
      ensures cs[0] == cs[k + 1]
    {
      assert cs[k + 1] in cs && cs[1..][k] == cs[k + 1];
      if |a| <= |b| {
        SiblingsAreApart(listing, height, p, cs[0], cs[k + 1], x, a, b);
      } else {
        SiblingsAreApart(listing, height, p, cs[k + 1], cs[0], x, b, a);
      }
    }
  }

  lemma {:induction false} VisitedOnce(listing: seq<Entry>, height: Heights, cs: seq<int>, bound: nat, p: int)
    requires Forest(listing, height) && Lower(listing, height, cs, bound)
    requires NoRepeats(cs) && forall c :: c in cs ==> Entry(c, p) in listing
    ensures NoRepeats(Visited(listing, height, cs, bound))
    decreases bound, |cs|
  {
    if cs != [] {
      var kids := ChildrenOf(listing, cs[0]);
      ChildrenAreLower(listing, height, cs[0]);
      ChildrenOnce(listing, height, cs[0]);
      ChildrenAreListed(listing, cs[0]);
      VisitedOnce(listing, height, kids, height(cs[0]), cs[0]);
      VisitedOnce(listing, height, cs[1..], bound, p);
      var a, b := Visited(listing, height, kids, height(cs[0])), Visited(listing, height, cs[1..], bound);
      NotBelowItself(listing, height, cs[0]);
      forall x ensures x in a ==> x != cs[0] && x !in b {
        ExactlyDescendants(listing, height, cs[0], x);
        VisitedExactly(listing, height, cs[1..], bound, x);
        ApartFromRest(listing, height, cs, p, x);
      }
      VisitedExactly(listing, height, cs[1..], bound, cs[0]);
      ApartFromRest(listing, height, cs, p, cs[0]);
      Together(a, cs[0], b);
    }
  }

  lemma Together(a: seq<int>, c: int, b: seq<int>)
    requires NoRepeats(a) && NoRepeats(b) && c !in a && c !in b && forall x :: x in a ==> x !in b
    ensures NoRepeats(a + [c] + b)
  {
    var r := a + [c] + b;
    forall i, j | 0 <= i < j < |r| ensures r[i] != r[j] {
      if i < |a| { assert r[i] in a; }
      if j > |a| { assert r[j] in b; }
    }
  }

  /**
   The order is a post-order: the root and exactly its strict descendants, each
   once, the root last and every other process before its own parent.
   */
  lemma KillOrderIsPostOrder(listing: seq<Entry>, height: Heights, pid: int)
    requires Forest(listing, height)
    ensures var targets := Below(listing, height, pid) + [pid];
            && (forall x :: x in targets <==> x == pid || StrictlyBelow(listing, x, pid))
            && NoRepeats(targets)
            && forall i :: 0 <= i < |targets| - 1 ==> exists j :: i < j < |targets| && Entry(targets[i], targets[j]) in listing
  {
    var below := Below(listing, height, pid);
    var targets := below + [pid];
    forall x ensures x in below <==> StrictlyBelow(listing, x, pid) { ExactlyDescendants(listing, height, pid, x); }
    ChildrenAreLower(listing, height, pid);
    ChildrenOnce(listing, height, pid);
    ChildrenAreListed(listing, pid);
    VisitedOnce(listing, height, ChildrenOf(listing, pid), height(pid), pid);
    NotBelowItself(listing, height, pid);
    forall i | 0 <= i < |targets| - 1 ensures exists j :: i < j < |targets| && Entry(targets[i], targets[j]) in listing {
      ParentFollows(listing, height, ChildrenOf(listing, pid), height(pid), i);
      if below[i] in ChildrenOf(listing, pid) {
        assert Entry(targets[i], targets[|below|]) in listing;
      } else {
        var j :| i < j < |below| && Entry(below[i], below[j]) in listing;
        assert Entry(targets[i], targets[j]) in listing;
      }
    }
  }
}
