/**
 Cutting a covering catch-up batch anywhere, any number of times, and resuming
 from the cursor each time ends exactly where one uninterrupted batch would.
 */
module CutAndResume {
  import opened Options
  import opened Protocol
  import opened Sequences
  import opened EventStore
  import opened Delivery

  /** What the log owes a cursor on some topics, in order. */
  function Owing(log: seq<Event>, topics: set<string>, after: int): seq<Event> {
    InScope(Rows(log, 0, topics, after))
  }

  function ReplayFrames(events: seq<Event>): seq<Frame> {
    if events == [] then [] else [EventFrame(events[0], true)] + ReplayFrames(events[1..])
  }

  /** The frames that answer a covering subscribe from cursor `c`: ack, batch, receipt. */
  function BatchFrames(c: int, r: ReplayResult): seq<Frame> {
    [AckFrame(Some(c), true)] + ReplayFrames(r.events)
    + (if r.cursor > c then [ReplayComplete(true, Some(r.cursor))] else [])
  }

  function ReceiveAll(t: Tracker, frames: seq<Frame>): Tracker
    decreases frames
  {
    if frames == [] then t else ReceiveAll(t.Receive(frames[0]), frames[1..])
  }

  /** One connection: the log as it was read, and how many frames arrived before the cut. */
  datatype Attempt = Attempt(store: Store, arrived: nat)

  function Answer(t: Tracker, topics: set<string>, store: Store, bound: nat): ReplayResult
    requires bound > 0
  {
    Replay(store, topics, Some(t.highest), bound)
  }

  /** The cut falls before the receipt. */
  predicate CutShort(t: Tracker, topics: set<string>, a: Attempt, bound: nat)
    requires bound > 0
  {
    a.arrived <= 1 + |Answer(t, topics, a.store, bound).events|
  }

  function AfterCut(t: Tracker, topics: set<string>, a: Attempt, bound: nat): Tracker
    requires bound > 0 && CutShort(t, topics, a, bound)
  {
    ReplayFramesLength(Answer(t, topics, a.store, bound).events);
    ReceiveAll(t, BatchFrames(t.highest, Answer(t, topics, a.store, bound))[..a.arrived])
  }

  function Completed(t: Tracker, topics: set<string>, store: Store, bound: nat): Tracker
    requires bound > 0
  {
    ReceiveAll(t, BatchFrames(t.highest, Answer(t, topics, store, bound)))
  }

  /** Every read along the way is answered without a reset, from a log that only grows, up to `last`. */
  ghost predicate Resumable(t: Tracker, topics: set<string>, attempts: seq<Attempt>, last: Store, bound: nat)
    requires bound > 0
    decreases attempts
  {
    if attempts == [] then
      ValidStore(last) && 0 < t.highest <= Newest(last.log) && !Answer(t, topics, last, bound).gap
    else
      && ValidStore(attempts[0].store) && 0 < t.highest <= Newest(attempts[0].store.log)
      && attempts[0].store.log <= last.log
      && !Answer(t, topics, attempts[0].store, bound).gap
      && CutShort(t, topics, attempts[0], bound)
      && Resumable(AfterCut(t, topics, attempts[0], bound), topics, attempts[1..], last, bound)
  }

  function Resumed(t: Tracker, topics: set<string>, attempts: seq<Attempt>, last: Store, bound: nat): Tracker
    requires bound > 0 && Resumable(t, topics, attempts, last, bound)
    decreases attempts
  {
    if attempts == [] then Completed(t, topics, last, bound)
    else Resumed(AfterCut(t, topics, attempts[0], bound), topics, attempts[1..], last, bound)
  }

  // ------------------------------------------------------------------ //
  // Applying a stretch of a batch
  // ------------------------------------------------------------------ //

  function Applied(t: Tracker, events: seq<Event>): Tracker
    decreases events
  {
    if events == [] then t
    else Applied(t.Accept(Envelope(Some(events[0].id), Some(events[0].topic), true)), events[1..])
  }

  lemma {:induction false} ReplayFramesLength(events: seq<Event>)
    ensures |ReplayFrames(events)| == |events|
  {
    if events != [] { ReplayFramesLength(events[1..]); }
  }

  lemma {:induction false} ReceiveReplay(t: Tracker, events: seq<Event>, n: nat, rest: seq<Frame>)
    requires n <= |events|
    ensures |ReplayFrames(events)| == |events|
    ensures ReceiveAll(t, ReplayFrames(events)[..n]) == Applied(t, events[..n])
    ensures ReceiveAll(t, ReplayFrames(events) + rest) == ReceiveAll(Applied(t, events), rest)
    decreases events
  {
    ReplayFramesLength(events);
    ReceiveFirst(t, events, n);
    ReceiveThrough(t, events, rest);
  }

  lemma {:induction false} ReceiveFirst(t: Tracker, events: seq<Event>, n: nat)
    requires n <= |events| == |ReplayFrames(events)|
    ensures ReceiveAll(t, ReplayFrames(events)[..n]) == Applied(t, events[..n])
    decreases events
  {
    if n > 0 {
      ReplayFramesLength(events[1..]);
      assert ReplayFrames(events)[..n][1..] == ReplayFrames(events[1..])[..n - 1];
      assert events[..n][1..] == events[1..][..n - 1];
      ReceiveFirst(t.Accept(Envelope(Some(events[0].id), Some(events[0].topic), true)), events[1..], n - 1);
    }
  }

  lemma {:induction false} ReceiveThrough(t: Tracker, events: seq<Event>, rest: seq<Frame>)
    ensures ReceiveAll(t, ReplayFrames(events) + rest) == ReceiveAll(Applied(t, events), rest)
    decreases events
  {
    if events == [] {
      assert ReplayFrames(events) + rest == rest;
    } else {
      assert (ReplayFrames(events) + rest)[1..] == ReplayFrames(events[1..]) + rest;
      ReceiveThrough(t.Accept(Envelope(Some(events[0].id), Some(events[0].topic), true)), events[1..], rest);
    }
  }

  lemma {:induction false} AppliedInTwo(t: Tracker, a: seq<Event>, b: seq<Event>)
    ensures Applied(t, a + b) == Applied(Applied(t, a), b)
    decreases a
  {
    if a == [] {
      assert a + b == b;
    } else {
      assert (a + b)[1..] == a[1..] + b;
      AppliedInTwo(t.Accept(Envelope(Some(a[0].id), Some(a[0].topic), true)), a[1..], b);
    }
  }

  /** While the window is not full, what was applied stays remembered and the cursor ends at the last news. */
  lemma {:induction false} AppliedRemembers(t: Tracker, events: seq<Event>)
    requires Ascending(events) && t.batchRetires
    requires |t.order| + |events| <= DEDUPE_WINDOW
    ensures var t' := Applied(t, events);
            && t'.batchRetires
            && |t'.order| <= |t.order| + |events|
            && t.highest <= t'.highest
            && (forall id :: id in t'.order <==> id in t.order || exists e :: e in events && e.id == id)
            && (NoRepeats(t.order) ==> NoRepeats(t'.order))
            && (t'.highest == t.highest || exists e :: e in events && e.id == t'.highest)
    decreases events
  {
    if events != [] {
      var t1 := t.Accept(Envelope(Some(events[0].id), Some(events[0].topic), true));
      AppliedRemembers(t1, events[1..]);
      assert forall e :: e in events <==> e == events[0] || e in events[1..];
      assert forall id :: id in t1.order <==> id in t.order || id == events[0].id;
    }
  }

  /** Events already remembered change nothing. */
  lemma {:induction false} AppliedAgain(t: Tracker, events: seq<Event>)
    requires forall e :: e in events ==> e.id in t.order
    ensures Applied(t, events) == t
    decreases events
  {
    if events != [] { AppliedAgain(t, events[1..]); }
  }

  // ------------------------------------------------------------------ //
  // What is owed after a cut
  // ------------------------------------------------------------------ //

  lemma {:induction false} AscendingIsUnique(a: seq<Event>, b: seq<Event>)
    requires Ascending(a) && Ascending(b) && forall e :: e in a <==> e in b
    ensures a == b
    decreases a
  {
    assert a == [] || a[0] in a;
    assert b == [] || b[0] in b;
    if a != [] && b != [] {
      assert a[0] == b[0];
      assert forall e :: e in a[1..] <==> e in a && e != a[0];
      assert forall e :: e in b[1..] <==> e in b && e != b[0];
      AscendingIsUnique(a[1..], b[1..]);
    }
  }

  lemma OwingIsExact(log: seq<Event>, topics: set<string>, after: int)
    requires Ascending(log)
    ensures Ascending(Owing(log, topics, after))
    ensures forall e :: e in Owing(log, topics, after) <==>
              e in log && e.inScope && e.topic in topics && e.id > 0 && e.id > after
  {
    RowsAreExact(log, 0, topics, after);
    InScopeIsExact(Rows(log, 0, topics, after));
  }

  /** A read without a gap carries exactly what is owed. */
  lemma AnswerIsOwing(t: Tracker, topics: set<string>, store: Store, bound: nat)
    requires ValidStore(store) && 0 < t.highest <= Newest(store.log) && "" !in topics && bound > 0
    requires !Answer(t, topics, store, bound).gap
    ensures var r := Answer(t, topics, store, bound);
            r.events == Owing(store.log, topics, t.highest) && t.highest <= r.cursor
  {
    ReplayHandsOver(store, topics, t.highest, bound);
    OwingIsExact(store.log, topics, t.highest);
    AscendingIsUnique(Answer(t, topics, store, bound).events, Owing(store.log, topics, t.highest));
  }

  lemma SplitAt(all: seq<Event>, at: int) returns (k: nat)
    requires Ascending(all)
    ensures k <= |all|
    ensures forall i :: 0 <= i < |all| ==> (all[i].id <= at <==> i < k)
  {
    k := 0;
    while k < |all| && all[k].id <= at
      invariant k <= |all|
      invariant forall i :: 0 <= i < k ==> all[i].id <= at
    {
      k := k + 1;
    }
  }

  /** What is owed splits at any cursor; the later part is what a resume from there is owed. */
  lemma OwingSplits(log: seq<Event>, topics: set<string>, after: int, at: int) returns (k: nat)
    requires Ascending(log) && after <= at
    ensures var all := Owing(log, topics, after);
            k <= |all| && Ascending(all) && all[k..] == Owing(log, topics, at) && forall i :: 0 <= i < |all| ==> (all[i].id <= at <==> i < k)
  {
    OwingIsExact(log, topics, after);
    OwingIsExact(log, topics, at);
    var all := Owing(log, topics, after);
    k := SplitAt(all, at);
    var rest := all[k..];
    assert Ascending(rest);
    forall e ensures e in rest <==> e in all && e.id > at {
      if e in all && e.id > at {
        var i :| 0 <= i < |all| && all[i] == e;
        assert rest[i - k] == e;
      }
    }
    AscendingIsUnique(rest, Owing(log, topics, at));
  }

  /** A longer log owes the same events first. */
  lemma OwingGrows(log: seq<Event>, log': seq<Event>, topics: set<string>, after: int)
    requires Ascending(log') && log <= log'
    ensures Owing(log, topics, after) <= Owing(log', topics, after)
  {
    assert Ascending(log);
    var k := OwingSplits(log', topics, after, Max(after, Newest(log)));
    var all := Owing(log', topics, after);
    OwingIsExact(log, topics, after);
    OwingIsExact(log', topics, after);
    forall e ensures e in all[..k] <==> e in Owing(log, topics, after) {
      if e in all[..k] {
        var i :| 0 <= i < |log'| && log'[i] == e;
        assert i < |log|;
      }
      if e in Owing(log, topics, after) {
        assert e in all && e.id <= Newest(log);
      }
    }
    AscendingIsUnique(all[..k], Owing(log, topics, after));
  }

  // ------------------------------------------------------------------ //
  // The theorem
  // ------------------------------------------------------------------ //

  /**
   The console part-way through what it was owed from `c0`: it applied the first
   `n` events and holds the cursor that left it with.
   */
  ghost predicate PartWay(t0: Tracker, t: Tracker, owed: seq<Event>, n: nat) {
    && n <= |owed|
    && t.order == Applied(t0.(batchRetires := true), owed[..n]).order
    && t.highest == Applied(t0.(batchRetires := true), owed[..n]).highest
  }

  lemma CutIsPartWay(t: Tracker, topics: set<string>, a: Attempt, bound: nat)
    requires ValidStore(a.store) && 0 < t.highest <= Newest(a.store.log) && "" !in topics && bound > 0
    requires !Answer(t, topics, a.store, bound).gap && CutShort(t, topics, a, bound)
    ensures var owed := Owing(a.store.log, topics, t.highest);
            PartWay(t, AfterCut(t, topics, a, bound), owed, if a.arrived == 0 then 0 else a.arrived - 1)
  {
    var r := Answer(t, topics, a.store, bound);
    AnswerIsOwing(t, topics, a.store, bound);
    ReplayFramesLength(r.events);
    var frames := BatchFrames(t.highest, r)[..a.arrived];
    if a.arrived > 0 {
      assert frames[1..] == ReplayFrames(r.events)[..a.arrived - 1];
      ReceiveReplay(t.(batchRetires := true), r.events, a.arrived - 1, []);
    } else {
      assert frames == [];
    }
  }

  /** The cursor never passes the events that arrived. */
  lemma CursorIsBehind(t1: Tracker, owed: seq<Event>, n: nat, k: nat)
    requires Ascending(owed) && n <= |owed| && t1.batchRetires && k <= |owed|
    requires |t1.order| + |owed| <= DEDUPE_WINDOW
    requires forall e :: e in owed ==> e.id > t1.highest
    requires forall i :: 0 <= i < k ==> owed[i].id <= Applied(t1, owed[..n]).highest
    ensures k <= n
  {
    AppliedRemembers(t1, owed[..n]);
    if n < |owed| {
      assert owed[n] in owed;
      assert forall e :: e in owed[..n] ==> e.id < owed[n].id;
    }
  }

  /** Re-reading from `k` up to `m` after the first `n` arrived amounts to the first `max(n, m)`. */
  lemma OverlapIsHarmless(t1: Tracker, owed: seq<Event>, k: nat, n: nat, m: nat)
    requires Ascending(owed) && k <= n <= |owed| && k <= m <= |owed| && t1.batchRetires
    requires |t1.order| + |owed| <= DEDUPE_WINDOW
    ensures Applied(Applied(t1, owed[..n]), owed[k..m]) == Applied(t1, owed[..if m > n then m else n])
  {
    var t := Applied(t1, owed[..n]);
    AppliedRemembers(t1, owed[..n]);
    if m > n {
      SeenBefore(t, owed, k, n, n);
      SliceInTwo(owed, k, n, m);
      AppliedInTwo(t, owed[k..n], owed[n..m]);
      SliceInTwo(owed, 0, n, m);
      AppliedInTwo(t1, owed[..n], owed[n..m]);
    } else {
      SeenBefore(t, owed, k, m, n);
    }
  }

  lemma SeenBefore(t: Tracker, owed: seq<Event>, k: nat, m: nat, n: nat)
    requires k <= m <= n <= |owed|
    requires forall e :: e in owed[..n] ==> e.id in t.order
    ensures Applied(t, owed[k..m]) == t
  {
    assert forall e :: e in owed[k..m] ==> e in owed[..n];
    AppliedAgain(t, owed[k..m]);
  }

  /** Part of what a part-way console is owed brings it further along, and all of it to the end. */
  lemma PartWayContinues(t0: Tracker, t: Tracker, log: seq<Event>, topics: set<string>, n: nat, m: nat) returns (n': nat)
    requires Ascending(log) && t0.highest > 0
    requires PartWay(t0, t, Owing(log, topics, t0.highest), n)
    requires |t0.order| + |Owing(log, topics, t0.highest)| <= DEDUPE_WINDOW
    requires m <= |Owing(log, topics, t.highest)|
    ensures n' <= |Owing(log, topics, t0.highest)|
    ensures Applied(t.(batchRetires := true), Owing(log, topics, t.highest)[..m])
            == Applied(t0.(batchRetires := true), Owing(log, topics, t0.highest)[..n'])
    ensures m == |Owing(log, topics, t.highest)| ==> n' == |Owing(log, topics, t0.highest)|
  {
    OwingIsExact(log, topics, t0.highest);
    AppliedRemembers(t0.(batchRetires := true), Owing(log, topics, t0.highest)[..n]);
    var k := OwingSplits(log, topics, t0.highest, t.highest);
    n' := ContinuesFrom(t0.(batchRetires := true), t.(batchRetires := true), Owing(log, topics, t0.highest),
                        Owing(log, topics, t.highest), k, n, m);
  }

  lemma ContinuesFrom(t1: Tracker, t: Tracker, owed: seq<Event>, again: seq<Event>, k: nat, n: nat, m: nat) returns (n': nat)
    requires Ascending(owed) && t1.batchRetires && |t1.order| + |owed| <= DEDUPE_WINDOW
    requires forall e :: e in owed ==> e.id > t1.highest
    requires n <= |owed| && t == Applied(t1, owed[..n])
    requires k <= |owed| && again == owed[k..] && m <= |again|
    requires forall i :: 0 <= i < |owed| ==> (owed[i].id <= t.highest <==> i < k)
    ensures n' <= |owed| && Applied(t, again[..m]) == Applied(t1, owed[..n'])
    ensures m == |again| ==> n' == |owed|
  {
    CursorIsBehind(t1, owed, n, k);
    SliceOfRest(owed, k, m);
    OverlapIsHarmless(t1, owed, k, n, k + m);
    n' := if k + m > n then k + m else n;
  }

  lemma CompletedApplies(t: Tracker, topics: set<string>, store: Store, bound: nat)
    requires ValidStore(store) && 0 < t.highest <= Newest(store.log) && "" !in topics && bound > 0
    requires !Answer(t, topics, store, bound).gap
    ensures var r := Answer(t, topics, store, bound);
            var applied := Applied(t.(batchRetires := true), Owing(store.log, topics, t.highest));
            Completed(t, topics, store, bound) == if r.cursor > t.highest then applied.ApplyReplayComplete(true, Some(r.cursor)) else applied
  {
    var r := Answer(t, topics, store, bound);
    AnswerIsOwing(t, topics, store, bound);
    var receipt := if r.cursor > t.highest then [ReplayComplete(true, Some(r.cursor))] else [];
    var frames := BatchFrames(t.highest, r);
    assert frames[1..] == ReplayFrames(r.events) + receipt;
    ReceiveReplay(t.(batchRetires := true), r.events, 0, receipt);
    if r.cursor > t.highest { assert receipt[1..] == []; }
  }

  /** `x` is the last row of the topics beyond `c`, or `c` if there is none. */
  ghost predicate IsLastRow(log: seq<Event>, topics: set<string>, c: int, x: int) {
    && x >= c
    && (forall e :: e in log && e.topic in topics && e.id > c ==> e.id <= x)
    && (x == c || exists e :: e in log && e.topic in topics && e.id == x)
  }

  lemma LastRowFromEarlier(log: seq<Event>, topics: set<string>, c: int, h: int, x: int)
    requires IsLastRow(log, topics, h, x) && c <= h
    requires h == c || exists e :: e in log && e.topic in topics && e.id == h
    ensures IsLastRow(log, topics, c, x)
  {
  }

  lemma CompletedEndsAtLastRow(t: Tracker, topics: set<string>, store: Store, bound: nat)
    requires ValidStore(store) && 0 < t.highest <= Newest(store.log) && "" !in topics && bound > 0
    requires !Answer(t, topics, store, bound).gap
    requires |t.order| + |Owing(store.log, topics, t.highest)| <= DEDUPE_WINDOW
    ensures IsLastRow(store.log, topics, t.highest, Completed(t, topics, store, bound).highest)
    ensures Completed(t, topics, store, bound).highest == Answer(t, topics, store, bound).cursor
  {
    CompletedApplies(t, topics, store, bound);
    OwingIsExact(store.log, topics, t.highest);
    AppliedRemembers(t.(batchRetires := true), Owing(store.log, topics, t.highest));
    ReplayHandsOver(store, topics, t.highest, bound);
    ReplayCursorIsARow(store, topics, t.highest, bound);
  }

  lemma {:induction false} CutsCompose(
    t0: Tracker, t: Tracker, n: nat, topics: set<string>, attempts: seq<Attempt>, last: Store, bound: nat)
    requires bound > 0 && "" !in topics && t0.highest > 0
    requires Resumable(t, topics, attempts, last, bound) && ValidStore(last)
    requires PartWay(t0, t, Owing(last.log, topics, t0.highest), n)
    requires |t0.order| + |Owing(last.log, topics, t0.highest)| <= DEDUPE_WINDOW
    ensures var applied := Applied(t0.(batchRetires := true), Owing(last.log, topics, t0.highest));
            var done := Resumed(t, topics, attempts, last, bound);
            done.order == applied.order && done.batchRetires && IsLastRow(last.log, topics, t0.highest, done.highest)
    decreases attempts
  {
    if attempts == [] {
      LastLegCompletes(t0, t, n, topics, last, bound);
    } else {
      var a := attempts[0];
      CutIsPartWay(t, topics, a, bound);
      OwingGrows(a.store.log, last.log, topics, t.highest);
      var m := if a.arrived == 0 then 0 else a.arrived - 1;
      assert Owing(a.store.log, topics, t.highest)[..m] == Owing(last.log, topics, t.highest)[..m];
      var n' := PartWayContinues(t0, t, last.log, topics, n, m);
      CutsCompose(t0, AfterCut(t, topics, a, bound), n', topics, attempts[1..], last, bound);
    }
  }

  lemma LastLegCompletes(t0: Tracker, t: Tracker, n: nat, topics: set<string>, last: Store, bound: nat)
    requires bound > 0 && "" !in topics && t0.highest > 0
    requires Resumable(t, topics, [], last, bound)
    requires PartWay(t0, t, Owing(last.log, topics, t0.highest), n)
    requires |t0.order| + |Owing(last.log, topics, t0.highest)| <= DEDUPE_WINDOW
    ensures var applied := Applied(t0.(batchRetires := true), Owing(last.log, topics, t0.highest));
            var done := Completed(t, topics, last, bound);
            done.order == applied.order && done.batchRetires && IsLastRow(last.log, topics, t0.highest, done.highest)
  {
    var owed, again := Owing(last.log, topics, t0.highest), Owing(last.log, topics, t.highest);
    var n' := PartWayContinues(t0, t, last.log, topics, n, |again|);
    assert again[..|again|] == again && owed[..n'] == owed;
    CompletedApplies(t, topics, last, bound);
    OwingIsExact(last.log, topics, t0.highest);
    AppliedRemembers(t0.(batchRetires := true), owed[..n]);
    AppliedRemembers(t0.(batchRetires := true), owed);
    LastLegCursor(t0, t, n, topics, last, bound);
  }

  /** The cursor part way is where it began or at a row of the topics. */
  lemma PartWayIsAhead(t0: Tracker, t: Tracker, log: seq<Event>, topics: set<string>, n: nat)
    requires Ascending(log) && PartWay(t0, t, Owing(log, topics, t0.highest), n)
    requires |t0.order| + |Owing(log, topics, t0.highest)| <= DEDUPE_WINDOW
    ensures t0.highest <= t.highest
    ensures t.highest == t0.highest || exists e :: e in log && e.topic in topics && e.id == t.highest
  {
    var owed := Owing(log, topics, t0.highest);
    OwingIsExact(log, topics, t0.highest);
    AppliedRemembers(t0.(batchRetires := true), owed[..n]);
    assert forall e :: e in owed[..n] ==> e in owed;
  }

  lemma LastLegCursor(t0: Tracker, t: Tracker, n: nat, topics: set<string>, last: Store, bound: nat)
    requires bound > 0 && "" !in topics && t0.highest > 0
    requires Resumable(t, topics, [], last, bound)
    requires PartWay(t0, t, Owing(last.log, topics, t0.highest), n)
    requires |t0.order| + |Owing(last.log, topics, t0.highest)| <= DEDUPE_WINDOW
    ensures IsLastRow(last.log, topics, t0.highest, Completed(t, topics, last, bound).highest)
  {
    var again := Owing(last.log, topics, t.highest);
    PartWayIsAhead(t0, t, last.log, topics, n);
    OwingIsExact(last.log, topics, t.highest);
    AnswerIsOwing(t, topics, last, bound);
    ReplayHandsOver(last, topics, t.highest, bound);
    ReplayCursorIsARow(last, topics, t.highest, bound);
    CompletedApplies(t, topics, last, bound);
    AppliedStaysBelow(t.(batchRetires := true), again, Answer(t, topics, last, bound).cursor);
    LastRowFromEarlier(last.log, topics, t0.highest, t.highest, Completed(t, topics, last, bound).highest);
  }

  lemma {:induction false} AppliedStaysBelow(t: Tracker, events: seq<Event>, x: int)
    requires t.highest <= x && forall e :: e in events ==> e.id <= x
    ensures t.highest <= Applied(t, events).highest <= x
    decreases events
  {
    if events != [] {
      assert events[0] in events;
      AppliedStaysBelow(t.Accept(Envelope(Some(events[0].id), Some(events[0].topic), true)), events[1..], x);
    }
  }

  /**
   However often a covering batch is cut and resumed, the console ends exactly
   where one complete, uninterrupted read of the same log leaves it: the same
   ids applied in the same order, and the same cursor.
   */
  lemma CutAndResumeIsUninterrupted(
    t: Tracker, topics: set<string>, attempts: seq<Attempt>, last: Store, bound: nat, whole: Store, enough: nat)
    requires bound > 0 && enough > 0 && "" !in topics
    requires 0 < t.highest <= Newest(last.log) && ValidStore(last) && ValidStore(whole) && whole.log == last.log
    requires Resumable(t, topics, attempts, last, bound)
    requires !Answer(t, topics, whole, enough).gap
    requires |t.order| + |Owing(last.log, topics, t.highest)| <= DEDUPE_WINDOW
    ensures Resumed(t, topics, attempts, last, bound) == Completed(t, topics, whole, enough)
  {
    var owed := Owing(last.log, topics, t.highest);
    assert owed[..0] == [];
    CutsCompose(t, t, 0, topics, attempts, last, bound);
    CompletedApplies(t, topics, whole, enough);
    OwingIsExact(last.log, topics, t.highest);
    AppliedRemembers(t.(batchRetires := true), owed);
    CompletedEndsAtLastRow(t, topics, whole, enough);
  }

  /** The uninterrupted batch applies exactly what lies between the cursors, each id once. */
  lemma CompletedAppliesExactly(t: Tracker, topics: set<string>, store: Store, bound: nat)
    requires ValidStore(store) && 0 < t.highest <= Newest(store.log) && "" !in topics && bound > 0
    requires !Answer(t, topics, store, bound).gap && NoRepeats(t.order)
    requires |t.order| + |Owing(store.log, topics, t.highest)| <= DEDUPE_WINDOW
    ensures var done := Completed(t, topics, store, bound);
            && NoRepeats(done.order)
            && done.highest == Answer(t, topics, store, bound).cursor
            && (forall id :: id in done.order <==>
                  (id in t.order ||
                   exists e :: e in store.log && e.inScope && e.topic in topics && e.id == id && t.highest < id <= done.highest))
  {
    CompletedApplies(t, topics, store, bound);
    CompletedEndsAtLastRow(t, topics, store, bound);
    OwingIsExact(store.log, topics, t.highest);
    AppliedRemembers(t.(batchRetires := true), Owing(store.log, topics, t.highest));
  }
}
