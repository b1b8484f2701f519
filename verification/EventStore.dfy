/**
 The durable event log: rows in id order, trimmed from the front, read back by
 cursor with gap detection.  `inScope` is the answer of the connection's own
 Org and Workspace filter for that row.
 */
module EventStore {
  import opened Options

  datatype Event = Event(id: int, topic: string, inScope: bool)

  /** Everything ever committed, and the id at and below which rows were pruned. */
  datatype Store = Store(log: seq<Event>, floor: int)

  ghost predicate Ascending(log: seq<Event>) {
    forall i, j :: 0 <= i < j < |log| ==> log[i].id < log[j].id
  }

  function Newest(log: seq<Event>): int {
    if log == [] then 0 else log[|log| - 1].id
  }

  /** Ids are positive and ascending, and pruning always leaves the newest row. */
  ghost predicate ValidStore(s: Store) {
    && Ascending(s.log)
    && (forall e :: e in s.log ==> e.id > 0)
    && 0 <= s.floor
    && (if s.log == [] then s.floor == 0 else s.floor < Newest(s.log))
  }

  datatype Reason = NoReason | CursorAhead | CursorExpired | ReplayTruncated

  datatype ReplayResult = ReplayResult(events: seq<Event>, cursor: int, gap: bool, reason: Reason)

  predicate Wanted(e: Event, floor: int, topics: set<string>, after: int) {
    e.id > floor && e.topic in topics && e.id > after
  }

  function Rows(log: seq<Event>, floor: int, topics: set<string>, after: int): seq<Event> {
    if log == [] then []
    else (if Wanted(log[0], floor, topics, after) then [log[0]] else []) + Rows(log[1..], floor, topics, after)
  }

  function InScope(rows: seq<Event>): seq<Event> {
    if rows == [] then [] else (if rows[0].inScope then [rows[0]] else []) + InScope(rows[1..])
  }

  function Earliest(s: Store): int
    decreases s.log
  {
    if s.log == [] then 0
    else if s.log[0].id > s.floor then s.log[0].id
    else Earliest(Store(s.log[1..], s.floor))
  }

  /** Events after `afterId` on `topics`, at most `bound` rows of them. */
  function Replay(s: Store, topics: set<string>, afterId: Option<int>, bound: nat): ReplayResult
    requires bound > 0
  {
    var newest := Newest(s.log);
    if afterId == None then ReplayResult([], newest, false, NoReason)
    else
      var after := afterId.value;
      if after < 0 || after > newest then ReplayResult([], newest, true, CursorAhead)
      else
        var earliest := Earliest(s);
        var expired := earliest != 0 && after + 1 < earliest;
        var reason := if expired then CursorExpired else NoReason;
        var wanted := topics - {""};
        if wanted == {} then ReplayResult([], if expired then newest else after, expired, reason)
        else
          var found := Rows(s.log, s.floor, wanted, after);
          var rows := if |found| > bound then found[..bound] else found;
          var cursor := if rows != [] then rows[|rows| - 1].id else after;
          if |found| > bound then ReplayResult(InScope(rows), cursor, true, ReplayTruncated)
          else ReplayResult(InScope(rows), if expired && rows == [] then newest else cursor, expired, reason)
  }

  // ------------------------------------------------------------------ //
  // What a replay hands over
  // ------------------------------------------------------------------ //

  lemma NewestIsLargest(s: Store)
    requires ValidStore(s)
    ensures Newest(s.log) >= 0
    ensures forall e :: e in s.log ==> e.id <= Newest(s.log)
  {
  }

  lemma {:induction false} RowsAreExact(log: seq<Event>, floor: int, topics: set<string>, after: int)
    requires Ascending(log)
    ensures Ascending(Rows(log, floor, topics, after))
    ensures forall e :: e in Rows(log, floor, topics, after) <==> e in log && Wanted(e, floor, topics, after)
  {
    if log != [] {
      RowsAreExact(log[1..], floor, topics, after);
      var rest := Rows(log[1..], floor, topics, after);
      forall e | e in rest ensures log[0].id < e.id {
        assert e in log[1..];
      }
      AscendingInFront(log[0], rest);
      assert forall e :: e in log <==> e == log[0] || e in log[1..];
    }
  }

  lemma AscendingInFront(e: Event, rest: seq<Event>)
    requires Ascending(rest) && forall x :: x in rest ==> e.id < x.id
    ensures Ascending([e] + rest)
  {
  }

  lemma {:induction false} InScopeIsExact(rows: seq<Event>)
    requires Ascending(rows)
    ensures Ascending(InScope(rows))
    ensures forall e :: e in InScope(rows) <==> e in rows && e.inScope
  {
    if rows != [] {
      InScopeIsExact(rows[1..]);
    }
  }

  lemma {:induction false} EarliestIsSmallestRetained(s: Store)
    requires Ascending(s.log) && forall e :: e in s.log ==> e.id > 0
    ensures forall e :: e in s.log && e.id > s.floor ==> 0 < Earliest(s) <= e.id
    ensures Earliest(s) != 0 ==> Earliest(s) > s.floor && exists e :: e in s.log && e.id == Earliest(s)
    decreases s.log
  {
    if s.log != [] && s.log[0].id <= s.floor {
      EarliestIsSmallestRetained(Store(s.log[1..], s.floor));
    } else if s.log != [] {
      assert s.log[0] in s.log;
    }
  }

  lemma PrefixKeepsOrder(found: seq<Event>, bound: nat)
    requires Ascending(found) && 0 < bound < |found|
    ensures var taken := found[..bound];
            && Ascending(taken)
            && (forall e :: e in taken ==> e in found && e.id <= taken[bound - 1].id)
            && taken[bound - 1].id < found[bound].id && found[bound] in found
  {
  }

  /** The rows one read takes: the first `bound` of the rows it wants. */
  function Taken(s: Store, topics: set<string>, after: int, bound: nat): seq<Event> {
    var found := Rows(s.log, s.floor, topics, after);
    if |found| > bound then found[..bound] else found
  }

  lemma TakenIsExact(s: Store, topics: set<string>, after: int, bound: nat)
    requires ValidStore(s) && bound > 0
    ensures var found, taken := Rows(s.log, s.floor, topics, after), Taken(s, topics, after, bound);
            && Ascending(taken) && Ascending(InScope(taken))
            && (forall e :: e in taken ==> e in s.log && Wanted(e, s.floor, topics, after) && e.id <= taken[|taken| - 1].id)
            && (forall e :: e in InScope(taken) <==> e in taken && e.inScope)
            && (|found| <= bound ==> forall e :: e in s.log && Wanted(e, s.floor, topics, after) ==> e in taken)
            && (|found| > bound ==>
                  found[bound] in s.log && Wanted(found[bound], s.floor, topics, after) && found[bound].id > taken[|taken| - 1].id)
  {
    var found := Rows(s.log, s.floor, topics, after);
    RowsAreExact(s.log, s.floor, topics, after);
    FirstOf(found, Taken(s, topics, after, bound), bound);
    InScopeIsExact(Taken(s, topics, after, bound));
  }

  lemma FirstOf(found: seq<Event>, taken: seq<Event>, bound: nat)
    requires Ascending(found) && bound > 0 && taken == if |found| > bound then found[..bound] else found
    ensures Ascending(taken) && forall e :: e in taken ==> e in found && e.id <= taken[|taken| - 1].id
    ensures |found| > bound ==> taken != [] && found[bound] in found && found[bound].id > taken[|taken| - 1].id
  {
    if |found| > bound { PrefixKeepsOrder(found, bound); }
  }

  /** A read as its taken rows: where it ends and whether it has a gap. */
  lemma ReplayIs(s: Store, topics: set<string>, after: int, bound: nat)
    requires ValidStore(s) && 0 <= after <= Newest(s.log) && "" !in topics && topics != {} && bound > 0
    ensures var r, taken := Replay(s, topics, Some(after), bound), Taken(s, topics, after, bound);
            && r.events == InScope(taken) && r.reason != CursorAhead
            && r.cursor == (if taken != [] then taken[|taken| - 1].id else if Expired(s, after) then Newest(s.log) else after)
            && (r.gap <==> Expired(s, after) || |Rows(s.log, s.floor, topics, after)| > bound)
  {
    assert topics - {""} == topics;
  }

  /** Rows that the cursor has not seen may be gone. */
  predicate Expired(s: Store, after: int) {
    Earliest(s) != 0 && after + 1 < Earliest(s)
  }

  lemma ReplayOfNothing(s: Store, after: int, bound: nat)
    requires ValidStore(s) && 0 <= after <= Newest(s.log) && bound > 0
    ensures var r := Replay(s, {}, Some(after), bound);
            r.events == [] && r.reason != CursorAhead && r.cursor == if Expired(s, after) then Newest(s.log) else after
  {
  }

  lemma ReplayBounds(s: Store, topics: set<string>, after: int, bound: nat)
    requires ValidStore(s) && 0 <= after <= Newest(s.log) && "" !in topics && topics != {} && bound > 0
    ensures var r := Replay(s, topics, Some(after), bound);
            && after <= r.cursor <= Newest(s.log)
            && (forall e :: e in r.events ==>
                  e in s.log && e.inScope && e.topic in topics && after < e.id <= r.cursor)
  {
    NewestIsLargest(s);
    TakenIsExact(s, topics, after, bound);
    ReplayIs(s, topics, after, bound);
    var taken := Taken(s, topics, after, bound);
    if taken != [] { assert taken[|taken| - 1] in taken; }
  }

  lemma ReplayIsComplete(s: Store, topics: set<string>, after: int, bound: nat)
    requires ValidStore(s) && 0 <= after <= Newest(s.log) && "" !in topics && topics != {} && bound > 0
    requires !Replay(s, topics, Some(after), bound).gap
    ensures var r := Replay(s, topics, Some(after), bound);
            forall e :: e in s.log && e.topic in topics && e.id > after ==>
              e.id <= r.cursor && (e.inScope ==> e in r.events)
  {
    EarliestIsSmallestRetained(s);
    TakenIsExact(s, topics, after, bound);
    ReplayIs(s, topics, after, bound);
    forall e | e in s.log && e.topic in topics && e.id > after ensures Wanted(e, s.floor, topics, after) {
    }
  }

  /** Some row is retained, and the first of them is not the one after the cursor, nor before it. */
  ghost predicate Skips(s: Store, after: int) {
    && (exists e :: e in s.log && e.id > s.floor)
    && forall e :: e in s.log && e.id > s.floor ==> e.id > after + 1
  }

  lemma ExpiredIff(s: Store, after: int)
    requires ValidStore(s)
    ensures Expired(s, after) <==> Skips(s, after)
  {
    EarliestIsSmallestRetained(s);
  }

  /**
   When a read from a cursor has a gap, for every cursor, and why.  Out of range
   it hands over nothing and resumes at the newest row.
   */
  lemma ReplayGapIff(s: Store, topics: set<string>, after: int, bound: nat)
    requires ValidStore(s) && bound > 0
    ensures var r := Replay(s, topics, Some(after), bound);
            var truncated := |Rows(s.log, s.floor, topics - {""}, after)| > bound;
            && (r.gap <==> after < 0 || after > Newest(s.log) || Skips(s, after) || truncated)
            && (after < 0 || after > Newest(s.log) ==> r == ReplayResult([], Newest(s.log), true, CursorAhead))
            && (0 <= after <= Newest(s.log) ==>
                  r.reason == if truncated then ReplayTruncated else if Skips(s, after) then CursorExpired else NoReason)
    ensures Replay(s, topics, None, bound) == ReplayResult([], Newest(s.log), false, NoReason)
  {
    ExpiredIff(s, after);
    var wanted := topics - {""};
    if wanted == {} { NothingWanted(s.log, s.floor, after); }
  }

  lemma {:induction false} NothingWanted(log: seq<Event>, floor: int, after: int)
    ensures Rows(log, floor, {}, after) == []
  {
    if log != [] { NothingWanted(log[1..], floor, after); }
  }

  /** The contract of a catch-up read, for every cursor. */
  lemma ReplayHandsOver(s: Store, topics: set<string>, after: int, bound: nat)
    requires ValidStore(s) && "" !in topics && bound > 0
    ensures var r := Replay(s, topics, Some(after), bound);
            && Ascending(r.events)
            && (0 <= after <= Newest(s.log) ==> after <= r.cursor)
            && r.cursor <= Newest(s.log)
            && (r.reason == CursorAhead <==> after < 0 || after > Newest(s.log))
            && |r.events| <= bound
            && (forall e :: e in r.events ==>
                  e in s.log && e.inScope && e.topic in topics && after < e.id <= r.cursor)
            // It hands over exactly the retained rows in scope between the two cursors.
            && (0 <= after <= Newest(s.log) ==>
                  forall e :: e in s.log && e.id > s.floor && e.topic in topics && after < e.id <= r.cursor && e.inScope
                    ==> e in r.events)
            && (forall e :: e in r.events ==> e.id > s.floor)
            // Without a gap every owed event is in the batch, and nothing on its topics lies beyond its cursor.
            && (!r.gap ==> 0 <= after <= Newest(s.log) && forall e :: e in s.log && e.topic in topics && e.id > after ==>
                             e.id <= r.cursor && (e.inScope ==> e in r.events))
  {
    ReplayGapIff(s, topics, after, bound);
    if 0 <= after <= Newest(s.log) {
      ReplayInRange(s, topics, after, bound);
      ReplayIsExact(s, topics, after, bound);
    }
  }

  lemma ReplayIsExact(s: Store, topics: set<string>, after: int, bound: nat)
    requires ValidStore(s) && 0 <= after <= Newest(s.log) && "" !in topics && bound > 0
    ensures var r := Replay(s, topics, Some(after), bound);
            && |r.events| <= bound
            && (forall e :: e in r.events ==> e.id > s.floor)
            && (forall e :: e in s.log && e.id > s.floor && e.topic in topics && after < e.id <= r.cursor && e.inScope
                  ==> e in r.events)
  {
    if topics == {} {
      ReplayOfNothing(s, after, bound);
    } else {
      ReplayIs(s, topics, after, bound);
      TakenIsExact(s, topics, after, bound);
      TakenUpToLast(s, topics, after, bound);
      InScopeIsShorter(Taken(s, topics, after, bound));
    }
  }

  /** Nothing wanted is left out at or below the last row taken. */
  lemma TakenUpToLast(s: Store, topics: set<string>, after: int, bound: nat)
    requires ValidStore(s) && bound > 0
    ensures var taken := Taken(s, topics, after, bound);
            && |taken| <= bound
            && (taken == [] ==> forall e :: e in s.log ==> !Wanted(e, s.floor, topics, after))
            && (taken != [] ==> forall e :: e in s.log && Wanted(e, s.floor, topics, after) && e.id <= taken[|taken| - 1].id
                                  ==> e in taken)
  {
    RowsAreExact(s.log, s.floor, topics, after);
    var found, taken := Rows(s.log, s.floor, topics, after), Taken(s, topics, after, bound);
    if |found| > bound {
      forall e | e in found && e.id <= taken[|taken| - 1].id ensures e in taken {
        var i :| 0 <= i < |found| && found[i] == e;
        assert found[bound - 1] == taken[|taken| - 1];
        assert i < bound;
        assert taken[i] == e;
      }
    }
  }

  lemma {:induction false} InScopeIsShorter(rows: seq<Event>)
    ensures |InScope(rows)| <= |rows|
  {
    if rows != [] { InScopeIsShorter(rows[1..]); }
  }

  lemma ReplayInRange(s: Store, topics: set<string>, after: int, bound: nat)
    requires ValidStore(s) && 0 <= after <= Newest(s.log) && "" !in topics && bound > 0
    ensures var r := Replay(s, topics, Some(after), bound);
            && Ascending(r.events)
            && after <= r.cursor <= Newest(s.log)
            && r.reason != CursorAhead
            && (forall e :: e in r.events ==>
                  e in s.log && e.inScope && e.topic in topics && after < e.id <= r.cursor)
            // Without a gap every owed event is in the batch, and nothing on its topics lies beyond its cursor.
            && (!r.gap ==> forall e :: e in s.log && e.topic in topics && e.id > after ==>
                             e.id <= r.cursor && (e.inScope ==> e in r.events))
  {
    if topics == {} {
      ReplayOfNothing(s, after, bound);
    } else {
      ReplayIs(s, topics, after, bound);
      TakenIsExact(s, topics, after, bound);
      ReplayBounds(s, topics, after, bound);
      if !Replay(s, topics, Some(after), bound).gap { ReplayIsComplete(s, topics, after, bound); }
    }
  }

  lemma LastTakenIsARow(s: Store, topics: set<string>, after: int, bound: nat)
    requires ValidStore(s) && bound > 0
    ensures var taken := Taken(s, topics, after, bound);
            taken != [] ==> taken[|taken| - 1] in s.log && taken[|taken| - 1].topic in topics
  {
    RowsAreExact(s.log, s.floor, topics, after);
    var found, taken := Rows(s.log, s.floor, topics, after), Taken(s, topics, after, bound);
    if taken != [] { assert taken[|taken| - 1] == found[|taken| - 1] && found[|taken| - 1] in found; }
  }

  /** Without a gap the cursor is where the read began, or a row it took. */
  lemma ReplayCursorIsARow(s: Store, topics: set<string>, after: int, bound: nat)
    requires ValidStore(s) && 0 <= after <= Newest(s.log) && "" !in topics && bound > 0
    requires !Replay(s, topics, Some(after), bound).gap
    ensures var x := Replay(s, topics, Some(after), bound).cursor;
            x == after || exists e :: e in s.log && e.topic in topics && e.id == x
  {
    assert topics - {""} == topics;
    LastTakenIsARow(s, topics, after, bound);
  }

  /**
   A replay's cursor leaves no retained row of its topics behind it if and only
   if the rows it asks for fit its bound.  A truncated reset therefore resumes
   short of rows this batch will never carry; only the re-read answers for them.
   */
  lemma CursorLeavesNothingBehindIff(s: Store, topics: set<string>, after: int, bound: nat)
    requires ValidStore(s) && 0 <= after <= Newest(s.log) && "" !in topics && bound > 0
    ensures var r := Replay(s, topics, Some(after), bound);
            (forall e :: e in s.log && Wanted(e, s.floor, topics, after) ==> e.id <= r.cursor)
            <==> |Rows(s.log, s.floor, topics, after)| <= bound
  {
    NewestIsLargest(s);
    assert topics - {""} == topics;
    TakenIsExact(s, topics, after, bound);
    if topics == {} { RowsAreExact(s.log, s.floor, topics, after); SomeMember(Rows(s.log, s.floor, topics, after)); }
  }

  lemma SomeMember(events: seq<Event>)
    ensures events == [] || exists e :: e in events
  {
    if events != [] { assert events[0] in events; }
  }

  /** Two rows against a bound of one: the reset resumes at the first, and the second is behind no cursor. */
  lemma TruncatedResetLeavesARow()
    ensures var s := Store([Event(1, "t", true), Event(2, "t", true)], 0);
            var r := Replay(s, {"t"}, Some(0), 1);
            ValidStore(s) && r.gap && r.reason == ReplayTruncated && r.cursor == 1 && r.events == [s.log[0]]
  {
    var one, two := Event(1, "t", true), Event(2, "t", true);
    assert {"t"} - {""} == {"t"};
    var log := [one, two];
    assert log[1..] == [two] && [two][1..] == [];
    assert Rows([], 0, {"t"}, 0) == [];
    assert Rows([two], 0, {"t"}, 0) == [two];
    assert Rows(log, 0, {"t"}, 0) == [one, two];
    assert [one, two][..1] == [one] && InScope([one]) == [one];
  }
}
