/** The realtime wire contract as values: frames, the resume cursor and its at-most-once window. */
module Protocol {
  import opened Options
  import opened Sequences

  /** Event ids are unbounded integers; `None` stands for every `event_id` that is not a finite number. */
  datatype Envelope = Envelope(eventId: Option<int>, topic: Option<string>, replayed: bool)

  /** `coversConnection` is false when the flag is absent from the wire. */
  datatype SubscribeAck = SubscribeAck(
    subscribed: seq<string>, aliases: seq<(string, string)>, cursor: Option<int>, coversConnection: bool)

  datatype Frame =
    | Ack(ack: SubscribeAck)
    | ReplayComplete(coversConnection: bool, handedOver: Option<int>)
    | Reset(resumeAt: Option<int>)
    | Revoked(reason: Option<string>, topics: seq<string>)
    | Control
    | Product(env: Envelope)

  const DEDUPE_WINDOW: nat := 2048

  function LastN<T>(s: seq<T>, n: nat): (r: seq<T>)
    ensures |r| == if |s| < n then |s| else n
    ensures forall x :: x in r ==> x in s
  {
    if |s| <= n then s else s[|s| - n..]
  }

  /** The cursor filter; the ids it remembers, oldest first, are `order`. */
  datatype Tracker = Tracker(order: seq<int>, highest: int, batchRetires: bool) {

    predicate Accepts(env: Envelope) {
      env.eventId == None || env.eventId.value !in order
    }

    function Accept(env: Envelope): Tracker {
      if env.eventId == None || !Accepts(env) then this
      else
        var id := env.eventId.value;
        Tracker(
          LastN(order + [id], DEDUPE_WINDOW),
          if (batchRetires || !env.replayed) && id > highest then id else highest,
          batchRetires)
    }

    function ApplyAck(ack: SubscribeAck): Tracker {
      if ack.coversConnection && highest == 0 && ack.cursor.Some? && ack.cursor.value > 0
      then Tracker(order, ack.cursor.value, true)
      else Tracker(order, highest, ack.coversConnection)
    }

    function ApplyReplayComplete(covers: bool, cursor: Option<int>): Tracker {
      Tracker(order, if covers && cursor.Some? && cursor.value > highest then cursor.value else highest, true)
    }

    function ApplyReset(cursor: Option<int>): Tracker {
      Tracker([], if cursor.Some? && cursor.value > 0 then cursor.value else 0, batchRetires)
    }

    /** The tracker's share of what `receive` does with one frame. */
    function Receive(f: Frame): Tracker {
      match f
      case Ack(ack) => ApplyAck(ack)
      case ReplayComplete(covers, cursor) => ApplyReplayComplete(covers, cursor)
      case Reset(cursor) => ApplyReset(cursor)
      case Revoked(_, _) => this
      case Control => this
      case Product(env) => Accept(env)
    }
  }

  const FRESH: Tracker := Tracker([], 0, true)

  function Run(frames: seq<Frame>): Tracker {
    if frames == [] then FRESH else Run(frames[..|frames| - 1]).Receive(frames[|frames| - 1])
  }

  /** The cursor sent with a subscribe: `0` is left out. */
  function SubscribeCursor(cursor: int): Option<int> {
    if cursor > 0 then Some(cursor) else None
  }

  // ------------------------------------------------------------------ //
  // The bounded window refines the unbounded history
  // ------------------------------------------------------------------ //

  /** Whether `id` is news after `history`: not in the last window of ids. */
  predicate IsNews(history: seq<int>, id: int) {
    id !in LastN(history, DEDUPE_WINDOW)
  }

  /** Every id accepted since the last reset, in order, with nothing forgotten. */
  function History(frames: seq<Frame>): seq<int> {
    if frames == [] then [] else
      var before := History(frames[..|frames| - 1]);
      match frames[|frames| - 1]
      case Reset(_) => []
      case Product(env) =>
        if env.eventId.Some? && IsNews(before, env.eventId.value) then before + [env.eventId.value] else before
      case _ => before
  }

  lemma {:induction false} LastNAppend<T>(s: seq<T>, n: nat, x: T)
    requires n > 0
    ensures LastN(LastN(s, n) + [x], n) == LastN(s + [x], n)
  {
  }

  lemma {:induction false} RecentIsRemembered<T>(s: seq<T>, n: nat)
    ensures forall k :: 0 <= k < |s| && k >= |s| - n ==> s[k] in LastN(s, n)
  {
    forall k | 0 <= k < |s| && k >= |s| - n ensures s[k] in LastN(s, n) {
      assert LastN(s, n)[k - |s| + |LastN(s, n)|] == s[k];
    }
  }

  /** The remembered ids are the last 2048 of those accepted since the last reset. */
  lemma {:induction false} WindowIsRecentHistory(frames: seq<Frame>)
    ensures Run(frames).order == LastN(History(frames), 2048)
  {
    if frames != [] {
      var before := frames[..|frames| - 1];
      WindowIsRecentHistory(before);
      match frames[|frames| - 1]
      case Product(env) =>
        if env.eventId.Some? { LastNAppend(History(before), DEDUPE_WINDOW, env.eventId.value); }
      case _ =>
    }
  }

  /** The same id is applied twice only after more than a window of other ids. */
  lemma {:induction false} AppliedOncePerWindow(frames: seq<Frame>, i: nat, j: nat)
    requires i < j < |History(frames)|
    requires History(frames)[i] == History(frames)[j]
    ensures j - i > 2048
  {
    var before := frames[..|frames| - 1];
    if j < |History(before)| {
      AppliedOncePerWindow(before, i, j);
    } else {
      var h := History(before);
      assert History(frames) == h + [History(frames)[j]] && j == |h|;
      RecentIsRemembered(h, DEDUPE_WINDOW);
    }
  }

  lemma {:induction false} RecentHistoryHasNoRepeats(frames: seq<Frame>, i: nat, j: nat)
    requires i < j < |LastN(History(frames), DEDUPE_WINDOW)|
    ensures var w := LastN(History(frames), DEDUPE_WINDOW); w[i] != w[j]
  {
    var h := History(frames);
    var w := LastN(h, DEDUPE_WINDOW);
    var skipped := |h| - |w|;
    assert h[skipped + i] == w[i] && h[skipped + j] == w[j];
    if w[i] == w[j] {
      AppliedOncePerWindow(frames, skipped + i, skipped + j);
    }
  }

  /** A durable frame is rejected exactly when its id is among the remembered ones, which never repeat. */
  lemma {:induction false} WindowHasNoRepeats(frames: seq<Frame>)
    ensures NoRepeats(Run(frames).order)
    ensures forall env: Envelope :: !Run(frames).Accepts(env) <==>
              env.eventId.Some? && env.eventId.value in LastN(History(frames), 2048)
  {
    WindowIsRecentHistory(frames);
    var w := LastN(History(frames), DEDUPE_WINDOW);
    forall i, j | 0 <= i < j < |w| ensures w[i] != w[j] {
      RecentHistoryHasNoRepeats(frames, i, j);
    }
  }

  // ------------------------------------------------------------------ //
  // The cursor is exactly the maximum of what was allowed to move it
  // ------------------------------------------------------------------ //

  /** Whether the batch in flight after `frames` speaks for the connection: the last ack or receipt decides. */
  predicate CoversNow(frames: seq<Frame>) {
    if frames == [] then true else
      match frames[|frames| - 1]
      case Ack(ack) => ack.coversConnection
      case ReplayComplete(_, _) => true
      case _ => CoversNow(frames[..|frames| - 1])
  }

  /** The index just past the last reset before it, or 0. */
  function SinceReset(frames: seq<Frame>): (r: nat)
    ensures r <= |frames|
  {
    if frames == [] then 0
    else if frames[|frames| - 1].Reset? then |frames| - 1
    else SinceReset(frames[..|frames| - 1])
  }

  /** What frame `i` hands to the cursor, if it may move it at all. */
  function Offer(frames: seq<Frame>, i: nat): Option<int>
    requires i < |frames|
  {
    var before := frames[..i];
    match frames[i]
    case Ack(ack) => if ack.coversConnection && Run(before).highest == 0 then ack.cursor else None
    case ReplayComplete(covers, cursor) => if covers then cursor else None
    case Reset(cursor) => cursor
    case Product(env) =>
      if env.eventId.Some? && IsNews(History(before), env.eventId.value) && (CoversNow(before) || !env.replayed)
      then env.eventId else None
    case _ => None
  }

  ghost predicate IsMaximumOffer(frames: seq<Frame>, cursor: int) {
    && cursor >= 0
    && (forall i :: SinceReset(frames) <= i < |frames| && Offer(frames, i).Some? ==> Offer(frames, i).value <= cursor)
    && (cursor == 0 || exists i :: SinceReset(frames) <= i < |frames| && Offer(frames, i) == Some(cursor))
  }

  lemma {:induction false} CursorIsMaximumOffer(frames: seq<Frame>)
    ensures IsMaximumOffer(frames, Run(frames).highest)
    ensures Run(frames).batchRetires == CoversNow(frames)
  {
    if frames != [] {
      var n := |frames| - 1;
      var before := frames[..n];
      CursorIsMaximumOffer(before);
      WindowIsRecentHistory(before);
      forall i | 0 <= i < n ensures Offer(frames, i) == Offer(before, i) {
        assert frames[..i] == before[..i];
      }
      var old', new' := Run(before).highest, Run(frames).highest;
      if Offer(frames, n) == Some(new') {
      } else if new' != 0 {
        assert new' == old' && !frames[n].Reset?;
        var i :| SinceReset(before) <= i < n && Offer(before, i) == Some(old');
        assert Offer(frames, i) == Some(new');
      }
    }
  }

  /** What may come between the ack of a partial batch and its receipt, live frames and resets apart. */
  predicate WithinBatch(f: Frame) {
    match f
    case Product(env) => env.replayed
    case Ack(ack) => !ack.coversConnection
    case Revoked(_, _) => true
    case Control => true
    case _ => false
  }

  lemma OneMoreFrame(before: seq<Frame>, f: Frame, all: seq<Frame>)
    requires all == before + [f] && !f.Reset?
    ensures Run(all).highest >= Run(before).highest
    ensures !CoversNow(before) && WithinBatch(f) ==> Run(all).highest == Run(before).highest && !CoversNow(all)
  {
    CursorIsMaximumOffer(before);
    assert all[..|all| - 1] == before && all[|all| - 1] == f;
    assert Run(all) == Run(before).Receive(f);
  }

  /** Without a reset the cursor never moves back, and never moves at all inside a partial batch. */
  lemma {:induction false} PartialBatchRetiresNothing(frames: seq<Frame>, more: seq<Frame>)
    requires forall f :: f in more ==> !f.Reset?
    ensures Run(frames + more).highest >= Run(frames).highest
    ensures !CoversNow(frames) && (forall f :: f in more ==> WithinBatch(f)) ==>
              Run(frames + more).highest == Run(frames).highest && !CoversNow(frames + more)
  {
    if more == [] {
      assert frames + more == frames;
    } else {
      var n := |more| - 1;
      assert frames + more == (frames + more[..n]) + [more[n]];
      PartialBatchRetiresNothing(frames, more[..n]);
      OneMoreFrame(frames + more[..n], more[n], frames + more);
    }
  }
}
