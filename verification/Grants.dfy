/**
 What a connection may be sent: only events that were committed, lie in its scope
 and are on a topic it has been granted and has not given up, however grants,
 batches, queued live frames and unsubscribes are interleaved.
 */
module Grants {
  import opened Options
  import opened Protocol
  import opened EventStore
  import opened Delivery

  lemma {:induction false} RowsAreWanted(log: seq<Event>, floor: int, topics: set<string>, after: int)
    ensures forall e :: e in Rows(log, floor, topics, after) ==> e in log && e.topic in topics
  {
    if log != [] { RowsAreWanted(log[1..], floor, topics, after); }
  }

  lemma {:induction false} InScopeAre(rows: seq<Event>)
    ensures forall e :: e in InScope(rows) ==> e in rows && e.inScope
  {
    if rows != [] { InScopeAre(rows[1..]); }
  }

  predicate Sendable(log: seq<Event>, topics: set<string>, e: Event) {
    e in log && e.inScope && e.topic in topics
  }

  lemma ReplayIsSendable(s: Store, topics: set<string>, after: Option<int>, bound: nat)
    requires bound > 0
    ensures forall e :: e in Replay(s, topics, after, bound).events ==> Sendable(s.log, topics, e)
  {
    if after.Some? {
      var found := Rows(s.log, s.floor, topics - {""}, after.value);
      RowsAreWanted(s.log, s.floor, topics - {""}, after.value);
      InScopeAre(if |found| > bound then found[..bound] else found);
    }
  }

  /** What waits to be written may be written, apart from queued frames whose topic was given up since. */
  ghost predicate Waiting(s: System) {
    && (s.unannounced.Some? ==> s.unannounced.value in s.store.log)
    && (forall e :: e in s.queue ==> e in s.store.log && e.inScope)
    && (forall e :: e in s.delivered ==> e.topic in s.grants)
    && (s.phase.Reading? ==> s.phase.added <= s.grants)
    && (s.phase.Writing? ==>
          && (forall e :: e in s.phase.events ==> Sendable(s.store.log, s.grants, e))
          && (forall e :: e in s.phase.batch ==> e.topic in s.grants)
          && (s.phase.receipt.Some? ==> s.phase.receipt.value.ReplayComplete?))
  }

  lemma ReadKeepsWaiting(s: System, bound: nat)
    requires Waiting(s) && Enabled(s, Read(bound))
    ensures Waiting(AfterRead(s, ReadResult(s, bound)))
  {
    ReplayIsSendable(s.store, s.phase.added, s.phase.cursor, bound);
  }

  lemma WriteKeepsWaiting(s: System)
    requires Waiting(s) && Enabled(s, WriteNext)
    ensures Waiting(AfterWrite(s))
  {
  }

  lemma SubscribeKeepsWaiting(s: System, granted: set<string>)
    requires Waiting(s) && Enabled(s, BeginSubscribe(granted))
    ensures Waiting(Subscribing(s, granted))
  {
  }

  lemma UnsubscribeKeepsWaiting(s: System)
    requires Waiting(s) && Enabled(s, ServeUnsubscribe)
    ensures Waiting(AfterUnsubscribe(s))
  {
  }

  /** The channel and what it leads to have no part in it. */
  lemma SameWaiting(s: System, t: System)
    requires Waiting(s) && t.unannounced == s.unannounced && t.store == s.store && t.queue == s.queue
    requires t.delivered == s.delivered && t.grants == s.grants && t.phase == s.phase
    ensures Waiting(t)
  {
  }

  lemma StepKeepsWaiting(s: System, a: Action)
    requires Waiting(s) && Enabled(s, a)
    ensures Waiting(Apply(s, a))
  {
    match a
    case Read(bound) =>
      ReadKeepsWaiting(s, bound);
      SameWaiting(AfterRead(s, ReadResult(s, bound)), Apply(s, a));
    case WriteNext =>
      WriteKeepsWaiting(s);
      SameWaiting(AfterWrite(s), Apply(s, a));
    case BeginSubscribe(granted) => SubscribeKeepsWaiting(s, granted);
    case ServeUnsubscribe =>
      UnsubscribeKeepsWaiting(s);
      SameWaiting(AfterUnsubscribe(s), Apply(s, a));
    case _ =>
  }

  lemma {:induction false} RunKeepsWaiting(states: seq<System>, actions: seq<Action>, i: nat)
    requires IsRun(states, actions) && i < |states|
    ensures Waiting(states[i])
  {
    if i > 0 {
      RunKeepsWaiting(states, actions, i - 1);
      StepKeepsWaiting(states[i - 1], actions[i - 1]);
      assert states[i] == Apply(states[i - 1], actions[i - 1]);
    }
  }

  /** In every run, an event frame is written only for a committed event in scope on a topic granted at that moment. */
  lemma OnlyGrantedIsSent(states: seq<System>, actions: seq<Action>, i: nat, w: Wire)
    requires IsRun(states, actions) && i < |actions|
    requires states[i + 1].channel == states[i].channel + [w] && w.frame.Product?
    ensures exists e, replayed :: w.frame == EventFrame(e, replayed) && Sendable(states[i].store.log, states[i].grants, e)
  {
    var s, a := states[i], actions[i];
    RunKeepsWaiting(states, actions, i);
    assert states[i + 1] == Apply(s, a);
    assert states[i + 1].channel[|s.channel|] == w;
    if a.WriteNext? {
      assert w == BatchWire(s.phase);
      assert w.frame == EventFrame(s.phase.events[0], true);
    } else if a.Pump? {
      assert w == LiveWire(s.queue[0]);
      assert w.frame == EventFrame(s.queue[0], false);
    }
  }

  /** What was remembered of a topic is forgotten with it: in every run only granted topics are remembered. */
  lemma OnlyGrantedIsRemembered(states: seq<System>, actions: seq<Action>, i: nat)
    requires IsRun(states, actions) && i < |states|
    ensures forall e :: e in states[i].delivered ==> e.topic in states[i].grants
  {
    RunKeepsWaiting(states, actions, i);
  }

  // ------------------------------------------------------------------ //
  // What a batch carried is not sent again live
  // ------------------------------------------------------------------ //

  /** The step neither ends the connection, nor gives up the topic, nor forgets that the event was written. */
  predicate Keeps(s: System, a: Action, e: Event)
    requires Enabled(s, a)
  {
    match a
    case Disconnect => false
    case ServeUnsubscribe => e.topic !in s.requests[0].topics
    case EndBatch(remembered) => e in s.delivered || e in s.phase.batch ==> e in remembered
    case _ => true
  }

  /** Written by a batch of this connection, the last one or one still being written. */
  predicate Carried(s: System, e: Event) {
    e in s.delivered || (s.phase.Writing? && e in s.phase.batch)
  }

  lemma StepKeepsCarried(s: System, a: Action, e: Event, t: System)
    requires Enabled(s, a) && Keeps(s, a, e) && Carried(s, e) && t == Apply(s, a)
    ensures Carried(t, e)
  {
    if a.WriteNext? { assert t.phase == NextWire(s.phase).2; }
  }

  /** Step `k` of a run, and what it does about this event. */
  ghost predicate KeepsAt(states: seq<System>, actions: seq<Action>, k: nat, e: Event) {
    k < |actions| && k + 1 < |states| && Enabled(states[k], actions[k]) && Keeps(states[k], actions[k], e)
  }

  ghost predicate StepsAt(states: seq<System>, actions: seq<Action>, k: nat) {
    k < |actions| && k + 1 < |states| && Enabled(states[k], actions[k]) && states[k + 1] == Apply(states[k], actions[k])
  }

  lemma RunSteps(states: seq<System>, actions: seq<Action>, k: nat)
    requires IsRun(states, actions) && k < |actions|
    ensures StepsAt(states, actions, k)
  {
    assert Enabled(states[k], actions[k]);
  }

  lemma OneStepCarries(states: seq<System>, actions: seq<Action>, k: nat, e: Event)
    requires StepsAt(states, actions, k) && KeepsAt(states, actions, k, e) && Carried(states[k], e)
    ensures Carried(states[k + 1], e)
  {
    StepKeepsCarried(states[k], actions[k], e, states[k + 1]);
  }

  lemma {:induction false} StillCarried(states: seq<System>, actions: seq<Action>, i: nat, j: nat, e: Event)
    requires IsRun(states, actions) && i <= j < |states| && Carried(states[i], e)
    requires forall k :: i <= k < j ==> KeepsAt(states, actions, k, e)
    ensures Carried(states[j], e)
    decreases j
  {
    if i < j {
      StillCarried(states, actions, i, j - 1, e);
      RunSteps(states, actions, j - 1);
      OneStepCarries(states, actions, j - 1, e);
    }
  }

  lemma PumpDrops(s: System, t: System)
    requires Enabled(s, Pump) && t == Apply(s, Pump) && Carried(s, s.queue[0])
    ensures t.channel == s.channel && t.queue == s.queue[1..]
  {
  }

  /**
   In every run, an event that a batch carried is not written again from the live
   queue for as long as the connection stays, its topic is held and it is remembered.
   */
  lemma BatchedIsNotSentLive(states: seq<System>, actions: seq<Action>, i: nat, j: nat, e: Event)
    requires IsRun(states, actions) && i <= j < |actions| && Carried(states[i], e)
    requires forall k :: i <= k < j ==> KeepsAt(states, actions, k, e)
    requires actions[j] == Pump && states[j].queue != [] && states[j].queue[0] == e
    ensures states[j + 1].channel == states[j].channel && states[j + 1].queue == states[j].queue[1..]
  {
    StillCarried(states, actions, i, j, e);
    RunSteps(states, actions, j);
    PumpDrops(states[j], states[j + 1]);
  }

  /** Otherwise a queued frame is written if and only if its topic is still held: it is not lost. */
  lemma QueuedIsSentIff(s: System)
    requires Enabled(s, Pump) && s.queue[0] !in s.delivered
    ensures var e, t := s.queue[0], Apply(s, Pump);
            if e.topic in s.grants
            then t.channel == s.channel + [Wire(Product(Envelope(Some(e.id), Some(e.topic), false)), Nothing, map[])]
            else t.channel == s.channel
  {
  }

  // ------------------------------------------------------------------ //
  // What a batch is
  // ------------------------------------------------------------------ //

  /** The frames still to be written of a batch. */
  function FramesOf(p: Phase): seq<Frame>
    requires p.Writing?
    decreases (if p.reset.Some? then 1 else 0) + |p.events| + (if p.receipt.Some? then 1 else 0)
  {
    if Finished(p) then [] else [NextWire(p).0] + FramesOf(NextWire(p).2)
  }

  function Replayed(events: seq<Event>): seq<Frame> {
    if events == [] then []
    else [Product(Envelope(Some(events[0].id), Some(events[0].topic), true))] + Replayed(events[1..])
  }

  lemma {:induction false} EventsThenReceipt(p: Phase)
    requires p.Writing? && p.reset == None
    ensures FramesOf(p) == Replayed(p.events) + if p.receipt.Some? then [p.receipt.value] else []
    decreases |p.events|
  {
    if p.events != [] {
      EventsThenReceipt(p.(events := p.events[1..]));
    } else if p.receipt.Some? {
      assert FramesOf(p.(receipt := None)) == [];
    }
  }

  lemma {:induction false} HighWaterIff(events: seq<Event>, start: int)
    requires start >= 0
    ensures HighWater(events) > start <==> exists e :: e in events && e.id > start
  {
    if events != [] {
      HighWaterIff(events[1..], start);
      assert events == [events[0]] + events[1..];
    }
  }

  /** What a batch acknowledged at `start` consists of. */
  ghost function BatchFrom(r: ReplayResult, covers: bool, start: int): seq<Frame> {
    (if r.gap then [Reset(Some(r.cursor))] else [])
    + (Replayed(r.events)
       + if covers then (if r.cursor > start then [ReplayComplete(true, Some(r.cursor))] else [])
         else if exists e :: e in r.events && e.id > start then [ReplayComplete(false, None)] else [])
  }

  lemma ResetThenRest(p: Phase)
    requires p.Writing?
    ensures FramesOf(p) == (if p.reset.Some? then [Reset(p.reset)] else []) + FramesOf(p.(reset := None))
  {
    if p.reset.None? { assert p == p.(reset := None) && [] + FramesOf(p) == FramesOf(p); }
  }

  lemma FramesAreWritten(p: Phase, r: ReplayResult, head: int)
    requires p.Reading?
    ensures BatchOf(p, r, head).Writing?
    ensures var start := if p.cursor == None || r.gap then r.cursor else p.cursor.value;
            start >= 0 ==> FramesOf(BatchOf(p, r, head)) == BatchFrom(r, p.covers, start)
  {
    var start := if p.cursor == None || r.gap then r.cursor else p.cursor.value;
    var batch := BatchOf(p, r, head);
    ResetThenRest(batch);
    EventsThenReceipt(batch.(reset := None));
    if start >= 0 { HighWaterIff(r.events, start); }
  }

  /**
   One catch-up read, frame by frame: an ack that names where the read began, so that
   a batch cut short is asked for again from there; after a gap, a reset to where it
   ended; its events in order, marked as replayed; and a receipt if anything went
   past the ack's cursor, with a cursor only where every topic was read.
   */
  lemma BatchIsWritten(s: System, bound: nat)
    requires Enabled(s, Read(bound)) && ValidStore(s.store)
    ensures var p, r := s.phase, ReadResult(s, bound);
            var start := if p.cursor == None || r.gap then r.cursor else p.cursor.value;
            && ReadWire(s, r).frame == Ack(SubscribeAck([], [], Some(start), p.covers))
            && FramesOf(AfterRead(s, r).phase) == BatchFrom(r, p.covers, start)
  {
    CursorIsNatural(s.store, s.phase.added, s.phase.cursor, bound);
    FramesAreWritten(s.phase, ReadResult(s, bound), Newest(s.store.log));
  }

  lemma CursorIsNatural(s: Store, topics: set<string>, after: Option<int>, bound: nat)
    requires ValidStore(s) && bound > 0
    ensures Replay(s, topics, after, bound).cursor >= 0
    ensures after.Some? && !Replay(s, topics, after, bound).gap ==> after.value >= 0
  {
    NewestIsLargest(s);
    if after.Some? {
      var wanted := topics - {""};
      var found := Rows(s.log, s.floor, wanted, after.value);
      RowsAreExact(s.log, s.floor, wanted, after.value);
      assert forall k :: 0 <= k < |found| ==> found[k] in found;
    }
  }
}
