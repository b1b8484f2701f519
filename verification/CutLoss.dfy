/**
 What a reconnect loses: exactly the events its registration came too late to
 queue and its cursor is too high, or missing, to read.
 */
module CutLoss {
  import opened Options
  import opened Protocol
  import opened EventStore
  import opened RealtimeClients
  import opened Delivery
  import opened ResumeProof

  /** A read from `cursor` does not reach back to `id`; without a cursor nothing is read. */
  predicate StartsPast(cursor: Option<int>, id: int) {
    cursor == None || cursor.value >= id
  }

  // ------------------------------------------------------------------ //
  // Passed by: what nothing will ever send
  // ------------------------------------------------------------------ //

  /** Neither now nor after any frame in flight is `id` applied, or a cursor held that lies below it. */
  ghost predicate StaysPast(c: Core, channel: seq<Wire>, id: int)
    decreases channel
  {
    && id !in c.accepted
    && StartsPast(SubscribeCursor(c.tracker.highest), id)
    && (channel == [] || StaysPast(Recv(c, channel[0]), channel[1..], id))
  }

  /** The batch under way holds nothing at or below `id` and leads to no cursor below it. */
  ghost predicate BatchPast(p: Phase, id: int) {
    && (p.Reading? ==> StartsPast(p.cursor, id))
    && (p.Writing? ==>
          && (forall x :: x in p.events ==> x.id > id)
          && (p.reset.Some? ==> p.reset.value >= id)
          && (p.receipt.Some? ==> p.receipt.value.ReplayComplete? && StartsPast(p.receipt.value.handedOver, id)))
  }

  ghost predicate PassedBy(s: System, e: Event) {
    && e in s.store.log && s.unannounced != Some(e)
    && (forall q :: q in s.queue ==> q.id > e.id)
    && (forall m :: m in s.requests && m.Subscribe? ==> StartsPast(m.cursor, e.id))
    && BatchPast(s.phase, e.id)
    && StaysPast(s.core, s.channel, e.id)
  }

  lemma {:induction false} StaysPastAtEnd(c: Core, channel: seq<Wire>, id: int)
    requires StaysPast(c, channel, id)
    ensures StaysPast(Drain(c, channel), [], id)
    decreases channel
  {
    if channel != [] { StaysPastAtEnd(Recv(c, channel[0]), channel[1..], id); }
  }

  lemma {:induction false} StaysPastAppend(c: Core, channel: seq<Wire>, w: Wire, id: int)
    requires StaysPast(c, channel, id) && StaysPast(Recv(Drain(c, channel), w), [], id)
    ensures StaysPast(c, channel + [w], id)
    decreases channel
  {
    if channel == [] {
      assert (channel + [w])[1..] == [];
    } else {
      assert (channel + [w])[1..] == channel[1..] + [w];
      StaysPastAppend(Recv(c, channel[0]), channel[1..], w, id);
    }
  }

  /** Whatever comes after `e` in the log has a higher id. */
  lemma UnannouncedIsLater(s: System, e: Event)
    requires LogInv(s) && e in s.store.log && s.unannounced.Some? && s.unannounced.value != e
    ensures s.unannounced.value.id > e.id
  {
    var i :| 0 <= i < |s.store.log| && s.store.log[i] == e;
    assert i < |s.store.log| - 1;
  }

  lemma ReadBatchPast(s: System, r: ReplayResult, id: int)
    requires s.phase.Reading? && ReadOk(s, r) && StartsPast(s.phase.cursor, id) && id <= Newest(s.store.log)
    ensures BatchPast(AfterRead(s, r).phase, id)
  {
  }

  lemma AckStaysPast(s: System, d: Core, r: ReplayResult, id: int)
    requires s.phase.Reading? && ReadOk(s, r) && StartsPast(s.phase.cursor, id) && id <= Newest(s.store.log)
    requires StaysPast(d, [], id)
    ensures StaysPast(Recv(d, ReadWire(s, r)), [], id)
  {
  }

  lemma ReadPassesBy(s: System, e: Event, bound: nat)
    requires Inv(s) && PassedBy(s, e) && Enabled(s, Read(bound))
    ensures PassedBy(Apply(s, Read(bound)), e)
  {
    var d, r := Drain(s.core, s.channel), ReadResult(s, bound);
    var w := ReadWire(s, r);
    ReadIsOk(s, d, bound);
    NewestIsLargest(s.store);
    StaysPastAtEnd(s.core, s.channel, e.id);
    ReadBatchPast(s, r, e.id);
    AckStaysPast(s, d, r, e.id);
    StaysPastAppend(s.core, s.channel, w, e.id);
  }

  lemma WritePassesBy(s: System, e: Event)
    requires Inv(s) && PassedBy(s, e) && Enabled(s, WriteNext)
    ensures PassedBy(Apply(s, WriteNext), e)
  {
    var d, w := Drain(s.core, s.channel), BatchWire(s.phase);
    StaysPastAtEnd(s.core, s.channel, e.id);
    assert s.phase.reset == None && s.phase.events != [] ==> s.phase.events[0] in s.phase.events;
    assert BatchPast(AfterWrite(s).phase, e.id);
    assert StaysPast(Recv(d, w), [], e.id);
    StaysPastAppend(s.core, s.channel, w, e.id);
  }

  lemma PumpPassesBy(s: System, e: Event)
    requires Inv(s) && PassedBy(s, e) && Enabled(s, Pump)
    ensures PassedBy(Apply(s, Pump), e)
  {
    var d, w := Drain(s.core, s.channel), LiveWire(s.queue[0]);
    StaysPastAtEnd(s.core, s.channel, e.id);
    assert s.queue[0] in s.queue;
    assert forall q :: q in s.queue[1..] ==> q in s.queue;
    if !Superseded(s, s.queue[0]) {
      assert StaysPast(Recv(d, w), [], e.id);
      StaysPastAppend(s.core, s.channel, w, e.id);
    }
  }

  lemma UnsubscribePassesBy(s: System, e: Event)
    requires Inv(s) && PassedBy(s, e) && Enabled(s, ServeUnsubscribe)
    ensures PassedBy(Apply(s, ServeUnsubscribe), e)
  {
    StaysPastAtEnd(s.core, s.channel, e.id);
    StaysPastAppend(s.core, s.channel, UnsubscribeWire(s), e.id);
    assert forall m :: m in s.requests[1..] ==> m in s.requests;
  }

  lemma StepPassesBy(s: System, a: Action, e: Event)
    requires Inv(s) && PassedBy(s, e) && Enabled(s, a)
    ensures PassedBy(Apply(s, a), e)
  {
    match a
    case Announce => UnannouncedIsLater(s, e);
    case Read(bound) => ReadPassesBy(s, e, bound);
    case WriteNext => WritePassesBy(s, e);
    case Pump => PumpPassesBy(s, e);
    case ServeUnsubscribe => UnsubscribePassesBy(s, e);
    case BeginSubscribe(granted) => assert s.requests[0] in s.requests;
    case Commit(x) => NewestIsLargest(s.store);
    case _ =>
  }

  // ------------------------------------------------------------------ //
  // In hand: what a connection without a further cut applies
  // ------------------------------------------------------------------ //

  /** Applied, in line, or in the batch that is being read or written. */
  ghost predicate InHand(s: System, d: Core, e: Event) {
    || e !in s.store.log
    || e.id in d.accepted
    || InLine(s, e)
    || (s.phase.Reading? && e.topic in s.phase.added && !StartsPast(s.phase.cursor, e.id))
    || (s.phase.Writing? && s.phase.reset == None && e in s.phase.events)
  }

  /** A read for `topic` finds everything its cursor asks for. */
  ghost predicate ReadsWithoutGap(s: System, a: Action, topic: string) {
    a.Read? && a.bound > 0 && s.phase.Reading? && topic in s.phase.added ==> !ReadResult(s, a.bound).gap
  }

  lemma ReadKeepsInHand(s: System, bound: nat, e: Event)
    requires Inv(s) && Enabled(s, Read(bound)) && ReadsWithoutGap(s, Read(bound), e.topic) && e.inScope
    requires InHand(s, Drain(s.core, s.channel), e)
    ensures var s' := Apply(s, Read(bound)); InHand(s', Drain(s'.core, s'.channel), e)
  {
    var d, r := Drain(s.core, s.channel), ReadResult(s, bound);
    ReadIsOk(s, d, bound);
    DrainAppend(s.core, s.channel, ReadWire(s, r));
  }

  lemma WriteKeepsInHand(s: System, e: Event)
    requires Inv(s) && Enabled(s, WriteNext)
    requires InHand(s, Drain(s.core, s.channel), e)
    ensures var s' := Apply(s, WriteNext); InHand(s', Drain(s'.core, s'.channel), e)
  {
    DrainAppend(s.core, s.channel, BatchWire(s.phase));
    assert e in s.phase.events ==> e == s.phase.events[0] || e in s.phase.events[1..];
  }

  lemma PumpKeepsInHand(s: System, e: Event)
    requires Inv(s) && Enabled(s, Pump) && e.topic in s.grants
    requires InHand(s, Drain(s.core, s.channel), e)
    ensures var s' := Apply(s, Pump); InHand(s', Drain(s'.core, s'.channel), e)
  {
    var q := s.queue[0];
    assert e in s.queue ==> e == q || e in s.queue[1..];
    if !Superseded(s, q) { DrainAppend(s.core, s.channel, LiveWire(q)); }
  }

  lemma StepKeepsInHand(s: System, a: Action, e: Event)
    requires Inv(s) && Enabled(s, a) && !a.Disconnect? && ReadsWithoutGap(s, a, e.topic) && e.inScope && e.topic in s.grants
    requires InHand(s, Drain(s.core, s.channel), e)
    ensures var s' := Apply(s, a); InHand(s', Drain(s'.core, s'.channel), e)
  {
    match a
    case Read(bound) => ReadKeepsInHand(s, bound, e);
    case WriteNext => WriteKeepsInHand(s, e);
    case Pump => PumpKeepsInHand(s, e);
    case ServeUnsubscribe => DrainAppend(s.core, s.channel, UnsubscribeWire(s));
    case _ =>
  }

  // ------------------------------------------------------------------ //
  // From the cut to the next registration
  // ------------------------------------------------------------------ //

  /** Not yet registered again: the console is as the cut left it, and only unsubscribes were answered. */
  ghost predicate Waiting(s: System, held: int, accepted: set<int>) {
    && !s.acked && s.phase.Idle? && s.queue == []
    && s.core.tracker.highest == held && s.core.accepted == accepted
    && (forall w :: w in s.channel ==> w.frame == AckFrame(None, false))
  }

  lemma StepKeepsWaiting(s: System, a: Action, held: int, accepted: set<int>)
    requires Inv(s) && Enabled(s, a) && Waiting(s, held, accepted) && !a.BeginSubscribe?
    ensures Waiting(Apply(s, a), held, accepted)
  {
    assert s.grants == {};
    assert a.Arrive? ==> s.channel[0] in s.channel;
  }

  lemma {:induction false} WaitsUntilRegistered(states: seq<System>, actions: seq<Action>, i: nat, k: nat)
    requires IsRun(states, actions) && i <= k < |states| && !states[i].open
    requires forall m :: i <= m < k ==> !actions[m].BeginSubscribe?
    ensures Waiting(states[k], states[i].core.tracker.highest, states[i].core.accepted)
    decreases k
  {
    if k == i {
      InvAt(states, actions, i);
    } else {
      WaitsUntilRegistered(states, actions, i, k - 1);
      InvAt(states, actions, k - 1);
      StepKeepsWaiting(states[k - 1], actions[k - 1], states[i].core.tracker.highest, states[i].core.accepted);
    }
  }

  lemma {:induction false} WaitingStaysPast(c: Core, channel: seq<Wire>, id: int)
    requires id !in c.accepted && StartsPast(SubscribeCursor(c.tracker.highest), id)
    requires forall w :: w in channel ==> w.frame == AckFrame(None, false)
    ensures StaysPast(c, channel, id)
    decreases channel
  {
    if channel != [] { WaitingStaysPast(Recv(c, channel[0]), channel[1..], id); }
  }

  lemma {:induction false} DrainOnlyAdds(c: Core, channel: seq<Wire>)
    ensures c.accepted <= Drain(c, channel).accepted
    decreases channel
  {
    if channel != [] { DrainOnlyAdds(Recv(c, channel[0]), channel[1..]); }
  }

  lemma InvAt(states: seq<System>, actions: seq<Action>, i: nat)
    requires IsRun(states, actions) && i < |states|
    ensures Inv(states[i])
    ensures i < |actions| ==> Enabled(states[i], actions[i]) && states[i + 1] == Apply(states[i], actions[i])
  {
    RunKeeps(states[..i + 1], actions[..i]);
  }

  /** Announced before the registration, never applied, and out of reach of the read it asked for. */
  ghost predicate TooLate(cut: System, registered: System, e: Event) {
    && e.id !in cut.core.accepted
    && e in registered.store.log && registered.unannounced != Some(e)
    && StartsPast(SubscribeCursor(cut.core.tracker.highest), e.id)
  }

  lemma RegisteringDecides(s: System, granted: set<string>, cut: System, e: Event)
    requires Inv(s) && Enabled(s, BeginSubscribe(granted)) && e.topic in granted
    requires Waiting(s, cut.core.tracker.highest, cut.core.accepted)
    ensures var s' := Apply(s, BeginSubscribe(granted));
            if TooLate(cut, s, e) then PassedBy(s', e) else InHand(s', Drain(s'.core, s'.channel), e)
  {
    assert s.requests[0] in s.requests;
    assert s.requests[0].cursor == SubscribeCursor(cut.core.tracker.highest) by {
      WaitingPeak(s, cut);
    }
    if TooLate(cut, s, e) {
      WaitingPeak(s, cut);
      WaitingStaysPast(s.core, s.channel, e.id);
    } else {
      DrainOnlyAdds(s.core, s.channel);
    }
  }

  lemma WaitingPeak(s: System, cut: System)
    requires Inv(s) && Waiting(s, cut.core.tracker.highest, cut.core.accepted)
    ensures forall m :: m in s.requests && m.Subscribe? ==> m.cursor == SubscribeCursor(cut.core.tracker.highest)
  {
    assert CoreOk(s.core, s.store.log, s.peak, true);
  }

  // ------------------------------------------------------------------ //
  // Over whole runs
  // ------------------------------------------------------------------ //

  /** The socket is closed at `i`, and `k` is the first subscribe handled after it. */
  ghost predicate Reconnects(states: seq<System>, actions: seq<Action>, i: nat, k: nat) {
    && IsRun(states, actions) && i <= k < |actions| && !states[i].open
    && (forall m {:trigger actions[m]} :: i <= m < k ==> !actions[m].BeginSubscribe?)
    && actions[k].BeginSubscribe?
  }

  lemma Decided(states: seq<System>, actions: seq<Action>, i: nat, k: nat, e: Event)
    requires Reconnects(states, actions, i, k) && e.topic in actions[k].granted
    ensures if TooLate(states[i], states[k], e) then PassedBy(states[k + 1], e)
            else InHand(states[k + 1], Drain(states[k + 1].core, states[k + 1].channel), e)
  {
    WaitsUntilRegistered(states, actions, i, k);
    InvAt(states, actions, k);
    RegisteringDecides(states[k], actions[k].granted, states[i], e);
  }

  /** An event the reconnect came too late for is never applied: not on this connection, nor on any later one. */
  lemma {:induction false} TooLateIsForever(states: seq<System>, actions: seq<Action>, i: nat, k: nat, j: nat, e: Event)
    requires Reconnects(states, actions, i, k) && e.topic in actions[k].granted && k < j < |states|
    requires TooLate(states[i], states[k], e)
    ensures PassedBy(states[j], e) && e.id !in states[j].core.accepted
    decreases j
  {
    if j == k + 1 {
      Decided(states, actions, i, k, e);
    } else {
      TooLateIsForever(states, actions, i, k, j - 1, e);
      InvAt(states, actions, j - 1);
      StepPassesBy(states[j - 1], actions[j - 1], e);
    }
  }

  /** From the registration at `k` until `j` the connection stays up, `topic` stays granted, and no read for it has a gap. */
  ghost predicate StaysUp(states: seq<System>, actions: seq<Action>, k: nat, j: nat, topic: string)
    requires |states| == |actions| + 1 && k < j < |states|
  {
    forall m {:trigger actions[m]} :: k < m < j ==>
      !actions[m].Disconnect? && topic in states[m].grants && ReadsWithoutGap(states[m], actions[m], topic)
  }

  lemma {:induction false} StaysInHand(states: seq<System>, actions: seq<Action>, k: nat, j: nat, e: Event)
    requires IsRun(states, actions) && e.inScope && k < j < |states|
    requires InHand(states[k + 1], Drain(states[k + 1].core, states[k + 1].channel), e)
    requires StaysUp(states, actions, k, j, e.topic)
    ensures InHand(states[j], Drain(states[j].core, states[j].channel), e)
    decreases j
  {
    if j > k + 1 {
      StaysInHand(states, actions, k, j - 1, e);
      InvAt(states, actions, j - 1);
      var s, a := states[j - 1], actions[j - 1];
      StepKeepsInHand(s, a, e);
    }
  }

  /**
   What one cut costs.  Once a reconnect without a reset has come to rest, an
   event on a topic it granted is missing if and only if it had not been applied
   by the cut, had been announced by the time the reconnect was registered, and
   lies at or below the cursor held at the cut - or there was no such cursor.
   */
  lemma ReconnectLosesExactly(states: seq<System>, actions: seq<Action>, i: nat, k: nat, j: nat, e: Event)
    requires Reconnects(states, actions, i, k) && e.topic in actions[k].granted && e.inScope && k < j < |states|
    requires StaysUp(states, actions, k, j, e.topic) && AtRest(states[j]) && e in states[j].store.log
    ensures e.id !in states[j].core.accepted <==>
              && e.id !in states[i].core.accepted
              && e in states[k].store.log && states[k].unannounced != Some(e)
              && (states[i].core.tracker.highest == 0 || e.id <= states[i].core.tracker.highest)
  {
    InvAt(states, actions, i);
    if TooLate(states[i], states[k], e) {
      TooLateIsForever(states, actions, i, k, j, e);
    } else {
      Decided(states, actions, i, k, e);
      StaysInHand(states, actions, k, j, e);
      InvAt(states, actions, j);
    }
  }

  // ------------------------------------------------------------------ //
  // Any registration, first on its connection or later
  // ------------------------------------------------------------------ //

  /** Not applied, and nothing the connection holds or is about to read leads to it. */
  ghost predicate Away(s: System, d: Core, e: Event) {
    && e in s.store.log && e.id !in d.accepted && !InLine(s, e)
    && (s.phase.Reading? && e.topic in s.phase.added ==> StartsPast(s.phase.cursor, e.id))
    && (s.phase.Writing? ==> e !in s.phase.events)
  }

  lemma SameIdSameEvent(log: seq<Event>, a: Event, b: Event)
    requires Ascending(log) && a in log && b in log && a.id == b.id
    ensures a == b
  {
  }

  lemma ReadStaysAway(s: System, bound: nat, e: Event)
    requires Inv(s) && Enabled(s, Read(bound)) && Away(s, Drain(s.core, s.channel), e)
    ensures var s' := Apply(s, Read(bound)); Away(s', Drain(s'.core, s'.channel), e)
  {
    ReadIsOk(s, Drain(s.core, s.channel), bound);
    DrainAppend(s.core, s.channel, ReadWire(s, ReadResult(s, bound)));
  }

  lemma WriteStaysAway(s: System, e: Event)
    requires Inv(s) && Enabled(s, WriteNext) && Away(s, Drain(s.core, s.channel), e)
    ensures var s' := Apply(s, WriteNext); Away(s', Drain(s'.core, s'.channel), e)
  {
    DrainAppend(s.core, s.channel, BatchWire(s.phase));
    if s.phase.reset == None && s.phase.events != [] {
      var x := s.phase.events[0];
      assert x in s.phase.events;
      if x.id == e.id { SameIdSameEvent(s.store.log, x, e); }
      assert forall y :: y in s.phase.events[1..] ==> y in s.phase.events;
    }
  }

  lemma PumpStaysAway(s: System, e: Event)
    requires Inv(s) && Enabled(s, Pump) && Away(s, Drain(s.core, s.channel), e)
    ensures var s' := Apply(s, Pump); Away(s', Drain(s'.core, s'.channel), e)
  {
    var q := s.queue[0];
    assert q in s.queue;
    if q.id == e.id { SameIdSameEvent(s.store.log, q, e); }
    if !Superseded(s, q) { DrainAppend(s.core, s.channel, LiveWire(q)); }
    assert forall y :: y in s.queue[1..] ==> y in s.queue;
  }

  lemma StepStaysAway(s: System, a: Action, e: Event)
    requires Inv(s) && Enabled(s, a) && !a.Disconnect? && (a.BeginSubscribe? ==> e.topic !in a.granted)
    requires Away(s, Drain(s.core, s.channel), e)
    ensures var s' := Apply(s, a); Away(s', Drain(s'.core, s'.channel), e)
  {
    match a
    case Commit(x) => NewestIsLargest(s.store);
    case Read(bound) => ReadStaysAway(s, bound, e);
    case WriteNext => WriteStaysAway(s, e);
    case Pump => PumpStaysAway(s, e);
    case ServeUnsubscribe => DrainAppend(s.core, s.channel, UnsubscribeWire(s));
    case _ =>
  }

  /** After `k` and before `j` the topic is not asked for again. */
  ghost predicate AskedOnce(actions: seq<Action>, k: nat, j: nat, topic: string)
    requires j <= |actions|
  {
    forall m {:trigger actions[m]} :: k < m < j ==> actions[m].BeginSubscribe? ==> topic !in actions[m].granted
  }

  lemma {:induction false} StaysAway(states: seq<System>, actions: seq<Action>, k: nat, j: nat, e: Event)
    requires IsRun(states, actions) && k < j < |states|
    requires Away(states[k + 1], Drain(states[k + 1].core, states[k + 1].channel), e)
    requires StaysUp(states, actions, k, j, e.topic) && AskedOnce(actions, k, j, e.topic)
    ensures Away(states[j], Drain(states[j].core, states[j].channel), e)
    decreases j
  {
    if j > k + 1 {
      StaysAway(states, actions, k, j - 1, e);
      InvAt(states, actions, j - 1);
      var s, a := states[j - 1], actions[j - 1];
      StepStaysAway(s, a, e);
    }
  }

  /** At the registration the event is not applied and not in flight, not in line, and the cursor asked from is past it. */
  ghost predicate Missed(s: System, e: Event) {
    && e in s.store.log && e.id !in Drain(s.core, s.channel).accepted && !InLine(s, e)
    && s.requests != [] && s.requests[0].Subscribe? && StartsPast(s.requests[0].cursor, e.id)
  }

  /**
   What any one subscribe misses, on a new connection or a live one: at rest an
   event on a topic it granted is missing if and only if it was missed at the
   registration.
   */
  lemma SubscribeMissesExactly(states: seq<System>, actions: seq<Action>, k: nat, j: nat, e: Event)
    requires IsRun(states, actions) && k < j < |states| && actions[k].BeginSubscribe? && e.topic in actions[k].granted
    requires StaysUp(states, actions, k, j, e.topic) && AskedOnce(actions, k, j, e.topic)
    requires e.inScope && AtRest(states[j]) && e in states[j].store.log
    ensures e.id !in states[j].core.accepted <==> Missed(states[k], e)
  {
    InvAt(states, actions, k);
    InvAt(states, actions, j);
    if Missed(states[k], e) {
      StaysAway(states, actions, k, j, e);
    } else {
      StaysInHand(states, actions, k, j, e);
    }
  }

  // ------------------------------------------------------------------ //
  // Opening positions that move
  // ------------------------------------------------------------------ //

  /** The step writes an ack that a console without a cursor takes up. */
  ghost predicate StartsOver(s: System, d: Core, a: Action) {
    a.Read? && s.phase.Reading? && s.phase.covers && d.tracker.highest == 0 && s.store.log != []
  }

  lemma ReadMovesPositions(s: System, bound: nat, t: string)
    requires Inv(s) && Enabled(s, Read(bound))
    requires t in Drain(s.core, s.channel).opening
    requires t in Recv(Drain(s.core, s.channel), ReadWire(s, ReadResult(s, bound))).opening
    ensures var d := Drain(s.core, s.channel);
            Recv(d, ReadWire(s, ReadResult(s, bound))).opening[t]
            == if StartsOver(s, d, Read(bound)) then Newest(s.store.log) else d.opening[t]
  {
    ReadIsOk(s, Drain(s.core, s.channel), bound);
  }

  /**
   Outside a reset and a cut, the position of a topic that stays open moves if
   and only if the console held no cursor when a covering subscribe was
   answered and the log was not empty by then; it moves to the head of the log.
   */
  lemma PositionMovesIff(s: System, a: Action, t: string)
    requires Inv(s) && Enabled(s, a) && !a.Disconnect? && (a.WriteNext? ==> s.phase.reset == None)
    requires t in Drain(s.core, s.channel).opening
    requires t in Drain(Apply(s, a).core, Apply(s, a).channel).opening
    ensures var d, d' := Drain(s.core, s.channel), Drain(Apply(s, a).core, Apply(s, a).channel);
            d'.opening[t] == if StartsOver(s, d, a) then Newest(s.store.log) else d.opening[t]
  {
    var d := Drain(s.core, s.channel);
    match a
    case Read(bound) =>
      DrainAppend(s.core, s.channel, ReadWire(s, ReadResult(s, bound)));
      ReadMovesPositions(s, bound, t);
    case WriteNext => DrainAppend(s.core, s.channel, BatchWire(s.phase));
    case Pump =>
      if !Superseded(s, s.queue[0]) { DrainAppend(s.core, s.channel, LiveWire(s.queue[0])); }
    case ServeUnsubscribe => DrainAppend(s.core, s.channel, UnsubscribeWire(s));
    case _ =>
  }
}
