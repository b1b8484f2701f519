/** No durable event is lost: the proof follows the console as it will be once everything in flight has arrived. */
module ResumeProof {
  import opened Options
  import opened Protocol
  import opened EventStore
  import opened RealtimeClients
  import opened Delivery

  // ------------------------------------------------------------------ //
  // The invariant
  // ------------------------------------------------------------------ //

  ghost predicate CoreOk(c: Core, log: seq<Event>, peak: int, exact: bool) {
    && 0 <= c.tracker.highest <= peak
    && (exact ==> c.tracker.highest == peak)
    && (forall id :: id in c.tracker.order ==> id in c.accepted)
    && (forall t :: t in c.opening ==> c.opening[t] <= Newest(log))
    && NothingLost(c, log)
  }

  /** The console is sound now and after each frame in flight. */
  ghost predicate Holds(c: Core, channel: seq<Wire>, log: seq<Event>, peak: int, exact: bool)
    decreases channel
  {
    CoreOk(c, log, peak, exact) && (channel == [] || Holds(Recv(c, channel[0]), channel[1..], log, peak, exact))
  }

  /** Owed but not yet applied. */
  ghost predicate Missing(d: Core, e: Event) {
    Owed(d.opening, e) && e.id !in d.accepted
  }

  ghost predicate InLine(s: System, e: Event) {
    e in s.queue || s.unannounced == Some(e)
  }

  ghost predicate LogInv(s: System) {
    && ValidStore(s.store)
    && (s.unannounced.Some? ==> s.store.log != [] && s.unannounced.value == s.store.log[|s.store.log| - 1])
    && 0 <= s.peak <= Newest(s.store.log)
  }

  ghost predicate QueueInv(s: System) {
    && Ascending(s.queue)
    && (forall q :: q in s.queue ==> q in s.store.log && q.inScope)
    && (forall q :: q in s.queue && s.unannounced.Some? ==> q.id < s.unannounced.value.id)
  }

  ghost predicate RequestInv(s: System, cursor: Option<int>) {
    && (cursor.Some? ==> 0 < cursor.value <= s.peak)
    && (!s.acked ==> cursor == SubscribeCursor(s.peak))
  }

  ghost predicate ConnectionInv(s: System, d: Core) {
    && (!s.open ==> s.requests == [] && s.grants == {} && !s.acked && s.queue == [] &&
                    s.delivered == {} && s.phase.Idle?)
    && "" !in s.grants
    && (forall m :: m in s.requests && m.Subscribe? ==> RequestInv(s, m.cursor))
    && (forall e :: e in s.delivered ==> e.id in d.accepted)
    && (d.tracker.highest == 0 ==> s.peak == 0)
    && (!s.acked && s.phase.Idle? ==> s.grants == {})
    && (s.phase.Reading? ==>
          && s.phase.added <= s.grants
          && s.phase.covers == (s.grants <= s.phase.added)
          && s.phase.first == !s.acked
          && (s.phase.first ==> s.grants == s.phase.added)
          && RequestInv(s, s.phase.cursor))
    && (s.phase.Writing? ==> s.acked)
  }

  /** Once a subscribe was answered, the opened topics are the granted ones, but for the batch under way. */
  ghost predicate OpenedInv(s: System, d: Core) {
    s.acked ==>
      && d.opening.Keys <= s.grants
      && (forall t :: t in s.grants && (s.phase.Idle? || t !in s.phase.added) ==> t in d.opening)
  }

  /** A missing event is above every cursor so far, and still in line for this connection. */
  ghost predicate MissingInv(s: System, d: Core) {
    && (forall e :: e in s.store.log && Missing(d, e) ==> e.id > s.peak)
    && (s.acked ==> forall e :: e in s.store.log && Missing(d, e) ==>
          InLine(s, e) ||
          (s.phase.Writing? && (e in s.phase.events || (s.phase.reset.Some? && e.topic in s.phase.added))))
  }

  ghost predicate ReceiptOk(p: Phase)
    requires p.Writing?
  {
    p.receipt == None ||
    if p.covers then p.receipt.value.ReplayComplete? && p.receipt.value.coversConnection &&
                     p.receipt.value.handedOver.Some? && p.receipt.value.handedOver.value <= p.head
    else p.receipt.value == ReplayComplete(false, None)
  }

  ghost predicate BatchInv(s: System, d: Core) {
    s.phase.Writing? ==>
      var p := s.phase;
      && p.added <= s.grants
      && (p.covers ==> s.grants <= p.added)
      && s.peak <= p.head <= Newest(s.store.log)
      && (!Finished(p) ==> d.tracker.batchRetires == p.covers)
      && Ascending(p.events)
      && (forall e :: e in p.events ==> e in s.store.log && e.inScope && e.topic in p.added && e.id <= p.head)
      && (forall e :: e in p.batch ==> e in p.events || e.id in d.accepted)
      && (p.reset.Some? ==> p.gap && 0 < p.reset.value <= p.head)
      && (p.gap ==> p.at == p.head)
      && p.at <= p.head
      && ReceiptOk(p)
      && (p.gap && p.reset == None ==> forall t :: t in p.added ==> t in d.opening && d.opening[t] >= p.head)
      && (p.covers && !p.gap && !Finished(p) ==> p.at <= s.peak)
      && (Finished(p) ==> forall t :: t in p.added ==> t in d.opening)
      // Everything the batch answers for is applied, still to come in it, or newer than it and in line.
      && (forall e :: e in s.store.log && e.inScope && e.topic in p.added && e.id > p.at ==>
            e.id in d.accepted || e in p.events || (e.id > p.head && InLine(s, e)))
  }

  ghost predicate ServerInv(s: System, d: Core) {
    && LogInv(s) && QueueInv(s) && ConnectionInv(s, d) && OpenedInv(s, d) && MissingInv(s, d) && BatchInv(s, d)
    && CoreOk(d, s.store.log, s.peak, !s.acked)
  }

  ghost predicate Inv(s: System) {
    && (!s.open ==> s.channel == [])
    && Holds(s.core, s.channel, s.store.log, s.peak, !s.acked)
    && ServerInv(s, Drain(s.core, s.channel))
  }

  // ------------------------------------------------------------------ //
  // The console and what is in flight
  // ------------------------------------------------------------------ //

  lemma {:induction false} DrainAppend(c: Core, channel: seq<Wire>, w: Wire)
    ensures Drain(c, channel + [w]) == Recv(Drain(c, channel), w)
    decreases channel
  {
    if channel == [] {
      assert (channel + [w])[1..] == [];
    } else {
      assert (channel + [w])[1..] == channel[1..] + [w];
      DrainAppend(Recv(c, channel[0]), channel[1..], w);
    }
  }

  lemma {:induction false} HoldsAtEnd(c: Core, channel: seq<Wire>, log: seq<Event>, peak: int, exact: bool)
    requires Holds(c, channel, log, peak, exact)
    ensures CoreOk(Drain(c, channel), log, peak, exact)
    decreases channel
  {
    if channel != [] { HoldsAtEnd(Recv(c, channel[0]), channel[1..], log, peak, exact); }
  }

  /** A higher peak, a longer log and a looser bound keep what holds. */
  lemma {:induction false} HoldsLonger(
    c: Core, channel: seq<Wire>, log: seq<Event>, peak: int, exact: bool, log': seq<Event>, peak': int, exact': bool)
    requires Holds(c, channel, log, peak, exact)
    requires log <= log' && peak <= peak' && (exact' ==> exact && peak' == peak)
    requires forall e :: e in log' && e !in log ==> e.id > peak
    requires Newest(log) <= Newest(log')
    ensures Holds(c, channel, log', peak', exact')
    decreases channel
  {
    if channel != [] { HoldsLonger(Recv(c, channel[0]), channel[1..], log, peak, exact, log', peak', exact'); }
  }

  lemma {:induction false} HoldsAppend(c: Core, channel: seq<Wire>, w: Wire, log: seq<Event>, peak: int, exact: bool)
    requires Holds(c, channel, log, peak, exact)
    requires CoreOk(Recv(Drain(c, channel), w), log, peak, exact)
    ensures Holds(c, channel + [w], log, peak, exact)
    decreases channel
  {
    if channel == [] {
      assert (channel + [w])[1..] == [];
    } else {
      assert (channel + [w])[1..] == channel[1..] + [w];
      HoldsAppend(Recv(c, channel[0]), channel[1..], w, log, peak, exact);
    }
  }

  /** Being above every cursor is what keeps a missing event from being skipped. */
  lemma MissingAbovePeak(s: System, d: Core)
    requires forall e :: e in s.store.log && Missing(d, e) ==> e.id > s.peak
    requires d.tracker.highest <= s.peak
    ensures NothingLost(d, s.store.log)
  {
  }

  /** A written frame keeps the console sound if its arrival would; `s'` is the server after writing it. */
  lemma PushKeeps(s: System, s': System, w: Wire, exact: bool)
    requires Inv(s)
    requires s'.core == s.core && s'.channel == s.channel && s'.store == s.store && s'.peak == s.peak && s'.acked == !exact
    requires exact ==> !s.acked && Push(s', Drain(s.core, s.channel), w).peak == s.peak
    requires s'.open
    requires var d := Drain(s.core, s.channel); ServerInv(Push(s', d, w), Recv(d, w))
    ensures Inv(Push(s', Drain(s.core, s.channel), w))
  {
    var peak := Push(s', Drain(s.core, s.channel), w).peak;
    HoldsLonger(s.core, s.channel, s.store.log, s.peak, !s.acked, s.store.log, peak, exact);
    HoldsAppend(s.core, s.channel, w, s.store.log, peak, exact);
    DrainAppend(s.core, s.channel, w);
  }

  // ------------------------------------------------------------------ //
  // The steps of the log
  // ------------------------------------------------------------------ //

  lemma CommitKeepsMissing(s: System, d: Core, e: Event)
    requires LogInv(s) && MissingInv(s, d) && s.unannounced == None && e.id > Newest(s.store.log)
    ensures MissingInv(Committed(s, e), d)
  {
    assert forall x :: x in Committed(s, e).store.log <==> x in s.store.log || x == e;
  }

  lemma CommitKeepsBatch(s: System, d: Core, e: Event)
    requires LogInv(s) && BatchInv(s, d) && s.unannounced == None && e.id > Newest(s.store.log)
    ensures BatchInv(Committed(s, e), d)
  {
    assert forall x :: x in Committed(s, e).store.log <==> x in s.store.log || x == e;
    assert Newest(Committed(s, e).store.log) == e.id;
  }

  lemma CommitKeeps(s: System, d: Core, e: Event)
    requires ServerInv(s, d) && s.unannounced == None && e.id > Newest(s.store.log)
    ensures ServerInv(Committed(s, e), d)
  {
    CommitKeepsMissing(s, d, e);
    CommitKeepsBatch(s, d, e);
    CommitKeepsLog(s, d, e);
  }

  lemma CommitKeepsLog(s: System, d: Core, e: Event)
    requires LogInv(s) && QueueInv(s) && ConnectionInv(s, d) && OpenedInv(s, d) && CoreOk(d, s.store.log, s.peak, !s.acked)
    requires s.unannounced == None && e.id > Newest(s.store.log)
    ensures var s' := Committed(s, e);
            LogInv(s') && QueueInv(s') && ConnectionInv(s', d) && OpenedInv(s', d) && CoreOk(d, s'.store.log, s'.peak, !s'.acked)
  {
    NewestIsLargest(s.store);
    assert forall x :: x in Committed(s, e).store.log <==> x in s.store.log || x == e;
  }

  lemma AnnounceKeeps(s: System, d: Core)
    requires ServerInv(s, d) && s.unannounced.Some?
    ensures ServerInv(Announced(s), d)
  {
    var s' := Announced(s);
    var e := s.unannounced.value;
    assert forall x :: x in s'.queue ==> x in s.queue || x == e;
    assert forall x :: x in s.queue ==> x in s'.queue;
    assert e.topic in s.grants && e.inScope && s.open ==> s'.queue[|s.queue|] == e;
    assert QueueInv(s');
    assert s.acked ==> s.open;
    assert forall x :: x in s.store.log && InLine(s, x) && x.inScope && x.topic in s.grants && s.open ==> InLine(s', x);
  }

  // ------------------------------------------------------------------ //
  // The steps of the console's own making
  // ------------------------------------------------------------------ //

  lemma RequestKeeps(s: System, d: Core, wanted: set<string>, m: Message)
    requires ServerInv(s, d) && s.open
    requires m.Subscribe? ==> RequestInv(s, m.cursor)
    ensures ServerInv(s.(wanted := wanted, requests := s.requests + [m]), d)
  {
    var s' := s.(wanted := wanted, requests := s.requests + [m]);
    assert forall x :: x in s'.requests <==> x in s.requests || x == m;
    assert MissingInv(s', d) && BatchInv(s', d) && OpenedInv(s', d);
  }

  /** A new connection starts from a console with nothing in flight. */
  lemma DisconnectKeeps(s: System)
    requires LogInv(s) && QueueInv(s) && CoreOk(s.core, s.store.log, s.peak, false)
    ensures ServerInv(Disconnected(s), s.core)
  {
  }

  // ------------------------------------------------------------------ //
  // The steps of the connection's handler
  // ------------------------------------------------------------------ //

  lemma SubscribingKeeps(s: System, d: Core, granted: set<string>)
    requires ServerInv(s, d) && s.open && s.phase.Idle? && s.requests != [] && s.requests[0].Subscribe?
    requires "" !in granted
    ensures ServerInv(Subscribing(s, granted), d)
  {
    var s' := Subscribing(s, granted);
    assert s.requests[0] in s.requests;
    assert forall m :: m in s'.requests ==> m in s.requests;
    assert MissingInv(s', d) && BatchInv(s', d) && OpenedInv(s', d);
  }

  /** What one catch-up read established about its result. */
  ghost predicate ReadOk(s: System, r: ReplayResult)
    requires s.phase.Reading?
  {
    var head := Newest(s.store.log);
    match s.phase.cursor
    case None => r == ReplayResult([], head, false, NoReason)
    case Some(c) =>
      && Ascending(r.events)
      && c <= r.cursor <= head
      && (forall e :: e in r.events ==> e in s.store.log && e.inScope && e.topic in s.phase.added && c < e.id <= head)
      && (!r.gap ==> forall e :: e in s.store.log && e.inScope && e.topic in s.phase.added && e.id > c ==> e in r.events)
  }

  lemma ReadIsOk(s: System, d: Core, bound: nat)
    requires ServerInv(s, d) && s.phase.Reading? && bound > 0
    ensures ReadOk(s, ReadResult(s, bound))
  {
    if s.phase.cursor.Some? {
      ReplayHandsOver(s.store, s.phase.added, s.phase.cursor.value, bound);
    }
  }

  lemma ReadKeepsOpened(s: System, d: Core, r: ReplayResult)
    requires ServerInv(s, d) && s.open && s.phase.Reading? && ReadOk(s, r)
    ensures var d' := Recv(d, ReadWire(s, r));
            OpenedInv(AfterRead(s, r), d') && forall t :: t in d'.opening ==> d'.opening[t] <= Newest(s.store.log)
  {
  }

  /** Adopting an ack means starting at the head, where nothing is missing yet. */
  lemma AdoptionStartsAtHead(s: System, d: Core, r: ReplayResult)
    requires ServerInv(s, d) && s.open && s.phase.Reading? && ReadOk(s, r)
    requires AdoptsAck(d.tracker, ReadWire(s, r).frame)
    ensures s.phase.cursor == None && s.peak == 0 && s.grants <= s.phase.added
    ensures forall e :: e in s.store.log ==> !Owed(Recv(d, ReadWire(s, r)).opening, e)
  {
    NewestIsLargest(s.store);
  }

  lemma ReadKeepsMissing(s: System, d: Core, r: ReplayResult)
    requires ServerInv(s, d) && s.open && s.phase.Reading? && ReadOk(s, r)
    ensures MissingInv(Push(AfterRead(s, r), d, ReadWire(s, r)), Recv(d, ReadWire(s, r)))
  {
    var w := ReadWire(s, r);
    var s', d' := Push(AfterRead(s, r), d, w), Recv(d, w);
    NewestIsLargest(s.store);
    if AdoptsAck(d.tracker, w.frame) {
      AdoptionStartsAtHead(s, d, r);
    } else {
      assert s'.peak == s.peak;
      forall e | e in s.store.log && Missing(d', e)
        ensures e.id > s.peak
        ensures InLine(s', e) || e in s'.phase.events || (s'.phase.reset.Some? && e.topic in s'.phase.added)
      {
        if Missing(d, e) {
        } else {
          assert e.topic in w.settles && w.settles[e.topic] == s'.phase.at;
        }
      }
    }
  }

  lemma ReadKeepsBatch(s: System, d: Core, r: ReplayResult)
    requires ServerInv(s, d) && s.open && s.phase.Reading? && ReadOk(s, r)
    ensures BatchInv(Push(AfterRead(s, r), d, ReadWire(s, r)), Recv(d, ReadWire(s, r)))
  {
    var w := ReadWire(s, r);
    NewestIsLargest(s.store);
    if AdoptsAck(d.tracker, w.frame) {
      AdoptionStartsAtHead(s, d, r);
    }
  }

  lemma ReadKeeps(s: System, d: Core, r: ReplayResult)
    requires ServerInv(s, d) && s.open && s.phase.Reading? && ReadOk(s, r)
    ensures ServerInv(Push(AfterRead(s, r), d, ReadWire(s, r)), Recv(d, ReadWire(s, r)))
  {
    var w := ReadWire(s, r);
    var s', d' := Push(AfterRead(s, r), d, w), Recv(d, w);
    NewestIsLargest(s.store);
    ReadKeepsOpened(s, d, r);
    ReadKeepsMissing(s, d, r);
    ReadKeepsBatch(s, d, r);
    if AdoptsAck(d.tracker, w.frame) { AdoptionStartsAtHead(s, d, r); }
    assert ConnectionInv(s', d');
    assert LogInv(s') && QueueInv(s');
    MissingAbovePeak(s', d');
  }

  /** Writing the reset: what is owed starts over where it says. */
  lemma ResetKeepsMissing(s: System, d: Core)
    requires ServerInv(s, d) && s.open && s.phase.Writing? && s.phase.reset.Some?
    ensures MissingInv(Push(AfterWrite(s), d, BatchWire(s.phase)), Recv(d, BatchWire(s.phase)))
  {
    NewestIsLargest(s.store);
  }

  lemma ResetKeepsBatch(s: System, d: Core)
    requires ServerInv(s, d) && s.open && s.phase.Writing? && s.phase.reset.Some?
    ensures BatchInv(Push(AfterWrite(s), d, BatchWire(s.phase)), Recv(d, BatchWire(s.phase)))
  {
  }

  lemma ResetKeeps(s: System, d: Core)
    requires ServerInv(s, d) && s.open && s.phase.Writing? && s.phase.reset.Some?
    ensures ServerInv(Push(AfterWrite(s), d, BatchWire(s.phase)), Recv(d, BatchWire(s.phase)))
  {
    var w := BatchWire(s.phase);
    var s', d' := Push(AfterWrite(s), d, w), Recv(d, w);
    ResetKeepsMissing(s, d);
    ResetKeepsBatch(s, d);
    MissingAbovePeak(s', d');
    assert OpenedInv(s', d');
    assert ConnectionInv(s', d');
  }

  /** Nothing missing lies at or below a covering batch's next frame, except that frame itself. */
  lemma CoveringBatchSkipsNothing(s: System, d: Core, id: int)
    requires ServerInv(s, d) && s.open && s.phase.Writing? && s.phase.reset == None && s.phase.covers && !Finished(s.phase)
    requires id <= s.phase.head && (s.phase.events != [] ==> id <= s.phase.events[0].id)
    ensures forall e :: e in s.store.log && Missing(d, e) && e.id <= id ==> s.phase.events != [] && e == s.phase.events[0]
  {
    forall e | e in s.store.log && Missing(d, e) && e.id <= id
      ensures s.phase.events != [] && e == s.phase.events[0]
    {
      assert e.topic in s.phase.added && e.id > s.phase.at;
      assert e in s.phase.events;
    }
  }

  lemma ReplayFrameKeepsMissing(s: System, d: Core)
    requires ServerInv(s, d) && s.open && s.phase.Writing? && s.phase.reset == None && s.phase.events != []
    ensures MissingInv(Push(AfterWrite(s), d, BatchWire(s.phase)), Recv(d, BatchWire(s.phase)))
  {
    var w := BatchWire(s.phase);
    var s', d' := Push(AfterWrite(s), d, w), Recv(d, w);
    var e0 := s.phase.events[0];
    if s.phase.covers { CoveringBatchSkipsNothing(s, d, e0.id); }
    assert d'.accepted == d.accepted + {e0.id};
    forall e | e in s.store.log && Missing(d', e)
      ensures e.id > s'.peak && (InLine(s', e) || e in s'.phase.events)
    {
      assert e in s.phase.events ==> e == e0 || e in s'.phase.events;
      if !Missing(d, e) {
        assert e.topic in s.phase.added && e.id > s.phase.at;
      }
    }
  }

  lemma ReplayFrameKeepsBatch(s: System, d: Core)
    requires ServerInv(s, d) && s.open && s.phase.Writing? && s.phase.reset == None && s.phase.events != []
    ensures BatchInv(Push(AfterWrite(s), d, BatchWire(s.phase)), Recv(d, BatchWire(s.phase)))
  {
    var w := BatchWire(s.phase);
    var s', d' := Push(AfterWrite(s), d, w), Recv(d, w);
    var e0 := s.phase.events[0];
    assert e0 in s.phase.events;
    assert d'.accepted == d.accepted + {e0.id};
    assert forall e :: e in s.phase.events <==> e == e0 || e in s'.phase.events;
    forall e | e in s.store.log && e.inScope && e.topic in s.phase.added && e.id > s.phase.at
      ensures e.id in d'.accepted || e in s'.phase.events || (e.id > s.phase.head && InLine(s', e))
    {
    }
  }

  lemma ReplayFrameKeeps(s: System, d: Core)
    requires ServerInv(s, d) && s.open && s.phase.Writing? && s.phase.reset == None && s.phase.events != []
    ensures ServerInv(Push(AfterWrite(s), d, BatchWire(s.phase)), Recv(d, BatchWire(s.phase)))
  {
    var w := BatchWire(s.phase);
    var s', d' := Push(AfterWrite(s), d, w), Recv(d, w);
    assert s.phase.events[0] in s.phase.events;
    ReplayFrameKeepsMissing(s, d);
    ReplayFrameKeepsBatch(s, d);
    ReplayFrameKeepsConnection(s, d);
    MissingAbovePeak(s', d');
  }

  lemma ReplayFrameKeepsConnection(s: System, d: Core)
    requires ServerInv(s, d) && s.open && s.phase.Writing? && s.phase.reset == None && s.phase.events != []
    ensures var s', d' := Push(AfterWrite(s), d, BatchWire(s.phase)), Recv(d, BatchWire(s.phase));
            ConnectionInv(s', d') && OpenedInv(s', d') && LogInv(s') && QueueInv(s')
  {
    assert s.phase.events[0] in s.phase.events;
  }

  lemma ReceiptKeepsMissing(s: System, d: Core)
    requires ServerInv(s, d) && s.open && s.phase.Writing? && s.phase.reset == None && s.phase.events == [] && s.phase.receipt.Some?
    ensures MissingInv(Push(AfterWrite(s), d, BatchWire(s.phase)), Recv(d, BatchWire(s.phase)))
  {
    if s.phase.covers { CoveringBatchSkipsNothing(s, d, s.phase.receipt.value.handedOver.value); }
  }

  lemma ReceiptKeeps(s: System, d: Core)
    requires ServerInv(s, d) && s.open && s.phase.Writing? && s.phase.reset == None && s.phase.events == [] && s.phase.receipt.Some?
    ensures ServerInv(Push(AfterWrite(s), d, BatchWire(s.phase)), Recv(d, BatchWire(s.phase)))
  {
    var w := BatchWire(s.phase);
    var s', d' := Push(AfterWrite(s), d, w), Recv(d, w);
    ReceiptKeepsMissing(s, d);
    ReceiptKeepsBatch(s, d);
    MissingAbovePeak(s', d');
    assert OpenedInv(s', d');
  }

  lemma ReceiptKeepsBatch(s: System, d: Core)
    requires ServerInv(s, d) && s.open && s.phase.Writing? && s.phase.reset == None && s.phase.events == [] && s.phase.receipt.Some?
    ensures BatchInv(Push(AfterWrite(s), d, BatchWire(s.phase)), Recv(d, BatchWire(s.phase)))
  {
  }

  lemma EndBatchKeeps(s: System, d: Core, remembered: set<Event>)
    requires ServerInv(s, d) && s.open && s.phase.Writing? && Finished(s.phase)
    requires remembered <= s.delivered + (set e | e in s.phase.batch)
    ensures ServerInv(s.(phase := Idle, delivered := remembered), d)
  {
  }

  lemma UnsubscribeKeeps(s: System, d: Core)
    requires ServerInv(s, d) && s.open && s.phase.Idle? && s.requests != [] && s.requests[0].Unsubscribe?
    ensures ServerInv(Push(AfterUnsubscribe(s), d, UnsubscribeWire(s)), Recv(d, UnsubscribeWire(s)))
  {
    var s', d' := Push(AfterUnsubscribe(s), d, UnsubscribeWire(s)), Recv(d, UnsubscribeWire(s));
    assert forall m :: m in s'.requests ==> m in s.requests;
    assert MissingInv(s', d');
    MissingAbovePeak(s', d');
  }

  lemma SupersededKeeps(s: System, d: Core)
    requires ServerInv(s, d) && s.open && s.phase.Idle? && s.queue != [] && Superseded(s, s.queue[0])
    ensures ServerInv(AfterPump(s), d)
  {
    assert forall q :: q in s.queue ==> q == s.queue[0] || q in s.queue[1..];
  }

  lemma LiveKeepsMissing(s: System, d: Core)
    requires ServerInv(s, d) && s.open && s.phase.Idle? && s.queue != [] && !Superseded(s, s.queue[0])
    ensures MissingInv(Push(AfterPump(s), d, LiveWire(s.queue[0])), Recv(d, LiveWire(s.queue[0])))
  {
    var e0 := s.queue[0];
    var s', d' := Push(AfterPump(s), d, LiveWire(e0)), Recv(d, LiveWire(e0));
    assert e0 in s.queue;
    assert forall q :: q in s.queue ==> q == e0 || (q in s.queue[1..] && q.id > e0.id);
    assert d'.accepted == d.accepted + {e0.id};
    forall e | e in s.store.log && Missing(d', e) ensures e.id > s'.peak && InLine(s', e) {
      assert Missing(d, e) && InLine(s, e) && e != e0;
    }
  }

  lemma LiveKeeps(s: System, d: Core)
    requires ServerInv(s, d) && s.open && s.phase.Idle? && s.queue != [] && !Superseded(s, s.queue[0])
    ensures ServerInv(Push(AfterPump(s), d, LiveWire(s.queue[0])), Recv(d, LiveWire(s.queue[0])))
  {
    var e0 := s.queue[0];
    var s', d' := Push(AfterPump(s), d, LiveWire(e0)), Recv(d, LiveWire(e0));
    NewestIsLargest(s.store);
    assert e0 in s.queue;
    LiveKeepsMissing(s, d);
    MissingAbovePeak(s', d');
    assert QueueInv(s');
    assert OpenedInv(s', d');
  }

  // ------------------------------------------------------------------ //
  // Every run
  // ------------------------------------------------------------------ //

  lemma WriteNextKeeps(s: System, d: Core)
    requires ServerInv(s, d) && s.open && s.phase.Writing? && !Finished(s.phase)
    ensures ServerInv(Push(AfterWrite(s), d, BatchWire(s.phase)), Recv(d, BatchWire(s.phase)))
  {
    if s.phase.reset.Some? { ResetKeeps(s, d); }
    else if s.phase.events != [] { ReplayFrameKeeps(s, d); }
    else { ReceiptKeeps(s, d); }
  }

  lemma CommitStepKeeps(s: System, e: Event)
    requires Inv(s) && s.unannounced == None && e.id > Newest(s.store.log)
    ensures Inv(Committed(s, e))
  {
    NewestIsLargest(s.store);
    CommitKeeps(s, Drain(s.core, s.channel), e);
    var log' := s.store.log + [e];
    assert forall x :: x in log' && x !in s.store.log ==> x == e;
    HoldsLonger(s.core, s.channel, s.store.log, s.peak, !s.acked, log', s.peak, !s.acked);
  }

  lemma AnnounceStepKeeps(s: System)
    requires Inv(s) && s.unannounced.Some?
    ensures Inv(Announced(s))
  {
    AnnounceKeeps(s, Drain(s.core, s.channel));
  }

  lemma PruneKeeps(s: System, d: Core, floor: int)
    requires ServerInv(s, d) && s.store.floor <= floor < Newest(s.store.log)
    ensures ServerInv(s.(store := s.store.(floor := floor)), d)
  {
    PruneKeepsBatch(s, d, floor);
  }

  lemma PruneKeepsBatch(s: System, d: Core, floor: int)
    requires BatchInv(s, d)
    ensures BatchInv(s.(store := s.store.(floor := floor)), d)
  {
  }

  lemma PruneStepKeeps(s: System, floor: int)
    requires Inv(s) && s.store.floor <= floor < Newest(s.store.log)
    ensures Inv(s.(store := s.store.(floor := floor)))
  {
    PruneKeeps(s, Drain(s.core, s.channel), floor);
  }

  /** The server's part of the invariant does not look at how far the console has read. */
  lemma ServerIgnoresReading(s: System, d: Core, core: Core, channel: seq<Wire>)
    requires ServerInv(s, d)
    ensures ServerInv(s.(core := core, channel := channel), d)
  {
    BatchIgnoresReading(s, d, core, channel);
  }

  lemma BatchIgnoresReading(s: System, d: Core, core: Core, channel: seq<Wire>)
    requires BatchInv(s, d)
    ensures BatchInv(s.(core := core, channel := channel), d)
  {
  }

  lemma ArriveKeeps(s: System)
    requires Inv(s) && s.channel != []
    ensures Inv(s.(core := Recv(s.core, s.channel[0]), channel := s.channel[1..]))
  {
    ServerIgnoresReading(s, Drain(s.core, s.channel), Recv(s.core, s.channel[0]), s.channel[1..]);
  }

  lemma AskingKeeps(s: System, wanted: set<string>, m: Message)
    requires Inv(s) && s.open && (m.Subscribe? ==> m.cursor == SubscribeCursor(s.core.tracker.highest))
    ensures Inv(s.(wanted := wanted, requests := s.requests + [m]))
  {
    RequestKeeps(s, Drain(s.core, s.channel), wanted, m);
  }

  lemma DisconnectStepKeeps(s: System)
    requires Inv(s)
    ensures Inv(Disconnected(s))
  {
    DisconnectKeeps(s);
  }

  lemma OpenKeeps(s: System)
    requires Inv(s) && !s.open
    ensures Inv(Opened(s))
  {
    assert forall m :: m in Opened(s).requests ==> m == ResumeMessage(s, s.wanted);
  }

  lemma HandlerStepKeeps(s: System, a: Action)
    requires Inv(s) && Enabled(s, a) && (a.BeginSubscribe? || a.Read? || a.WriteNext? || a.EndBatch?)
    ensures Inv(Apply(s, a))
  {
    var d := Drain(s.core, s.channel);
    match a
    case BeginSubscribe(granted) => SubscribingKeeps(s, d, granted);
    case Read(bound) =>
      var r := ReadResult(s, bound);
      ReadIsOk(s, d, bound);
      ReadKeeps(s, d, r);
      PushKeeps(s, AfterRead(s, r), ReadWire(s, r), false);
    case WriteNext =>
      WriteNextKeeps(s, d);
      PushKeeps(s, AfterWrite(s), BatchWire(s.phase), false);
    case EndBatch(remembered) => EndBatchKeeps(s, d, remembered);
  }

  lemma IdleStepKeeps(s: System, a: Action)
    requires Inv(s) && Enabled(s, a) && (a.ServeUnsubscribe? || a.Pump?)
    ensures Inv(Apply(s, a))
  {
    var d := Drain(s.core, s.channel);
    if a.ServeUnsubscribe? {
      UnsubscribeKeeps(s, d);
      PushKeeps(s, AfterUnsubscribe(s), UnsubscribeWire(s), !s.acked);
    } else if Superseded(s, s.queue[0]) {
      SupersededKeeps(s, d);
    } else {
      LiveKeeps(s, d);
      PushKeeps(s, AfterPump(s), LiveWire(s.queue[0]), !s.acked);
    }
  }

  lemma WantKeeps(s: System, topic: string)
    requires Inv(s)
    ensures Inv(NowWanting(s, topic)) && Inv(NotWanting(s, topic))
  {
    if s.open {
      AskingKeeps(s, s.wanted + {topic}, ResumeMessage(s, {topic}));
      AskingKeeps(s, s.wanted - {topic}, Unsubscribe({topic}));
    }
  }

  lemma StepKeeps(s: System, a: Action)
    requires Inv(s) && Enabled(s, a)
    ensures Inv(Apply(s, a))
  {
    if a.Commit? { CommitStepKeeps(s, a.e); }
    else if a.Announce? { AnnounceStepKeeps(s); }
    else if a.Prune? { PruneStepKeeps(s, a.floor); }
    else if a.OpenSocket? { OpenKeeps(s); }
    else if a.Want? { WantKeeps(s, a.topic); }
    else if a.Unwant? { WantKeeps(s, a.topic); }
    else if a.Arrive? { ArriveKeeps(s); }
    else if a.Disconnect? { DisconnectStepKeeps(s); }
    else if a.ServeUnsubscribe? || a.Pump? { IdleStepKeeps(s, a); }
    else { HandlerStepKeeps(s, a); }
  }

  lemma {:induction false} RunKeeps(states: seq<System>, actions: seq<Action>)
    requires IsRun(states, actions)
    ensures Inv(states[|actions|])
    decreases |actions|
  {
    if actions != [] {
      var n := |actions| - 1;
      RunKeeps(states[..n + 1], actions[..n]);
      StepKeeps(states[n], actions[n]);
    }
  }

  lemma ReachedKeeps(first: System, s: System)
    requires Leads(first, s)
    ensures Inv(s)
  {
    var states, actions, i :| Path(states, actions, i, first, s);
    RunKeeps(states, actions);
  }

  /** Safety: at every point of every run, nothing owed is at or below the cursor unapplied. */
  lemma NoEventIsLost(states: seq<System>, actions: seq<Action>, i: nat)
    requires IsRun(states, actions) && i < |states|
    ensures NothingLost(states[i].core, states[i].store.log)
    // Opening positions never run ahead of the log, so whatever is committed later on an opened topic is owed.
    ensures forall t :: t in states[i].core.opening ==> states[i].core.opening[t] <= Newest(states[i].store.log)
  {
    RunKeeps(states[..i + 1], actions[..i]);
  }

  /** The connection has answered everything and nothing is under way. */
  predicate AtRest(s: System) {
    s.open && s.acked && s.phase.Idle? && s.channel == [] && s.queue == [] && s.unannounced == None
  }

  /** Nothing is withheld: at rest, every granted topic is opened and every owed event was applied. */
  lemma AtRestEverythingIsApplied(states: seq<System>, actions: seq<Action>, i: nat)
    requires IsRun(states, actions) && i < |states| && AtRest(states[i])
    ensures states[i].core.opening.Keys == states[i].grants
    ensures forall e :: e in states[i].store.log && Owed(states[i].core.opening, e) ==> e.id in states[i].core.accepted
  {
    RunKeeps(states[..i + 1], actions[..i]);
    assert Drain(states[i].core, []) == states[i].core;
  }
}
