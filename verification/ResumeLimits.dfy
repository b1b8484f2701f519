/**
 Runs in which a reconnect loses an event: a topic added to a live connection is
 read from the cursor its subscribe was sent with, but resumed from the cursor
 held when the socket drops; and a console without a cursor resumes at the head.
 Each run is a chain of steps of the stream, and its end state is reached from the
 state before the loss.
 */
module ResumeLimits {
  import opened Options
  import opened Protocol
  import opened EventStore
  import opened RealtimeClients
  import opened Delivery
  import opened ResumeProof
  import opened CutLoss

  const A := "org/7/issues"
  const B := "session/9/stdout"

  lemma Announcing(first: System, s: System, e: Event) returns (s': System)
    requires Leads(first, s) && s.unannounced == None && e.id > Newest(s.store.log)
    ensures Leads(first, s')
    ensures s' == s.(store := s.store.(log := s.store.log + [e]),
                     queue := if s.open && e.topic in s.grants && e.inScope then s.queue + [e] else s.queue)
  {
    StepLeads(first, s, Commit(e));
    StepLeads(first, Apply(s, Commit(e)), Announce);
    s' := Apply(Apply(s, Commit(e)), Announce);
  }

  /** A live event that reaches the console at once. */
  lemma Delivering(first: System, s: System, e: Event) returns (s': System)
    requires Leads(first, s) && s.open && s.phase.Idle? && s.channel == [] && s.queue == [] && s.delivered == {}
    requires s.unannounced == None && e.id > Newest(s.store.log) && e.topic in s.grants && e.inScope
    requires e.id > s.core.tracker.highest && e.id !in s.core.tracker.order && |s.core.tracker.order| < DEDUPE_WINDOW
    ensures Leads(first, s')
    ensures s'.core == Core(Tracker(s.core.tracker.order + [e.id], e.id, s.core.tracker.batchRetires),
                            s.core.accepted + {e.id}, s.core.opening)
    ensures s' == s.(store := s.store.(log := s.store.log + [e]), core := s'.core, peak := Max(s.peak, e.id))
  {
    var s1 := Announcing(first, s, e);
    assert s1.queue == [e];
    s' := Pumping(first, s1, e);
    LiveIsApplied(s.core, e);
  }

  lemma LiveIsApplied(c: Core, e: Event)
    requires e.id > c.tracker.highest && e.id !in c.tracker.order && |c.tracker.order| < DEDUPE_WINDOW
    ensures Recv(c, LiveWire(e))
            == Core(Tracker(c.tracker.order + [e.id], e.id, c.tracker.batchRetires), c.accepted + {e.id}, c.opening)
  {
    assert map[] + c.opening == c.opening;
  }

  lemma Pumping(first: System, s: System, e: Event) returns (s': System)
    requires Leads(first, s) && s.open && s.phase.Idle? && s.channel == [] && s.queue == [e] && s.delivered == {}
    requires e.topic in s.grants
    ensures Leads(first, s')
    ensures s' == s.(queue := [], core := Recv(s.core, LiveWire(e)), peak := Max(s.peak, s'.core.tracker.highest))
  {
    StepLeads(first, s, Pump);
    var s1 := Apply(s, Pump);
    assert s1.channel == [LiveWire(e)];
    StepLeads(first, s1, Arrive);
    s' := Apply(s1, Arrive);
  }

  /** A closed connection with nothing left of the last one. */
  predicate Down(s: System) {
    !s.open && s.requests == [] && s.grants == {} && !s.acked && s.queue == [] && s.delivered == {} && s.phase.Idle? &&
    s.channel == [] && s.unannounced == None
  }

  lemma Asking(first: System, s: System) returns (s': System)
    requires Leads(first, s) && Down(s) && s.wanted != {} && "" !in s.wanted
    ensures Leads(first, s')
    ensures s' == s.(open := true, grants := s.wanted,
                     phase := Reading(s.wanted, true, true, SubscribeCursor(s.core.tracker.highest)))
  {
    StepLeads(first, s, OpenSocket);
    var s1 := Apply(s, OpenSocket);
    assert s1.requests[0] == ResumeMessage(s, s.wanted) && s1.requests[1..] == [];
    StepLeads(first, s1, BeginSubscribe(s.wanted));
    s' := Apply(s1, BeginSubscribe(s.wanted));
    assert s'.grants == s.wanted;
  }

  /** Connecting when the log owes nothing: the ack is the whole batch. */
  lemma Connecting(first: System, s: System) returns (s': System)
    requires Leads(first, s) && Down(s) && s.wanted != {} && "" !in s.wanted
    requires Replay(s.store, s.wanted, SubscribeCursor(s.core.tracker.highest), 5)
             == ReplayResult([], s.core.tracker.highest, false, NoReason)
    requires s.core.tracker.highest >= 0
    ensures Leads(first, s') && AtRest(s') && s'.grants == s'.wanted == s.wanted && s'.store == s.store
    ensures s'.requests == [] && s'.delivered == {}
    ensures s'.core.tracker == s.core.tracker.(batchRetires := true) && s'.core.accepted == s.core.accepted
  {
    var s3 := Asking(first, s);
    StepLeads(first, s3, Read(5));
    var s4 := Apply(s3, Read(5));
    var w := ReadWire(s3, ReplayResult([], s.core.tracker.highest, false, NoReason));
    assert s4.channel == [w] && Finished(s4.phase);
    StepLeads(first, s4, EndBatch({}));
    var s5 := Apply(s4, EndBatch({}));
    StepLeads(first, s5, Arrive);
    s' := Apply(s5, Arrive);
    assert s'.channel == [] && s'.core == Recv(s.core, w);
  }

  /** Connecting without a cursor: the ack is taken up, and what the log holds by then is passed over. */
  lemma ConnectingAtHead(first: System, s: System) returns (s': System)
    requires Leads(first, s) && Down(s) && s.wanted != {} && "" !in s.wanted
    requires s.core.tracker.highest == 0 && Newest(s.store.log) > 0
    ensures Leads(first, s') && AtRest(s') && s'.grants == s'.wanted == s.wanted && s'.store == s.store
    ensures s'.core.tracker == s.core.tracker.(highest := Newest(s.store.log), batchRetires := true)
    ensures s'.requests == [] && s'.core.accepted == s.core.accepted && s'.core.opening == map t | t in s.wanted :: Newest(s.store.log)
  {
    var head := Newest(s.store.log);
    var s3 := Asking(first, s);
    StepLeads(first, s3, Read(5));
    var s4 := Apply(s3, Read(5));
    var w := ReadWire(s3, ReplayResult([], head, false, NoReason));
    assert s4.channel == [w] && Finished(s4.phase);
    StepLeads(first, s4, EndBatch({}));
    var s5 := Apply(s4, EndBatch({}));
    StepLeads(first, s5, Arrive);
    s' := Apply(s5, Arrive);
    assert AdoptsAck(s.core.tracker, w.frame) && s'.channel == [] && s'.core == Recv(s.core, w);
  }

  /** A console live on A, from an empty log. */
  lemma LiveOnA() returns (s: System)
    ensures Leads(s, s) && AtRest(s) && s.grants == s.wanted == {A} && s.store == Store([], 0)
    ensures s.requests == [] && s.delivered == {}
    ensures s.core.tracker == FRESH && s.core.accepted == {}
  {
    InitialLeadsToItself();
    StepLeads(INITIAL, INITIAL, Want(A));
    s := Connecting(INITIAL, Apply(INITIAL, Want(A)));
    LeadsToItself(INITIAL, s);
  }

  // ------------------------------------------------------------------ //
  // A topic added to a live connection
  // ------------------------------------------------------------------ //

  const LOG: seq<Event> := [Event(1, A, true), Event(2, B, true), Event(3, A, true)]

  /** B is asked for at cursor 1, and live frames on A move the cursor to 3. */
  lemma AskingForB() returns (asked: System, s: System)
    ensures asked.requests == [Subscribe({B}, Some(1))] && LOG[1] !in asked.store.log
    ensures Leads(asked, s) && s.open && s.wanted == {A, B} && s.grants == {A} && s.acked && s.phase.Idle?
    ensures s.requests == asked.requests && s.channel == [] && s.unannounced == None && s.store == Store(LOG, 0)
    ensures s.core.accepted == {1, 3} && s.core.tracker.highest == 3 && s.core.tracker.order == [1, 3]
  {
    var s0 := LiveOnA();
    var s1 := Delivering(s0, s0, LOG[0]);
    StepLeads(s0, s1, Want(B));
    asked := Apply(s1, Want(B));
    LeadsToItself(s0, asked);
    var s2 := Announcing(asked, asked, LOG[1]);
    assert s2.queue == [];
    s := Delivering(asked, s2, LOG[2]);
    assert s.store.log == LOG;
  }

  /** By the time the batch for B is acknowledged the cursor is at 3. */
  lemma AddingB() returns (asked: System, s: System)
    ensures asked.requests == [Subscribe({B}, Some(1))] && LOG[1] !in asked.store.log
    ensures Leads(asked, s) && s.open && s.wanted == {A, B} && s.store == Store(LOG, 0) && s.unannounced == None
    ensures s.core.accepted == {1, 3} && s.core.tracker.highest == 3 && s.core.tracker.order == [1, 3] && s.phase.Writing?
  {
    var s0;
    asked, s0 := AskingForB();
    StepLeads(asked, s0, BeginSubscribe({B}));
    var s1 := Apply(s0, BeginSubscribe({B}));
    assert s1.phase == Reading({B}, false, false, Some(1)) by { assert A in s1.grants && A !in {B}; }
    StepLeads(asked, s1, Read(5));
    var s2 := Apply(s1, Read(5));
    StepLeads(asked, s2, Arrive);
    s := Apply(s2, Arrive);
    assert !AdoptsAck(s2.core.tracker, s2.channel[0].frame);
  }

  /**
   The hole is reachable: everything the console asked for is granted, answered
   and at rest, and an event published on B after the console subscribed to it
   was not applied and is passed by for good.
   */
  lemma IncrementalSubscribeCanLeaveAHole() returns (asked: System, s: System, lost: Event)
    ensures asked.requests == [Subscribe({B}, Some(1))] && lost !in asked.store.log
    ensures Leads(asked, s) && AtRest(s) && B in s.grants
    ensures lost.inScope && lost.topic == B && 1 < lost.id <= s.core.tracker.highest && PassedBy(s, lost)
  {
    var cut;
    asked, cut := AddingB();
    lost := LOG[1];
    assert lost in LOG;
    StepLeads(asked, cut, Disconnect);
    NothingBeyondThree();
    s := Connecting(asked, Apply(cut, Disconnect));
  }

  lemma NothingBeyondThree()
    ensures Replay(Store(LOG, 0), {A, B}, Some(3), 5) == ReplayResult([], 3, false, NoReason)
  {
    assert Rows(LOG, 0, {A, B}, 3) == [] by {
      RowsAreExact(LOG, 0, {A, B}, 3);
      SomeMember(Rows(LOG, 0, {A, B}, 3));
    }
    assert {A, B} - {""} == {A, B};
  }

  /** B is granted and its empty batch closed, all without a cursor; only the ack is still in flight. */
  lemma AnsweringB() returns (asked: System, s: System)
    ensures asked.requests == [Subscribe({B}, None)] && asked.core.tracker.highest == 0 && asked.store.log == []
    ensures Leads(asked, s) && s.open && B in s.grants && s.wanted == {A, B} && s.unannounced == None
    ensures s.store == asked.store && s.core == asked.core && s.core.accepted == {}
  {
    var s0 := LiveOnA();
    StepLeads(s0, s0, Want(B));
    asked := Apply(s0, Want(B));
    LeadsToItself(s0, asked);
    StepLeads(asked, asked, BeginSubscribe({B}));
    var s1 := Apply(asked, BeginSubscribe({B}));
    assert s1.phase == Reading({B}, false, false, None) by { assert A in s1.grants && A !in {B}; }
    StepLeads(asked, s1, Read(5));
    var s2 := Apply(s1, Read(5));
    assert Finished(s2.phase);
    StepLeads(asked, s2, EndBatch({}));
    s := Apply(s2, EndBatch({}));
  }

  /** A live event is queued, and the connection cut before it or anything else arrives. */
  lemma CuttingQueued(first: System, s: System, e: Event) returns (s': System)
    requires Leads(first, s) && s.open && s.unannounced == None && s.store.log == [] && e.id > 0
    ensures Leads(first, s') && Down(s') && s'.wanted == s.wanted && s'.store == s.store.(log := [e]) && s'.core == s.core
  {
    var s1 := Announcing(first, s, e);
    StepLeads(first, s1, Disconnect);
    s' := Apply(s1, Disconnect);
  }

  /** The cursor need not move for this: without one, an added topic is cut off just the same. */
  lemma AddedTopicWithoutCursorCanLeaveAHole() returns (asked: System, s: System, lost: Event)
    ensures asked.requests == [Subscribe({B}, None)] && asked.core.tracker.highest == 0 && lost !in asked.store.log
    ensures Leads(asked, s) && AtRest(s) && B in s.grants
    ensures lost.inScope && lost.topic == B && PassedBy(s, lost)
  {
    var answered;
    asked, answered := AnsweringB();
    lost := Event(1, B, true);
    var cut := CuttingQueued(asked, answered, lost);
    s := ConnectingAtHead(asked, cut);
  }

  // ------------------------------------------------------------------ //
  // A topic already settled
  // ------------------------------------------------------------------ //

  /**
   A console at rest without a cursor has something to lose after all: the first
   event on its settled topic is passed by when the connection is cut under it,
   and the topic's position moves up to that event.
   */
  lemma SettledTopicWithoutCursorCanLeaveAHole() returns (settled: System, s: System, lost: Event)
    ensures AtRest(settled) && settled.grants == {A} && lost !in settled.store.log && Owed(settled.core.opening, lost)
    ensures Leads(settled, s) && AtRest(s) && A in s.grants
    ensures lost.inScope && lost.topic == A && s.core.tracker.highest == lost.id && PassedBy(s, lost)
    ensures s.core.opening == map[A := lost.id]
  {
    settled := LiveOnA();
    SettledAtStart(settled);
    lost := Event(1, A, true);
    var cut := CuttingQueued(settled, settled, lost);
    s := ConnectingAtHead(settled, cut);
    assert s.core.opening == map[A := lost.id];
  }

  /**
   What decides is the registration, not the head of the log at the read: an
   event announced in between lies at the adopted head and is still delivered.
   */
  lemma RegisteredInTimeIsDelivered() returns (registered: System, s: System, e: Event)
    ensures registered.phase == Reading({A}, true, true, None) && e !in registered.store.log
    ensures Leads(registered, s) && AtRest(s) && s.core.tracker.highest == e.id == Newest(s.store.log)
    ensures e.id in s.core.accepted
  {
    var s0 := LiveOnA();
    StepLeads(s0, s0, Disconnect);
    registered := Asking(s0, Apply(s0, Disconnect));
    LeadsToItself(s0, registered);
    e := Event(1, A, true);
    var s1 := Announcing(registered, registered, e);
    var s2 := AdoptingBehindQueue(registered, s1, e);
    s := Pumping(registered, s2, e);
  }

  lemma AdoptingBehindQueue(first: System, s: System, e: Event) returns (s': System)
    requires Leads(first, s) && s.open && s.phase == Reading({A}, true, true, None) && s.queue == [e] && s.channel == []
    requires s.delivered == {} && s.core.tracker == FRESH && s.store.log == [e] && e.id > 0 && s.requests == []
    ensures Leads(first, s')
    ensures s' == s.(phase := Idle, acked := true, core := s'.core, peak := s'.peak)
    ensures s'.core.tracker == FRESH.(highest := e.id) && s'.peak == Max(s.peak, e.id)
  {
    StepLeads(first, s, Read(5));
    var s1 := Apply(s, Read(5));
    var w := ReadWire(s, ReplayResult([], e.id, false, NoReason));
    assert s1.channel == [w] && Finished(s1.phase) && AdoptsAck(s.core.tracker, w.frame);
    StepLeads(first, s1, EndBatch({}));
    var s2 := Apply(s1, EndBatch({}));
    StepLeads(first, s2, Arrive);
    s' := Apply(s2, Arrive);
    assert s'.channel == [] && s'.core == Recv(s.core, w);
    assert Drain(s.core, []) == s.core;
  }

  lemma SettledAtStart(s: System)
    requires Leads(s, s) && AtRest(s) && s.store.log == []
    ensures s.core.opening.Keys == s.grants && forall t :: t in s.grants ==> s.core.opening[t] <= 0
  {
    var states, actions, i :| Path(states, actions, i, s, s);
    AtRestEverythingIsApplied(states, actions, |actions|);
    NoEventIsLost(states, actions, |actions|);
  }
}
