/** Each event reaches each of its handlers once, over whole runs. */
module Handling {
  import opened Options
  import opened Sequences
  import opened Protocol
  import opened TopicMaps
  import opened EventStore
  import opened RealtimeClients
  import opened Delivery
  import opened ResumeProof

  /** The calls one arriving frame causes where every topic goes by its canonical name. */
  function CallsOf(t: Tracker, handlers: Registry, f: Frame): multiset<Call> {
    match f
    case Product(env) => ProductCalls(EMPTY, t, handlers, env)
    case Reset(_) => ResetCalls(handlers, f)
    case _ => multiset{}
  }

  /** All calls of a run; `handlers[i]` is what is registered at its state `i`. */
  ghost function CallsOver(states: seq<System>, actions: seq<Action>, handlers: seq<Registry>): multiset<Call>
    requires IsRun(states, actions) && |handlers| == |states|
    decreases |actions|
  {
    if actions == [] then multiset{}
    else
      var n := |actions| - 1;
      CallsOver(states[..n + 1], actions[..n], handlers[..n + 1])
      + (if actions[n].Arrive? then CallsOf(states[n].core.tracker, handlers[n], states[n].channel[0].frame) else multiset{})
  }

  /** How often handler `h` was called for `e` under its own topic, live or replayed. */
  ghost function Told(calls: multiset<Call>, h: Handler, e: Event): nat {
    calls[(e.topic, h, EventFrame(e, true))] + calls[(e.topic, h, EventFrame(e, false))]
  }

  // ------------------------------------------------------------------ //
  // One frame
  // ------------------------------------------------------------------ //

  lemma OneFrameTells(t: Tracker, handlers: Registry, h: Handler, e: Event, b: bool)
    requires e.topic in handlers && h in handlers[e.topic] && e.topic != EVERYTHING && e.topic != ""
    ensures Told(CallsOf(t, handlers, EventFrame(e, b)), h, e) == if e.id in t.order then 0 else 1
  {
    var f := EventFrame(e, b);
    assert EMPTY.Listeners(Some(e.topic)) == [e.topic];
    assert CallsToAll(handlers, [e.topic], f) == CallsTo(handlers, e.topic, f) by { assert [e.topic][1..] == []; }
    forall r: bool ensures CallsTo(handlers, e.topic, f)[(e.topic, h, EventFrame(e, r))] == if r == b then 1 else 0 {
      CallsToCount(handlers, e.topic, f, (e.topic, h, EventFrame(e, r)));
    }
    forall r: bool ensures CallsTo(handlers, EVERYTHING, f)[(e.topic, h, EventFrame(e, r))] == 0 {
      CallsToCount(handlers, EVERYTHING, f, (e.topic, h, EventFrame(e, r)));
    }
  }

  lemma OtherFrameTellsNothing(t: Tracker, handlers: Registry, f: Frame, h: Handler, e: Event)
    requires f != EventFrame(e, true) && f != EventFrame(e, false)
    ensures Told(CallsOf(t, handlers, f), h, e) == 0
  {
    forall r: bool ensures CallsOf(t, handlers, f)[(e.topic, h, EventFrame(e, r))] == 0 {
      var c := (e.topic, h, EventFrame(e, r));
      if f.Product? {
        CallCount(handlers, EMPTY.Listeners(f.env.topic), f, c);
        CallsToCount(handlers, EVERYTHING, f, c);
      }
    }
  }

  // ------------------------------------------------------------------ //
  // Every frame in flight is of an event in the log
  // ------------------------------------------------------------------ //

  ghost predicate OfLog(f: Frame, log: seq<Event>) {
    f.Product? ==> exists e :: e in log && (f == EventFrame(e, true) || f == EventFrame(e, false))
  }

  ghost predicate FlightOfLog(s: System) {
    forall w :: w in s.channel ==> OfLog(w.frame, s.store.log)
  }

  lemma StepKeepsFlight(s: System, a: Action)
    requires Inv(s) && FlightOfLog(s) && Enabled(s, a)
    ensures FlightOfLog(Apply(s, a))
  {
    match a
    case WriteNext => BatchIsOfLog(s, Drain(s.core, s.channel));
    case Pump => LiveIsOfLog(s);
    case _ =>
  }

  lemma BatchIsOfLog(s: System, d: Core)
    requires BatchInv(s, d) && s.phase.Writing? && !Finished(s.phase)
    ensures OfLog(BatchWire(s.phase).frame, s.store.log)
  {
    assert s.phase.reset == None && s.phase.events != [] ==> s.phase.events[0] in s.phase.events;
  }

  lemma LiveIsOfLog(s: System)
    requires QueueInv(s) && s.queue != []
    ensures OfLog(LiveWire(s.queue[0]).frame, s.store.log)
  {
    assert s.queue[0] in s.queue;
  }

  lemma {:induction false} RunKeepsFlight(states: seq<System>, actions: seq<Action>)
    requires IsRun(states, actions)
    ensures FlightOfLog(states[|actions|])
    decreases |actions|
  {
    if actions != [] {
      var n := |actions| - 1;
      RunKeepsFlight(states[..n + 1], actions[..n]);
      RunKeeps(states[..n + 1], actions[..n]);
      StepKeepsFlight(states[n], actions[n]);
    }
  }

  // ------------------------------------------------------------------ //
  // The window remembers everything while it is not exceeded
  // ------------------------------------------------------------------ //

  ghost predicate RemembersAll(c: Core) {
    |c.tracker.order| == |c.accepted| && forall id :: id in c.tracker.order <==> id in c.accepted
  }

  /** No reset arrives anywhere in the run. */
  ghost predicate NeverReset(states: seq<System>, actions: seq<Action>)
    requires IsRun(states, actions)
  {
    forall i {:trigger actions[i]} :: 0 <= i < |actions| && actions[i].Arrive? ==> !states[i].channel[0].frame.Reset?
  }

  lemma ArrivalRemembers(c: Core, w: Wire)
    requires RemembersAll(c) && !w.frame.Reset? && |Recv(c, w).accepted| <= DEDUPE_WINDOW
    ensures RemembersAll(Recv(c, w))
  {
  }

  lemma StepOnlyAdds(s: System, a: Action)
    requires Enabled(s, a)
    ensures s.core.accepted <= Apply(s, a).core.accepted && |s.core.accepted| <= |Apply(s, a).core.accepted|
    ensures forall e :: e in s.store.log ==> e in Apply(s, a).store.log
    ensures !a.Arrive? ==> Apply(s, a).core == s.core
  {
    FewerMembers(s.core.accepted, Apply(s, a).core.accepted);
  }

  lemma FewerMembers(a: set<int>, b: set<int>)
    requires a <= b
    ensures |a| <= |b|
  {
    assert b == a + (b - a);
  }

  ghost predicate OnlyWithItsId(log: seq<Event>, e: Event) {
    forall x :: x in log && x.id == e.id ==> x == e
  }

  /** `h` is registered under `topic` at every state. */
  ghost predicate Registered(handlers: seq<Registry>, topic: string, h: Handler) {
    forall i :: 0 <= i < |handlers| ==> topic in handlers[i] && h in handlers[i][topic]
  }

  /** What one step adds to the count is what it adds to the applied ids. */
  lemma StepTells(s: System, a: Action, handlers: Registry, h: Handler, e: Event)
    requires Enabled(s, a) && FlightOfLog(s) && OnlyWithItsId(s.store.log, e) && RemembersAll(s.core)
    requires e.topic in handlers && h in handlers[e.topic] && e.topic != EVERYTHING && e.topic != ""
    ensures var more := if a.Arrive? then CallsOf(s.core.tracker, handlers, s.channel[0].frame) else multiset{};
            (if e.id in s.core.accepted then 1 else 0) + Told(more, h, e)
            == if e.id in Apply(s, a).core.accepted then 1 else 0
  {
    if a.Arrive? {
      var f := s.channel[0].frame;
      assert s.channel[0] in s.channel;
      if f == EventFrame(e, true) { OneFrameTells(s.core.tracker, handlers, h, e, true); }
      else if f == EventFrame(e, false) { OneFrameTells(s.core.tracker, handlers, h, e, false); }
      else { OtherFrameTellsNothing(s.core.tracker, handlers, f, h, e); }
    }
  }

  lemma {:induction false} HandledAsApplied(
    states: seq<System>, actions: seq<Action>, handlers: seq<Registry>, h: Handler, e: Event)
    requires IsRun(states, actions) && NeverReset(states, actions) && |handlers| == |states|
    requires |states[|actions|].core.accepted| <= DEDUPE_WINDOW && OnlyWithItsId(states[|actions|].store.log, e)
    requires Registered(handlers, e.topic, h) && e.topic != EVERYTHING && e.topic != ""
    ensures RemembersAll(states[|actions|].core)
    ensures Told(CallsOver(states, actions, handlers), h, e) == if e.id in states[|actions|].core.accepted then 1 else 0
    decreases |actions|
  {
    if actions != [] {
      var n := |actions| - 1;
      var before, done := states[..n + 1], actions[..n];
      assert IsRun(before, done);
      StepOnlyAdds(states[n], actions[n]);
      HandledAsApplied(before, done, handlers[..n + 1], h, e);
      RunKeepsFlight(before, done);
      StepTells(states[n], actions[n], handlers[n], h, e);
      if actions[n].Arrive? { ArrivalRemembers(states[n].core, states[n].channel[0]); }
    }
  }

  /**
   At most once, and at rest exactly once: while the window is not exceeded and no
   reset arrives, a handler registered throughout is called for an event of its
   topic exactly when the event was applied, and so for everything owed at rest.
   */
  lemma HandledOnce(
    states: seq<System>, actions: seq<Action>, handlers: seq<Registry>, h: Handler, e: Event)
    requires IsRun(states, actions) && NeverReset(states, actions) && |handlers| == |states|
    requires |states[|actions|].core.accepted| <= DEDUPE_WINDOW && e in states[|actions|].store.log
    requires Registered(handlers, e.topic, h) && e.topic != EVERYTHING && e.topic != ""
    ensures var s := states[|actions|];
            var told := Told(CallsOver(states, actions, handlers), h, e);
            && told == (if e.id in s.core.accepted then 1 else 0)
            && (AtRest(s) && Owed(s.core.opening, e) ==> told == 1)
  {
    RunKeeps(states, actions);
    HandledAsApplied(states, actions, handlers, h, e);
    if AtRest(states[|actions|]) { AtRestEverythingIsApplied(states, actions, |actions|); }
  }
}
