/**
 The realtime stream as a system of steps: one process committing and
 announcing events, one connection delivering them, a FIFO channel, and the
 console at its far end, with a disconnect possible between any two steps.

 Topics are canonical names and the delivery scope is fixed, so routing,
 revocation and re-authorization are not part of a step.  A `Wire` carries, beside
 its frame, what the proof needs to know about it; the console never reads it.
 */
module Delivery {
  import opened Options
  import opened Protocol
  import opened EventStore
  import opened RealtimeClients

  type Positions = map<string, int>

  datatype Note =
    | Nothing
    /** A subscribe was granted; `first` on the batch that (re)opens the connection. */
    | Granted(added: set<string>, first: bool)
    /** The console is to re-read over REST; the log reached `head` when the batch was read. */
    | Resynced(added: set<string>, head: int)
    | Dropped(topics: set<string>)

  /** `settles` are the positions from which a topic is delivered without a hole once this frame has arrived. */
  datatype Wire = Wire(frame: Frame, note: Note, settles: Positions)

  /** The console: its cursor filter, and for the proof every id it ever applied and each topic's opening position. */
  datatype Core = Core(tracker: Tracker, accepted: set<int>, opening: Positions)

  predicate AdoptsAck(t: Tracker, f: Frame) {
    f.Ack? && f.ack.coversConnection && t.highest == 0 && f.ack.cursor.Some? && f.ack.cursor.value > 0
  }

  function Max(a: int, b: int): int {
    if a > b then a else b
  }

  /**
   An opening position is set by the frame that settles the topic; set anew by
   an ack adopted from cursor 0; moved to where a reset left the console - or,
   for the topics of the reset batch itself, to the head that batch was read at;
   and given up when the topic is dropped or not granted again on reconnecting.
   */
  function NextOpening(c: Core, w: Wire): Positions {
    var kept :=
      match w.note
      case Nothing => c.opening
      case Granted(added, first) =>
        if AdoptsAck(c.tracker, w.frame) then map t | t in added :: w.frame.ack.cursor.value
        else if first then map t | t in c.opening && t in added :: c.opening[t]
        else c.opening
      case Resynced(added, head) =>
        (map t | t in c.opening && t !in added :: Max(c.opening[t], c.tracker.Receive(w.frame).highest))
        + (map t | t in added :: head)
      case Dropped(topics) => c.opening - topics;
    w.settles + kept
  }

  function Recv(c: Core, w: Wire): Core {
    var news := w.frame.Product? && w.frame.env.eventId.Some? && c.tracker.Accepts(w.frame.env);
    Core(
      c.tracker.Receive(w.frame),
      if news then c.accepted + {w.frame.env.eventId.value} else c.accepted,
      NextOpening(c, w))
  }

  /** The console once everything in flight has arrived. */
  function Drain(c: Core, channel: seq<Wire>): Core
    decreases channel
  {
    if channel == [] then c else Drain(Recv(c, channel[0]), channel[1..])
  }

  /** What the connection's handler is doing; live delivery waits unless it is idle. */
  datatype Phase =
    | Idle
    | Reading(added: set<string>, covers: bool, first: bool, cursor: Option<int>)
    | Writing(added: set<string>, covers: bool, head: int, at: int, gap: bool, batch: seq<Event>,
              reset: Option<int>, events: seq<Event>, receipt: Option<Frame>)

  datatype System = System(
    store: Store,
    unannounced: Option<Event>,   // committed, not yet on the bus: one critical section
    open: bool,
    requests: seq<Message>,       // written by the console, not yet handled
    grants: set<string>,
    acked: bool,                  // some subscribe was answered on this connection
    queue: seq<Event>,            // announced, waiting to be written live
    delivered: set<Event>,        // remembered as written by a batch
    phase: Phase,
    channel: seq<Wire>,           // written, not yet received
    wanted: set<string>,          // the console's live topics
    core: Core,
    peak: int)                    // highest cursor this connection's frames lead to

  const INITIAL: System :=
    System(Store([], 0), None, false, [], {}, false, [], {}, Idle, [], {}, Core(FRESH, {}, map[]), 0)

  datatype Action =
    | Commit(e: Event)
    | Announce
    | Prune(floor: int)
    | OpenSocket
    | Want(topic: string)
    | Unwant(topic: string)
    | BeginSubscribe(granted: set<string>)
    | Read(bound: nat)
    | WriteNext
    | EndBatch(remembered: set<Event>)
    | ServeUnsubscribe
    | Pump
    | Arrive
    | Disconnect

  function ResumeMessage(s: System, topics: set<string>): Message {
    Subscribe(topics, SubscribeCursor(s.core.tracker.highest))
  }

  function HighWater(events: seq<Event>): int {
    if events == [] then 0 else Max(events[0].id, HighWater(events[1..]))
  }

  predicate Finished(p: Phase)
    requires p.Writing?
  {
    p.reset == None && p.events == [] && p.receipt == None
  }

  function SettledAt(p: Phase): Positions
    requires p.Writing?
  {
    map t | t in p.added :: p.at
  }

  function AckFrame(cursor: Option<int>, covers: bool): Frame {
    Ack(SubscribeAck([], [], cursor, covers))
  }

  function EventFrame(e: Event, replayed: bool): Frame {
    Product(Envelope(Some(e.id), Some(e.topic), replayed))
  }

  /** Write one frame to the socket; `d` is the console once all before it has arrived. */
  function Push(s: System, d: Core, w: Wire): System {
    s.(channel := s.channel + [w], peak := Max(s.peak, Recv(d, w).tracker.highest))
  }

  /** The batch one catch-up read produced, as it stands after its ack. */
  function BatchOf(p: Phase, r: ReplayResult, head: int): Phase
    requires p.Reading?
  {
    var reported := if p.cursor == None || r.gap then r.cursor else p.cursor.value;
    var receipt :=
      if p.covers then (if r.cursor > reported then Some(ReplayComplete(true, Some(r.cursor))) else None)
      else (if HighWater(r.events) > reported then Some(ReplayComplete(false, None)) else None);
    Writing(p.added, p.covers, head, if p.cursor == None || r.gap then head else p.cursor.value, r.gap, r.events,
            if r.gap then Some(r.cursor) else None, r.events, receipt)
  }

  /** The next frame of the batch and what is left after it. */
  function NextWire(p: Phase): (Frame, Note, Phase)
    requires p.Writing? && !Finished(p)
  {
    if p.reset.Some? then (Reset(p.reset), Resynced(p.added, p.head), p.(reset := None))
    else if p.events != [] then (EventFrame(p.events[0], true), Nothing, p.(events := p.events[1..]))
    else (p.receipt.value, Nothing, p.(receipt := None))
  }

  // ------------------------------------------------------------------ //
  // The steps
  // ------------------------------------------------------------------ //

  function Committed(s: System, e: Event): System {
    s.(store := s.store.(log := s.store.log + [e]), unannounced := Some(e))
  }

  function Announced(s: System): System
    requires s.unannounced.Some?
  {
    var e := s.unannounced.value;
    s.(unannounced := None, queue := if s.open && e.topic in s.grants && e.inScope then s.queue + [e] else s.queue)
  }

  function Opened(s: System): System {
    s.(open := true, requests := if s.wanted == {} then [] else [ResumeMessage(s, s.wanted)])
  }

  function NowWanting(s: System, topic: string): System {
    s.(wanted := s.wanted + {topic}, requests := if s.open then s.requests + [ResumeMessage(s, {topic})] else s.requests)
  }

  function NotWanting(s: System, topic: string): System {
    s.(wanted := s.wanted - {topic}, requests := if s.open then s.requests + [Unsubscribe({topic})] else s.requests)
  }

  /** The handler holds live delivery back and registers the topics before anything is read. */
  function Subscribing(s: System, granted: set<string>): System
    requires s.requests != [] && s.requests[0].Subscribe?
  {
    var grants := s.grants + granted;
    s.(requests := s.requests[1..], grants := grants,
       phase := Reading(granted, grants <= granted, !s.acked, s.requests[0].cursor))
  }

  function ReadResult(s: System, bound: nat): ReplayResult
    requires s.phase.Reading? && bound > 0
  {
    Replay(s.store, s.phase.added, s.phase.cursor, bound)
  }

  /** The ack of one catch-up read, which goes out before anything of the batch. */
  function ReadWire(s: System, r: ReplayResult): Wire
    requires s.phase.Reading?
  {
    var p := s.phase;
    var batch := BatchOf(p, r, Newest(s.store.log));
    Wire(AckFrame(Some(if p.cursor == None || r.gap then r.cursor else p.cursor.value), p.covers),
         Granted(p.added, p.first),
         if Finished(batch) || (p.first && !r.gap) then SettledAt(batch) else map[])
  }

  function AfterRead(s: System, r: ReplayResult): System
    requires s.phase.Reading?
  {
    s.(phase := BatchOf(s.phase, r, Newest(s.store.log)), acked := true)
  }

  function BatchWire(p: Phase): Wire
    requires p.Writing? && !Finished(p)
  {
    var (frame, note, rest) := NextWire(p);
    Wire(frame, note, if Finished(rest) then SettledAt(rest) else map[])
  }

  function AfterWrite(s: System): System
    requires s.phase.Writing? && !Finished(s.phase)
  {
    s.(phase := NextWire(s.phase).2)
  }

  function Removed(s: System): set<string>
    requires s.requests != [] && s.requests[0].Unsubscribe?
  {
    s.requests[0].topics * s.grants
  }

  function UnsubscribeWire(s: System): Wire
    requires s.requests != [] && s.requests[0].Unsubscribe?
  {
    Wire(AckFrame(None, false), Dropped(Removed(s)), map[])
  }

  function AfterUnsubscribe(s: System): System
    requires s.requests != [] && s.requests[0].Unsubscribe?
  {
    s.(requests := s.requests[1..], grants := s.grants - Removed(s),
       delivered := set e | e in s.delivered && e.topic !in Removed(s))
  }

  /** A queued live frame whose topic went away, or that a batch already carried. */
  predicate Superseded(s: System, e: Event) {
    e.topic !in s.grants || e in s.delivered
  }

  function LiveWire(e: Event): Wire {
    Wire(EventFrame(e, false), Nothing, map[])
  }

  function AfterPump(s: System): System
    requires s.queue != []
  {
    s.(queue := s.queue[1..])
  }

  function Disconnected(s: System): System {
    s.(open := false, requests := [], grants := {}, acked := false, queue := [], delivered := {}, phase := Idle,
       channel := [], peak := s.core.tracker.highest)
  }

  predicate Enabled(s: System, a: Action) {
    match a
    case Commit(e) => s.unannounced == None && e.id > Newest(s.store.log)
    case Announce => s.unannounced.Some?
    case Prune(floor) => s.store.floor <= floor < Newest(s.store.log)
    case OpenSocket => !s.open
    case Want(topic) => topic !in s.wanted
    case Unwant(topic) => topic in s.wanted
    case BeginSubscribe(granted) =>
      s.open && s.phase.Idle? && s.requests != [] && s.requests[0].Subscribe? &&
      granted <= s.requests[0].topics && "" !in granted
    case Read(bound) => s.open && s.phase.Reading? && bound > 0
    case WriteNext => s.open && s.phase.Writing? && !Finished(s.phase)
    case EndBatch(remembered) =>
      s.open && s.phase.Writing? && Finished(s.phase) && remembered <= s.delivered + (set e | e in s.phase.batch)
    case ServeUnsubscribe => s.open && s.phase.Idle? && s.requests != [] && s.requests[0].Unsubscribe?
    case Pump => s.open && s.phase.Idle? && s.queue != []
    case Arrive => s.channel != []
    case Disconnect => s.open
  }

  function Apply(s: System, a: Action): System
    requires Enabled(s, a)
  {
    var d := Drain(s.core, s.channel);
    match a
    case Commit(e) => Committed(s, e)
    case Announce => Announced(s)
    case Prune(floor) => s.(store := s.store.(floor := floor))
    case OpenSocket => Opened(s)
    case Want(topic) => NowWanting(s, topic)
    case Unwant(topic) => NotWanting(s, topic)
    case BeginSubscribe(granted) => Subscribing(s, granted)
    case Read(bound) => Push(AfterRead(s, ReadResult(s, bound)), d, ReadWire(s, ReadResult(s, bound)))
    case WriteNext => Push(AfterWrite(s), d, BatchWire(s.phase))
    case EndBatch(remembered) => s.(phase := Idle, delivered := remembered)
    case ServeUnsubscribe => Push(AfterUnsubscribe(s), d, UnsubscribeWire(s))
    case Pump => if Superseded(s, s.queue[0]) then AfterPump(s) else Push(AfterPump(s), d, LiveWire(s.queue[0]))
    case Arrive => s.(core := Recv(s.core, s.channel[0]), channel := s.channel[1..])
    case Disconnect => Disconnected(s)
  }

  ghost predicate IsRun(states: seq<System>, actions: seq<Action>) {
    && |states| == |actions| + 1
    && states[0] == INITIAL
    && (forall i {:trigger actions[i]} :: 0 <= i < |actions| ==>
          Enabled(states[i], actions[i]) && states[i + 1] == Apply(states[i], actions[i]))
  }

  ghost predicate Path(states: seq<System>, actions: seq<Action>, i: nat, first: System, s: System) {
    IsRun(states, actions) && i < |states| && states[i] == first && states[|actions|] == s
  }

  /** Some run of the system passes through `first` and ends in `s`. */
  ghost predicate Leads(first: System, s: System) {
    exists states, actions, i {:trigger Path(states, actions, i, first, s)} :: Path(states, actions, i, first, s)
  }

  lemma InitialLeadsToItself()
    ensures Leads(INITIAL, INITIAL)
  {
    assert Path([INITIAL], [], 0, INITIAL, INITIAL);
  }

  lemma LeadsToItself(first: System, s: System)
    requires Leads(first, s)
    ensures Leads(s, s)
  {
    var states, actions, i :| Path(states, actions, i, first, s);
    assert Path(states, actions, |actions|, s, s);
  }

  lemma StepLeads(first: System, s: System, a: Action)
    requires Leads(first, s) && Enabled(s, a)
    ensures Leads(first, Apply(s, a))
  {
    var states, actions, i :| Path(states, actions, i, first, s);
    PathGrows(states, actions, i, first, s, a);
  }

  lemma PathGrows(states: seq<System>, actions: seq<Action>, i: nat, first: System, s: System, a: Action)
    requires Path(states, actions, i, first, s) && Enabled(s, a)
    ensures Path(states + [Apply(s, a)], actions + [a], i, first, Apply(s, a))
  {
  }

  // ------------------------------------------------------------------ //
  // What the stream promises
  // ------------------------------------------------------------------ //

  /** An event the console is owed: on an opened topic, in scope, above the opening position. */
  predicate Owed(opening: Positions, e: Event) {
    e.inScope && e.topic in opening && e.id > opening[e.topic]
  }

  /** Nothing owed lies at or below the cursor without having been applied. */
  ghost predicate NothingLost(c: Core, log: seq<Event>) {
    forall e :: e in log && Owed(c.opening, e) && e.id <= c.tracker.highest ==> e.id in c.accepted
  }
}
