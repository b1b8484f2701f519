/**
 The console's socket client: one cursor, one pair of routing maps, and a
 registry of handlers.  A handler is a number; calling it is recorded in
 `calls`, and a message written to the socket is recorded in `sent`.

 Protocol frames change the cursor, the routes and the connection's state; product
 frames that are news go to the handlers of every name derived to their topic and
 to those registered for everything.  Calls are counted, not ordered.
 */
module RealtimeClients {
  import opened Options
  import opened Protocol
  import opened Sequences
  import opened TopicMaps
  import opened CursorTrackers

  type Handler = nat
  type Call = (string, Handler, Frame)

  datatype ConnState = Connecting | Open | Closed | Denied

  datatype Message =
    | Subscribe(topics: set<string>, cursor: Option<int>)
    | Unsubscribe(topics: set<string>)

  const EVERYTHING := "*"
  const SCOPE_REVOKED := "scope_revoked"
  const REVALIDATION_FAILED := "revalidation_failed"

  predicate IsFatalRevocation(reason: Option<string>) {
    reason != Some(SCOPE_REVOKED) && reason != Some(REVALIDATION_FAILED)
  }

  type Registry = map<string, set<Handler>>

  /** One call to each handler registered under `name`. */
  function CallsTo(handlers: Registry, name: string, f: Frame): multiset<Call> {
    if name in handlers then multiset(set h | h in handlers[name] :: (name, h, f)) else multiset{}
  }

  function CallsToAll(handlers: Registry, names: seq<string>, f: Frame): multiset<Call> {
    if names == [] then multiset{} else CallsTo(handlers, names[0], f) + CallsToAll(handlers, names[1..], f)
  }

  /** A handler is called once for each time its name is listed. */
  lemma {:induction false} CallCount(handlers: Registry, names: seq<string>, f: Frame, c: Call)
    ensures CallsToAll(handlers, names, f)[c] ==
              if c.2 == f && c.0 in handlers && c.1 in handlers[c.0] then multiset(names)[c.0] else 0
  {
    if names != [] {
      CallCount(handlers, names[1..], f, c);
      CountFront(names, c.0);
      CallsToCount(handlers, names[0], f, c);
    }
  }

  lemma CountFront(names: seq<string>, x: string)
    requires names != []
    ensures multiset(names)[x] == (if names[0] == x then 1 else 0) + multiset(names[1..])[x]
  {
    assert names == [names[0]] + names[1..];
  }

  lemma CallsToCount(handlers: Registry, name: string, f: Frame, c: Call)
    ensures CallsTo(handlers, name, f)[c] ==
              if c.2 == f && c.0 == name && name in handlers && c.1 in handlers[name] then 1 else 0
  {
  }

  /**
   A frame whose id is news reaches every handler registered under a name
   derived to its topic exactly once; a repeat reaches nobody.
   */
  lemma FrameReachesHandlersOnce(
    routes: Routes, tracker: Tracker, handlers: Registry, env: Envelope, name: string, h: Handler)
    requires routes.Inverse() && env.topic.Some? && env.topic.value != ""
    requires name in routes.derivedOf && name in handlers && h in handlers[name] && name != "*"
    ensures ProductCalls(routes, tracker, handlers, env)[(name, h, Product(env))] ==
              if tracker.Accepts(env) &&
                 (routes.derivedOf[name] == env.topic.value ||
                  (env.topic.value !in routes.requestedOf && name == env.topic.value)) then 1 else 0
  {
    RoutedExactlyOnce(routes, env.topic.value, name);
    CallCount(handlers, routes.Listeners(env.topic), Product(env), (name, h, Product(env)));
  }

  /** The calls one product frame causes. */
  function ProductCalls(routes: Routes, tracker: Tracker, handlers: Registry, env: Envelope): multiset<Call> {
    if tracker.Accepts(env)
    then CallsToAll(handlers, routes.Listeners(env.topic), Product(env)) + CallsTo(handlers, EVERYTHING, Product(env))
    else multiset{}
  }

  /** Every registered handler hears of a reset exactly once, whatever it was registered under. */
  function ResetCalls(handlers: Registry, f: Frame): multiset<Call> {
    multiset(set n, h | n in handlers && h in handlers[n] :: (n, h, f))
  }

  lemma EveryHandlerOnce(handlers: Registry, names: seq<string>, f: Frame)
    requires NoRepeats(names) && forall n :: n in names <==> n in handlers && n != EVERYTHING
    ensures CallsToAll(handlers, names, f) + CallsTo(handlers, EVERYTHING, f) == ResetCalls(handlers, f)
  {
    forall c: Call
      ensures (CallsToAll(handlers, names, f) + CallsTo(handlers, EVERYTHING, f))[c] == ResetCalls(handlers, f)[c]
    {
      CallCount(handlers, names, f, c);
      NoRepeatsCount(names, c.0);
    }
  }

  /** A handler for everything hears each frame that is news once, whatever its topic. */
  lemma WildcardHearsOnce(routes: Routes, tracker: Tracker, handlers: Registry, env: Envelope, h: Handler)
    requires "*" in handlers && h in handlers["*"] && "*" !in routes.Listeners(env.topic)
    ensures ProductCalls(routes, tracker, handlers, env)[("*", h, Product(env))] == if tracker.Accepts(env) then 1 else 0
  {
    CallCount(handlers, routes.Listeners(env.topic), Product(env), ("*", h, Product(env)));
    assert multiset(routes.Listeners(env.topic))["*"] == 0;
    CallsToCount(handlers, EVERYTHING, Product(env), ("*", h, Product(env)));
  }

  function ForgetAll(routes: Routes, names: seq<string>): Routes
    decreases names
  {
    if names == [] then routes else ForgetAll(routes.Forget(names[0]), names[1..])
  }

  /** Forgetting a list drops exactly its names, and everyone else on their topics goes on hearing of them once. */
  lemma {:induction false} ForgetAllForgets(routes: Routes, names: seq<string>, name: string)
    ensures DerivedBy(ForgetAll(routes, names), name) == if name in names then None else DerivedBy(routes, name)
    ensures Listening(routes) ==> Listening(ForgetAll(routes, names))
    ensures Listening(routes) && name !in names && name in routes.derivedOf && routes.derivedOf[name] != "" ==>
              TimesRouted(ForgetAll(routes, names), routes.derivedOf[name], name) == 1
    decreases names
  {
    if names != [] {
      ForgetForgetsOne(routes, names[0], name);
      if Listening(routes) { ForgetKeepsListening(routes, names[0]); }
      ForgetAllForgets(routes.Forget(names[0]), names[1..], name);
    } else if Listening(routes) && name in routes.derivedOf && routes.derivedOf[name] != "" {
      NoRepeatsCount(routes.Listeners(Some(routes.derivedOf[name])), name);
    }
  }

  lemma AddedInTurn(a: multiset<Call>, b: multiset<Call>, c: multiset<Call>)
    ensures a + (b + c) == (a + b) + c
  {
  }

  lemma OneTold(handlers: Registry, routes: Routes, local: seq<string>, i: nat, f: Frame)
    requires i < |local|
    ensures CallsToAll(handlers, local[i..], f) == CallsTo(handlers, local[i], f) + CallsToAll(handlers, local[i + 1..], f)
    ensures ForgetAll(routes, local[i..]) == ForgetAll(routes.Forget(local[i]), local[i + 1..])
  {
    assert local[i..][1..] == local[i + 1..] && local[i..][0] == local[i];
  }

  /** The local names behind the revoked topics, each once, in the order first met. */
  function Affected(routes: Routes, topics: seq<string>): (r: seq<string>)
    ensures NoRepeats(r)
    ensures forall n :: n in r <==> exists t :: t in topics && n in routes.Listeners(Some(t))
  {
    if topics == [] then [] else
      var front := Affected(routes, topics[..|topics| - 1]);
      AddAll(front, routes.Listeners(Some(topics[|topics| - 1])))
  }

  /** A revocation that is not fatal reaches each handler once, if its name listens to a topic that was lost. */
  lemma RevocationReachesOnce(handlers: Registry, routes: Routes, topics: seq<string>, f: Frame, name: string, h: Handler)
    requires name in handlers && h in handlers[name] && name != "*"
    ensures (CallsToAll(handlers, Affected(routes, topics), f) + CallsTo(handlers, EVERYTHING, f))[(name, h, f)]
            == if exists t :: t in topics && name in routes.Listeners(Some(t)) then 1 else 0
  {
    var local := Affected(routes, topics);
    CallCount(handlers, local, f, (name, h, f));
    NoRepeatsCount(local, name);
    CallsToCount(handlers, EVERYTHING, f, (name, h, f));
  }

  function AddAll(names: seq<string>, more: seq<string>): (r: seq<string>)
    ensures NoRepeats(names) ==> NoRepeats(r)
    ensures forall n :: n in r <==> n in names || n in more
    decreases more
  {
    if more == [] then names else AddAll(Add(names, more[0]), more[1..])
  }

  class RealtimeClient {
    var handlers: Registry
    var state: ConnState
    var intentionalClose: bool
    var socket: bool     // a socket was made and has not been closed
    var retrying: bool   // the reconnect timer is running
    const topics: TopicMap
    const cursor: CursorTracker
    var calls: multiset<Call>
    var sent: seq<Message>

    ghost predicate Valid()
      reads this, cursor
    {
      cursor.Valid() && (state == Open ==> socket)
    }

    /** A connection being made has its socket, or a timer that tries again. */
    predicate Trying()
      reads this
    {
      state == Connecting ==> socket || retrying
    }

    constructor ()
      ensures Valid() && fresh(topics) && fresh(cursor)
      ensures topics.View() == EMPTY && cursor.View() == FRESH && handlers == map[] && sent == [] && calls == multiset{}
      ensures state == Closed && !intentionalClose && !socket && !retrying
    {
      handlers, state, intentionalClose, calls, sent := map[], Closed, false, multiset{}, [];
      socket, retrying := false, false;
      topics := new TopicMap();
      cursor := new CursorTracker();
    }

    method Dispatch(name: string, f: Frame)
      modifies this`calls
      ensures calls == old(calls) + CallsTo(handlers, name, f)
    {
      calls := calls + CallsTo(handlers, name, f);
    }

    method DispatchAll(names: seq<string>, f: Frame)
      modifies this`calls
      ensures calls == old(calls) + CallsToAll(handlers, names, f)
    {
      for i := 0 to |names|
        invariant old(calls) + CallsToAll(handlers, names, f) == calls + CallsToAll(handlers, names[i..], f)
      {
        assert names[i..][1..] == names[i + 1..];
        Dispatch(names[i], f);
      }
    }

    /** Route one inbound frame. */
    method Receive(f: Frame)
      requires Valid()
      modifies this`calls, this`state, this`intentionalClose, topics, cursor
      ensures Valid()
      ensures old(state) == Denied ==> state == Denied
      ensures cursor.View() == old(cursor.View()).Receive(f)
      ensures f.Ack? ==> topics.View() == old(topics.View()).ApplyAck(f.ack) && calls == old(calls)
      ensures f.ReplayComplete? || f.Control? ==> topics.View() == old(topics.View()) && calls == old(calls)
      ensures f.Reset? ==> topics.View() == old(topics.View()) && calls == old(calls) + ResetCalls(handlers, f)
      ensures f.Product? ==>
                topics.View() == old(topics.View()) &&
                calls == old(calls) + ProductCalls(old(topics.View()), old(cursor.View()), handlers, f.env)
      ensures f.Revoked? && f.reason != Some("scope_revoked") && f.reason != Some("revalidation_failed") ==>
                topics.View() == old(topics.View()) && calls == old(calls) + CallsTo(handlers, EVERYTHING, f)
      ensures f.Revoked? && (f.reason == Some("scope_revoked") || f.reason == Some("revalidation_failed")) ==>
                var local := Affected(old(topics.View()), f.topics);
                && topics.View() == ForgetAll(old(topics.View()), local)
                && calls == old(calls) + CallsToAll(handlers, local, f) + CallsTo(handlers, EVERYTHING, f)
      ensures if f.Revoked? && f.reason != Some("scope_revoked") && f.reason != Some("revalidation_failed")
              then state == Denied && intentionalClose
              else state == old(state) && intentionalClose == old(intentionalClose)
    {
      match f
      case Ack(ack) =>
        topics.ApplyAck(ack);
        cursor.ApplyAck(ack);
      case ReplayComplete(covers, handedOver) =>
        cursor.ApplyReplayComplete(covers, handedOver);
      case Reset(resumeAt) =>
        cursor.ApplyReset(resumeAt);
        DispatchReset(f);
      case Revoked(reason, lost) =>
        Revoke(reason, lost, f);
      case Control =>
      case Product(env) =>
        var apply := cursor.Accept(env);
        if apply {
          var names := topics.Listeners(env.topic);
          DispatchAll(names, f);
          Dispatch(EVERYTHING, f);
        }
    }

    method Revoke(reason: Option<string>, lost: seq<string>, f: Frame)
      modifies this`calls, this`state, this`intentionalClose, topics
      ensures IsFatalRevocation(reason) ==>
                topics.View() == old(topics.View()) && calls == old(calls) + CallsTo(handlers, EVERYTHING, f)
      ensures !IsFatalRevocation(reason) ==>
                var local := Affected(old(topics.View()), lost);
                && topics.View() == ForgetAll(old(topics.View()), local)
                && calls == old(calls) + CallsToAll(handlers, local, f) + CallsTo(handlers, EVERYTHING, f)
      ensures if IsFatalRevocation(reason) then state == Denied && intentionalClose
              else state == old(state) && intentionalClose == old(intentionalClose)
    {
      if IsFatalRevocation(reason) {
        intentionalClose := true;
        state := Denied;
      } else {
        var local := AffectedNames(lost);
        TellAndForget(local, f);
      }
      Dispatch(EVERYTHING, f);
    }

    method AffectedNames(lost: seq<string>) returns (local: seq<string>)
      ensures local == Affected(topics.View(), lost)
    {
      local := [];
      for i := 0 to |lost|
        invariant local == Affected(topics.View(), lost[..i])
      {
        assert lost[..i + 1][..i] == lost[..i];
        var names := topics.Listeners(Some(lost[i]));
        local := AddAll(local, names);
      }
      assert lost[..|lost|] == lost;
    }

    /** Tell the screens that lost a stream, each once, and stop routing to them. */
    method TellAndForget(local: seq<string>, f: Frame)
      modifies this`calls, topics
      ensures topics.View() == ForgetAll(old(topics.View()), local)
      ensures calls == old(calls) + CallsToAll(handlers, local, f)
    {
      ghost var routes, all := ForgetAll(topics.View(), local), calls + CallsToAll(handlers, local, f);
      for i := 0 to |local|
        invariant routes == ForgetAll(topics.View(), local[i..])
        invariant all == calls + CallsToAll(handlers, local[i..], f)
      {
        OneTold(handlers, topics.View(), local, i, f);
        AddedInTurn(calls, CallsTo(handlers, local[i], f), CallsToAll(handlers, local[i + 1..], f));
        Dispatch(local[i], f);
        topics.Forget(local[i]);
      }
    }

    /** The registered names other than the wildcard, in some order. */
    method LiveTopics() returns (names: seq<string>)
      ensures NoRepeats(names) && forall n :: n in names <==> n in handlers && n != EVERYTHING
    {
      names := [];
      var rest := handlers.Keys - {EVERYTHING};
      while rest != {}
        invariant rest <= handlers.Keys - {EVERYTHING}
        invariant NoRepeats(names) && forall n :: n in names <==> n in handlers && n != EVERYTHING && n !in rest
        decreases |rest|
      {
        var name :| name in rest;
        rest := rest - {name};
        assert name !in names;
        names := names + [name];
      }
    }

    method DispatchReset(f: Frame)
      modifies this`calls
      ensures calls == old(calls) + ResetCalls(handlers, f)
    {
      var names := LiveTopics();
      DispatchAll(names, f);
      Dispatch(EVERYTHING, f);
      EveryHandlerOnce(handlers, names, f);
    }

    /** What is written only reaches an open socket. */
    method Send(m: Message)
      modifies this`sent
      ensures sent == if socket && state == Open then old(sent) + [m] else old(sent)
    {
      if socket && state == Open { sent := sent + [m]; }
    }

    /** Whether a call of `Connect` has anything to do. */
    predicate MayConnect()
      reads this
    {
      state != Denied && !(socket && (state == Open || state == Connecting))
    }

    /**
     Open a connection unless one is open, being opened, or denied.  `made` says
     whether the platform makes the socket; where it does not, a timer tries again.
     */
    method Connect(made: bool)
      requires Valid()
      modifies this`state, this`intentionalClose, this`socket, this`retrying
      ensures Valid() && Trying()
      ensures old(state) == Denied ==> state == Denied
      ensures if old(MayConnect()) then state == Connecting && !intentionalClose && socket == (made || old(socket))
              else state == old(state) && intentionalClose == old(intentionalClose) && socket == old(socket)
      ensures retrying == (old(retrying) || (old(MayConnect()) && !made))
    {
      if state == Denied { return; }
      if socket && (state == Open || state == Connecting) { return; }
      intentionalClose := false;
      state := Connecting;
      if !made {
        ScheduleReconnect();
        return;
      }
      socket := true;
    }

    method ScheduleReconnect()
      modifies this`retrying
      ensures retrying
    {
      if retrying { return; }
      retrying := true;
    }

    /** The reconnect timer fires. */
    method OnTimer(made: bool)
      requires Valid() && retrying
      modifies this`state, this`intentionalClose, this`socket, this`retrying
      ensures Valid() && Trying()
      ensures old(state) == Denied ==> state == Denied
      ensures if old(MayConnect()) then state == Connecting && !intentionalClose && socket == (made || old(socket))
              else state == old(state) && intentionalClose == old(intentionalClose) && socket == old(socket)
      ensures retrying == (old(MayConnect()) && !made)
    {
      retrying := false;
      Connect(made);
    }

    /** Every live topic is asked for again, resuming from the last applied event. */
    method OnOpen()
      requires Valid() && socket && state == Connecting
      modifies this`state, this`sent
      ensures Valid() && state == Open
      ensures var live := handlers.Keys - {EVERYTHING};
              sent == if live == {} then old(sent) else old(sent) + [Subscribe(live, SubscribeCursor(cursor.View().highest))]
    {
      state := Open;
      var live := handlers.Keys - {EVERYTHING};
      if live != {} {
        Send(Subscribe(live, SubscribeCursor(cursor.highest)));
      }
    }

    /** The socket is gone; unless that was meant, a timer connects again. */
    method OnClose()
      requires Valid() && socket
      modifies this`state, this`socket, this`retrying
      ensures Valid() && !socket
      ensures state == if old(state) == Denied then Denied else Closed
      ensures retrying == (old(retrying) || (old(state) != Denied && !intentionalClose))
    {
      socket := false;
      if state == Denied { return; }
      state := Closed;
      if !intentionalClose { ScheduleReconnect(); }
    }

    /** Register a handler; the first one for a topic subscribes to it on the wire, and any connects. */
    method SubscribeHandler(topic: string, handler: Handler, made: bool)
      requires Valid()
      modifies this`handlers, this`sent, this`state, this`intentionalClose, this`socket, this`retrying
      ensures Valid() && Trying()
      ensures old(state) == Denied ==> state == Denied
      ensures handlers == old(handlers)[topic := (if topic in old(handlers) then old(handlers)[topic] else {}) + {handler}]
      ensures sent == if topic !in old(handlers) && topic != EVERYTHING && old(state) == Open
                      then old(sent) + [Subscribe({topic}, SubscribeCursor(cursor.View().highest))] else old(sent)
      ensures if old(MayConnect()) then state == Connecting && !intentionalClose && socket == (made || old(socket))
              else state == old(state) && intentionalClose == old(intentionalClose) && socket == old(socket)
      ensures retrying == (old(retrying) || (old(MayConnect()) && !made))
    {
      var isNew := topic !in handlers;
      handlers := handlers[topic := (if topic in handlers then handlers[topic] else {}) + {handler}];
      if isNew && topic != EVERYTHING {
        Send(Subscribe({topic}, SubscribeCursor(cursor.highest)));
      }
      Connect(made);
    }

    /** Drop a handler; the last one for a topic unsubscribes and forgets its route. */
    method UnsubscribeHandler(topic: string, handler: Handler)
      requires Valid()
      modifies this`handlers, this`sent, topics
      ensures Valid()
      ensures var last := topic in old(handlers) && old(handlers)[topic] - {handler} == {};
              && handlers == (if topic !in old(handlers) then old(handlers)
                              else if last then old(handlers) - {topic}
                              else old(handlers)[topic := old(handlers)[topic] - {handler}])
              && sent == (if last && topic != EVERYTHING && state == Open
                          then old(sent) + [Unsubscribe({topic})] else old(sent))
              && topics.View() == (if last && topic != EVERYTHING
                                   then old(topics.View()).Forget(topic) else old(topics.View()))
    {
      if topic !in handlers { return; }
      var rest := handlers[topic] - {handler};
      if rest == {} {
        handlers := handlers - {topic};
        if topic != EVERYTHING {
          Send(Unsubscribe({topic}));
          topics.Forget(topic);
        }
      } else {
        handlers := handlers[topic := rest];
      }
    }
  }

  /**
   A revocation that is not final ends in a closed client with its timer running,
   whether the server closes the socket at once or later.
   */
  method RevokedThenClosed(client: RealtimeClient, reason: string, lost: seq<string>)
    requires client.Valid() && client.state == Open && !client.intentionalClose
    requires reason == "scope_revoked" || reason == "revalidation_failed"
    modifies client, client.topics, client.cursor
    ensures client.state == Closed && client.retrying
  {
    client.Receive(Revoked(Some(reason), lost));
    assert client.state == Open;
    client.OnClose();
  }

  /** Any other ends in a denied client, which nothing connects again. */
  method DeniedStaysDenied(client: RealtimeClient, reason: Option<string>, lost: seq<string>, made: bool)
    requires client.Valid() && client.state == Open && !client.retrying
    requires reason != Some("scope_revoked") && reason != Some("revalidation_failed")
    modifies client, client.topics, client.cursor
    ensures client.state == Denied && !client.retrying && !client.socket
  {
    client.Receive(Revoked(reason, lost));
    client.OnClose();
    client.Connect(made);
  }
}
