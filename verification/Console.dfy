/**
 The client as the console of the stream: each of its calls makes exactly one
 step of `Delivery`, or none, so what holds in every run holds of the client.
 */
module Consoles {
  import opened Options
  import opened Protocol
  import opened RealtimeClients
  import opened Delivery
  import opened ResumeProof
  import opened EventStore
  import opened TopicMaps
  import opened Handling

  /** The steps that are not the console's. */
  predicate Elsewhere(a: Action) {
    !a.OpenSocket? && !a.Want? && !a.Unwant? && !a.Arrive? && !a.Disconnect?
  }

  /** What the handler of the stream writes: no revocations, and acks under canonical names alone. */
  predicate Written(f: Frame) {
    !f.Revoked? && (f.Ack? ==> f.ack.subscribed == [] && f.ack.aliases == [])
  }

  /** What the console sees of a step elsewhere: perhaps one of its messages taken up, perhaps a frame more in flight. */
  lemma ElsewhereIsUnseen(s: System, a: Action)
    requires Leads(INITIAL, s) && Enabled(s, a) && Elsewhere(a) && forall w :: w in s.channel ==> Written(w.frame)
    ensures var s' := Apply(s, a);
            && Leads(INITIAL, s') && s'.open == s.open && s'.wanted == s.wanted && s'.core == s.core
            && s'.requests == (if TakesUp(a) then s.requests[1..] else s.requests)
            && (TakesUp(a) ==> s.requests != [])
            && (forall w :: w in s'.channel ==> Written(w.frame))
  {
    StepLeads(INITIAL, s, a);
    ElsewhereWrites(s, a);
  }

  lemma ElsewhereWrites(s: System, a: Action)
    requires Leads(INITIAL, s) && Enabled(s, a) && Elsewhere(a) && forall w :: w in s.channel ==> Written(w.frame)
    ensures forall w :: w in Apply(s, a).channel ==> Written(w.frame)
  {
    ReachedKeeps(INITIAL, s);
  }

  predicate TakesUp(a: Action) {
    a.BeginSubscribe? || a.ServeUnsubscribe?
  }

  /** What the console itself does to the stream by asking for a topic or giving it up. */
  lemma AskingIsOneMessage(s: System, a: Action)
    requires Leads(INITIAL, s) && Enabled(s, a) && (a.Want? || a.Unwant?)
    ensures var s' := Apply(s, a);
            && Leads(INITIAL, s') && s'.open == s.open && s'.core == s.core && s'.channel == s.channel
            && s'.wanted == (if a.Want? then s.wanted + {a.topic} else s.wanted - {a.topic})
            && s'.requests == (if !s.open then s.requests
                               else s.requests + [if a.Want? then ResumeMessage(s, {a.topic}) else Unsubscribe({a.topic})])
  {
    StepLeads(INITIAL, s, a);
  }

  lemma NothingAskedWhileClosed(s: System)
    requires Leads(INITIAL, s) && !s.open
    ensures s.requests == []
  {
    ReachedKeeps(INITIAL, s);
  }

  class Console {
    const client: RealtimeClient
    ghost var system: System
    ghost var handled: nat   // of the messages written so far, those the server has taken up or lost

    ghost predicate Valid()
      reads this, client, client.cursor, client.topics
    {
      && client.Valid()
      && Leads(INITIAL, system)
      && system.open == client.state.Open? && client.state != Denied && !client.intentionalClose
      && system.wanted == client.handlers.Keys - {EVERYTHING}
      && system.core.tracker == client.cursor.View() && client.topics.View() == EMPTY
      && handled <= |client.sent| && system.requests == client.sent[handled..]
      && (forall w :: w in system.channel ==> Written(w.frame))
    }

    constructor ()
      ensures Valid() && fresh(client) && fresh(client.cursor) && fresh(client.topics)
      ensures system == INITIAL && handled == 0
      ensures client.state.Closed? && !client.socket && client.handlers == map[] && client.sent == []
    {
      InitialLeadsToItself();
      client := new RealtimeClient();
      system, handled := INITIAL, 0;
    }

    /** A step of the log or of the connection's handler. */
    ghost method Serve(a: Action)
      requires Valid() && Enabled(system, a) && Elsewhere(a)
      modifies this`system, this`handled
      ensures Valid() && system == Apply(old(system), a)
    {
      ElsewhereIsUnseen(system, a);
      if TakesUp(a) { handled := handled + 1; }
      system := Apply(system, a);
    }

    /** Connecting asks nothing of the server yet. */
    method Connect(made: bool)
      requires Valid()
      modifies client`state, client`intentionalClose, client`socket, client`retrying
      ensures Valid() && client.Trying()
      ensures client.state == if old(client.MayConnect()) then Connecting else old(client.state)
      ensures old(client.MayConnect()) && made ==> client.socket
    {
      client.Connect(made);
    }

    method OnTimer(made: bool)
      requires Valid() && client.retrying
      modifies client`state, client`intentionalClose, client`socket, client`retrying
      ensures Valid() && client.Trying()
      ensures client.state == if old(client.MayConnect()) then Connecting else old(client.state)
      ensures old(client.MayConnect()) && made ==> client.socket
    {
      client.OnTimer(made);
    }

    method OnOpen()
      requires Valid() && client.socket && client.state.Connecting?
      modifies this`system, client`state, client`sent
      ensures Valid() && client.state.Open? && client.socket == old(client.socket)
      ensures system == Apply(old(system), OpenSocket)
    {
      NothingAskedWhileClosed(system);
      StepLeads(INITIAL, system, OpenSocket);
      client.OnOpen();
      system := Apply(system, OpenSocket);
    }

    method Subscribe(topic: string, handler: Handler, made: bool)
      requires Valid()
      modifies this`system, client`handlers, client`sent
      modifies client`state, client`intentionalClose, client`socket, client`retrying
      ensures Valid() && client.Trying()
      ensures system == if topic == EVERYTHING || topic in old(client.handlers) then old(system)
                        else Apply(old(system), Want(topic))
      ensures client.state == if old(client.MayConnect()) then Connecting else old(client.state)
      ensures old(client.MayConnect()) && made ==> client.socket
    {
      var known := topic == EVERYTHING || topic in client.handlers;
      client.SubscribeHandler(topic, handler, made);
      if !known {
        AskingIsOneMessage(system, Want(topic));
        system := Apply(system, Want(topic));
      }
    }

    method Unsubscribe(topic: string, handler: Handler)
      requires Valid()
      modifies this`system, client`handlers, client`sent, client.topics
      ensures Valid()
      ensures system == if topic != EVERYTHING && topic in old(client.handlers) && old(client.handlers)[topic] <= {handler}
                        then Apply(old(system), Unwant(topic)) else old(system)
    {
      var last := topic != EVERYTHING && topic in client.handlers && client.handlers[topic] <= {handler};
      client.UnsubscribeHandler(topic, handler);
      if last {
        AskingIsOneMessage(system, Unwant(topic));
        system := Apply(system, Unwant(topic));
      }
    }

    /** The oldest frame in flight arrives; afterwards nothing owed is at or below the client's cursor unapplied. */
    method Receive(f: Frame)
      requires Valid() && system.channel != [] && f == system.channel[0].frame
      modifies this`system, client`calls, client`state, client`intentionalClose, client.topics, client.cursor
      ensures Valid() && system == Apply(old(system), Arrive)
      ensures NothingLost(system.core, system.store.log)
      ensures client.calls == old(client.calls) + CallsOf(old(system).core.tracker, client.handlers, f)
      ensures client.state == old(client.state)
    {
      StepLeads(INITIAL, system, Arrive);
      assert system.channel[0] in system.channel;
      client.Receive(f);
      system := Apply(system, Arrive);
      ReachedKeeps(INITIAL, system);
    }

    /** An open socket that closes is the cut; one that never opened is none.  Either way a timer connects again. */
    method OnClose()
      requires Valid() && client.socket
      modifies this`system, this`handled, client`state, client`socket, client`retrying
      ensures Valid() && client.state.Closed? && !client.socket && client.retrying
      ensures system == if old(client.state).Open? then Apply(old(system), Disconnect) else old(system)
    {
      if client.state.Open? {
        StepLeads(INITIAL, system, Disconnect);
        system := Apply(system, Disconnect);
        handled := |client.sent|;
      }
      client.OnClose();
    }
  }

  /** The steps that answer a first subscribe while the log is empty. */
  lemma AnsweredOnEmptyLog(s: System, topic: string)
    requires topic != ""
    requires s == INITIAL.(open := true, wanted := {topic}, requests := [RealtimeClients.Subscribe({topic}, None)])
    ensures Enabled(s, BeginSubscribe({topic})) && Enabled(Apply(s, BeginSubscribe({topic})), Read(5))
    ensures Enabled(Apply(Apply(s, BeginSubscribe({topic})), Read(5)), EndBatch({}))
    ensures var s3 := Apply(Apply(Apply(s, BeginSubscribe({topic})), Read(5)), EndBatch({}));
            && s3.open && s3.wanted == {topic} && s3.requests == [] && s3.core == INITIAL.core
            && |s3.channel| == 1 && s3.channel[0].frame == AckFrame(Some(0), true)
            && Recv(INITIAL.core, s3.channel[0]) == Core(FRESH, {}, map[topic := 0])
  {
    var s1 := Apply(s, BeginSubscribe({topic}));
    assert s1.grants == {topic} && s1.phase == Reading({topic}, true, true, None);
    var s2 := Apply(s1, Read(5));
    var w := ReadWire(s1, ReplayResult([], 0, false, NoReason));
    assert s2.channel == [w] && Finished(s2.phase);
    assert w.settles == map[topic := 0] && Recv(INITIAL.core, w).opening == map[topic := 0];
  }

  lemma WantedThenOpened(topic: string)
    ensures Enabled(INITIAL, Want(topic))
    ensures Apply(Apply(INITIAL, Want(topic)), OpenSocket)
            == INITIAL.(open := true, wanted := {topic}, requests := [RealtimeClients.Subscribe({topic}, None)])
  {
    assert {} + {topic} == {topic};
  }

  /** A new console subscribes, which connects it. */
  method Asking(topic: string, handler: Handler) returns (c: Console)
    requires topic != EVERYTHING && topic != ""
    ensures fresh(c) && fresh(c.client) && fresh(c.client.cursor) && fresh(c.client.topics)
    ensures c.Valid() && c.client.state.Open? && c.client.socket
    ensures c.system == INITIAL.(open := true, wanted := {topic}, requests := [RealtimeClients.Subscribe({topic}, None)])
  {
    c := new Console();
    c.Subscribe(topic, handler, true);
    WantedThenOpened(topic);
    c.OnOpen();
  }

  ghost method AnswerFirst(c: Console, topic: string)
    requires topic != "" && c.Valid()
    requires c.system == INITIAL.(open := true, wanted := {topic}, requests := [RealtimeClients.Subscribe({topic}, None)])
    modifies c`system, c`handled
    ensures c.Valid() && c.system.wanted == {topic} && c.system.core == INITIAL.core
    ensures |c.system.channel| == 1 && c.system.channel[0].frame == AckFrame(Some(0), true)
    ensures Recv(INITIAL.core, c.system.channel[0]) == Core(FRESH, {}, map[topic := 0])
  {
    AnsweredOnEmptyLog(c.system, topic);
    c.Serve(BeginSubscribe({topic}));
    c.Serve(Read(5));
    c.Serve(EndBatch({}));
  }

  /** It is answered and hears the answer. */
  method FirstConnection(topic: string, handler: Handler) returns (c: Console)
    requires topic != EVERYTHING && topic != ""
    ensures fresh(c) && fresh(c.client) && fresh(c.client.cursor) && fresh(c.client.topics)
    ensures c.Valid() && c.client.state.Open? && c.client.socket
    ensures c.system.wanted == {topic} && c.system.core == Core(FRESH, {}, map[topic := 0])
  {
    c := Asking(topic, handler);
    AnswerFirst(c, topic);
    c.Receive(AckFrame(Some(0), true));
  }

  /** It is cut off, its timer connects again, and it asks again for what it had. */
  method SecondConnection(topic: string, handler: Handler) returns (c: Console)
    requires topic != EVERYTHING && topic != ""
    ensures fresh(c) && c.Valid() && c.client.state.Open? && c.client.socket
    ensures c.system.open && c.system.requests == [RealtimeClients.Subscribe({topic}, None)]
    ensures c.system.core == Core(FRESH, {}, map[topic := 0])
  {
    c := FirstConnection(topic, handler);
    c.OnClose();
    c.OnTimer(true);
    c.OnOpen();
  }
}
