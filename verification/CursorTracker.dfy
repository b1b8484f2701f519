/** The mutable filter behind `Protocol.Tracker`, as the console keeps it. */
module CursorTrackers {
  import opened Options
  import opened Protocol
  import opened Sequences

  class CursorTracker {
    var applied: set<int>
    var order: seq<int>
    var highest: int
    var batchRetires: bool

    ghost predicate Valid()
      reads this
    {
      && (forall id :: id in applied <==> id in order)
      && |order| <= DEDUPE_WINDOW
      && NoRepeats(order)
    }

    ghost function View(): Tracker
      reads this
    {
      Tracker(order, highest, batchRetires)
    }

    constructor ()
      ensures Valid() && View() == FRESH
    {
      applied, order, highest, batchRetires := {}, [], 0, true;
    }

    /** True when the frame should be applied. */
    method Accept(env: Envelope) returns (apply: bool)
      requires Valid()
      modifies this
      ensures Valid()
      ensures apply == old(View()).Accepts(env)
      ensures View() == old(View()).Accept(env)
    {
      if env.eventId == None { return true; }
      var id := env.eventId.value;
      if id in applied { return false; }
      applied := applied + {id};
      order := order + [id];
      if |order| > DEDUPE_WINDOW {
        var evicted := order[0];
        assert forall x :: x in order <==> x == evicted || x in order[1..];
        order := order[1..];
        applied := applied - {evicted};
      }
      var retires := batchRetires || !env.replayed;
      if retires && id > highest { highest := id; }
      return true;
    }

    method ApplyAck(ack: SubscribeAck)
      requires Valid()
      modifies this
      ensures Valid() && View() == old(View()).ApplyAck(ack)
    {
      batchRetires := ack.coversConnection;
      if !batchRetires { return; }
      if highest != 0 { return; }
      if ack.cursor.Some? && ack.cursor.value > highest {
        highest := ack.cursor.value;
      }
    }

    method ApplyReplayComplete(covers: bool, cursor: Option<int>)
      requires Valid()
      modifies this
      ensures Valid() && View() == old(View()).ApplyReplayComplete(covers, cursor)
    {
      batchRetires := true;
      if !covers { return; }
      if cursor.None? { return; }
      if cursor.value > highest { highest := cursor.value; }
    }

    method ApplyReset(cursor: Option<int>)
      requires Valid()
      modifies this
      ensures Valid() && View() == old(View()).ApplyReset(cursor)
    {
      applied := {};
      order := [];
      highest := if cursor.Some? && cursor.value > 0 then cursor.value else 0;
    }
  }
}
