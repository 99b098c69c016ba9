/** How a session's events come out of the selector: the table's items for its descriptors agree with the connection,
    and the callbacks of a round are then exactly the events that the session model admits. */
module Reporting {
  import opened Bytes
  import opened Io
  import opened Relay
  import opened Session
  import Selector
  import Stm

  /** The numbers of a connection's descriptors, and the data under which they are registered. */
  datatype Place = Place(data: nat, client: nat, origin: nat) {
    function Of(side: Side): nat {
      if side.Client? then client else origin
    }

    predicate Valid() {
      client != origin && client < Selector.ITEMS_MAX_SIZE && origin < Selector.ITEMS_MAX_SIZE
    }
  }

  predicate Owned(t: Selector.Table, p: Place, side: Side)
    requires t.Full() && p.Valid()
  {
    t.items[p.Of(side)].Used() && t.items[p.Of(side)].data == p.data
  }

  /** The table has an item of the connection's for each descriptor that the connection has registered, with the
      interest that the connection has set; a number it has given up may be another's. */
  ghost predicate Agrees(t: Selector.Table, c: Conn, p: Place) {
    && t.Full() && p.Valid()
    && (forall side: Side :: side in c.fds <==> Owned(t, p, side))
    && (forall side: Side :: side in c.fds ==> t.items[p.Of(side)].interest == c.r.Of(side).interest)
  }

  // ---------- What handlers ask keeps the agreement ----------

  /** selector_set_interest, of a descriptor that is registered or not. */
  lemma {:induction false} WaitAgrees(t: Selector.Table, c: Conn, p: Place, side: Side, i: Interest, now: int)
    requires Agrees(t, c, p)
    ensures Agrees(Selector.AfterRequest(t, Selector.SetInterest(p.Of(side), i), now), Wait(c, side, i), p)
  {
    var t' := Selector.AfterRequest(t, Selector.SetInterest(p.Of(side), i), now);
    forall s: Side ensures Owned(t', p, s) <==> Owned(t, p, s) {
    }
  }

  lemma {:induction false} UnregisterAgrees(t: Selector.Table, c: Conn, p: Place, side: Side, now: int)
    requires Agrees(t, c, p) && side in c.fds
    ensures Agrees(Selector.AfterRequest(t, Selector.Unregister(p.Of(side)), now), Unregister(c, side), p)
  {
    var t' := Selector.AfterRequest(t, Selector.Unregister(p.Of(side)), now);
    forall s: Side ensures Owned(t', p, s) <==> s != side && Owned(t, p, s) {
    }
  }

  /** selector_register, of a connection's new origin under a free number. */
  lemma {:induction false} RegisterAgrees(t: Selector.Table, c: Conn, p: Place, handler: nat, now: int)
    requires Agrees(t, c, p) && !t.items[p.origin].Used()
    ensures var request := Selector.Register(p.origin, Some(handler), OP_WRITE, p.data);
      Agrees(Selector.AfterRequest(t, request, now),
             c.(hasOrigin := true, fds := c.fds + {Origin}, references := c.references + 1,
                r := c.r.(origin := c.r.origin.Wait(OP_WRITE))), p)
  {
    var t' := Selector.AfterRequest(t, Selector.Register(p.origin, Some(handler), OP_WRITE, p.data), now);
    forall s: Side ensures Owned(t', p, s) <==> s == Origin || Owned(t, p, s) {
    }
  }

  /** What the callbacks of other connections ask about their own descriptors. */
  lemma OthersAgree(t: Selector.Table, c: Conn, p: Place, r: Selector.Request, now: int)
    requires Agrees(t, c, p) && r.fd != p.client && r.fd != p.origin
    ensures Agrees(Selector.AfterRequest(t, r, now), c, p)
  {
    var t' := Selector.AfterRequest(t, r, now);
    forall s: Side ensures t'.items[p.Of(s)] == t.items[p.Of(s)] {
    }
  }

  // ---------- The callbacks of a round are the session's events ----------

  function EventAt(side: Side, write: bool, a: Answers): Session.Event {
    Session.Event(if write then Stm.Write else Stm.Read, side, a)
  }

  function TurnOf(p: Place, side: Side, write: bool): nat {
    2 * p.Of(side) + if write then 1 else 0
  }

  /** In a round, let k callbacks have been made when a descriptor's turn comes, and let the connection then agree with
      the table. The next callback is this connection's, at this turn, iff the descriptor was reported ready and the
      session waits for that event. */
  lemma {:induction false} ReportedIffEnabled(t: Selector.Table, max: nat, ready: Selector.Ready,
                                              script: seq<seq<Selector.Request>>, now: int, calls: seq<Selector.Call>,
                                              k: nat, c: Conn, p: Place, side: Side, write: bool, a: Answers)
    requires t.Full() && max < 1025 && Selector.InTable(calls)
    requires calls == Selector.Round(t, 0, 0, max, ready, script, 0, now).calls
    requires p.Valid() && p.Of(side) <= max && Selector.MadeBefore(calls, k, TurnOf(p, side, write))
    requires Agrees(Selector.Replay(t, calls, script, 0, now, k), c, p)
    ensures (k < |calls| && calls[k].fd == p.Of(side) && calls[k].write == write && calls[k].item.data == p.data)
       <==> (p.Of(side) in if write then ready.w else ready.r) && Session.Enabled(c, EventAt(side, write, a))
  {
    hide Selector.Round, Selector.Replay;
    Selector.RoundReplayed(t, 0, 0, max, ready, script, 0, now, calls);
    Selector.RoundExact(t, 0, 0, max, ready, script, 0, now, calls);
    var q, now' := TurnOf(p, side, write), Selector.Replay(t, calls, script, 0, now, k);
    assert q / 2 == p.Of(side) && q % 2 == if write then 1 else 0;
    assert Selector.Due(now'.items[q / 2], q, ready) <==> k < |calls| && Selector.Turn(calls[k]) == q;
    if k < |calls| {
      assert Selector.Turn(calls[k]) == q <==> calls[k].fd == p.Of(side) && calls[k].write == write;
    }
    assert side in c.fds <==> Owned(now', p, side);
  }
}
