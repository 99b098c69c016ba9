/** The bidirectional relay of states/state_forward.c, on values: two buffers, two interests. */
module Relay {
  import opened Bytes
  import opened Io
  import opened Buffer

  datatype Side = Client | Origin {
    function Other(): Side {
      if Client? then Origin else Client
    }
  }

  /** All that concerns bytes flowing towards one side: the buffer that drains to it, what its descriptor
      waits for, every byte put into that buffer and every byte sent out of it. */
  datatype Link = Link(buf: Buf, interest: Interest, accepted: seq<byte>, sent: seq<byte>) {

    ghost predicate Intact() {
      buf.Valid() && accepted == sent + buf.data
    }

    function Accept(bs: seq<byte>): Link {
      Link(buf.Push(bs), interest, accepted + bs, sent)
    }

    /** forward_send: what send() took leaves the buffer. */
    function Drain(s: Send): Link
      requires CanSend(s, |buf.data|)
    {
      if s.Sent? && s.n > 0 then Link(buf.Pop(s.n), interest, accepted, sent + buf.data[..s.n]) else this
    }

    function Wait(i: Interest): Link {
      this.(interest := i)
    }
  }

  datatype Links = Links(client: Link, origin: Link, metric: nat) {

    function Of(s: Side): Link {
      if s.Client? then client else origin
    }

    function With(s: Side, l: Link): Links {
      if s.Client? then this.(client := l) else this.(origin := l)
    }
  }

  datatype Outcome = Forwarding | Done | Failed | Killed

  /** What a handler makes of a send() that failed. The server neither ignores SIGPIPE nor catches it, so a broken pipe
      kills the process within the call. */
  function FailedSend(send: Send): Outcome {
    if send == SendFail(true) then Killed else Failed
  }

  /** A descriptor is ready; with the answers the handler's recv() and send() will get. */
  datatype Event = Readable(side: Side, recv: Recv, send: Send) | Writable(side: Side, send: Send)

  function Taken(s: Send): nat {
    if s.Sent? then s.n else 0
  }

  /** The answers fit what the handler asks for. */
  predicate Possible(r: Links, e: Event) {
    match e
    case Readable(side, recv, send) =>
      var dst := r.Of(side.Other()).buf;
      CanRecv(recv, dst.Room()) && (recv.Data? ==> CanSend(send, |dst.data| + |recv.bs|))
    case Writable(side, send) => CanSend(send, |r.Of(side).buf.data|)
  }

  /** The selector reports only what a descriptor waits for. */
  predicate Enabled(r: Links, e: Event) {
    match e
    case Readable(side, _, _) => r.Of(side).interest.read
    case Writable(side, _) => r.Of(side).interest.write
  }

  function ForwardRead(r: Links, side: Side, recv: Recv, send: Send): (Links, Outcome)
    requires Possible(r, Readable(side, recv, send))
  {
    var other := side.Other();
    var dst := r.Of(other);
    if dst.buf.Room() <= 0 then
      (r.With(side, r.Of(side).Wait(OP_NOOP)).With(other, dst.Wait(OP_WRITE)), Forwarding)
    else match recv
      case RecvAgain => (r, Forwarding)
      case RecvFail => (r, Failed)
      case Eof => (r, Done)
      case Data(bs) =>
        var out := dst.Accept(bs).Drain(send);
        var m := r.metric + |bs| + Taken(send);
        if send.SendFail? then (r.With(other, out).(metric := m), FailedSend(send))
        else
          var r1 := r.With(other, out.Wait(if out.buf.data != [] then OP_WRITE else OP_READ)).(metric := m);
          (if out.buf.Room() > 0 then r1.With(side, r.Of(side).Wait(OP_READ)) else r1, Forwarding)
  }

  function ForwardWrite(r: Links, side: Side, send: Send): (Links, Outcome)
    requires Possible(r, Writable(side, send))
  {
    var other := side.Other();
    var src := r.Of(side);
    if src.buf.data == [] then
      (r.With(side, src.Wait(OP_READ)).With(other, r.Of(other).Wait(OP_READ)), Forwarding)
    else match send
      case SendAgain => (r, Forwarding)
      case SendFail(_) => (r, FailedSend(send))
      case Sent(n) =>
        var out := src.Drain(send);
        (r.With(side, out.Wait(if out.buf.data != [] then OP_WRITE else OP_READ))
          .With(other, r.Of(other).Wait(if r.Of(other).buf.data != [] then OP_WRITE else OP_READ))
          .(metric := r.metric + n), Forwarding)
  }

  function Step(r: Links, e: Event): (Links, Outcome)
    requires Possible(r, e)
  {
    match e
    case Readable(side, recv, send) => ForwardRead(r, side, recv, send)
    case Writable(side, send) => ForwardWrite(r, side, send)
  }

  // ---------- The invariant ----------

  /** Interests are overwritten, never combined, so each says all there is to say about the two buffers: a side
      is waited on for writing iff its buffer holds bytes, at most one buffer does, and a side is not waited on
      at all only while the other one has bytes to take. */
  ghost predicate Armed(r: Links) {
    && (forall s: Side :: r.Of(s).interest == OP_NOOP || r.Of(s).interest == OP_READ || r.Of(s).interest == OP_WRITE)
    && (forall s: Side :: r.Of(s).interest == OP_WRITE <==> r.Of(s).buf.data != [])
    && (r.client.buf.data == [] || r.origin.buf.data == [])
    && (forall s: Side :: r.Of(s).interest == OP_NOOP ==> r.Of(s.Other()).interest == OP_WRITE)
  }

  ghost predicate Sound(r: Links) {
    r.client.Intact() && r.origin.Intact() && r.client.buf.limit > 0 && r.origin.buf.limit > 0
  }

  lemma DrainIntact(l: Link, s: Send)
    requires l.Intact() && CanSend(s, |l.buf.data|)
    ensures l.Drain(s).Intact() && l.Drain(s).buf.limit == l.buf.limit
    ensures |l.Drain(s).sent| == |l.sent| + Taken(s) && l.Drain(s).accepted == l.accepted
  {
    if s.Sent? && s.n > 0 {
      assert l.sent + l.buf.data == (l.sent + l.buf.data[..s.n]) + l.buf.data[s.n..];
    }
  }

  lemma AcceptIntact(l: Link, bs: seq<byte>)
    requires l.Intact() && |bs| <= l.buf.Room()
    ensures var l' := l.Accept(bs);
      && l'.Intact() && l'.accepted == l.accepted + bs && l'.sent == l.sent
      && l'.buf.limit == l.buf.limit && |l'.buf.data| == |l.buf.data| + |bs|
  {
    assert l.sent + l.buf.data + bs == l.sent + (l.buf.data + bs);
  }

  /** Everything that has gone in and out of the two buffers. */
  ghost function Traffic(r: Links): nat {
    |r.client.accepted| + |r.client.sent| + |r.origin.accepted| + |r.origin.sent|
  }

  lemma ReadSound(r: Links, side: Side, recv: Recv, send: Send)
    requires Sound(r) && Possible(r, Readable(side, recv, send))
    ensures var r' := ForwardRead(r, side, recv, send).0;
      Sound(r') && r'.metric - r.metric == Traffic(r') - Traffic(r)
  {
    var dst := r.Of(side.Other());
    if dst.buf.Room() > 0 && recv.Data? {
      AcceptIntact(dst, recv.bs);
      DrainIntact(dst.Accept(recv.bs), send);
      hide Link.Accept, Link.Drain, Buf.Valid, CanRecv;
      assert |dst.accepted + recv.bs| == |dst.accepted| + |recv.bs|;
    }
  }

  lemma WriteSound(r: Links, side: Side, send: Send)
    requires Sound(r) && Possible(r, Writable(side, send))
    ensures var r' := ForwardWrite(r, side, send).0;
      Sound(r') && r'.metric - r.metric == Traffic(r') - Traffic(r)
  {
    DrainIntact(r.Of(side), send);
    assert r.Of(side).Drain(send).accepted == r.Of(side).accepted;
  }

  /** One event keeps both directions in order and complete, whatever it leads to, and the metric counts each
      byte once when it arrives and once when it leaves. */
  lemma {:induction false} StepSound(r: Links, e: Event)
    requires Sound(r) && Possible(r, e)
    ensures var r' := Step(r, e).0;
      Sound(r') && r'.metric - r.metric == Traffic(r') - Traffic(r)
  {
    match e
    case Readable(side, recv, send) => ReadSound(r, side, recv, send);
    case Writable(side, send) => WriteSound(r, side, send);
  }

  /** One event the selector may report keeps the joint invariant while forwarding goes on. */
  lemma StepArmed(r: Links, e: Event)
    requires Sound(r) && Armed(r) && Possible(r, e) && Enabled(r, e)
    ensures Step(r, e).1 == Forwarding ==> Armed(Step(r, e).0)
  {
    var r' := Step(r, e).0;
    match e
    case Readable(side, recv, send) =>
      assert r'.Of(side).buf == r.Of(side).buf;
      assert r.Of(side).interest == OP_READ;
    case Writable(side, send) =>
      assert r.Of(side).interest == OP_WRITE;
  }

  // ---------- When forwarding ends ----------

  /** There is room for what the readable side may send. */
  predicate HasRoom(r: Links, side: Side) {
    r.Of(side.Other()).buf.Room() > 0
  }

  /** The bytes that the event's handler offers to send(), and whom to. */
  function Offered(r: Links, e: Event): seq<byte> {
    match e
    case Readable(side, recv, _) => if HasRoom(r, side) && recv.Data? then r.Of(side.Other()).buf.data + recv.bs else []
    case Writable(side, _) => r.Of(side).buf.data
  }

  function Towards(e: Event): Side {
    match e case Readable(side, _, _) => side.Other() case Writable(side, _) => side
  }

  /** Forwarding ends exactly when the readable side has closed or cannot be read, or sending what there is to send
      fails; a partial send or EAGAIN never ends it. */
  lemma StepOutcome(r: Links, e: Event)
    requires Possible(r, e)
    ensures Step(r, e).1 == Done <==> e.Readable? && HasRoom(r, e.side) && e.recv.Eof?
    ensures Step(r, e).1 == Killed <==> Offered(r, e) != [] && e.send == SendFail(true)
    ensures Step(r, e).1 == Failed <==>
      || (e.Readable? && HasRoom(r, e.side) && e.recv.RecvFail?)
      || (Offered(r, e) != [] && e.send == SendFail(false))
  {
  }

  /** What an event that ends nothing moves: the bytes received join the buffer they are to drain from, and of what is
      then offered exactly as many bytes as send() took have been sent, in order. The other direction is not touched. */
  lemma StepDelivers(r: Links, e: Event)
    requires Sound(r) && Possible(r, e)
    ensures var r' := Step(r, e).0;
      var to := Towards(e);
      var got := if e.Readable? && HasRoom(r, e.side) && e.recv.Data? then e.recv.bs else [];
      var n := if Offered(r, e) == [] then 0 else Taken(e.send);
      && n <= |Offered(r, e)|
      && r'.Of(to).accepted == r.Of(to).accepted + got
      && r'.Of(to).sent == r.Of(to).sent + Offered(r, e)[..n]
      && r'.Of(to.Other()) == r.Of(to.Other()).Wait(r'.Of(to.Other()).interest)
  {
    var l := r.Of(Towards(e));
    assert l.accepted + [] == l.accepted && l.sent + [] == l.sent;
    assert l.buf.data[..0] == [];
  }

  /** A full buffer stops the reading of the side that fills it, until the other side has taken some. */
  lemma FullStopsReading(r: Links, side: Side, recv: Recv, send: Send)
    requires Sound(r) && Armed(r) && Possible(r, Readable(side, recv, send)) && Enabled(r, Readable(side, recv, send))
    ensures var (r', o) := Step(r, Readable(side, recv, send));
      && (!HasRoom(r, side) ==>
            o == Forwarding && r'.Of(side).interest == OP_NOOP && r'.Of(side.Other()).interest == OP_WRITE)
      && (HasRoom(r, side) ==> r'.Of(side).interest == OP_READ)
  {
    assert r.Of(side).interest == OP_READ;
  }

  /** No answer of the system is a close or a failure; partial reads and sends, EAGAIN and full buffers are allowed. */
  predicate Harmless(e: Event) {
    !e.send.SendFail? && (e.Readable? ==> !e.recv.Eof? && !e.recv.RecvFail?)
  }

  /** Forwarding goes on, with its joint invariant, over any run of events without a close or a failure. */
  lemma {:induction false} ForwardingGoesOn(r: Links, events: seq<Event>, end: Links, outcome: Outcome)
    requires Sound(r) && Armed(r) && Run(r, events, end, outcome)
    requires forall e :: e in events ==> Harmless(e)
    ensures outcome == Forwarding && Armed(end)
    decreases |events|
  {
    if events != [] {
      StepSound(r, events[0]);
      StepArmed(r, events[0]);
      StepOutcome(r, events[0]);
      assert Harmless(events[0]);
      ForwardingGoesOn(Step(r, events[0]).0, events[1..], end, outcome);
    }
  }

  /** No deadlock: some descriptor is always waited on. */
  lemma SomethingEnabled(r: Links)
    requires Armed(r)
    ensures r.client.interest != OP_NOOP || r.origin.interest != OP_NOOP
    ensures forall s: Side :: r.Of(s).interest == OP_NOOP ==>
        r.Of(s.Other()).interest.write && r.Of(s.Other()).buf.data != []
  {
    assert r.Of(Client) == r.client && r.Of(Origin) == r.origin;
    assert Client.Other() == Origin && Origin.Other() == Client;
  }

  // ---------- Whole runs ----------

  function Fresh(limit: nat): Link {
    Link(Empty(limit), OP_READ, [], [])
  }

  /** How FORWARDING begins: both buffers empty, both sides waited on for reading. */
  function Start(limit: nat): Links {
    Links(Fresh(limit), Fresh(limit), 0)
  }

  /** Events reported one after the other until the handlers answer something other than FORWARDING. */
  ghost predicate Run(r: Links, events: seq<Event>, end: Links, outcome: Outcome)
    decreases |events|
  {
    if events == [] then end == r && outcome == Forwarding
    else
      && Possible(r, events[0]) && Enabled(r, events[0])
      && var (r', o) := Step(r, events[0]);
         if o == Forwarding then Run(r', events[1..], end, outcome)
         else events[1..] == [] && end == r' && outcome == o
  }

  ghost predicate MetricExact(r: Links) {
    r.metric == Traffic(r)
  }

  lemma {:induction false} RunFrom(r: Links, events: seq<Event>, end: Links, outcome: Outcome)
    requires Sound(r) && Armed(r) && MetricExact(r) && Run(r, events, end, outcome)
    ensures Sound(end) && MetricExact(end) && (outcome == Forwarding ==> Armed(end))
    decreases |events|
  {
    if events != [] {
      StepSound(r, events[0]);
      StepArmed(r, events[0]);
      var (r', o) := Step(r, events[0]);
      if o == Forwarding {
        RunFrom(r', events[1..], end, outcome);
      }
    }
  }

  /** Relay integrity over whole runs, with any partial reads, partial writes and EAGAINs: in each direction the
      bytes received are the bytes sent followed by the bytes buffered; the metric is twice the bytes sent plus
      those pending; and while forwarding lasts the joint invariant holds. */
  lemma RelayIntegrity(limit: nat, events: seq<Event>, end: Links, outcome: Outcome)
    requires limit > 0 && Run(Start(limit), events, end, outcome)
    ensures end.client.accepted == end.client.sent + end.client.buf.data
    ensures end.origin.accepted == end.origin.sent + end.origin.buf.data
    ensures end.metric == 2 * (|end.client.sent| + |end.origin.sent|) + |end.client.buf.data| + |end.origin.buf.data|
    ensures outcome == Forwarding ==> Armed(end)
  {
    var r := Start(limit);
    assert forall s: Side :: r.Of(s) == Fresh(limit);
    RunFrom(r, events, end, outcome);
  }

  /** A close by one side ends the session at once. Nothing is pending towards the side that closed; bytes
      pending towards the other one are never sent. So the close loses nothing iff the other side is not being
      waited on for writing. */
  lemma CloseDeliversAll(r: Links, side: Side, send: Send)
    requires Sound(r) && Armed(r) && Enabled(r, Readable(side, Eof, send)) && r.Of(side.Other()).buf.Room() > 0
    ensures Step(r, Readable(side, Eof, send)) == (r, Done)
    ensures r.Of(side).accepted == r.Of(side).sent
    ensures r.Of(side.Other()).accepted == r.Of(side.Other()).sent <==> r.Of(side.Other()).interest != OP_WRITE
  {
    var l := r.Of(side.Other());
    assert r.Of(side).interest == OP_READ;
    if l.accepted == l.sent {
      assert |l.accepted| == |l.sent| + |l.buf.data|;
    }
  }

  /** A run that loses bytes: the client sends one byte, the origin takes none, the client closes. */
  lemma CloseCanLose()
    ensures exists end :: Run(Start(16384), [Readable(Client, Data([7]), SendAgain),
                                                  Readable(Client, Eof, SendAgain)], end, Done)
                       && end.origin.accepted == [7] && end.origin.sent == []
  {
    var e1, e2 := Readable(Client, Data([7]), SendAgain), Readable(Client, Eof, SendAgain);
    var r := Step(Start(16384), e1).0;
    assert [e1, e2][1..] == [e2];
    assert r.origin.accepted == [7];
    assert Run(r, [e2], r, Done);
    assert Run(Start(16384), [e1, e2], r, Done);
  }

  /** A peer that takes everything it is offered empties its buffer and re-arms both sides for reading. */
  lemma DrainRestores(r: Links, side: Side)
    requires Sound(r) && Armed(r) && r.Of(side).interest == OP_WRITE
    ensures var (r', o) := Step(r, Writable(side, Sent(|r.Of(side).buf.data|)));
      o == Forwarding && r'.client.interest == OP_READ && r'.origin.interest == OP_READ
      && r'.client.sent == r.client.accepted && r'.origin.sent == r.origin.accepted
  {
    var l := r.Of(side);
    assert l.buf.data[..|l.buf.data|] == l.buf.data;
    assert r.Of(side.Other()).buf.data == [];
  }
}
