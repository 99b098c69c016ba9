/** The byte metric of a session: what the relay counts, over whole runs. */
module Metering {
  import opened Bytes
  import opened Io
  import opened Text
  import opened Codec
  import opened Relay
  import opened Session
  import opened SessionSafety
  import Connect
  import Stm
  import opened SessionTheorems

  /** Bytes sent to the client beyond the three replies. */
  function RelayedToClient(c: Conn): nat {
    if |c.r.client.sent| < |Replies(c.log)| then 0 else |c.r.client.sent| - |Replies(c.log)|
  }

  /** The metric counts each relayed byte when it arrives and when it leaves, and nothing else. */
  ghost predicate Metered(c: Conn) {
    c.r.metric == |c.log.fromOrigin| + |c.log.fromClient| + RelayedToClient(c) + |c.r.origin.sent|
  }

  lemma TranscriptLengths(c: Conn)
    requires Transcript(c)
    ensures |c.r.client.sent| + |c.Pending()| == |Replies(c.log)| + |c.log.fromOrigin|
    ensures |c.r.origin.sent| + |c.r.origin.buf.data| == |c.log.fromClient|
  {
    hide WellOrdered;
    assert |c.r.client.sent + c.Pending()| == |c.r.client.accepted|;
    assert |c.r.origin.sent + c.r.origin.buf.data| == |c.r.origin.accepted|;
  }

  lemma NothingRelayed(c: Conn)
    requires Inv(c) && c.state != STATE_FORWARDING
    ensures c.log.fromOrigin == [] && c.log.fromClient == []
  {
    hide Armed, Sound;
  }

  predicate KeepsRelay(c: Conn, c': Conn) {
    c'.r.metric == c.r.metric && c'.log.fromOrigin == c.log.fromOrigin && c'.log.fromClient == c.log.fromClient
  }

  lemma RepliesKeepRelay(c: Conn, status: byte, host: seq<byte>, port: seq<byte>)
    ensures KeepsRelay(c, PutReply(c, status, host, port))
    ensures KeepsRelay(c, HelloReply(c, status)) && KeepsRelay(c, LoginReply(c, status))
  {
    hide Reply;
  }

  lemma WritesKeepRelay(c: Conn, send: Send, next: nat, current: nat, a: Answers)
    ensures KeepsRelay(c, HelloWriteAux(c, send, next, current).0)
    ensures KeepsRelay(c, RequestWrite(c, a).0)
  {
  }

  lemma AuthWriteKeepsRelay(c: Conn, send: Send, status: byte, current: nat)
    ensures KeepsRelay(c, AuthWriteAux(c, send, status, current).0)
  {
  }

  lemma HelloReadKeepsRelay(c: Conn, a: Answers)
    ensures KeepsRelay(c, HelloRead(c, a).0)
  {
    hide HelloReply, HelloWriteAux;
    if a.recv.Data? {
      var v := c.rb.Push(a.recv.bs);
      var v2 := v.Rest().Rest();
      var c1 := c.(rb := v2.Pop(Min(v.Rest().NextByte(), |v2.data|)));
      RepliesKeepRelay(c1, AUTH_METHOD, [], []);
      RepliesKeepRelay(c1, NO_AUTH_METHOD, [], []);
      WritesKeepRelay(HelloReply(c1, AUTH_METHOD), a.send, STATE_AUTH, STATE_HELLO_TO_AUTH, a);
      WritesKeepRelay(HelloReply(c1, NO_AUTH_METHOD), a.send, STATE_REQUEST, STATE_HELLO, a);
    }
  }

  lemma AuthReadKeepsRelay(c: Conn, a: Answers)
    ensures KeepsRelay(c, AuthRead(c, a).0)
  {
    hide LoginReply, AuthWriteAux, FieldOf, FieldText, AfterField;
    if a.recv.Data? {
      var v := c.rb.Push(a.recv.bs);
      var v2 := AfterField(v.Rest());
      var status := LoginStatus(a.users, FieldText(FieldOf(v.Rest())), FieldText(FieldOf(v2)));
      var c1 := c.(rb := AfterField(v2));
      RepliesKeepRelay(c1, status, [], []);
      AuthWriteKeepsRelay(LoginReply(c1, status), a.send, 1, STATE_AUTH_FAILED);
      AuthWriteKeepsRelay(LoginReply(c1, status), a.send, 0, STATE_AUTH);
    }
  }

  lemma ConnectKeepsRelay(c: Conn, side: Side, a: Answers)
    ensures KeepsRelay(c, Session.ConnectWrite(c, side, a).0)
  {
    hide Connect.Advance, Reply;
  }

  lemma BeginSearchKeepsRelay(c: Conn, addrs: nat, a: Answers)
    ensures KeepsRelay(c, BeginSearch(c, addrs, a).0)
  {
    hide Session.ConnectWrite;
    ConnectKeepsRelay(Wait(c.(addrs := addrs, cursor := 0), Client, OP_NOOP), Client, a);
  }

  lemma ResolutionKeepsRelay(c: Conn, a: Answers)
    ensures KeepsRelay(c, ResolutionBlock(c, a).0)
  {
    hide BeginSearch, PutReply;
    RepliesKeepRelay(c, HOST_UNREACHABLE, HostMemory(c), PortMemory(c));
    RepliesKeepRelay(c, HOST_UNREACHABLE, [0], PortMemory(c));
    if a.resolved.Some? {
      BeginSearchKeepsRelay(c, a.resolved.value, a);
    }
  }

  lemma AddressKeepsRelay(c: Conn, a: Answers)
    ensures KeepsRelay(c, AddressOf(c, a).0)
  {
    hide BeginSearch, PutReply, ParseAddress, StoredHost, StoredPort, CStr, InetPton4;
    RepliesKeepRelay(c, UNSUPPORTED_ATYP, Zeros(HOST_MAX_LEN), Zeros(PORT_MAX_LEN));
    var parsed := ParseAddress(c.inet6, c.atyp, c.rb);
    if parsed.Some? && parsed.value.Parsed? {
      BeginSearchKeepsRelay(Store(c, parsed.value), 1, a);
    }
  }

  lemma RequestReadKeepsRelay(c: Conn, a: Answers)
    ensures KeepsRelay(c, RequestRead(c, a).0)
  {
    hide AddressOf, PutReply;
    if a.recv.Data? {
      var v := c.rb.Push(a.recv.bs);
      var c1 := c.(rb := v.Rest().Rest().Rest().Rest(), atyp := v.Rest().Rest().Rest().NextByte());
      RepliesKeepRelay(c1, UNSUPPORTED_COMMAND, [0], [0]);
      AddressKeepsRelay(c1, a);
    }
  }

  lemma HandlerKeepsRelay(c: Conn, e: Session.Event)
    requires c.state < STATE_FORWARDING && Session.Possible(c, e) && Stm.Handles(SOCKS5_STATES[c.state], e.kind)
    ensures KeepsRelay(c, Handler(c, e).0)
  {
    hide KeepsRelay, HelloRead, AuthRead, RequestRead, HelloWriteAux, AuthWriteAux, RequestWrite, Session.ConnectWrite,
      ResolutionBlock;
    var a := e.a;
    if e.kind.Read? {
      HelloReadKeepsRelay(c, a);
      AuthReadKeepsRelay(c, a);
      RequestReadKeepsRelay(c, a);
    } else if e.kind.Write? {
      WritesKeepRelay(c, a.send, STATE_REQUEST, STATE_HELLO, a);
      WritesKeepRelay(c, a.send, STATE_AUTH, STATE_HELLO_TO_AUTH, a);
      AuthWriteKeepsRelay(c, a.send, 0, STATE_AUTH);
      AuthWriteKeepsRelay(c, a.send, 1, STATE_AUTH_FAILED);
      ConnectKeepsRelay(c, e.side, a);
    } else {
      ResolutionKeepsRelay(c, a);
    }
  }

  /** A relay step, by what it does to the relay's own count. */
  lemma RelayMetered(c: Conn, e: Session.Event)
    requires Inv(c) && c.state == STATE_FORWARDING && Session.Possible(c, e) && Session.Enabled(c, e) && !e.kind.Block?
    requires Metered(c)
    ensures Metered(Handler(c, e).0)
  {
    hide ForwardRead, ForwardWrite, Armed, WellOrdered, Clamp;
    var c' := Handler(c, e).0;
    if e.kind.Read? {
      var send := ReadSend(c, e.side, e.a);
      StepSound(c.r, Relay.Readable(e.side, e.a.recv, send));
      RelayReadLogs(c.r, e.side, e.a.recv, send);
    } else {
      var send := Clamp(e.a.send, |c.r.Of(e.side).buf.data|);
      StepSound(c.r, Relay.Writable(e.side, send));
      RelayWriteLogs(c.r, e.side, send);
    }
    assert Replies(c'.log) == Replies(c.log);
    assert c'.r.metric - c.r.metric == Traffic(c'.r) - Traffic(c.r);
  }

  lemma StillNothingRelayed(c: Conn, c': Conn)
    requires Inv(c) && c.state != STATE_FORWARDING && Metered(c) && KeepsRelay(c, c') && Transcript(c')
    ensures Metered(c')
  {
    NothingRelayed(c);
    hide Inv, Transcript;
    TranscriptLengths(c) by { InvTranscript(c); }
    TranscriptLengths(c');
  }

  lemma HandlerMetered(c: Conn, e: Session.Event)
    requires Inv(c) && Session.Possible(c, e) && Session.Enabled(c, e) && Metered(c)
    requires c.state < |SOCKS5_STATES| && !Session.Step(c, e).Aborted?
    ensures Metered(Handler(c, e).0)
  {
    hide Inv, Metered, KeepsRelay, Handler, Transcript, Session.Finish, Stm.Handles, Shape;
    StepKeepsInv(c, e);
    HandlerLeaves(c, e);
    InvStates(c);
    if c.state == STATE_FORWARDING {
      RelayMetered(c, e);
    } else {
      HandlerKeepsRelay(c, e);
      StillNothingRelayed(c, Handler(c, e).0);
    }
  }

  lemma InvStates(c: Conn)
    requires Inv(c)
    ensures c.state <= STATE_FORWARDING
  {
  }

  lemma StepMetered(c: Conn, e: Session.Event)
    requires Inv(c) && c.state < |SOCKS5_STATES| && Session.Possible(c, e) && Session.Enabled(c, e) && Metered(c)
    ensures var s := Session.Step(c, e); !s.Aborted? ==> Metered(s.c)
  {
    hide Inv, Handler, Session.Possible, Session.Enabled, Stm.Handles;
    if !Session.Step(c, e).Aborted? {
      HandlerMetered(c, e);
    }
  }

  /** Over every run: the metric is what came in for relaying plus what was relayed. With what is pending this makes it
      twice the bytes relayed plus those still buffered. */
  lemma {:induction false} MetricCountsRelayedBytes(c: Conn, events: seq<Session.Event>, end: Result)
    requires Accepted(c) && Session.Run(c, events, end) && !end.Aborted?
    ensures var d := end.c;
      && d.r.metric == |d.log.fromOrigin| + |d.log.fromClient| + RelayedToClient(d) + |d.r.origin.sent|
      && (end.Live? && d.state == STATE_FORWARDING ==>
            d.r.metric == 2 * (RelayedToClient(d) + |d.r.origin.sent|) + |d.Pending()| + |d.r.origin.buf.data|)
  {
    AcceptedInv(c);
    assert Metered(c);
    RunMetered(c, events, end);
    if end.Live? && end.c.state == STATE_FORWARDING {
      RunKeepsInv(c, events, end);
      ForwardingFacts(end.c);
      TranscriptLengths(end.c);
    }
  }

  lemma {:induction false} RunMetered(c: Conn, events: seq<Session.Event>, end: Result)
    requires Inv(c) && Metered(c) && Session.Run(c, events, end) && !end.Aborted?
    ensures Metered(end.c)
    decreases |events|
  {
    hide Inv, Metered, Session.Step, Session.Possible, Session.Enabled;
    if events != [] {
      StepMetered(c, events[0]);
      StepKeepsInv(c, events[0]);
      var s := Session.Step(c, events[0]);
      if s.Live? {
        RunMetered(s.c, events[1..], end);
      }
    }
  }
}
