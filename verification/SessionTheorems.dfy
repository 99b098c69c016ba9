/** The statements about whole sessions. */
module SessionTheorems {
  import opened Bytes
  import opened Codec
  import opened Relay
  import opened Session
  import opened SessionSafety

  /** Memory of the right sizes, and buffers that hold any reply. */
  ghost predicate Accepted(c: Conn) {
    exists limit: nat, inet6, host0, port0, atyp0 ::
      c == AcceptConnection(limit, inet6, host0, port0, atyp0) && limit >= 262 && inet6.RoundTrips()
  }

  lemma StartInv(limit: nat, inet6: Inet6, host0: seq<byte>, port0: seq<byte>, atyp0: byte)
    requires limit >= 262 && inet6.RoundTrips()
    ensures Inv(AcceptConnection(limit, inet6, host0, port0, atyp0))
  {
  }

  lemma {:induction false} AcceptedInv(c: Conn)
    requires Accepted(c)
    ensures Inv(c)
  {
    var limit: nat, inet6, host0, port0, atyp0 :|
      c == AcceptConnection(limit, inet6, host0, port0, atyp0) && limit >= 262 && inet6.RoundTrips();
    StartInv(limit, inet6, host0, port0, atyp0);
  }

  ghost predicate Good(s: Result) {
    match s case Live(c) => Inv(c) case Closed(c) => Over(c) case Aborted => true
  }

  lemma {:induction false} RunKeepsInv(c: Conn, events: seq<Session.Event>, end: Result)
    requires Inv(c) && Session.Run(c, events, end)
    ensures Good(end)
    decreases |events|
  {
    hide Inv, Over, Session.Possible, Session.Enabled, Session.Step;
    if events != [] {
      StepKeepsInv(c, events[0]);
      var s := Session.Step(c, events[0]);
      if s.Live? {
        RunKeepsInv(s.c, events[1..], end);
      }
    }
  }

  /** The byte stream sent to the client over any run is a prefix of the method reply, then an authentication
      reply if method 2 was chosen, then the request reply, then the bytes the origin sent; what is not yet sent of
      it is what write_buffer holds. Towards the origin it is what the client sent while forwarding. */
  lemma {:induction false} ClientSeesOrderedReplies(c: Conn, events: seq<Session.Event>, end: Result)
    requires Accepted(c) && Session.Run(c, events, end) && !end.Aborted?
    ensures var log := end.c.log;
      && end.c.r.client.sent + end.c.Pending() == log.greeting + log.auth + log.reply + log.fromOrigin
      && end.c.r.origin.sent + end.c.r.origin.buf.data == log.fromClient
      && log.greeting == (if log.chosen.Some? then [SOCKS5_VERSION, log.chosen.value] else [])
      && log.auth == (if log.login.Some? then [AUTH_VERSION, log.login.value] else [])
      && (log.auth != [] ==> log.chosen == Some(AUTH_METHOD))
      && (log.reply != [] ==> log.status.Some? && [SOCKS5_VERSION, log.status.value, RSV] <= log.reply)
      && (log.fromOrigin != [] || log.fromClient != [] ==> log.status == Some(SUCCESS))
  {
    hide Inv, Over, Accepted, Session.Run;
    AcceptedInv(c);
    RunKeepsInv(c, events, end);
    if end.Live? {
      InvTranscript(end.c);
    } else {
      OverTranscript(end.c);
    }
    OrderedReplies(end.c.log);
    hide Sound;
    assert Replies(end.c.log) + end.c.log.fromOrigin
        == end.c.log.greeting + end.c.log.auth + end.c.log.reply + end.c.log.fromOrigin;
  }

  lemma InvTranscript(c: Conn)
    requires Inv(c)
    ensures Transcript(c) && c.r.client.sent + c.Pending() == c.r.client.accepted
    ensures c.r.origin.sent + c.r.origin.buf.data == c.log.fromClient
  {
    hide Shape, WellOrdered;
  }

  lemma OverTranscript(c: Conn)
    requires Over(c)
    ensures Transcript(c) && c.r.client.sent + c.Pending() == c.r.client.accepted
    ensures c.r.origin.sent + c.r.origin.buf.data == c.log.fromClient
  {
    hide WellOrdered;
  }

  lemma OrderedReplies(log: Log)
    requires WellOrdered(log)
    ensures log.auth != [] ==> log.chosen == Some(AUTH_METHOD)
    ensures log.reply != [] ==> log.status.Some? && [SOCKS5_VERSION, log.status.value, RSV] <= log.reply
  {
    if log.status.Some? {
      assert log.reply == log.reply[..3] + log.reply[3..];
    }
  }

  /** FORWARDING is entered only once a complete SUCCESS reply has been sent, and there the relay's joint
      invariant holds. */
  lemma {:induction false} ForwardingAfterSuccess(c: Conn, events: seq<Session.Event>, end: Conn)
    requires Accepted(c) && Session.Run(c, events, Live(end)) && end.state == STATE_FORWARDING
    ensures end.log.status == Some(SUCCESS) && 7 <= |end.log.reply|
    ensures end.log.greeting + end.log.auth + end.log.reply <= end.r.client.sent
    ensures Armed(end.r) && end.fds == {Client, Origin}
  {
    hide Inv, Accepted, Session.Run;
    AcceptedInv(c);
    RunKeepsInv(c, events, Live(end));
    ForwardingFacts(end);
  }

  lemma ForwardingFacts(c: Conn)
    requires Inv(c) && c.state == STATE_FORWARDING
    ensures c.log.status == Some(SUCCESS) && 7 <= |c.log.reply| && Replies(c.log) <= c.r.client.sent
    ensures Armed(c.r) && c.fds == {Client, Origin}
  {
    hide Armed, Sound;
  }

  /** Authentication gate: a session that chose method 2 is in REQUEST or later only after its credentials were
      accepted; once they were refused it stays in AUTH_FAILED or HELLO_TO_AUTH. */
  lemma {:induction false} AuthenticationGate(c: Conn, events: seq<Session.Event>, end: Conn)
    requires Accepted(c) && Session.Run(c, events, Live(end))
    ensures end.state >= STATE_REQUEST ==> end.log.chosen.Some?
    ensures end.state >= STATE_REQUEST && end.log.chosen == Some(AUTH_METHOD) ==> end.log.login == Some(0)
    ensures end.log.login.Some? && end.log.login.value != 0 ==>
      end.state == STATE_AUTH_FAILED || end.state == STATE_HELLO_TO_AUTH
  {
    hide Inv, Accepted, Session.Run;
    AcceptedInv(c);
    RunKeepsInv(c, events, Live(end));
    GateFacts(end);
  }

  lemma GateFacts(c: Conn)
    requires Inv(c)
    ensures c.state >= STATE_REQUEST ==> Admitted(c.log)
    ensures c.log.login.Some? && c.log.login.value != 0 ==>
        c.state == STATE_AUTH_FAILED || c.state == STATE_HELLO_TO_AUTH
  {
    hide Armed, Sound;
  }

  /** A session under way holds one reference for each registered descriptor and has not been freed; one that is over
      has none registered and was freed exactly once. */
  lemma {:induction false} ReferencesBalance(c: Conn, events: seq<Session.Event>, end: Result)
    requires Accepted(c) && Session.Run(c, events, end) && !end.Aborted?
    ensures end.c.references == |end.c.fds| && end.c.released == if end.Live? then 0 else 1
    ensures end.Live? ==> Client in end.c.fds && (end.c.hasOrigin <==> Origin in end.c.fds)
    ensures end.Closed? ==> end.c.fds == {}
  {
    AcceptedInv(c);
    RunKeepsInv(c, events, end);
    if end.Live? {
      assert Counted(end.c);
    }
  }

  /** The only events of a session that take the process down: two kinds of read at which it calls abort(), and a send()
      of bytes it owes to a peer that has gone. */
  lemma {:induction false} AbortsExactlyOnFatalEvents(c: Conn, events: seq<Session.Event>, mid: Conn, e: Session.Event)
    requires Accepted(c) && Session.Run(c, events, Live(mid))
    requires mid.state < |SOCKS5_STATES| && Session.Possible(mid, e) && Session.Enabled(mid, e)
    ensures Session.Step(mid, e).Aborted? <==> Fatal(mid, e)
  {
    AcceptedInv(c);
    RunKeepsInv(c, events, Live(mid));
    StepKeepsInv(mid, e);
  }
}
