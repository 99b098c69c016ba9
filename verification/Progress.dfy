/** Where a session that lives on goes: its next state, and how much of a reply is out. */
module Progress {
  import opened Bytes
  import opened Io
  import opened Buffer
  import opened Text
  import opened Codec
  import opened Relay
  import opened Session
  import opened SessionSafety
  import opened LoginTheorems
  import opened Refusals
  import opened Endings
  import Stm

  // ---------- Before the request ----------

  /** The state that the history so far and the reply still pending call for. */
  function Lobby(log: Log, pending: bool): nat {
    if log.chosen == None then STATE_HELLO
    else if log.chosen == Some(NO_AUTH_METHOD) then (if pending then STATE_HELLO else STATE_REQUEST)
    else if log.login == None then (if pending then STATE_HELLO_TO_AUTH else STATE_AUTH)
    else if log.login == Some(0) then (if pending then STATE_AUTH else STATE_REQUEST)
    else if pending then STATE_AUTH_FAILED else STATE_HELLO_TO_AUTH
  }

  predicate InLobby(s: nat) {
    s == STATE_HELLO || s == STATE_HELLO_TO_AUTH || s == STATE_AUTH || s == STATE_AUTH_FAILED
  }

  lemma HelloReadStays(c: Conn, a: Answers)
    ensures var (c', s) := HelloRead(c, a);
      && c'.log.status == c.log.status
      && (InLobby(s) || s == STATE_REQUEST || Final(s) || s == KILLED)
  {
    hide HelloWriteAux, HelloReply;
    if a.recv.Data? {
      var v := c.rb.Push(a.recv.bs);
      var v2 := v.Rest().Rest();
      var c1 := c.(rb := v2.Pop(Min(v.Rest().NextByte(), |v2.data|)));
      ReplyKeepsStatus(c1, AUTH_METHOD);
      ReplyKeepsStatus(c1, NO_AUTH_METHOD);
      WriteKeepsStatus(HelloReply(c1, AUTH_METHOD), a.send, STATE_AUTH, STATE_HELLO_TO_AUTH, 0);
      WriteKeepsStatus(HelloReply(c1, NO_AUTH_METHOD), a.send, STATE_REQUEST, STATE_HELLO, 0);
    }
  }

  lemma ReplyKeepsStatus(c: Conn, b: byte)
    ensures HelloReply(c, b).log.status == c.log.status && LoginReply(c, b).log.status == c.log.status
  {
  }

  lemma WriteKeepsStatus(c: Conn, send: Send, next: nat, current: nat, status: byte)
    ensures HelloWriteAux(c, send, next, current).0.log == c.log
    ensures AuthWriteAux(c, send, status, current).0.log == c.log
  {
  }

  lemma AuthReadStays(c: Conn, a: Answers)
    ensures var (c', s) := AuthRead(c, a);
      && c'.log.status == c.log.status
      && (!a.recv.Data? || c.rb.data + a.recv.bs != [] ==>
            InLobby(s) || s == STATE_REQUEST || Final(s) || s == KILLED || s == NO_STATE)
  {
    hide AuthWriteAux, LoginReply, FieldOf, FieldText, AfterField;
    if a.recv.Data? {
      var v := c.rb.Push(a.recv.bs);
      var v2 := AfterField(v.Rest());
      var status := LoginStatus(a.users, FieldText(FieldOf(v.Rest())), FieldText(FieldOf(v2)));
      var c1 := c.(rb := AfterField(v2));
      ReplyKeepsStatus(c1, status);
      WriteKeepsStatus(LoginReply(c1, status), a.send, STATE_AUTH, STATE_AUTH_FAILED, 1);
      WriteKeepsStatus(LoginReply(c1, status), a.send, STATE_AUTH, STATE_AUTH, 0);
    }
  }

  lemma LobbyHandlers(c: Conn, e: Session.Event)
    requires InLobby(c.state) && Session.Possible(c, e) && Stm.Handles(SOCKS5_STATES[c.state], e.kind)
    ensures var (c', s) := Handler(c, e);
      && c'.log.status == c.log.status
      && (InLobby(s) || s == STATE_REQUEST || Final(s) || s == KILLED || s == NO_STATE)
  {
    hide HelloRead, AuthRead, HelloWriteAux, AuthWriteAux;
    HelloReadStays(c, e.a);
    AuthReadStays(c, e.a);
    WriteKeepsStatus(c, e.a.send, STATE_REQUEST, STATE_HELLO, 0);
    WriteKeepsStatus(c, e.a.send, STATE_AUTH, STATE_HELLO_TO_AUTH, 0);
    WriteKeepsStatus(c, e.a.send, STATE_AUTH, STATE_AUTH, 0);
    WriteKeepsStatus(c, e.a.send, STATE_AUTH, STATE_AUTH_FAILED, 1);
  }

  /** From the greeting to the request: a session that lives on is in the state that its history and the pending reply
      call for. In particular an accepted login whose reply is out waits for the client's request, and so does a
      session that needs no login. */
  lemma {:induction false} LobbyLeadsOn(c: Conn, e: Session.Event)
    requires Inv(c) && InLobby(c.state) && Session.Possible(c, e) && Session.Enabled(c, e)
    requires Session.Step(c, e).Live?
    ensures var d := Session.Step(c, e).c;
      && Inv(d) && d.state == Lobby(d.log, d.Pending() != [])
      && (d.state == STATE_REQUEST ==> Listening(d))
  {
    StepKeepsInv(c, e);
    StatusInLobby(c);
    LobbyHandlers(c, e);
    hide Handler, Session.Possible, Session.Enabled, Inv;
    LobbyIs(Session.Step(c, e).c);
  }

  lemma StatusInLobby(c: Conn)
    requires Inv(c) && InLobby(c.state)
    ensures c.log.status == None
  {
    hide Sound;
  }

  lemma LobbyIs(c: Conn)
    requires Inv(c) && c.log.status == None && (InLobby(c.state) || c.state == STATE_REQUEST)
    ensures c.state == Lobby(c.log, c.Pending() != []) && (c.state == STATE_REQUEST ==> Listening(c))
  {
    hide Sound, Armed;
  }

  // ---------- From the request on ----------

  /** The next state of a session that lives on, given whether its request has then been answered and whether the reply
      is then pending. */
  function Onward(c: Conn, e: Session.Event, answered: bool, pending: bool): nat {
    if c.state == STATE_FORWARDING then STATE_FORWARDING
    else if c.state == STATE_REQUEST && e.kind.Write? then (if pending then STATE_REQUEST else STATE_FORWARDING)
    else if c.state == STATE_REQUEST && Name(AtHand(c, e)) then STATE_RESOLVE
    else if c.state == STATE_REQUEST && !Literal(AtHand(c, e)) then STATE_REQUEST
    else if answered then STATE_REQUEST else STATE_CONNECT
  }

  lemma SearchLeadsOn(c: Conn, side: Side, a: Answers)
    requires c.log.status == None
    ensures var (c', s) := Session.ConnectWrite(c, side, a);
      Final(s) || s == if c'.log.status.Some? then STATE_REQUEST else STATE_CONNECT
  {
    hide Connect.Advance, Reply;
  }

  lemma BeginSearchLeadsOn(c: Conn, addrs: nat, a: Answers)
    requires c.log.status == None
    ensures var (c', s) := BeginSearch(c, addrs, a);
      Final(s) || s == if c'.log.status.Some? then STATE_REQUEST else STATE_CONNECT
  {
    hide Session.ConnectWrite;
    SearchLeadsOn(Wait(c.(addrs := addrs, cursor := 0), Client, OP_NOOP), Client, a);
  }

  lemma ResolutionLeadsOn(c: Conn, a: Answers)
    requires c.log.status == None
    ensures var (c', s) := ResolutionBlock(c, a);
      Final(s) || s == if c'.log.status.Some? then STATE_REQUEST else STATE_CONNECT
  {
    hide BeginSearch, Reply;
    if a.resolved.Some? {
      BeginSearchLeadsOn(c, a.resolved.value, a);
    }
  }

  lemma RequestReadLeadsOn(c: Conn, a: Answers)
    requires c.log.status == None && c.inet6.RoundTrips() && a.recv.Data?
    ensures var (c', s) := RequestRead(c, a);
      var bs := c.rb.data + a.recv.bs;
      Final(s) || s == if Name(bs) then STATE_RESOLVE
                       else if !Literal(bs) || c'.log.status.Some? then STATE_REQUEST else STATE_CONNECT
  {
    hide BeginSearch, PutReply, ParseAddress, StoredHost, StoredPort, AddressOf, RequestRead;
    CommandBranch(c, a);
    TypeBranch(c, a);
    IncompleteBranch(c, a);
    VersionBranch(c, a);
    var bs := c.rb.data + a.recv.bs;
    if Name(bs) {
      NameBranch(c, a);
    } else if Literal(bs) {
      var b := LiteralBranch(c, a);
      BeginSearchLeadsOn(b, 1, a);
    }
  }

  lemma VersionBranch(c: Conn, a: Answers)
    requires a.recv.Data?
    ensures var bs := c.rb.data + a.recv.bs;
      |bs| >= 4 && bs[0] != SOCKS5_VERSION ==> RequestRead(c, a).1 == STATE_ERROR
  {
  }

  lemma RequestWriteLeadsOn(c: Conn, a: Answers)
    ensures var (c', s) := RequestWrite(c, a);
      Final(s) || s == KILLED || s == if c'.Pending() != [] then STATE_REQUEST else STATE_FORWARDING
  {
  }

  lemma RelayLeadsOn(c: Conn, side: Side, a: Answers)
    requires CanRecv(a.recv, c.r.Of(side.Other()).buf.Room())
    ensures var s := RelayRead(c, side, a).1; Final(s) || s == KILLED || s == STATE_FORWARDING
  {
  }

  lemma RelayWriteLeadsOn(c: Conn, side: Side, a: Answers)
    ensures var s := RelayWrite(c, side, a).1; Final(s) || s == KILLED || s == STATE_FORWARDING
  {
  }

  lemma OnwardHandlers(c: Conn, e: Session.Event)
    requires Inv(c) && STATE_REQUEST <= c.state && Session.Possible(c, e) && Session.Enabled(c, e)
    requires c.state < |SOCKS5_STATES| && Stm.Handles(SOCKS5_STATES[c.state], e.kind)
    ensures var (c', s) := Handler(c, e);
      Final(s) || s == KILLED || s == Onward(c, e, c'.log.status.Some?, c'.Pending() != [])
  {
    hide Inv, RequestRead, RequestWrite, Session.ConnectWrite, ResolutionBlock, RelayRead, RelayWrite, Session.Enabled;
    UnansweredFacts(c, e);
    if c.state == STATE_FORWARDING {
      if e.kind.Read? {
        RelayLeadsOn(c, e.side, e.a);
      } else {
        RelayWriteLeadsOn(c, e.side, e.a);
      }
    } else if c.state == STATE_CONNECT {
      SearchLeadsOn(c, e.side, e.a);
    } else if c.state == STATE_RESOLVE {
      ResolutionLeadsOn(c, e.a);
    } else if e.kind.Write? {
      RequestWriteLeadsOn(c, e.a);
    } else if e.a.recv.Data? {
      RequestReadLeadsOn(c, e.a);
    } else {
      NoRequestRead(c, e.a);
    }
  }

  lemma NoRequestRead(c: Conn, a: Answers)
    requires !a.recv.Data?
    ensures Final(RequestRead(c, a).1)
  {
  }

  lemma UnansweredFacts(c: Conn, e: Session.Event)
    requires Inv(c) && STATE_REQUEST <= c.state && Session.Enabled(c, e)
    ensures c.state <= STATE_FORWARDING && c.inet6.RoundTrips()
    ensures c.state == STATE_RESOLVE || c.state == STATE_CONNECT || (c.state == STATE_REQUEST && e.kind.Read?) ==>
      c.log.status == None
  {
    hide Sound, Armed;
  }

  /** From the request on: a name that has arrived goes to the resolver, a literal address or a resolved name is
      connected to until it is answered, an answer that is out leads to forwarding, and forwarding stays. */
  lemma {:induction false} RequestLeadsOn(c: Conn, e: Session.Event)
    requires Inv(c) && STATE_REQUEST <= c.state < |SOCKS5_STATES| && Session.Possible(c, e) && Session.Enabled(c, e)
    requires Session.Step(c, e).Live?
    ensures var d := Session.Step(c, e).c;
      Inv(d) && d.state == Onward(c, e, d.log.status.Some?, d.Pending() != [])
  {
    StepKeepsInv(c, e);
    hide Inv, Handler, Session.Possible, Session.Enabled, Onward;
    OnwardHandlers(c, e);
  }

  // ---------- How much of a reply is out ----------

  /** c' has sent what send() took of all there was to send. */
  predicate SentOf(c: Conn, c': Conn, send: Send) {
    && |c'.r.client.accepted| >= |c.r.client.sent|
    && |c'.r.client.sent| == |c.r.client.sent| + Taken(Clamp(send, |c'.r.client.accepted| - |c.r.client.sent|))
  }

  lemma AuxSends(c: Conn, send: Send, next: nat, current: nat, status: byte, a: Answers)
    requires c.r.client.Intact()
    ensures SentOf(c, HelloWriteAux(c, send, next, current).0, send)
    ensures SentOf(c, AuthWriteAux(c, send, status, current).0, send)
    ensures SentOf(c, RequestWrite(c, a).0, a.send)
  {
    SendComplete(c, send);
    SendComplete(c, a.send);
    DrainIntact(c.r.client, Clamp(send, |c.Pending()|));
    DrainIntact(c.r.client, Clamp(a.send, |c.Pending()|));
    assert |c.r.client.accepted| == |c.r.client.sent| + |c.Pending()|;
  }

  lemma ReplyIsIntact(c: Conn, b: byte)
    requires c.r.client.Intact() && c.Pending() == [] && c.r.client.buf.limit >= 262
    ensures HelloReply(c, b).r.client.Intact() && HelloReply(c, b).r.client.sent == c.r.client.sent
    ensures LoginReply(c, b).r.client.Intact() && LoginReply(c, b).r.client.sent == c.r.client.sent
  {
    PutComplete(c, [SOCKS5_VERSION, b]);
    PutComplete(c, [AUTH_VERSION, b]);
  }

  lemma SentByReply(c: Conn, c1: Conn, c': Conn, send: Send)
    ensures c1.r.client.sent == c.r.client.sent && SentOf(c1, c', send) ==> SentOf(c, c', send)
    ensures c.r.client.Intact() && c.Pending() == [] && c'.r == c.r ==> SentOf(c, c', send)
  {
    if c.r.client.Intact() && c.Pending() == [] {
      assert |c.r.client.accepted| == |c.r.client.sent|;
    }
  }

  lemma HelloReadSends(c: Conn, a: Answers)
    requires c.r.client.Intact() && c.Pending() == [] && c.r.client.buf.limit >= 262
    ensures SentOf(c, HelloRead(c, a).0, a.send)
  {
    hide HelloWriteAux, HelloReply, SentOf, Link.Intact;
    SentByReply(c, c, HelloRead(c, a).0, a.send);
    if a.recv.Data? {
      var v := c.rb.Push(a.recv.bs);
      var v2 := v.Rest().Rest();
      var c1 := c.(rb := v2.Pop(Min(v.Rest().NextByte(), |v2.data|)));
      ReplyIsIntact(c1, AUTH_METHOD);
      ReplyIsIntact(c1, NO_AUTH_METHOD);
      AuxSends(HelloReply(c1, AUTH_METHOD), a.send, STATE_AUTH, STATE_HELLO_TO_AUTH, 0, a);
      AuxSends(HelloReply(c1, NO_AUTH_METHOD), a.send, STATE_REQUEST, STATE_HELLO, 0, a);
      SentByReply(c, HelloReply(c1, AUTH_METHOD), HelloRead(c, a).0, a.send);
      SentByReply(c, HelloReply(c1, NO_AUTH_METHOD), HelloRead(c, a).0, a.send);
    }
  }

  lemma AuthReadSends(c: Conn, a: Answers)
    requires c.r.client.Intact() && c.Pending() == [] && c.r.client.buf.limit >= 262
    ensures SentOf(c, AuthRead(c, a).0, a.send)
  {
    hide AuthWriteAux, LoginReply, FieldOf, FieldText, AfterField, SentOf, Link.Intact;
    SentByReply(c, c, AuthRead(c, a).0, a.send);
    if a.recv.Data? {
      var v := c.rb.Push(a.recv.bs);
      var v2 := AfterField(v.Rest());
      var status := LoginStatus(a.users, FieldText(FieldOf(v.Rest())), FieldText(FieldOf(v2)));
      var c1 := c.(rb := AfterField(v2));
      ReplyIsIntact(c1, status);
      AuxSends(LoginReply(c1, status), a.send, STATE_AUTH, STATE_AUTH_FAILED, 1, a);
      AuxSends(LoginReply(c1, status), a.send, STATE_AUTH, STATE_AUTH, 0, a);
      SentByReply(c, LoginReply(c1, status), AuthRead(c, a).0, a.send);
    }
  }

  /** Every event that may send to the client before forwarding does so, and what send() takes is out: all reads of the
      greeting and the login, and all writes but those of the search. */
  lemma {:induction false} RepliesGoOut(c: Conn, e: Session.Event)
    requires Inv(c) && Session.Possible(c, e) && Session.Enabled(c, e)
    requires c.state < STATE_FORWARDING && c.state != STATE_CONNECT
    requires e.kind.Write? || (e.kind.Read? && (c.state == STATE_HELLO || c.state == STATE_AUTH))
    requires Session.Step(c, e).Live?
    ensures SentOf(c, Session.Step(c, e).c, e.a.send)
  {
    hide Inv, HelloRead, AuthRead, HelloWriteAux, AuthWriteAux, RequestWrite, SentOf, Session.Enabled;
    IdleFacts(c);
    if e.kind.Read? {
      ReadEnabled(c, e);
      HelloReadSends(c, e.a);
      AuthReadSends(c, e.a);
    } else {
      AuxSends(c, e.a.send, STATE_REQUEST, STATE_HELLO, 0, e.a);
      AuxSends(c, e.a.send, STATE_AUTH, STATE_HELLO_TO_AUTH, 0, e.a);
      AuxSends(c, e.a.send, STATE_AUTH, STATE_AUTH_FAILED, 1, e.a);
      AuxSends(c, e.a.send, STATE_AUTH, STATE_AUTH, 0, e.a);
    }
    SentOfState(c, Handler(c, e).0, Session.Step(c, e).c.state, e.a.send);
  }

  lemma SentOfState(c: Conn, c': Conn, state: nat, send: Send)
    ensures SentOf(c, c', send) ==> SentOf(c, c'.(state := state), send)
  {
  }

  // ---------- An accepted login ----------

  /** One event after an accepted login whose reply is not yet out. If sending it fails the session ends; otherwise what
      send() takes is out, and with the last byte of it the session waits for the client's request. */
  lemma {:induction false} AcceptedStep(c: Conn, e: Session.Event)
    requires Inv(c) && c.state == STATE_AUTH && c.log.login == Some(0)
    requires Session.Possible(c, e) && Session.Enabled(c, e)
    ensures var s := Session.Step(c, e);
      && c.Pending() != []
      && (s.Closed? <==> e.a.send == SendFail(false)) && (s.Aborted? <==> e.a.send == SendFail(true))
      && (s.Live? ==>
            && Inv(s.c) && s.c.log == c.log
            && |s.c.Pending()| == |c.Pending()| - Taken(Clamp(e.a.send, |c.Pending()|))
            && if s.c.Pending() == [] then s.c.state == STATE_REQUEST && Listening(s.c) else s.c.state == STATE_AUTH)
  {
    hide Inv, Handler, Session.Possible, Session.Enabled, SentOf;
    AcceptedWaits(c, e);
    ClosesExactlyOnEndings(c, e);
    StepKeepsInv(c, e);
    var s := Session.Step(c, e);
    if s.Live? {
      LobbyLeadsOn(c, e);
      RepliesGoOut(c, e);
      AcceptedKeepsLog(c, e);
      PendingLeft(c, s.c, e.a.send);
    }
  }

  lemma AcceptedWaits(c: Conn, e: Session.Event)
    requires Inv(c) && c.state == STATE_AUTH && c.log.login == Some(0) && Session.Enabled(c, e)
    ensures c.Pending() != [] && e.kind.Write? && c.log.chosen == Some(AUTH_METHOD)
  {
    hide Sound;
  }

  lemma AcceptedKeepsLog(c: Conn, e: Session.Event)
    requires c.state == STATE_AUTH && e.kind.Write? && Session.Possible(c, e) && Session.Step(c, e).Live?
    ensures var d := Session.Step(c, e).c; d.log == c.log && d.r.client.accepted == c.r.client.accepted
  {
  }

  lemma PendingLeft(c: Conn, d: Conn, send: Send)
    requires Inv(c) && Inv(d) && SentOf(c, d, send) && d.r.client.accepted == c.r.client.accepted
    ensures |d.Pending()| == |c.Pending()| - Taken(Clamp(send, |c.Pending()|))
  {
    hide Shape, Armed, WellOrdered;
    assert |c.r.client.accepted| == |c.r.client.sent| + |c.Pending()|;
    assert |d.r.client.accepted| == |d.r.client.sent| + |d.Pending()|;
  }

  /** After how many events the last of so many bytes is out, if no send() fails before. */
  function OutAfter(left: nat, events: seq<Session.Event>): Option<nat>
    decreases |events|
  {
    if left == 0 then Some(0)
    else if events == [] || events[0].a.send.SendFail? then None
    else match OutAfter(left - Taken(Clamp(events[0].a.send, left)), events[1..])
      case Some(n) => Some(n + 1)
      case None => None
  }

  /** An accepted login gets in: over any run its session comes to wait for the client's request, and goes on from
      there, at the very event that sends the last byte of the reply. It ends before exactly if a send() fails first,
      and otherwise it still has bytes to send. */
  lemma {:induction false} AcceptedGetsIn(c: Conn, events: seq<Session.Event>, end: Result)
    requires Inv(c) && c.state == STATE_AUTH && c.log.login == Some(0) && Session.Run(c, events, end)
    ensures match OutAfter(|c.Pending()|, events)
      case Some(n) =>
        && n <= |events|
        && exists mid :: Session.Run(c, events[..n], Live(mid)) && Session.Run(mid, events[n..], end)
                         && mid.state == STATE_REQUEST && Listening(mid) && mid.log == c.log
      case None =>
        && (end.Closed? <==> FailureInTime(|c.Pending()|, events) == Some(false))
        && (end.Aborted? <==> FailureInTime(|c.Pending()|, events) == Some(true))
        && (end.Live? ==> end.c.state == STATE_AUTH && end.c.Pending() != [] && end.c.log == c.log)
    decreases |events|
  {
    hide Inv, Session.Step, Session.Possible, Session.Enabled, Clamp, Listening;
    AcceptedPending(c);
    if events != [] {
      var e := events[0];
      AcceptedStep(c, e);
      var s := Session.Step(c, e);
      if s.Live? {
        if s.c.Pending() == [] {
          assert OutAfter(0, events[1..]) == Some(0);
          assert Session.Run(s.c, [], Live(s.c));
          assert events[..1] == [e] && [e][1..] == [];
          assert Session.Run(c, events[..1], Live(s.c));
        } else {
          AcceptedGetsIn(s.c, events[1..], end);
          var left := OutAfter(|s.c.Pending()|, events[1..]);
          if left.Some? {
            var n := left.value;
            var mid :| Session.Run(s.c, events[1..][..n], Live(mid)) && Session.Run(mid, events[1..][n..], end)
                       && mid.state == STATE_REQUEST && Listening(mid) && mid.log == s.c.log;
            assert events[..n + 1][1..] == events[1..][..n] && events[n + 1..] == events[1..][n..];
            assert Session.Run(c, events[..n + 1], Live(mid));
          }
        }
      }
    }
  }

  lemma AcceptedPending(c: Conn)
    requires Inv(c) && c.state == STATE_AUTH && c.log.login == Some(0)
    ensures c.Pending() != []
  {
    hide Sound;
  }
}
