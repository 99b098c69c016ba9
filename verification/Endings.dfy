/** When a session ends: the events at which it closes, told from its state, the bytes at hand and what the system
    answers. */
module Endings {
  import opened Bytes
  import opened Io
  import opened Buffer
  import opened Text
  import opened Codec
  import opened Relay
  import opened Session
  import opened SessionSafety
  import opened Refusals
  import Connect
  import Stm

  /** What is in the read buffer once a read event's bytes are there. */
  function AtHand(c: Conn, e: Session.Event): seq<byte> {
    if e.a.recv.Data? then c.rb.data + e.a.recv.bs else c.rb.data
  }

  /** The peer has closed, or cannot be read. The login and the request also take EAGAIN for a failure. A relay that has
      no room does not ask. */
  predicate CannotRead(c: Conn, e: Session.Event) {
    if c.state == STATE_FORWARDING then HasRoom(c.r, e.side) && (e.a.recv.Eof? || e.a.recv.RecvFail?)
    else e.a.recv.Eof? || e.a.recv.RecvFail?
         || (e.a.recv.RecvAgain? && (c.state == STATE_AUTH || c.state == STATE_REQUEST))
  }

  /** The bytes at hand are no greeting: a wrong version, or no methods. */
  predicate NoGreeting(bs: seq<byte>) {
    |bs| >= 2 && (bs[0] != SOCKS5_VERSION || bs[1] == 0)
  }

  /** They are no request, or one that cannot be begun: the resolver's thread does not start, or the selector does not
      take the socket of a literal address. */
  ghost predicate NoRequest(bs: seq<byte>, a: Answers) {
    || (|bs| >= 4 && bs[0] != SOCKS5_VERSION)
    || (Name(bs) && !a.threadStarted)
    || (Literal(bs) && Connect.Stumbles(a.attempt, 0, 1))
  }

  /** The reply that refuses a request is out, or sending one meets EAGAIN, which is taken for a failure. */
  predicate ReplyEnds(c: Conn, send: Send) {
    send.SendAgain? || (send.Sent? && send.n >= |c.Pending()| && !c.hasOrigin)
  }

  /** The events at which a session closes. */
  ghost predicate Ends(c: Conn, e: Session.Event) {
    || (e.a.send == SendFail(false) && Sends(c, e))
    || match e.kind
       case Read =>
         || CannotRead(c, e)
         || (e.a.recv.Data? && c.state == STATE_HELLO && NoGreeting(AtHand(c, e)))
         || (e.a.recv.Data? && c.state == STATE_REQUEST && NoRequest(AtHand(c, e), e.a))
       case Write =>
         || (c.state == STATE_REQUEST && ReplyEnds(c, e.a.send))
         || (c.state == STATE_CONNECT && e.a.soError && Connect.Stumbles(e.a.attempt, c.cursor + 1, c.addrs))
       case Block =>
         e.a.resolved.Some? && e.a.resolved.value > 0 && Connect.Stumbles(e.a.attempt, 0, e.a.resolved.value)
  }

  predicate Final(s: nat) {
    s == STATE_ERROR || s == STATE_DONE
  }

  // ---------- Handler by handler ----------

  lemma HelloWriteEnds(c: Conn, send: Send, next: nat, current: nat)
    requires !Final(next) && !Final(current)
    ensures Final(HelloWriteAux(c, send, next, current).1) <==> c.Pending() != [] && send == SendFail(false)
  {
  }

  lemma AuthWriteEnds(c: Conn, send: Send, status: byte, current: nat)
    requires !Final(current)
    ensures Final(AuthWriteAux(c, send, status, current).1) <==> c.Pending() != [] && send == SendFail(false)
  {
  }

  lemma HelloReplyPends(c: Conn, chosen: byte)
    requires c.r.client.Intact() && c.Pending() == [] && c.r.client.buf.limit >= 262
    ensures HelloReply(c, chosen).Pending() != [] && LoginReply(c, chosen).Pending() != []
  {
    PutComplete(c, [SOCKS5_VERSION, chosen]);
    PutComplete(c, [AUTH_VERSION, chosen]);
  }

  lemma HelloReadEnds(c: Conn, a: Answers)
    requires c.r.client.Intact() && c.Pending() == [] && c.r.client.buf.limit >= 262
    ensures Final(HelloRead(c, a).1) <==>
      || a.recv.Eof? || a.recv.RecvFail?
      || (a.recv.Data? && NoGreeting(c.rb.data + a.recv.bs))
      || (a.recv.Data? && AnswersGreeting(c.rb.data + a.recv.bs) && a.send == SendFail(false))
  {
    hide HelloWriteAux, HelloReply;
    if a.recv.Data? {
      var v := c.rb.Push(a.recv.bs);
      var v2 := v.Rest().Rest();
      assert |v.data| >= 2 ==> v.Rest().NextByte() == v.data[1];
      var c1 := c.(rb := v2.Pop(Min(v.Rest().NextByte(), |v2.data|)));
      HelloReplyPends(c1, AUTH_METHOD);
      HelloReplyPends(c1, NO_AUTH_METHOD);
      HelloWriteEnds(HelloReply(c1, AUTH_METHOD), a.send, STATE_AUTH, STATE_HELLO_TO_AUTH);
      HelloWriteEnds(HelloReply(c1, NO_AUTH_METHOD), a.send, STATE_REQUEST, STATE_HELLO);
    }
  }

  lemma AuthReadEnds(c: Conn, a: Answers)
    requires c.r.client.Intact() && c.Pending() == [] && c.r.client.buf.limit >= 262
    ensures Final(AuthRead(c, a).1) <==>
      || !a.recv.Data?
      || (c.rb.data + a.recv.bs != [] && (c.rb.data + a.recv.bs)[0] == AUTH_VERSION && a.send == SendFail(false))
  {
    hide AuthWriteAux, LoginReply, FieldOf, FieldText, AfterField;
    if a.recv.Data? {
      var v := c.rb.Push(a.recv.bs);
      var v2 := AfterField(v.Rest());
      var status := LoginStatus(a.users, FieldText(FieldOf(v.Rest())), FieldText(FieldOf(v2)));
      var c1 := c.(rb := AfterField(v2));
      HelloReplyPends(c1, status);
      AuthWriteEnds(LoginReply(c1, status), a.send, 1, STATE_AUTH_FAILED);
      AuthWriteEnds(LoginReply(c1, status), a.send, 0, STATE_AUTH);
    }
  }

  lemma ConnectWriteEnds(c: Conn, side: Side, a: Answers)
    requires Client in c.fds && c.cursor <= c.addrs && (c.hasOrigin ==> c.cursor < c.addrs)
    ensures Final(Session.ConnectWrite(c, side, a).1) <==>
      if c.hasOrigin then a.soError && Connect.Stumbles(a.attempt, c.cursor + 1, c.addrs)
      else Connect.Stumbles(a.attempt, c.cursor, c.addrs)
  {
    hide Connect.Advance, Connect.Stumbles, Reply;
    Connect.BrokenIffStumbles(Connect.Search(c.addrs, c.cursor, c.hasOrigin), a.soError, a.attempt);
  }

  lemma BeginSearchEnds(c: Conn, addrs: nat, a: Answers)
    requires Client in c.fds && !c.hasOrigin
    ensures Final(BeginSearch(c, addrs, a).1) <==> Connect.Stumbles(a.attempt, 0, addrs)
  {
    hide Session.ConnectWrite, Connect.Stumbles;
    ConnectWriteEnds(Wait(c.(addrs := addrs, cursor := 0), Client, OP_NOOP), Client, a);
  }

  lemma ResolutionEnds(c: Conn, a: Answers)
    requires Client in c.fds && !c.hasOrigin
    ensures Final(ResolutionBlock(c, a).1) <==>
      a.resolved.Some? && a.resolved.value > 0 && Connect.Stumbles(a.attempt, 0, a.resolved.value)
  {
    hide BeginSearch, PutReply, Connect.Stumbles;
    if a.resolved.Some? {
      BeginSearchEnds(c, a.resolved.value, a);
    }
  }

  lemma RequestReadEnds(c: Conn, a: Answers)
    requires Client in c.fds && !c.hasOrigin && c.inet6.RoundTrips()
    ensures Final(RequestRead(c, a).1) <==> !a.recv.Data? || NoRequest(c.rb.data + a.recv.bs, a)
  {
    hide Connect.Stumbles, BeginSearch, PutReply, ParseAddress, StoredHost, StoredPort, InetPton4, CStr, AddressOf;
    if a.recv.Data? {
      var v := c.rb.Push(a.recv.bs);
      CommandBranch(c, a);
      TypeBranch(c, a);
      IncompleteBranch(c, a);
      if Name(v.data) {
        NameBranch(c, a);
      } else if Literal(v.data) {
        var b := LiteralBranch(c, a);
        BeginSearchEnds(b, 1, a);
      } else if |v.data| >= 4 && v.data[0] != SOCKS5_VERSION {
        assert v.NextByte() == v.data[0];
      }
    }
  }

  lemma RequestWriteEnds(c: Conn, a: Answers)
    requires Client in c.fds && (c.hasOrigin ==> Origin in c.fds) && c.Pending() != []
    ensures Final(RequestWrite(c, a).1) <==> a.send == SendFail(false) || ReplyEnds(c, a.send)
  {
  }

  lemma RelayReadEnds(c: Conn, side: Side, a: Answers)
    requires CanRecv(a.recv, c.r.Of(side.Other()).buf.Room())
    ensures Final(RelayRead(c, side, a).1) <==>
      || (HasRoom(c.r, side) && (a.recv.Eof? || a.recv.RecvFail?))
      || (a.recv.Data? && a.send == SendFail(false))
  {
  }

  lemma RelayWriteEnds(c: Conn, side: Side, a: Answers)
    ensures Final(RelayWrite(c, side, a).1) <==> c.r.Of(side).buf.data != [] && a.send == SendFail(false)
  {
  }

  // ---------- The theorem ----------

  lemma IdleFacts(c: Conn)
    requires Inv(c)
    ensures c.r.client.Intact() && c.r.client.buf.limit >= 262 && Client in c.fds && c.inet6.RoundTrips()
    ensures c.hasOrigin ==> Origin in c.fds
    ensures c.state == STATE_RESOLVE || (c.state == STATE_REQUEST && Listening(c)) ==> !c.hasOrigin
  {
    hide Armed, WellOrdered;
  }

  lemma ReadEnds(c: Conn, e: Session.Event)
    requires Inv(c) && Session.Possible(c, e) && Session.Enabled(c, e) && e.kind.Read? && c.state != STATE_RESOLVE
    requires c.state < |SOCKS5_STATES| && Stm.Handles(SOCKS5_STATES[c.state], e.kind)
    ensures Final(Handler(c, e).1) <==> Ends(c, e)
  {
    hide Inv, HelloRead, AuthRead, RequestRead, RelayRead, AnswersGreeting, NoGreeting, NoRequest, Session.Enabled;
    ReadEnabled(c, e);
    IdleFacts(c);
    if c.state == STATE_FORWARDING {
      RelayReadEnds(c, e.side, e.a);
    } else if c.state == STATE_HELLO {
      HelloReadEnds(c, e.a);
    } else if c.state == STATE_AUTH {
      AuthReadEnds(c, e.a);
    } else {
      RequestReadEnds(c, e.a);
    }
  }

  lemma WriteEnds(c: Conn, e: Session.Event)
    requires Inv(c) && Session.Possible(c, e) && Session.Enabled(c, e) && e.kind.Write?
    requires c.state < |SOCKS5_STATES| && Stm.Handles(SOCKS5_STATES[c.state], e.kind)
    ensures Final(Handler(c, e).1) <==> Ends(c, e)
  {
    hide Inv, HelloWriteAux, AuthWriteAux, RequestWrite, RelayWrite, Session.ConnectWrite, Connect.Stumbles,
      ReplyEnds, Session.Enabled;
    WriteEnabled(c, e);
    IdleFacts(c);
    if c.state == STATE_FORWARDING {
      RelayWriteEnds(c, e.side, e.a);
    } else if c.state == STATE_CONNECT {
      ConnectWriteEnds(c, e.side, e.a);
    } else if c.state == STATE_REQUEST {
      RequestWriteEnds(c, e.a);
    } else {
      HelloWriteEnds(c, e.a.send, STATE_REQUEST, STATE_HELLO);
      HelloWriteEnds(c, e.a.send, STATE_AUTH, STATE_HELLO_TO_AUTH);
      AuthWriteEnds(c, e.a.send, 0, STATE_AUTH);
      AuthWriteEnds(c, e.a.send, 1, STATE_AUTH_FAILED);
    }
  }

  lemma BlockEnds(c: Conn, e: Session.Event)
    requires Inv(c) && Session.Possible(c, e) && Session.Enabled(c, e) && e.kind.Block?
    requires c.state < |SOCKS5_STATES| && Stm.Handles(SOCKS5_STATES[c.state], e.kind)
    ensures Final(Handler(c, e).1) <==> Ends(c, e)
  {
    hide Inv, ResolutionBlock, Connect.Stumbles;
    IdleFacts(c);
    ResolutionEnds(c, e.a);
  }

  /** The companion of the exact condition for the end of the process: one event closes the session exactly if it is one
      of these, and leaves it alive in every other case that is not fatal. */
  lemma {:induction false} ClosesExactlyOnEndings(c: Conn, e: Session.Event)
    requires Inv(c) && c.state < |SOCKS5_STATES| && Session.Possible(c, e) && Session.Enabled(c, e)
    ensures Session.Step(c, e).Closed? <==> Ends(c, e) && !Fatal(c, e)
    ensures Session.Step(c, e).Live? <==> !Ends(c, e) && !Fatal(c, e)
  {
    hide Inv, Handler, Ends, Session.Possible, Session.Enabled;
    StepKeepsInv(c, e);
    if Stm.Handles(SOCKS5_STATES[c.state], e.kind) && !(c.state == STATE_RESOLVE && e.kind.Read?) {
      match e.kind {
        case Read => ReadEnds(c, e);
        case Write => WriteEnds(c, e);
        case Block => BlockEnds(c, e);
      }
      HandlerAnswers(c, e);
    }
  }
}
