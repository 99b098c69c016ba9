/** Runs, from accepting a connection on, that show what can happen. */
module SessionRuns {
  import opened Bytes
  import opened Io
  import opened Buffer
  import opened Text
  import opened Codec
  import opened Relay
  import opened Session
  import opened SessionSafety
  import Connect
  import Credentials
  import Stm
  import opened SessionTheorems
  import opened LoginTheorems
  import opened RequestTheorems
  import opened SearchTheorems
  import opened Endings
  import opened Progress

  // ---------- Single steps ----------

  /** One event of a run. */
  ghost predicate Moves(c: Conn, e: Session.Event, c': Conn) {
    c.state < |SOCKS5_STATES| && Session.Possible(c, e) && Session.Enabled(c, e) && Session.Step(c, e) == Live(c')
  }

  lemma {:induction false} RunSnoc(c: Conn, events: seq<Session.Event>, mid: Conn, e: Session.Event, end: Result)
    requires Session.Run(c, events, Live(mid))
    requires mid.state < |SOCKS5_STATES| && Session.Possible(mid, e) && Session.Enabled(mid, e)
        && Session.Step(mid, e) == end
    ensures Session.Run(c, events + [e], end)
    decreases |events|
  {
    hide Session.Step, Session.Possible, Session.Enabled;
    if events == [] {
      assert [] + [e] == [e] && [e][1..] == [];
      assert end.Live? ==> Session.Run(end.c, [], end);
    } else {
      assert (events + [e])[1..] == events[1..] + [e];
      RunSnoc(Session.Step(c, events[0]).c, events[1..], mid, e, end);
    }
  }

  /** A greeting with one method, whose reply is sent at once. */
  lemma OneMethodOffered(c: Conn, offer: byte, a: Answers)
    requires c.rb == Empty(BUFFER_SIZE) && a.recv == Data([5, 1, offer]) && a.send == Sent(2) && Client in c.fds
    requires c.r.client.Intact() && c.Pending() == [] && c.r.client.buf.limit >= 2
    ensures var (c', s) := HelloRead(c, a);
      && s == (if offer == AUTH_METHOD then STATE_AUTH else STATE_REQUEST)
      && c'.rb == Empty(BUFFER_SIZE) && c'.host == c.host && c'.port == c.port && Listening(c')
  {
    hide HelloReply, HelloWriteAux, Listening;
    var v := c.rb.Push([5, 1, offer]);
    OneMethodBytes(v, offer);
    var c1 := c.(rb := Empty(BUFFER_SIZE));
    MethodReplySent(c1, AUTH_METHOD, a.send, STATE_AUTH, STATE_HELLO_TO_AUTH);
    MethodReplySent(c1, NO_AUTH_METHOD, a.send, STATE_REQUEST, STATE_HELLO);
  }

  lemma OneMethodBytes(v: Buf, offer: byte)
    requires v == Buf(0, [5, 1, offer], BUFFER_SIZE)
    ensures v.NextByte() == 5 && v.Rest().NextByte() == 1
    ensures var v2 := v.Rest().Rest();
      v2.data == [offer] && v2.data[..Min(1, |v2.data|)] == [offer] && v2.Pop(1) == Empty(BUFFER_SIZE)
  {
    assert v.data == [SOCKS5_VERSION, 1] + [offer] + [];
    GreetingBytes(v, 1, [offer], []);
  }

  lemma MethodReplySent(c: Conn, chosen: byte, send: Send, next: nat, current: nat)
    requires send == Sent(2) && Client in c.fds
    requires c.r.client.Intact() && c.Pending() == [] && c.r.client.buf.limit >= 2
    ensures var (c', s) := HelloWriteAux(HelloReply(c, chosen), send, next, current);
      s == next && c'.rb == c.rb && c'.host == c.host && c'.port == c.port && Listening(c')
  {
    PutComplete(c, [SOCKS5_VERSION, chosen]);
    assert HelloReply(c, chosen).Pending() == [SOCKS5_VERSION, chosen];
  }

  lemma GreetingArrives(c: Conn, offer: byte, e: Session.Event)
    requires Inv(c) && c == AcceptConnection(BUFFER_SIZE, c.inet6, c.host, c.port, c.atyp)
    requires e.kind == Stm.Read && e.side == Client && e.a.recv == Data([5, 1, offer])
    ensures c.state == STATE_HELLO && Session.Possible(c, e) && Session.Enabled(c, e)
    ensures c.rb == Empty(BUFFER_SIZE) && Client in c.fds
    ensures c.r.client.Intact() && c.Pending() == [] && c.r.client.buf.limit >= 2
  {
  }

  /** A new connection that offers only method 0 waits for its request. */
  lemma Greeted(c: Conn, e: Session.Event) returns (c': Conn)
    requires Inv(c) && c == AcceptConnection(BUFFER_SIZE, c.inet6, c.host, c.port, c.atyp)
    requires e.kind == Stm.Read && e.side == Client && e.a.recv == Data([5, 1, 0]) && e.a.send == Sent(2)
    ensures Moves(c, e, c') && Inv(c') && c'.state == STATE_REQUEST && Listening(c')
    ensures c'.rb == Empty(BUFFER_SIZE) && c'.host == c.host && c'.port == c.port
  {
    hide Inv, HelloRead, AcceptConnection, Session.Possible, Session.Enabled;
    GreetingArrives(c, 0, e);
    OneMethodOffered(c, 0, e.a);
    StepKeepsInv(c, e);
    c' := Session.Step(c, e).c;
  }

  /** One that offers method 2 is asked to log in. */
  lemma AskedToLogIn(c: Conn, e: Session.Event) returns (c': Conn)
    requires Inv(c) && c == AcceptConnection(BUFFER_SIZE, c.inet6, c.host, c.port, c.atyp)
    requires e.kind == Stm.Read && e.side == Client && e.a.recv == Data([5, 1, 2]) && e.a.send == Sent(2)
    ensures Moves(c, e, c') && Inv(c') && c'.state == STATE_AUTH && Listening(c') && c'.rb == Empty(BUFFER_SIZE)
  {
    hide Inv, HelloRead, AcceptConnection, Session.Possible, Session.Enabled;
    GreetingArrives(c, 2, e);
    OneMethodOffered(c, 2, e.a);
    StepKeepsInv(c, e);
    c' := Session.Step(c, e).c;
  }

  // ---------- An accepted login ----------

  /** A login against a store that knows it is accepted, and its reply is sent at once. */
  lemma LoginAccepted(c: Conn, e: Session.Event) returns (c': Conn)
    requires Inv(c) && c.state == STATE_AUTH && Listening(c) && c.rb == Empty(BUFFER_SIZE)
    requires e.kind == Stm.Read && e.side == Client && e.a.users == map[[97] := [98]] && e.a.send == Sent(2)
    requires e.a.recv == Data([1, 1, 97, 1, 98])
    ensures Moves(c, e, c') && Inv(c') && c'.log.login == Some(0) && c'.state == STATE_REQUEST && Listening(c')
  {
    hide Inv, Listening, AuthRead, Session.Possible, Session.Enabled;
    LoginArrives(c, e);
    LoginDecided(c, [97], [98], [], e.a);
    assert NulFree([97]) && NulFree([98]);
    FieldTextIs([97]);
    FieldTextIs([98]);
    StepKeepsInv(c, e);
    AcceptanceSent(c, e.a);
    c' := Session.Step(c, e).c;
    LobbyLeadsOn(c, e);
  }

  lemma AcceptanceSent(c: Conn, a: Answers)
    requires a.recv.Data? && c.rb.data + a.recv.bs != [] && (c.rb.data + a.recv.bs)[0] == AUTH_VERSION
    requires AuthRead(c, a).0.log.login == Some(0)
    requires a.send == Sent(2) && c.r.client.Intact() && c.Pending() == [] && c.r.client.buf.limit >= 2
    ensures AuthRead(c, a).1 == STATE_REQUEST
  {
    hide AfterField, FieldOf, FieldText;
    var v := c.rb.Push(a.recv.bs);
    var c1 := c.(rb := AfterField(AfterField(v.Rest())));
    PutComplete(c1, [AUTH_VERSION, 0]);
    assert LoginReply(c1, 0).Pending() == [AUTH_VERSION, 0];
  }

  /** A run to an accepted login, after which the session waits for the client's request. */
  lemma {:induction false} AcceptedRun(c: Conn) returns (events: seq<Session.Event>, end: Conn)
    requires c.inet6.RoundTrips() && c == AcceptConnection(BUFFER_SIZE, c.inet6, c.host, c.port, c.atyp)
    ensures Session.Run(c, events, Live(end)) && |events| == 2 && Inv(end)
    ensures end.log.login == Some(0) && end.state == STATE_REQUEST && Listening(end)
  {
    hide AcceptConnection, Inv, Session.Step, Session.Possible, Session.Enabled, Session.Run;
    var users: Credentials.Users := map[[97] := [98]];
    var idle := (_: nat) => Connect.Refused;
    var e1 := Session.Event(Stm.Read, Client, Answers(Data([5, 1, 2]), Sent(2), users, true, None, false, idle));
    var e2 := Session.Event(Stm.Read, Client,
                            Answers(Data([1, 1, 97, 1, 98]), Sent(2), users, true, None, false, idle));
    StartInv(BUFFER_SIZE, c.inet6, c.host, c.port, c.atyp);
    var c1 := AskedToLogIn(c, e1);
    end := LoginAccepted(c1, e2);
    events := TwoEvents(c, e1, c1, e2, Live(end));
  }

  // ---------- A refused login ----------

  /** A login against a store that knows nobody is refused, and its reply is sent at once. */
  lemma LoginRefused(c: Conn, e: Session.Event) returns (c': Conn)
    requires Inv(c) && c.state == STATE_AUTH && Listening(c) && c.rb == Empty(BUFFER_SIZE)
    requires e.kind == Stm.Read && e.side == Client && e.a.users == map[] && e.a.send == Sent(2)
    requires e.a.recv == Data([1, 1, 97, 1, 98])
    ensures Moves(c, e, c') && Inv(c') && c'.log.login == Some(1) && c'.Pending() == []
  {
    hide Inv, Listening, AuthRead, Session.Possible, Session.Enabled;
    LoginArrives(c, e);
    LoginDecided(c, [97], [98], [], e.a);
    StepKeepsInv(c, e);
    RefusalSent(c, e.a);
    c' := Session.Step(c, e).c;
  }

  lemma LoginArrives(c: Conn, e: Session.Event)
    requires Inv(c) && c.state == STATE_AUTH && Listening(c) && c.rb == Empty(BUFFER_SIZE)
    requires e.kind == Stm.Read && e.side == Client && e.a.recv == Data([1, 1, 97, 1, 98])
    ensures Session.Possible(c, e) && Session.Enabled(c, e) && CanRecv(e.a.recv, c.rb.Room())
    ensures c.rb.data + e.a.recv.bs == [AUTH_VERSION] + ([|[97]|] + [97] + ([|[98]|] + [98] + []))
    ensures c.r.client.Intact() && c.Pending() == [] && c.r.client.buf.limit >= 2
  {
    assert Client in c.fds;
  }

  lemma RefusalSent(c: Conn, a: Answers)
    requires a.recv.Data? && c.rb.data + a.recv.bs != [] && (c.rb.data + a.recv.bs)[0] == AUTH_VERSION
    requires a.users == map[] && a.send == Sent(2) && c.r.client.Intact() && c.Pending() == []
        && c.r.client.buf.limit >= 2
    ensures AuthRead(c, a).1 == STATE_HELLO_TO_AUTH && AuthRead(c, a).0.Pending() == []
  {
    hide AfterField, FieldOf, FieldText;
    var v := c.rb.Push(a.recv.bs);
    var c1 := c.(rb := AfterField(AfterField(v.Rest())));
    PutComplete(c1, [AUTH_VERSION, 1]);
    assert LoginReply(c1, 1).Pending() == [AUTH_VERSION, 1];
  }

  /** A run to the refused login that never ends: method 2 is offered, and nobody is known. */
  lemma {:induction false} RefusedRun(c: Conn) returns (events: seq<Session.Event>, end: Conn)
    requires c.inet6.RoundTrips() && c == AcceptConnection(BUFFER_SIZE, c.inet6, c.host, c.port, c.atyp)
    ensures Session.Run(c, events, Live(end)) && |events| == 2 && Inv(end)
    ensures end.log.login == Some(1) && end.Pending() == []
    ensures forall more, s :: Session.Run(end, more, s) ==> s == Live(end)
  {
    hide AcceptConnection, Inv, Session.Step, Session.Possible, Session.Enabled, Session.Run;
    var idle := (_: nat) => Connect.Refused;
    var e1 := Session.Event(Stm.Read, Client, Answers(Data([5, 1, 2]), Sent(2), map[], true, None, false, idle));
    var e2 := Session.Event(Stm.Read, Client,
                            Answers(Data([1, 1, 97, 1, 98]), Sent(2), map[], true, None, false, idle));
    StartInv(BUFFER_SIZE, c.inet6, c.host, c.port, c.atyp);
    var c1 := AskedToLogIn(c, e1);
    end := LoginRefused(c1, e2);
    events := TwoEvents(c, e1, c1, e2, Live(end));
    GateFacts(end);
    RefusedState(end);
    forall more, s | Session.Run(end, more, s) ensures s == Live(end) {
      RefusedLoginNeverEnds(end, more, s);
    }
  }

  /** Once its reply is out, a refused login is in HELLO_TO_AUTH. */
  lemma RefusedState(c: Conn)
    requires Inv(c) && c.log.login == Some(1) && c.Pending() == []
    ensures c.state == STATE_HELLO_TO_AUTH
  {
    hide Sound, Armed;
  }

  lemma TwoEvents(c: Conn, e1: Session.Event, c1: Conn, e2: Session.Event, end: Result)
    returns (events: seq<Session.Event>)
    requires Moves(c, e1, c1)
    requires c1.state < |SOCKS5_STATES| && Session.Possible(c1, e2) && Session.Enabled(c1, e2)
        && Session.Step(c1, e2) == end
    ensures events == [e1, e2] && Session.Run(c, events, end)
  {
    hide Session.Step, Session.Possible, Session.Enabled;
    assert Session.Run(c, [], Live(c));
    RunSnoc(c, [], c, e1, Live(c1));
    assert [] + [e1] == [e1] && [e1] + [e2] == [e1, e2];
    RunSnoc(c, [e1], c1, e2, end);
    events := [e1, e2];
  }

  // ---------- Events that take the process down ----------

  /** A run that aborts: the client offers method 2 and then begins its login with the wrong version. */
  lemma {:induction false} WrongVersionRun(c: Conn, users: Credentials.Users) returns (events: seq<Session.Event>)
    requires c.inet6.RoundTrips() && c == AcceptConnection(BUFFER_SIZE, c.inet6, c.host, c.port, c.atyp)
    ensures Session.Run(c, events, Aborted) && |events| == 2
    ensures events[1].a.recv == Data([SOCKS5_VERSION])
  {
    hide AcceptConnection, Inv, Session.Step, Session.Possible, Session.Enabled, Session.Run;
    var idle := (_: nat) => Connect.Refused;
    var e1 := Session.Event(Stm.Read, Client, Answers(Data([5, 1, 2]), Sent(2), users, true, None, false, idle));
    var e2 := Session.Event(Stm.Read, Client, Answers(Data([5]), Sent(2), users, true, None, false, idle));
    StartInv(BUFFER_SIZE, c.inet6, c.host, c.port, c.atyp);
    var c1 := AskedToLogIn(c, e1);
    WrongVersion(c1, e2);
    events := TwoEvents(c, e1, c1, e2, Aborted);
  }

  lemma WrongVersion(c: Conn, e: Session.Event)
    requires Inv(c) && c.state == STATE_AUTH && Listening(c) && c.rb == Empty(BUFFER_SIZE)
    requires e.kind == Stm.Read && e.side == Client && e.a.recv == Data([5])
    ensures Session.Possible(c, e) && Session.Enabled(c, e) && Session.Step(c, e) == Aborted
  {
    assert Client in c.fds;
    StepKeepsInv(c, e);
  }

  /** A run that SIGPIPE ends: the client takes one byte of the method reply and is gone when the other is sent. */
  lemma {:induction false} BrokenPipeRun(c: Conn, users: Credentials.Users) returns (events: seq<Session.Event>)
    requires c.inet6.RoundTrips() && c == AcceptConnection(BUFFER_SIZE, c.inet6, c.host, c.port, c.atyp)
    ensures Session.Run(c, events, Aborted) && |events| == 2
    ensures events[1].kind == Stm.Write && events[1].a.send == SendFail(true)
  {
    hide AcceptConnection, Inv, Session.Step, Session.Possible, Session.Enabled, Session.Run;
    var idle := (_: nat) => Connect.Refused;
    var e1 := Session.Event(Stm.Read, Client, Answers(Data([5, 1, 0]), Sent(1), users, true, None, false, idle));
    var e2 := Session.Event(Stm.Write, Client, Answers(Eof, SendFail(true), users, true, None, false, idle));
    StartInv(BUFFER_SIZE, c.inet6, c.host, c.port, c.atyp);
    var c1 := HalfGreeted(c, e1);
    SendToNobody(c1, e2);
    events := TwoEvents(c, e1, c1, e2, Aborted);
  }

  /** A new connection whose method reply is only half taken. */
  lemma HalfGreeted(c: Conn, e: Session.Event) returns (c': Conn)
    requires Inv(c) && c == AcceptConnection(BUFFER_SIZE, c.inet6, c.host, c.port, c.atyp)
    requires e.kind == Stm.Read && e.side == Client && e.a.recv == Data([5, 1, 0]) && e.a.send == Sent(1)
    ensures Moves(c, e, c') && Inv(c') && c'.state == STATE_HELLO && Sending(c')
  {
    hide Inv, HelloRead, AcceptConnection, Session.Possible, Session.Enabled;
    GreetingArrives(c, 0, e);
    HalfReply(c, e.a);
    StepKeepsInv(c, e);
    c' := Session.Step(c, e).c;
  }

  lemma HalfReply(c: Conn, a: Answers)
    requires c.rb == Empty(BUFFER_SIZE) && a.recv == Data([5, 1, 0]) && a.send == Sent(1) && Client in c.fds
    requires c.r.client.Intact() && c.Pending() == [] && c.r.client.buf.limit >= 2
    ensures var (c', s) := HelloRead(c, a); s == STATE_HELLO && Sending(c')
  {
    hide HelloReply, HelloWriteAux, Sending;
    var v := c.rb.Push([5, 1, 0]);
    OneMethodBytes(v, 0);
    HalfSent(c.(rb := Empty(BUFFER_SIZE)), a.send);
  }

  lemma HalfSent(c: Conn, send: Send)
    requires send == Sent(1) && Client in c.fds
    requires c.r.client.Intact() && c.Pending() == [] && c.r.client.buf.limit >= 2
    ensures var (c', s) := HelloWriteAux(HelloReply(c, NO_AUTH_METHOD), send, STATE_REQUEST, STATE_HELLO);
      s == STATE_HELLO && Sending(c')
  {
    PutComplete(c, [SOCKS5_VERSION, NO_AUTH_METHOD]);
    assert HelloReply(c, NO_AUTH_METHOD).Pending() == [SOCKS5_VERSION, NO_AUTH_METHOD];
  }

  lemma SendToNobody(c: Conn, e: Session.Event)
    requires Inv(c) && c.state == STATE_HELLO && Sending(c)
    requires e.kind == Stm.Write && e.side == Client && e.a.send == SendFail(true)
    ensures Session.Possible(c, e) && Session.Enabled(c, e) && Session.Step(c, e) == Aborted
  {
    assert Client in c.fds;
    StepKeepsInv(c, e);
  }

  /** A run that takes the process down: the client asks for a name and then closes while it is being resolved. */
  lemma {:induction false} AbortedRun(c: Conn, users: Credentials.Users) returns (events: seq<Session.Event>)
    requires c.inet6.RoundTrips() && c == AcceptConnection(BUFFER_SIZE, c.inet6, c.host, c.port, c.atyp)
    requires |c.host| == HOST_MAX_LEN && |c.port| == PORT_MAX_LEN
    ensures Session.Run(c, events, Aborted) && |events| == 3
  {
    hide AcceptConnection, Inv, Session.Step, Session.Possible, Session.Enabled, Session.Run;
    var idle := (_: nat) => Connect.Refused;
    var e1 := Session.Event(Stm.Read, Client, Answers(Data([5, 1, 0]), Sent(2), users, true, None, false, idle));
    var e2 := Session.Event(Stm.Read, Client,
                            Answers(Data([5, 1, 0, 3, 1, 97, 0, 80]), Sent(0), users, true, None, false, idle));
    var e3 := Session.Event(Stm.Read, Client, Answers(Eof, Sent(0), users, true, None, false, idle));
    StartInv(BUFFER_SIZE, c.inet6, c.host, c.port, c.atyp);
    var c1 := Greeted(c, e1);
    var c2 := NameRequested(c1, e2);
    ReadWhileResolving(c2, e3);
    var first := TwoEvents(c, e1, c1, e2, Live(c2));
    RunSnoc(c, first, c2, e3, Aborted);
    events := first + [e3];
  }

  lemma NameRequested(c: Conn, e: Session.Event) returns (c': Conn)
    requires Inv(c) && c.state == STATE_REQUEST && Listening(c) && c.rb == Empty(BUFFER_SIZE)
    requires |c.host| == HOST_MAX_LEN && |c.port| == PORT_MAX_LEN
    requires e.kind == Stm.Read && e.side == Client && e.a.threadStarted && e.a.recv == Data([5, 1, 0, 3, 1, 97, 0, 80])
    ensures Moves(c, e, c') && Inv(c') && c'.state == STATE_RESOLVE
  {
    hide Inv, Listening, ArrivesWhole, RequestRead, AimOf, Session.Possible, Session.Enabled;
    var q := NameArrives(c, e);
    RequestReadWhole(c, q, [], e.a);
    StepKeepsInv(c, e);
    c' := Session.Step(c, e).c;
  }

  lemma NameArrives(c: Conn, e: Session.Event) returns (q: Request)
    requires Inv(c) && c.state == STATE_REQUEST && Listening(c) && c.rb == Empty(BUFFER_SIZE)
    requires |c.host| == HOST_MAX_LEN && |c.port| == PORT_MAX_LEN
    requires e.kind == Stm.Read && e.side == Client && e.a.recv == Data([5, 1, 0, 3, 1, 97, 0, 80])
    ensures Session.Possible(c, e) && Session.Enabled(c, e)
    ensures q.atyp == DOMAIN_NAME_ATYP && ArrivesWhole(c, q, [], e.a)
  {
    q := Request(0, DOMAIN_NAME_ATYP, [1, 97], 0, 80);
    assert c.rb.data + e.a.recv.bs == q.Wire() + [];
    assert Client in c.fds;
  }

  lemma ReadWhileResolving(c: Conn, e: Session.Event)
    requires Inv(c) && c.state == STATE_RESOLVE && e.kind == Stm.Read && e.side == Client && e.a.recv.Eof?
    ensures Session.Possible(c, e) && Session.Enabled(c, e) && Session.Step(c, e) == Aborted
  {
    StepKeepsInv(c, e);
  }

  // ---------- Requests for one literal address ----------

  const LITERAL: Request := Request(0, IPV4_ATYP, [10, 0, 0, 1], 0, 80)

  lemma LiteralArrives(c: Conn, tail: seq<byte>, e: Session.Event)
    requires Inv(c) && c.state == STATE_REQUEST && Listening(c) && c.rb == Empty(BUFFER_SIZE)
    requires |c.host| == HOST_MAX_LEN && |c.port| == PORT_MAX_LEN
    requires e.kind == Stm.Read && e.side == Client && e.a.recv == Data(LITERAL.Wire() + tail) && |tail| <= 1
    ensures Session.Possible(c, e) && Session.Enabled(c, e) && Requested(c, LITERAL, tail, e)
  {
    assert c.rb.data + e.a.recv.bs == LITERAL.Wire() + tail;
    assert Client in c.fds;
  }

  lemma StartedAtOnce(c: Conn, a: Answers)
    requires !c.hasOrigin && a.attempt(0) == Connect.Started
    ensures var (c', s) := BeginSearch(c, 1, a); s == STATE_CONNECT && c'.addrs == 1 && c'.cursor == 0
  {
    assert Connect.Advance(Connect.Search(1, 0, false), a.soError, a.attempt)
        == (Connect.Search(1, 0, true), Connect.Waiting);
  }

  lemma ConnectionStarts(c: Conn, tail: seq<byte>, e: Session.Event) returns (c': Conn)
    requires Requested(c, LITERAL, tail, e) && Session.Possible(c, e) && Session.Enabled(c, e)
    requires e.a.attempt(0) == Connect.Started
    ensures Moves(c, e, c') && Inv(c') && c'.state == STATE_CONNECT && c'.addrs == 1 && c'.cursor == 0
  {
    hide RequestRead, BeginSearch, AimOf, Inv, ArrivesWhole, Listening, Session.Possible, Session.Enabled;
    IdleFacts(c);
    RequestReadWhole(c, LITERAL, tail, e.a);
    StartedAtOnce(Stored(c, AimOf(c, LITERAL, tail, e.a)), e.a);
    StepKeepsInv(c, e);
    c' := Session.Step(c, e).c;
  }

  /** A run that strands a session: no authentication, a request for one address whose connection starts and
      then fails. */
  lemma {:induction false} StrandedRun(c: Conn, users: Credentials.Users)
    returns (events: seq<Session.Event>, end: Conn)
    requires c.inet6.RoundTrips() && c == AcceptConnection(BUFFER_SIZE, c.inet6, c.host, c.port, c.atyp)
    requires |c.host| == HOST_MAX_LEN && |c.port| == PORT_MAX_LEN
    ensures Session.Run(c, events, Live(end)) && |events| == 3 && end.log.stranded
  {
    hide AcceptConnection, Inv, Session.Step, Session.Possible, Session.Enabled, Session.Run;
    var first, c2 := ConnectingRun(c, [], users);
    var start := (_: nat) => Connect.Started;
    var e3 := Session.Event(Stm.Write, Origin, Answers(Eof, Sent(0), users, true, None, true, start));
    end := LastAddressFails(c2, e3);
    RunSnoc(c, first, c2, e3, Live(end));
    events := first + [e3];
  }

  /** The two events that lead to a connection under way. */
  lemma ConnectingRun(c: Conn, tail: seq<byte>, users: Credentials.Users)
    returns (events: seq<Session.Event>, end: Conn)
    requires c.inet6.RoundTrips() && c == AcceptConnection(BUFFER_SIZE, c.inet6, c.host, c.port, c.atyp)
    requires |c.host| == HOST_MAX_LEN && |c.port| == PORT_MAX_LEN && |tail| <= 1
    ensures Session.Run(c, events, Live(end)) && |events| == 2
    ensures Inv(end) && end.state == STATE_CONNECT && end.addrs == 1 && end.cursor == 0 && end.rb.data == tail
  {
    hide AcceptConnection, Inv, Session.Step, Session.Possible, Session.Enabled, Session.Run;
    var start := (_: nat) => Connect.Started;
    var e1 := Session.Event(Stm.Read, Client, Answers(Data([5, 1, 0]), Sent(2), users, true, None, false, start));
    var e2 := Session.Event(Stm.Read, Client,
                            Answers(Data(LITERAL.Wire() + tail), Sent(0), users, true, None, false, start));
    StartInv(BUFFER_SIZE, c.inet6, c.host, c.port, c.atyp);
    var c1 := Greeted(c, e1);
    LiteralArrives(c1, tail, e2);
    end := ConnectionStarts(c1, tail, e2);
    events := TwoEvents(c, e1, c1, e2, Live(end));
    RequestStep(c1, LITERAL, tail, e2);
    RequestReadWhole(c1, LITERAL, tail, e2.a);
  }

  lemma LastAddressFails(c: Conn, e: Session.Event) returns (c': Conn)
    requires Inv(c) && c.state == STATE_CONNECT && c.addrs == 1 && c.cursor == 0
    requires e.kind == Stm.Write && e.side == Origin && e.a.soError
    ensures Moves(c, e, c') && c'.log.stranded
  {
    assert Connect.Advance(Connect.Search(1, 1, false), true, e.a.attempt)
        == (Connect.Search(1, 1, false), Connect.Exhausted);
    assert Connect.Advance(Connect.Search(1, 0, true), true, e.a.attempt)
        == (Connect.Search(1, 1, false), Connect.Exhausted);
    StepKeepsInv(c, e);
    c' := Session.Step(c, e).c;
  }

  // ---------- Bytes that come along with the request ----------

  /** A run that loses a byte: it arrives right behind the request, and the connection is made. */
  lemma {:induction false} PipelinedRun(c: Conn, users: Credentials.Users)
    returns (events: seq<Session.Event>, end: Conn)
    requires c.inet6.RoundTrips() && c == AcceptConnection(BUFFER_SIZE, c.inet6, c.host, c.port, c.atyp)
    requires |c.host| == HOST_MAX_LEN && |c.port| == PORT_MAX_LEN
    ensures Session.Run(c, events, Live(end)) && |events| == 4
    ensures end.state == STATE_FORWARDING && end.rb.data == [7] && end.r.origin.accepted == []
  {
    hide AcceptConnection, Inv, Session.Step, Session.Possible, Session.Enabled, Session.Run;
    var first, c2 := ConnectingRun(c, [7], users);
    var start := (_: nat) => Connect.Started;
    var e3 := Session.Event(Stm.Write, Origin, Answers(Eof, Sent(0), users, true, None, false, start));
    var e4 := Session.Event(Stm.Write, Client, Answers(Eof, Sent(1000), users, true, None, false, start));
    var c3 := ConnectionMade(c2, e3);
    RunSnoc(c, first, c2, e3, Live(c3));
    end := ReplySent(c3, e4);
    RunSnoc(c, first + [e3], c3, e4, Live(end));
    events := first + [e3] + [e4];
  }

  lemma ConnectionMade(c: Conn, e: Session.Event) returns (c': Conn)
    requires Inv(c) && c.state == STATE_CONNECT && e.kind == Stm.Write && e.side == Origin && !e.a.soError
    ensures Moves(c, e, c') && Inv(c') && c'.state == STATE_REQUEST && c'.log.status == Some(SUCCESS) && c'.rb == c.rb
    ensures |c'.Pending()| <= 262
  {
    ConnectReady(c);
    ConnectFacts(c, e);
    ConnectedReply(c, e.a);
    StepKeepsInv(c, e);
    hide Inv, Session.ConnectWrite, Session.Possible;
    c' := Session.Step(c, e).c;
  }

  lemma ConnectedReply(c: Conn, a: Answers)
    requires Ready(c) && c.hasOrigin && c.cursor < c.addrs && !a.soError
    ensures var (c', s) := Session.ConnectWrite(c, Origin, a);
      s == STATE_REQUEST && c'.log.status == Some(SUCCESS) && c'.rb == c.rb && |c'.Pending()| <= 262
  {
    assert Connect.Advance(Connect.Search(c.addrs, c.cursor, true), false, a.attempt)
        == (Connect.Search(c.addrs, c.cursor, true), Connect.Connected);
    hide Reply;
    var reply := Reply(c.inet6, SUCCESS, c.atyp, HostMemory(c), PortMemory(c));
    ReplyLength(c.inet6, SUCCESS, c.atyp, HostMemory(c), PortMemory(c));
    PutComplete(Wait(c, Client, OP_WRITE), reply);
  }

  lemma ReplySent(c: Conn, e: Session.Event) returns (c': Conn)
    requires Inv(c) && c.state == STATE_REQUEST && c.log.status == Some(SUCCESS) && |c.Pending()| <= 262
    requires e.kind == Stm.Write && e.side == Client && e.a.send == Sent(1000)
    ensures Moves(c, e, c') && c'.state == STATE_FORWARDING && c'.rb == c.rb && c'.r.origin.accepted == []
  {
    WriteAnswers(c, e);
    StepKeepsInv(c, e);
    c' := Session.Step(c, e).c;
  }

  lemma WriteAnswers(c: Conn, e: Session.Event)
    requires Inv(c) && c.state == STATE_REQUEST && c.log.status == Some(SUCCESS) && |c.Pending()| <= 262
    requires e.kind == Stm.Write && e.side == Client && e.a.send == Sent(1000)
    ensures Session.Possible(c, e) && Session.Enabled(c, e)
    ensures var (c', s) := RequestWrite(c, e.a); s == STATE_FORWARDING && c'.rb == c.rb && c'.r.origin.accepted == []
  {
    hide Sound;
  }
}
