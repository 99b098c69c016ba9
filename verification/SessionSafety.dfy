/** What holds over every run of a session: the order of replies, the authentication gate, the references, and
    which events are fatal. */
module SessionSafety {
  import opened Bytes
  import opened Io
  import opened Buffer
  import opened Text
  import opened Codec
  import opened Relay
  import opened Session
  import Connect
  import Stm

  // ---------- The invariant ----------

  /** The three replies written so far, in order. */
  function Replies(log: Log): seq<byte> {
    log.greeting + log.auth + log.reply
  }

  /** A method reply; an authentication reply only after method 2; a request reply only after that, or a login
      that was accepted; relayed bytes only after a SUCCESS reply. */
  ghost predicate WellOrdered(log: Log) {
    && log.greeting == (if log.chosen.Some? then [SOCKS5_VERSION, log.chosen.value] else [])
    && (log.chosen.Some? ==> log.chosen.value == NO_AUTH_METHOD || log.chosen.value == AUTH_METHOD)
    && log.auth == (if log.login.Some? then [AUTH_VERSION, log.login.value] else [])
    && (log.login.Some? ==> log.chosen == Some(AUTH_METHOD))
    && (log.status == None ==> log.reply == [])
    && (log.status.Some? ==>
          7 <= |log.reply| && log.reply[..3] == [SOCKS5_VERSION, log.status.value, RSV] && Admitted(log))
    && (log.fromOrigin != [] || log.fromClient != [] ==> log.status == Some(SUCCESS))
  }

  /** The client may make requests: a method was chosen, and the credentials were accepted if it was method 2. */
  predicate Admitted(log: Log) {
    log.chosen.Some? && (log.chosen == Some(AUTH_METHOD) ==> log.login == Some(0))
  }

  /** Both directions are complete and in order, and what went towards the client is the replies followed by what
      the origin sent. In particular no reset of write_buffer has discarded anything. */
  ghost predicate Transcript(c: Conn) {
    && Sound(c.r) && c.r.client.buf.limit >= 262
    && c.r.client.accepted == Replies(c.log) + c.log.fromOrigin
    && c.r.origin.accepted == c.log.fromClient
    && WellOrdered(c.log)
  }

  /** One reference for each registered descriptor; an origin descriptor is registered. */
  ghost predicate Counted(c: Conn) {
    && c.fds == (if c.hasOrigin then {Client, Origin} else {Client})
    && c.references == (if c.hasOrigin then 2 else 1)
    && c.released == 0
  }

  ghost predicate Core(c: Conn) {
    Transcript(c) && Counted(c) && c.rb.Valid() && c.inet6.RoundTrips()
  }

  /** Nothing pending towards the client, who is waited on for reading. */
  predicate Listening(c: Conn) {
    c.r.client.interest == OP_READ && c.Pending() == []
  }

  /** Something pending towards the client, who is waited on for writing. */
  predicate Sending(c: Conn) {
    c.r.client.interest == OP_WRITE && c.Pending() != []
  }

  predicate Fresh(c: Conn) {
    && !c.hasOrigin && c.log.status == None && !c.log.stranded
    && c.r.origin.accepted == [] && c.r.origin.buf.data == []
  }

  /** How each state finds the interests, the buffers and the history. */
  ghost predicate Shape(c: Conn, state: nat) {
    if state == STATE_HELLO then
      Fresh(c) && c.log.login == None
      && ((Listening(c) && c.log.chosen == None) || (Sending(c) && c.log.chosen == Some(NO_AUTH_METHOD)))
    else if state == STATE_HELLO_TO_AUTH then
      Fresh(c) && c.log.chosen == Some(AUTH_METHOD)
      && ((Sending(c) && c.log.login == None) || Rejected(c))
    else if state == STATE_AUTH then
      Fresh(c) && c.log.chosen == Some(AUTH_METHOD)
      && ((Listening(c) && c.log.login == None) || (Sending(c) && c.log.login == Some(0)))
    else if state == STATE_AUTH_FAILED then
      Fresh(c) && c.log.chosen == Some(AUTH_METHOD) && Sending(c) && c.log.login == Some(1)
    else if state == STATE_REQUEST then
      && Admitted(c.log) && c.log.fromOrigin == [] && c.r.origin.accepted == []
      && ((Listening(c) && Fresh(c)) || Answering(c) || Stranded(c))
    else if state == STATE_RESOLVE then
      Admitted(c.log) && Fresh(c) && Listening(c)
    else if state == STATE_CONNECT then
      && Admitted(c.log) && c.hasOrigin && Fresh(c.(hasOrigin := false))
      && c.Pending() == [] && c.r.client.interest == OP_NOOP && c.r.origin.interest == OP_WRITE && c.cursor < c.addrs
    else
      && state == STATE_FORWARDING && Armed(c.r) && c.hasOrigin && c.log.status == Some(SUCCESS) && !c.log.stranded
      && Replies(c.log) <= c.r.client.sent
  }

  /** A login was refused and its reply is out: the session waits to write what it does not have. */
  predicate Rejected(c: Conn) {
    c.log.login == Some(1) && c.r.client.interest == OP_WRITE && c.Pending() == []
  }

  /** A request reply is on its way; it is SUCCESS iff there is an origin. */
  predicate Answering(c: Conn) {
    Sending(c) && c.log.status.Some? && (c.hasOrigin <==> c.log.status == Some(SUCCESS)) && !c.log.stranded
    && (c.hasOrigin ==> c.r.origin.interest == OP_WRITE)
  }

  /** A request reply is pending, and nobody is waited on. */
  predicate Stranded(c: Conn) {
    c.log.stranded && c.r.client.interest == OP_NOOP && c.Pending() != [] && !c.hasOrigin
    && c.log.status == Some(HOST_UNREACHABLE)
  }

  ghost predicate Inv(c: Conn) {
    Core(c) && Shape(c, c.state)
  }

  /** What a handler leaves, given the state it answers. */
  ghost predicate Leaves(c: Conn, next: nat) {
    Core(c) && (next == STATE_DONE || next == STATE_ERROR || next == NO_STATE || next == KILLED || Shape(c, next))
  }

  // ---------- Small steps ----------

  /** Putting a reply into an empty write_buffer keeps the direction complete. */
  lemma PutComplete(c: Conn, bytes: seq<byte>)
    requires c.r.client.Intact() && c.Pending() == [] && |bytes| <= c.r.client.buf.limit
    ensures var c' := Refill(c, bytes);
      c'.r.client.Intact() && c'.Pending() == bytes && c'.r.client.buf.limit == c.r.client.buf.limit
  {
    PutAllFits(c.r.client.buf.Reset(), bytes);
    assert [] + bytes == bytes;
    assert c.r.client.sent + [] == c.r.client.sent;
  }

  lemma SendComplete(c: Conn, send: Send)
    requires c.r.client.Intact()
    ensures var c' := SendClient(c, send);
      && c'.r.client.Intact() && c'.r.client.buf.limit == c.r.client.buf.limit
      && c'.r.client.accepted == c.r.client.accepted && c.r.client.sent <= c'.r.client.sent
  {
    DrainIntact(c.r.client, Clamp(send, |c.Pending()|));
  }

  // ---------- HELLO and AUTH ----------

  lemma HelloWriteLeaves(c: Conn, send: Send, next: nat, current: nat)
    requires Core(c) && Sending(c) && Shape(c, current)
    requires (current == STATE_HELLO && next == STATE_REQUEST) || (current == STATE_HELLO_TO_AUTH && next == STATE_AUTH)
    ensures var (c', s) := HelloWriteAux(c, send, next, current); Leaves(c', s)
  {
    SendComplete(c, send);
  }

  lemma HelloReplyShape(c: Conn, chosen: byte)
    requires Core(c) && Shape(c, STATE_HELLO) && Listening(c) && (chosen == NO_AUTH_METHOD || chosen == AUTH_METHOD)
    ensures var c' := HelloReply(c, chosen);
      Core(c') && Sending(c') && Shape(c', if chosen == AUTH_METHOD then STATE_HELLO_TO_AUTH else STATE_HELLO)
  {
    PutComplete(c, [SOCKS5_VERSION, chosen]);
    assert Replies(c.log) == [];
  }

  lemma RestValid(v: Buf)
    requires v.Valid()
    ensures v.Rest().Valid()
  {
  }

  lemma FieldValid(v: Buf)
    requires v.Valid()
    ensures AfterField(v).Valid()
  {
    RestValid(v);
  }

  /** Only the read buffer, and the state, differ. */
  lemma ReadOnly(c: Conn, v: Buf, state: nat)
    requires Core(c) && Shape(c, state) && v.Valid()
    ensures Core(c.(rb := v)) && Shape(c.(rb := v), state)
  {
  }

  lemma {:induction false} HelloReadLeaves(c: Conn, a: Answers)
    requires Core(c) && Shape(c, STATE_HELLO) && Listening(c) && CanRecv(a.recv, c.rb.Room())
    ensures var (c', s) := HelloRead(c, a); Leaves(c', s)
  {
    hide Core, Shape, HelloWriteAux, HelloReply, Listening, Sending;
    if a.recv.Data? {
      assert c.rb.Valid() by { CoreBuffers(c); }
      var v := c.rb.Push(a.recv.bs);
      RestValid(v);
      RestValid(v.Rest());
      ReadOnly(c, v, STATE_HELLO);
      ReadOnly(c, v.Rest(), STATE_HELLO);
      var v2 := v.Rest().Rest();
      ReadOnly(c, v2, STATE_HELLO);
      var methods := v2.data[..Min(v.Rest().NextByte(), |v2.data|)];
      var v3 := v2.Pop(|methods|);
      ReadOnly(c, v3, STATE_HELLO);
      var c' := c.(rb := v3);
      ListeningReadOnly(c, v3);
      HelloReplyShape(c', AUTH_METHOD);
      HelloReplyShape(c', NO_AUTH_METHOD);
      HelloWriteLeaves(HelloReply(c', AUTH_METHOD), a.send, STATE_AUTH, STATE_HELLO_TO_AUTH);
      HelloWriteLeaves(HelloReply(c', NO_AUTH_METHOD), a.send, STATE_REQUEST, STATE_HELLO);
    }
  }

  lemma ListeningReadOnly(c: Conn, v: Buf)
    requires Listening(c)
    ensures Listening(c.(rb := v))
  {
  }

  lemma CoreBuffers(c: Conn)
    requires Core(c)
    ensures c.rb.Valid() && c.r.client.Intact() && c.r.client.buf.limit >= 262
  {
  }

  lemma AuthWriteLeaves(c: Conn, send: Send, status: byte, current: nat)
    requires Core(c) && Sending(c) && Shape(c, current)
    requires (status == 0 && current == STATE_AUTH) || (status != 0 && current == STATE_AUTH_FAILED)
    ensures var (c', s) := AuthWriteAux(c, send, status, current); Leaves(c', s)
  {
    SendComplete(c, send);
  }

  lemma AuthReplyShape(c: Conn, status: byte)
    requires Core(c) && Shape(c, STATE_AUTH) && Listening(c) && status <= 1
    ensures var c' := LoginReply(c, status);
      Core(c') && Sending(c') && Shape(c', if status != 0 then STATE_AUTH_FAILED else STATE_AUTH)
  {
    var bytes := [AUTH_VERSION, status];
    PutComplete(c, bytes);
    assert c.log.auth == [] && c.log.reply == [];
    assert Replies(c.log) + bytes == c.log.greeting + bytes;
  }

  lemma {:induction false} AuthReadLeaves(c: Conn, a: Answers)
    requires Core(c) && Shape(c, STATE_AUTH) && Listening(c) && CanRecv(a.recv, c.rb.Room())
    ensures var (c', s) := AuthRead(c, a); Leaves(c', s)
  {
    hide Core, Shape, AuthWriteAux, Listening, Sending, AfterField, FieldOf, FieldText, LoginReply;
    if a.recv.Data? {
      assert c.rb.Valid() by { CoreBuffers(c); }
      var v := c.rb.Push(a.recv.bs);
      RestValid(v);
      var v2 := AfterField(v.Rest());
      FieldValid(v.Rest());
      FieldValid(v2);
      var v3 := AfterField(v2);
      ReadOnly(c, v, STATE_AUTH);
      ReadOnly(c, v.Rest(), STATE_AUTH);
      ReadOnly(c, v3, STATE_AUTH);
      ListeningReadOnly(c, v3);
      var status := LoginStatus(a.users, FieldText(FieldOf(v.Rest())), FieldText(FieldOf(v2)));
      AuthReplyShape(c.(rb := v3), status);
      var c' := LoginReply(c.(rb := v3), status);
      AuthWriteLeaves(c', a.send, if status != 0 then 1 else 0, if status != 0 then STATE_AUTH_FAILED else STATE_AUTH);
    }
  }

  // ---------- CONNECT, REQUEST and RESOLVE ----------

  /** A session about to reply to its request. */
  ghost predicate Ready(c: Conn) {
    && Core(c) && Admitted(c.log) && c.log.status == None && !c.log.stranded
    && c.log.fromOrigin == [] && c.r.origin.accepted == [] && c.r.origin.buf.data == [] && c.Pending() == []
  }

  lemma ReplyReady(c: Conn, status: byte, host: seq<byte>, port: seq<byte>)
    requires Ready(c)
    ensures var c' := PutReply(c, status, host, port);
      && Core(c') && Admitted(c'.log) && c'.log.status == Some(status) && c'.Pending() != [] && !c'.log.stranded
      && c'.log.fromOrigin == [] && c'.r.origin == c.r.origin && c'.r.client.interest == c.r.client.interest
      && c'.hasOrigin == c.hasOrigin && c'.fds == c.fds
  {
    hide Reply, WellOrdered, Admitted, Replies;
    var bytes := Reply(c.inet6, status, c.atyp, host, port);
    ReplyLength(c.inet6, status, c.atyp, host, port);
    ReplyHead(c.inet6, status, c.atyp, host, port);
    PutComplete(c, bytes);
    ReplyLogged(c.log, status, bytes);
    assert Replies(c.log) + [] == Replies(c.log) && Replies(c.log) + bytes + [] == Replies(c.log) + bytes;
  }

  lemma ReplyHead(inet6: Inet6, status: byte, atyp: byte, host: seq<byte>, port: seq<byte>)
    requires inet6.RoundTrips()
    ensures 7 <= |Reply(inet6, status, atyp, host, port)|
    ensures Reply(inet6, status, atyp, host, port)[..3] == [SOCKS5_VERSION, status, RSV]
  {
    ReplyLength(inet6, status, atyp, host, port);
    hide AddressField, PortField;
    var rest := if status == UNSUPPORTED_ATYP then ErrorFields(atyp)
        else AddressField(inet6, atyp, host) + PortField(port);
    assert Reply(inet6, status, atyp, host, port) == [SOCKS5_VERSION, status, RSV] + ([atyp] + rest);
  }

  lemma ReplyLogged(log: Log, status: byte, bytes: seq<byte>)
    requires WellOrdered(log) && Admitted(log) && log.status == None
    requires 7 <= |bytes| && bytes[..3] == [SOCKS5_VERSION, status, RSV]
    ensures var log' := log.(reply := log.reply + bytes, status := Some(status));
      WellOrdered(log') && Admitted(log') && Replies(log') == Replies(log) + bytes
  {
    assert log.reply + bytes == bytes;
    assert log.greeting + log.auth + log.reply + bytes == log.greeting + log.auth + (log.reply + bytes);
  }

  /** A failure reply that the client is waited on to take. */
  lemma RefusalLeaves(c: Conn, status: byte, host: seq<byte>, port: seq<byte>)
    requires Ready(c) && !c.hasOrigin && status != SUCCESS
    ensures Leaves(Wait(PutReply(c, status, host, port), Client, OP_WRITE), STATE_REQUEST)
  {
    hide Core;
    ReplyReady(c, status, host, port);
    WaitCore(PutReply(c, status, host, port), Client, OP_WRITE);
    assert Client in c.fds by { CoreCounts(c); }
  }

  lemma CoreCounts(c: Conn)
    requires Core(c)
    ensures Counted(c)
  {
  }

  lemma WaitCore(c: Conn, side: Side, i: Interest)
    requires Core(c)
    ensures Core(Wait(c, side, i))
  {
  }

  /** The origin's descriptor is dropped along with its reference. */
  lemma DropOriginReady(c: Conn)
    requires Ready(c) && c.hasOrigin
    ensures Origin in c.fds
    ensures var c' := DropOrigin(c); Ready(c') && !c'.hasOrigin && c'.r == c.r && c'.log == c.log
  {
  }

  lemma CursorReady(c: Conn, n: nat)
    requires Ready(c)
    ensures Ready(c.(cursor := n))
  {
  }

  /** The address search: it needs an idle write_buffer, and a cursor that still points at an address if an
      origin descriptor is open. */
  lemma ConnectWriteLeaves(c: Conn, side: Side, a: Answers)
    requires Ready(c) && c.r.client.interest == OP_NOOP
    requires c.hasOrigin ==> c.cursor < c.addrs && c.r.origin.interest == OP_WRITE
    requires side == Origin ==> c.hasOrigin
    ensures var (c', s) := ConnectWrite(c, side, a); Leaves(c', s)
    ensures var (c', s) := ConnectWrite(c, side, a);
      s == STATE_REQUEST ==> (Stranded(c') <==> c'.log.status == Some(HOST_UNREACHABLE) && side == Origin)
  {
    var (search', result) := Connect.Advance(Connect.Search(c.addrs, c.cursor, c.hasOrigin), a.soError, a.attempt);
    assert Counted(c) by { CoreCounts(c); }
    assert c.hasOrigin ==> Origin in c.fds;
    var c1 := c;
    if c.hasOrigin && a.soError {
      DropOriginReady(c);
      c1 := DropOrigin(c);
    }
    var c2 := c1.(cursor := search'.cursor);
    CursorReady(c1, search'.cursor);
    match result
    case Waiting => WaitingShape(c2);
    case Broken =>
    case Connected => ConnectedShape(c2);
    case Exhausted => ExhaustedShape(c2, side);
  }

  lemma WaitingShape(c: Conn)
    requires Ready(c) && c.r.client.interest == OP_NOOP && !c.hasOrigin && c.cursor < c.addrs
    ensures Leaves(c.(hasOrigin := true, fds := c.fds + {Origin}, references := c.references + 1,
                      r := c.r.(origin := c.r.origin.Wait(OP_WRITE))), STATE_CONNECT)
  {
  }

  lemma ConnectedShape(c: Conn)
    requires Ready(c) && c.hasOrigin && c.r.origin.interest == OP_WRITE
    ensures Client in c.fds
    ensures var c' := PutReply(Wait(c, Client, OP_WRITE), SUCCESS, HostMemory(c), PortMemory(c));
      Leaves(c'.(cursor := c'.addrs), STATE_REQUEST) && !Stranded(c'.(cursor := c'.addrs))
          && c'.log.status == Some(SUCCESS)
  {
    var c1 := Wait(c, Client, OP_WRITE);
    assert Client in c.fds;
    assert Ready(c1);
    ReplyReady(c1, SUCCESS, HostMemory(c), PortMemory(c));
  }

  lemma ExhaustedShape(c: Conn, side: Side)
    requires Ready(c) && c.r.client.interest == OP_NOOP && !c.hasOrigin
    ensures var c3 := Wait(PutReply(c, HOST_UNREACHABLE, HostMemory(c), PortMemory(c)), side, OP_WRITE);
      var c' := c3.(cursor := c3.addrs, log := c3.log.(stranded := side == Origin));
      Leaves(c', STATE_REQUEST) && (Stranded(c') <==> side == Origin) && c'.log.status == Some(HOST_UNREACHABLE)
  {
    ReplyReady(c, HOST_UNREACHABLE, HostMemory(c), PortMemory(c));
    assert Client in c.fds && Origin !in c.fds;
  }

  lemma BeginSearchLeaves(c: Conn, addrs: nat, a: Answers)
    requires Ready(c) && !c.hasOrigin
    ensures var (c', s) := BeginSearch(c, addrs, a); Leaves(c', s)
  {
    var c1 := Wait(c.(addrs := addrs, cursor := 0), Client, OP_NOOP);
    assert Client in c.fds;
    assert Ready(c1);
    ConnectWriteLeaves(c1, Client, a);
  }

  /** A request that is not complete yet, or is being resolved. */
  lemma ListeningReady(c: Conn, c': Conn)
    requires Core(c) && Shape(c, STATE_REQUEST) && Listening(c)
    requires c' == c.(rb := c'.rb, atyp := c'.atyp, host := c'.host, port := c'.port) && c'.rb.Valid()
    ensures Ready(c') && !c'.hasOrigin && Leaves(c', STATE_REQUEST) && Leaves(c', STATE_RESOLVE)
  {
    assert [] + c.r.origin.buf.data == c.r.origin.buf.data;
  }

  lemma ParsedValid(inet6: Inet6, atyp: byte, v: Buf)
    requires v.Valid()
    ensures match ParseAddress(inet6, atyp, v) case Some(Parsed(_, _, rest)) => rest.Valid() case _ => true
  {
    if |v.data| >= 1 {
      var v1 := v.Pop(1);
      var v2 := v1.Pop(Min(v.data[0], |v1.data|));
      RestValid(v2);
      RestValid(v2.Rest());
    }
    if |v.data| >= 6 {
      RestValid(v.Pop(4));
      RestValid(v.Pop(4).Rest());
    }
    if |v.data| >= 18 {
      RestValid(v.Pop(16));
      RestValid(v.Pop(16).Rest());
    }
  }

  lemma {:induction false} RequestReadLeaves(c: Conn, a: Answers)
    requires Core(c) && Shape(c, STATE_REQUEST) && Listening(c) && CanRecv(a.recv, c.rb.Room())
    ensures var (c', s) := RequestRead(c, a); Leaves(c', s)
  {
    hide Shape, Core, Listening, Ready, PutReply, Wait, BeginSearch, ParseAddress, CStr, StoredHost, StoredPort,
      InetPton4;
    if a.recv.Data? {
      CoreBuffers(c);
      var v := c.rb.Push(a.recv.bs);
      RestValid(v);
      ListeningReady(c, c.(rb := v));
      ListeningReady(c, c.(rb := v.Rest()));
      if |v.data| >= 4 {
        var atyp := v.Rest().Rest().Rest().NextByte();
        var v' := v.Rest().Rest().Rest().Rest();
        RestValid(v.Rest());
        RestValid(v.Rest().Rest());
        RestValid(v.Rest().Rest().Rest());
        var c1 := c.(rb := v', atyp := atyp);
        ListeningReady(c, c1);
        RefusalLeaves(c1, UNSUPPORTED_COMMAND, [0], [0]);
        RefusalLeaves(c1, UNSUPPORTED_ATYP, Zeros(HOST_MAX_LEN), Zeros(PORT_MAX_LEN));
        ParsedValid(c.inet6, atyp, v');
        var parsed := ParseAddress(c.inet6, atyp, v');
        if parsed.Some? && parsed.value.Parsed? {
          var c2 := Store(c1, parsed.value);
          ListeningReady(c, c2);
          BeginSearchLeaves(c2, 1, a);
        }
      }
    }
  }

  lemma RequestWriteLeaves(c: Conn, a: Answers)
    requires Core(c) && Shape(c, STATE_REQUEST) && Answering(c)
    ensures var (c', s) := RequestWrite(c, a); Leaves(c', s)
  {
    SendComplete(c, a.send);
    var c' := SendClient(c, a.send);
    assert c'.r.client.accepted == Replies(c.log) + [];
    if c'.Pending() == [] {
      assert c'.r.client.sent + [] == c'.r.client.sent;
      assert Replies(c.log) <= c'.r.client.sent;
      assert c'.r.origin.buf.data == [] by {
        assert |c'.r.origin.accepted| == |c'.r.origin.sent| + |c'.r.origin.buf.data|;
      }
      if c.hasOrigin {
        var r := Wait(Wait(c', Client, OP_READ), Origin, OP_READ).r;
        assert r.Of(Client) == r.client && r.Of(Origin) == r.origin;
        assert Armed(r);
      }
    }
  }

  lemma {:induction false} ResolutionBlockLeaves(c: Conn, a: Answers)
    requires Core(c) && Shape(c, STATE_RESOLVE)
    ensures var (c', s) := ResolutionBlock(c, a); Leaves(c', s)
  {
    assert Ready(c);
    RefusalLeaves(c, HOST_UNREACHABLE, HostMemory(c), PortMemory(c));
    RefusalLeaves(c, HOST_UNREACHABLE, [0], PortMemory(c));
    if a.resolved.Some? {
      BeginSearchLeaves(c, a.resolved.value, a);
    }
  }

  // ---------- FORWARDING ----------

  lemma RelayReadLeaves(c: Conn, side: Side, a: Answers)
    requires Core(c) && Shape(c, STATE_FORWARDING) && c.r.Of(side).interest.read
    requires CanRecv(a.recv, c.r.Of(side.Other()).buf.Room())
    ensures var (c', s) := RelayRead(c, side, a); Leaves(c', s)
  {
    hide ForwardRead, Armed, Sound;
    var send := ReadSend(c, side, a);
    var e := Relay.Readable(side, a.recv, send);
    assert Sound(c.r) && Armed(c.r);
    StepSound(c.r, e);
    StepArmed(c.r, e);
    RelayReadLogs(c.r, side, a.recv, send);
    var r' := ForwardRead(c.r, side, a.recv, send).0;
    var got := if a.recv.Data? then a.recv.bs else [];
    RelayedTranscript(c, RelayRead(c, side, a).0, side, got);
    assert Replies(c.log) <= r'.client.sent;
  }

  lemma RelayedTranscript(c: Conn, c': Conn, side: Side, got: seq<byte>)
    requires Transcript(c) && c.log.status == Some(SUCCESS)
    requires Sound(c'.r) && c'.r.client.buf.limit == c.r.client.buf.limit
    requires c'.r.Of(side.Other()).accepted == c.r.Of(side.Other()).accepted + got
    requires c'.r.Of(side).accepted == c.r.Of(side).accepted
    requires c'.log == if side == Origin then c.log.(fromOrigin := c.log.fromOrigin + got)
                       else c.log.(fromClient := c.log.fromClient + got)
    ensures Transcript(c') && Replies(c'.log) == Replies(c.log)
  {
    hide Sound;
    assert Replies(c.log) + c.log.fromOrigin + got == Replies(c.log) + (c.log.fromOrigin + got);
  }

  /** What a relay read does to the four histories. */
  lemma RelayReadLogs(r: Links, side: Side, recv: Recv, send: Send)
    requires Relay.Possible(r, Relay.Readable(side, recv, send))
    ensures var r' := ForwardRead(r, side, recv, send).0;
      && r'.Of(side.Other()).accepted == r.Of(side.Other()).accepted + (if recv.Data? then recv.bs else [])
      && r'.Of(side).accepted == r.Of(side).accepted
      && r.client.sent <= r'.client.sent
      && r'.client.buf.limit == r.client.buf.limit
  {
    var acc := r.Of(side.Other()).accepted;
    assert acc + [] == acc;
  }

  lemma RelayWriteLogs(r: Links, side: Side, send: Send)
    requires Relay.Possible(r, Relay.Writable(side, send))
    ensures var r' := ForwardWrite(r, side, send).0;
      && r'.client.accepted == r.client.accepted && r'.origin.accepted == r.origin.accepted
      && r.client.sent <= r'.client.sent
      && r'.client.buf.limit == r.client.buf.limit
  {
  }

  lemma RelayWriteLeaves(c: Conn, side: Side, a: Answers)
    requires Core(c) && Shape(c, STATE_FORWARDING) && c.r.Of(side).interest.write
    ensures var (c', s) := RelayWrite(c, side, a); Leaves(c', s)
  {
    var send := Clamp(a.send, |c.r.Of(side).buf.data|);
    var e := Relay.Writable(side, send);
    StepSound(c.r, e);
    StepArmed(c.r, e);
    RelayWriteLogs(c.r, side, send);
  }

  // ---------- One event ----------

  /** Where a read may be reported. */
  lemma ReadEnabled(c: Conn, e: Session.Event)
    requires Inv(c) && Session.Enabled(c, e) && e.kind.Read? && c.state != STATE_RESOLVE
    ensures c.state in {STATE_HELLO, STATE_AUTH, STATE_REQUEST, STATE_FORWARDING}
    ensures c.state != STATE_FORWARDING ==> e.side == Client && Listening(c)
  {
    hide Sound, Armed, WellOrdered, Replies;
  }

  lemma ReadHandlerLeaves(c: Conn, e: Session.Event)
    requires Inv(c) && Session.Possible(c, e) && Session.Enabled(c, e) && e.kind.Read? && c.state != STATE_RESOLVE
    ensures c.state < |SOCKS5_STATES| && Stm.Handles(SOCKS5_STATES[c.state], e.kind)
    ensures var (c', s) := Handler(c, e); Leaves(c', s)
  {
    hide Core, Shape, Leaves, Listening, HelloRead, AuthRead, RequestRead, RelayRead;
    ReadEnabled(c, e);
    if c.state == STATE_FORWARDING {
      RelayReadLeaves(c, e.side, e.a);
    } else if c.state == STATE_HELLO {
      HelloReadLeaves(c, e.a);
    } else if c.state == STATE_AUTH {
      AuthReadLeaves(c, e.a);
    } else {
      RequestReadLeaves(c, e.a);
    }
  }

  /** Where a write may be reported. */
  lemma WriteEnabled(c: Conn, e: Session.Event)
    requires Inv(c) && Session.Enabled(c, e) && e.kind.Write?
    ensures c.state < STATE_DONE && c.state != STATE_RESOLVE
    ensures c.state == STATE_CONNECT ==>
      e.side == Origin && Ready(c) && c.hasOrigin && c.cursor < c.addrs
      && c.r.client.interest == OP_NOOP && c.r.origin.interest == OP_WRITE
    ensures c.state == STATE_REQUEST ==> Answering(c)
    ensures c.state == STATE_HELLO_TO_AUTH ==> Rejected(c) || Sending(c)
    ensures c.state in {STATE_HELLO, STATE_AUTH, STATE_AUTH_FAILED} ==> Sending(c)
  {
    hide Sound, Armed, WellOrdered, Replies;
    if c.state == STATE_CONNECT {
      ConnectReady(c);
    }
  }

  lemma ConnectReady(c: Conn)
    requires Inv(c) && c.state == STATE_CONNECT
    ensures Ready(c)
  {
    hide Sound, Replies;
  }

  /** A refused login has nothing to send and stays where it is. */
  lemma RejectedWriteLeaves(c: Conn, send: Send)
    requires Inv(c) && c.state == STATE_HELLO_TO_AUTH && Rejected(c)
    ensures var (c', s) := HelloWriteAux(c, send, STATE_AUTH, STATE_HELLO_TO_AUTH); Leaves(c', s)
  {
  }

  lemma WriteHandlerLeaves(c: Conn, e: Session.Event)
    requires Inv(c) && Session.Enabled(c, e) && e.kind.Write?
    ensures c.state < |SOCKS5_STATES| && Stm.Handles(SOCKS5_STATES[c.state], e.kind)
    ensures var (c', s) := Handler(c, e); Leaves(c', s)
  {
    hide Core, Shape, Leaves, Sending, Ready, Rejected, Answering,
      HelloWriteAux, AuthWriteAux, RequestWrite, Session.ConnectWrite, RelayWrite;
    WriteEnabled(c, e);
    if c.state == STATE_FORWARDING {
      RelayWriteLeaves(c, e.side, e.a);
    } else if c.state == STATE_CONNECT {
      ConnectWriteLeaves(c, Origin, e.a);
    } else if c.state == STATE_REQUEST {
      RequestWriteLeaves(c, e.a);
    } else if c.state == STATE_HELLO {
      HelloWriteLeaves(c, e.a.send, STATE_REQUEST, STATE_HELLO);
    } else if c.state == STATE_HELLO_TO_AUTH {
      if Rejected(c) {
        RejectedWriteLeaves(c, e.a.send);
      } else {
        HelloWriteLeaves(c, e.a.send, STATE_AUTH, STATE_HELLO_TO_AUTH);
      }
    } else if c.state == STATE_AUTH {
      AuthWriteLeaves(c, e.a.send, 0, STATE_AUTH);
    } else {
      AuthWriteLeaves(c, e.a.send, 1, STATE_AUTH_FAILED);
    }
  }

  /** An event that ends the process. Two kinds of read make it call abort(): of the client while its name is being
      resolved, and of an authentication request with a wrong version. And SIGPIPE kills it. */
  predicate Fatal(c: Conn, e: Session.Event) {
    FatalRead(c, e) || (e.a.send == SendFail(true) && Sends(c, e))
  }

  predicate FatalRead(c: Conn, e: Session.Event) {
    e.kind.Read? &&
    (c.state == STATE_RESOLVE
     || (c.state == STATE_AUTH && e.a.recv.Data? && c.rb.data + e.a.recv.bs != []
         && (c.rb.data + e.a.recv.bs)[0] != AUTH_VERSION))
  }

  /** The handler has bytes to send and calls send(): they were pending, or it has made a reply, or it passes on what it
      has just received. */
  predicate Sends(c: Conn, e: Session.Event) {
    match e.kind
    case Write => if c.state == STATE_FORWARDING then c.r.Of(e.side).buf.data != []
                  else c.state != STATE_CONNECT && c.Pending() != []
    case Read => e.a.recv.Data? && (
      || (c.state == STATE_HELLO && AnswersGreeting(c.rb.data + e.a.recv.bs))
      || (c.state == STATE_AUTH && !FatalRead(c, e))
      || c.state == STATE_FORWARDING)
    case Block => false
  }

  /** The bytes at which hello_read makes its reply. */
  predicate AnswersGreeting(bs: seq<byte>) {
    |bs| >= 2 && bs[0] == SOCKS5_VERSION && bs[1] > 0 && |bs| % 256 >= 2 + bs[1] as int
  }

  /** What is left of a session that is over: nothing registered, no references, freed once. */
  ghost predicate Over(c: Conn) {
    Transcript(c) && c.fds == {} && c.references == 0 && c.released == 1
  }

  lemma FinishReleases(c: Conn)
    requires Core(c)
    ensures Finish(c).Closed? && Over(Finish(c).c) && Finish(c).c.log == c.log
  {
    assert {Client, Origin} - {Client} - {Origin} == {} && {Client} - {Client} == {};
  }

  lemma HandlerLeaves(c: Conn, e: Session.Event)
    requires Inv(c) && Session.Possible(c, e) && Session.Enabled(c, e) && !(c.state == STATE_RESOLVE && e.kind.Read?)
    ensures c.state < |SOCKS5_STATES| && Stm.Handles(SOCKS5_STATES[c.state], e.kind)
    ensures var (c', s) := Handler(c, e); Leaves(c', s)
  {
    match e.kind
    case Read => ReadHandlerLeaves(c, e);
    case Write => WriteHandlerLeaves(c, e);
    case Block => ResolutionBlockLeaves(c, e.a);
  }

  // ---------- Which events are fatal ----------

  lemma MethodReplyAnswers(c: Conn, chosen: byte, send: Send, next: nat, current: nat)
    requires c.r.client.Intact() && c.Pending() == [] && c.r.client.buf.limit >= 262
    requires next <= STATE_ERROR && current <= STATE_ERROR
    ensures HelloWriteAux(HelloReply(c, chosen), send, next, current).1 == KILLED <==> send == SendFail(true)
  {
    PutComplete(c, [SOCKS5_VERSION, chosen]);
  }

  lemma HelloReadAnswers(c: Conn, a: Answers)
    requires c.r.client.Intact() && c.Pending() == [] && c.r.client.buf.limit >= 262
    ensures HelloRead(c, a).1 == KILLED <==>
      a.send == SendFail(true) && a.recv.Data? && AnswersGreeting(c.rb.data + a.recv.bs)
  {
    hide HelloWriteAux, HelloReply;
    if a.recv.Data? {
      var v := c.rb.Push(a.recv.bs);
      var v2 := v.Rest().Rest();
      assert |v.data| >= 2 ==> v.Rest().NextByte() == v.data[1];
      var c1 := c.(rb := v2.Pop(Min(v.Rest().NextByte(), |v2.data|)));
      MethodReplyAnswers(c1, AUTH_METHOD, a.send, STATE_AUTH, STATE_HELLO_TO_AUTH);
      MethodReplyAnswers(c1, NO_AUTH_METHOD, a.send, STATE_REQUEST, STATE_HELLO);
    }
  }

  lemma LoginReplyAnswers(c: Conn, login: byte, send: Send, status: byte, current: nat)
    requires c.r.client.Intact() && c.Pending() == [] && c.r.client.buf.limit >= 262 && current <= STATE_ERROR
    ensures AuthWriteAux(LoginReply(c, login), send, status, current).1 == KILLED <==> send == SendFail(true)
  {
    PutComplete(c, [AUTH_VERSION, login]);
  }

  lemma AuthReadAnswers(c: Conn, a: Answers)
    requires c.r.client.Intact() && c.Pending() == [] && c.r.client.buf.limit >= 262
    ensures AuthRead(c, a).1 == KILLED <==>
      && a.send == SendFail(true) && a.recv.Data?
      && c.rb.data + a.recv.bs != [] && (c.rb.data + a.recv.bs)[0] == AUTH_VERSION
  {
    hide AuthWriteAux, LoginReply, FieldOf, FieldText, AfterField;
    if a.recv.Data? {
      var v := c.rb.Push(a.recv.bs);
      var v2 := AfterField(v.Rest());
      var status := LoginStatus(a.users, FieldText(FieldOf(v.Rest())), FieldText(FieldOf(v2)));
      var c1 := c.(rb := AfterField(v2));
      LoginReplyAnswers(c1, status, a.send, 1, STATE_AUTH_FAILED);
      LoginReplyAnswers(c1, status, a.send, 0, STATE_AUTH);
    }
  }

  lemma RelayReadAnswers(c: Conn, side: Side, a: Answers)
    requires CanRecv(a.recv, c.r.Of(side.Other()).buf.Room())
    ensures RelayRead(c, side, a).1 == KILLED <==> a.send == SendFail(true) && a.recv.Data?
  {
  }

  lemma RelayWriteAnswers(c: Conn, side: Side, a: Answers)
    ensures RelayWrite(c, side, a).1 == KILLED <==> a.send == SendFail(true) && c.r.Of(side).buf.data != []
  {
  }

  lemma WriteAnswers(c: Conn, send: Send, next: nat, current: nat, status: byte, a: Answers)
    requires next <= STATE_ERROR && current <= STATE_ERROR
    ensures HelloWriteAux(c, send, next, current).1 == KILLED <==> send == SendFail(true) && c.Pending() != []
    ensures AuthWriteAux(c, send, status, current).1 == KILLED <==> send == SendFail(true) && c.Pending() != []
    ensures RequestWrite(c, a).1 == KILLED <==> a.send == SendFail(true)
  {
  }

  lemma ReadAnswers(c: Conn, e: Session.Event)
    requires Inv(c) && Session.Possible(c, e) && Session.Enabled(c, e) && e.kind.Read? && c.state != STATE_RESOLVE
    requires c.state < |SOCKS5_STATES| && Stm.Handles(SOCKS5_STATES[c.state], e.kind)
    ensures Handler(c, e).1 == KILLED <==> e.a.send == SendFail(true) && Sends(c, e)
  {
    hide HelloRead, AuthRead, RequestRead, RelayRead, AnswersGreeting, Inv;
    ReadEnabled(c, e);
    assert c.r.client.Intact() && c.r.client.buf.limit >= 262 by { InvBuffers(c); }
    if c.state == STATE_FORWARDING {
      RelayReadAnswers(c, e.side, e.a);
    } else if c.state == STATE_HELLO {
      HelloReadAnswers(c, e.a);
    } else if c.state == STATE_AUTH {
      AuthReadAnswers(c, e.a);
    }
  }

  lemma InvBuffers(c: Conn)
    requires Inv(c)
    ensures c.r.client.Intact() && c.r.client.buf.limit >= 262
  {
    CoreBuffers(c);
  }

  lemma WriteHandlerAnswers(c: Conn, e: Session.Event)
    requires Inv(c) && Session.Possible(c, e) && Session.Enabled(c, e) && e.kind.Write?
    requires c.state < |SOCKS5_STATES| && Stm.Handles(SOCKS5_STATES[c.state], e.kind)
    ensures Handler(c, e).1 == KILLED <==> e.a.send == SendFail(true) && Sends(c, e)
  {
    hide HelloWriteAux, AuthWriteAux, RequestWrite, RelayWrite, Session.ConnectWrite, Inv;
    WriteEnabled(c, e);
    WriteAnswers(c, e.a.send, STATE_REQUEST, STATE_HELLO, 0, e.a);
    WriteAnswers(c, e.a.send, STATE_AUTH, STATE_HELLO_TO_AUTH, 0, e.a);
    WriteAnswers(c, e.a.send, STATE_AUTH, STATE_AUTH, 0, e.a);
    WriteAnswers(c, e.a.send, STATE_AUTH, STATE_AUTH_FAILED, 1, e.a);
    if c.state == STATE_FORWARDING {
      RelayWriteAnswers(c, e.side, e.a);
    }
  }

  lemma HandlerAnswers(c: Conn, e: Session.Event)
    requires Inv(c) && Session.Possible(c, e) && Session.Enabled(c, e)
    requires c.state < |SOCKS5_STATES| && Stm.Handles(SOCKS5_STATES[c.state], e.kind)
    ensures Handler(c, e).1 <= STATE_ERROR || Handler(c, e).1 == NO_STATE || Handler(c, e).1 == KILLED
    ensures Handler(c, e).1 == NO_STATE <==> c.state == STATE_AUTH && FatalRead(c, e)
  {
    hide HelloRead, AuthRead, RequestRead, ForwardRead, ForwardWrite, HelloWriteAux, AuthWriteAux, RequestWrite,
      ConnectWrite, ResolutionBlock, Shape, Core;
  }

  lemma KilledIff(c: Conn, e: Session.Event)
    requires Inv(c) && Session.Possible(c, e) && Session.Enabled(c, e)
    requires c.state < |SOCKS5_STATES| && Stm.Handles(SOCKS5_STATES[c.state], e.kind)
    ensures Handler(c, e).1 == KILLED <==> e.a.send == SendFail(true) && Sends(c, e)
  {
    hide Handler, Inv, Sends;
    match e.kind
    case Read => ReadAnswers(c, e);
    case Write => WriteHandlerAnswers(c, e);
    case Block => BlockAnswers(c, e);
  }

  lemma BlockAnswers(c: Conn, e: Session.Event)
    requires Session.Possible(c, e) && c.state < |SOCKS5_STATES| && Stm.Handles(SOCKS5_STATES[c.state], e.kind)
    requires e.kind.Block?
    ensures Handler(c, e).1 != KILLED && !Sends(c, e)
  {
    hide ResolutionBlock;
  }

  /** One event the selector may report keeps the invariant while the session lives. The end releases everything
      exactly once, so finish never meets an unregistered descriptor; and exactly the fatal events take the process
      down. */
  lemma {:induction false} StepKeepsInv(c: Conn, e: Session.Event)
    requires Inv(c) && c.state < |SOCKS5_STATES| && Session.Possible(c, e) && Session.Enabled(c, e)
    ensures Session.Step(c, e).Live? ==> Inv(Session.Step(c, e).c)
    ensures Session.Step(c, e).Closed? ==> Over(Session.Step(c, e).c)
    ensures Session.Step(c, e).Aborted? <==> Fatal(c, e)
  {
    hide Shape, Core, Handler, Over, Finish, Sends;
    if c.state == STATE_RESOLVE && e.kind.Read? {
    } else {
      HandlerLeaves(c, e);
      HandlerAnswers(c, e);
      KilledIff(c, e);
      var (c', next) := Handler(c, e);
      StateChange(c', next);
      if next == STATE_DONE || next == STATE_ERROR {
        FinishReleases(c'.(state := next));
      }
    }
  }

  lemma StateChange(c: Conn, next: nat)
    requires Leaves(c, next)
    ensures Core(c.(state := next))
    ensures next != STATE_DONE && next != STATE_ERROR && next != NO_STATE && next != KILLED ==> Inv(c.(state := next))
  {
  }
}
