/** Requests that lead to no connection attempt: what each is answered, and that nothing else happens. */
module Refusals {
  import opened Bytes
  import opened Io
  import opened Buffer
  import opened Text
  import opened Codec
  import opened Relay
  import opened Session
  import opened SessionSafety
  import opened RequestTheorems

  /** Nothing of an address search differs. */
  predicate SameSearch(c: Conn, c': Conn) {
    && c'.addrs == c.addrs && c'.cursor == c.cursor && c'.hasOrigin == c.hasOrigin && c'.fds == c.fds
    && c'.references == c.references && c'.r.origin == c.r.origin
  }

  /** The session goes on in REQUEST with exactly this reply to send. */
  ghost predicate RepliesWith(c: Conn, e: Session.Event, status: byte, reply: seq<byte>)
    requires c.state < |SOCKS5_STATES| && Session.Possible(c, e)
  {
    var s := Session.Step(c, e);
    && s.Live? && s.c.state == STATE_REQUEST && s.c.r.client.interest == OP_WRITE && s.c.Pending() == reply
    && s.c.log.status == Some(status) && s.c.log.reply == reply && SameSearch(c, s.c)
  }

  /** A read event on a session that waits for its request; bs is then in the read buffer. */
  ghost predicate Reads(c: Conn, e: Session.Event, bs: seq<byte>) {
    && Inv(c) && c.state == STATE_REQUEST && Listening(c) && e.kind.Read? && e.a.recv.Data?
    && bs == c.rb.data + e.a.recv.bs && Session.Possible(c, e) && Session.Enabled(c, e)
  }

  lemma HeaderIs(v: Buf)
    requires |v.data| >= 4
    ensures v.NextByte() == v.data[0] && v.Rest().NextByte() == v.data[1]
    ensures v.Rest().Rest().Rest().NextByte() == v.data[3] && v.Rest().Rest().Rest().Rest() == v.Pop(4)
  {
    assert v.Rest() == v.Pop(1);
    PopRest(v, 1);
    PopRest(v, 2);
    PopRest(v, 3);
  }

  // ---------- Replies that refuse ----------

  /** A failure reply put on an idle session is what the client is sent, and all that changes. */
  lemma RefusalIs(c: Conn, status: byte, host: seq<byte>, port: seq<byte>)
    requires Ready(c) && !c.hasOrigin
    ensures var c' := Wait(PutReply(c, status, host, port), Client, OP_WRITE);
      var reply := Reply(c.inet6, status, c.atyp, host, port);
      && c'.r.client.interest == OP_WRITE && c'.Pending() == reply
      && c'.log.status == Some(status) && c'.log.reply == reply && SameSearch(c, c')
  {
    hide Reply, Replies;
    var reply := Reply(c.inet6, status, c.atyp, host, port);
    ReplyLength(c.inet6, status, c.atyp, host, port);
    PutComplete(c, reply);
    assert c.log.reply == [] && [] + reply == reply;
    assert Client in c.fds;
  }

  lemma UnsupportedCommandReply(inet6: Inet6, atyp: byte)
    requires inet6.RoundTrips()
    ensures var reply := Reply(inet6, UNSUPPORTED_COMMAND, atyp, [0], [0]);
      && reply[..4] == [SOCKS5_VERSION, UNSUPPORTED_COMMAND, 0, atyp]
      && (atyp != IPV6_ATYP ==>
            reply == [SOCKS5_VERSION, UNSUPPORTED_COMMAND, 0, atyp]
                     + Zeros(if atyp == DOMAIN_NAME_ATYP then 1 else 4) + [0, 0])
      && (atyp == IPV6_ATYP ==> |reply| == 22 && reply[20..] == [0, 0])
  {
    assert CStr([0]) == [];
    assert InetPton4([]) == None;
    assert Atoi([0]) == 0 && PortField([0]) == [0, 0];
    assert Zeros(1) == [0];
    var address := AddressField(inet6, atyp, [0]);
    assert atyp != IPV6_ATYP ==> address == Zeros(if atyp == DOMAIN_NAME_ATYP then 1 else 4);
    assert Reply(inet6, UNSUPPORTED_COMMAND, atyp, [0], [0])
        == [SOCKS5_VERSION, UNSUPPORTED_COMMAND, 0, atyp] + address + [0, 0];
  }

  /** A command other than CONNECT is refused: 05 07 00, the address type, an empty address and port 0. Nothing is
      connected to. */
  lemma {:induction false} CommandRefused(c: Conn, e: Session.Event, bs: seq<byte>)
    requires Reads(c, e, bs) && |bs| >= 4 && bs[0] == SOCKS5_VERSION && bs[1] != CONNECT_CMD
    ensures var reply := Reply(c.inet6, UNSUPPORTED_COMMAND, bs[3], [0], [0]);
      && RepliesWith(c, e, UNSUPPORTED_COMMAND, reply)
      && reply[..4] == [5, 7, 0, bs[3]]
      && |reply| == (if bs[3] == DOMAIN_NAME_ATYP then 7 else if bs[3] == IPV6_ATYP then 22 else 10)
      && (bs[3] != IPV6_ATYP ==> forall i :: 4 <= i < |reply| ==> reply[i] == 0)
    ensures Session.Step(c, e).c.rb.data == bs[4..]
  {
    hide Reply, Ready, Inv, Listening, PutReply, Wait, RequestRead, Session.Step, Session.Possible, Session.Enabled;
    var v := c.rb.Push(e.a.recv.bs);
    CommandBranch(c, e.a);
    var c1 := c.(rb := v.Pop(4), atyp := bs[3]);
    HeaderTaken(c, e, bs);
    WaitKeepsBuffer(c1, UNSUPPORTED_COMMAND, [0], [0]);
    RefusalIs(c1, UNSUPPORTED_COMMAND, [0], [0]);
    UnsupportedCommandReply(c.inet6, bs[3]);
    StepIsHandler(c, e);
  }

  lemma CommandBranch(c: Conn, a: Answers)
    requires a.recv.Data?
    ensures var v := c.rb.Push(a.recv.bs);
      |v.data| >= 4 && v.data[0] == SOCKS5_VERSION && v.data[1] != CONNECT_CMD ==>
        var c1 := c.(rb := v.Pop(4), atyp := v.data[3]);
        RequestRead(c, a) == (Wait(PutReply(c1, UNSUPPORTED_COMMAND, [0], [0]), Client, OP_WRITE), STATE_REQUEST)
  {
    hide PutReply, Wait, AddressOf;
    var v := c.rb.Push(a.recv.bs);
    if |v.data| >= 4 {
      HeaderIs(v);
    }
  }

  lemma TypeBranch(c: Conn, a: Answers)
    requires a.recv.Data?
    ensures var v := c.rb.Push(a.recv.bs);
      |v.data| >= 4 && v.data[0] == SOCKS5_VERSION && v.data[1] == CONNECT_CMD
      && v.data[3] != IPV4_ATYP && v.data[3] != DOMAIN_NAME_ATYP && v.data[3] != IPV6_ATYP ==>
        var c1 := c.(rb := v.Pop(4), atyp := v.data[3]);
        var c2 := PutReply(c1, UNSUPPORTED_ATYP, Zeros(HOST_MAX_LEN), Zeros(PORT_MAX_LEN));
        RequestRead(c, a) == (Wait(c2, Client, OP_WRITE), STATE_REQUEST)
  {
    hide PutReply, Wait, BeginSearch;
    var v := c.rb.Push(a.recv.bs);
    if |v.data| >= 4 {
      HeaderIs(v);
    }
  }

  lemma WaitKeepsBuffer(c: Conn, status: byte, host: seq<byte>, port: seq<byte>)
    ensures Wait(PutReply(c, status, host, port), Client, OP_WRITE).rb == c.rb
  {
    hide Reply;
  }

  /** The header leaves the session as idle as it was. */
  lemma HeaderTaken(c: Conn, e: Session.Event, bs: seq<byte>)
    requires Reads(c, e, bs) && |bs| >= 4
    ensures var c1 := c.(rb := c.rb.Push(e.a.recv.bs).Pop(4), atyp := bs[3]);
      Ready(c1) && !c1.hasOrigin && c1.rb.data == bs[4..] && c1.inet6.RoundTrips()
  {
    var v := c.rb.Push(e.a.recv.bs);
    ListeningReady(c, c.(rb := v.Pop(4), atyp := bs[3]));
  }

  lemma StepIsHandler(c: Conn, e: Session.Event)
    requires c.state == STATE_REQUEST && e.kind.Read? && Session.Possible(c, e)
    ensures var (c', next) := RequestRead(c, e.a);
      next == STATE_REQUEST || next == STATE_RESOLVE || next == STATE_CONNECT ==>
        Session.Step(c, e) == Live(c'.(state := next))
    ensures var (c', next) := RequestRead(c, e.a);
      (next == STATE_ERROR || next == STATE_DONE) ==> !Session.Step(c, e).Live?
  {
    hide RequestRead;
  }

  /** CONNECT with an address type that is not supported is refused with 05 08 00, that type and six zeros. */
  lemma {:induction false} TypeRefused(c: Conn, e: Session.Event, bs: seq<byte>)
    requires Reads(c, e, bs) && |bs| >= 4 && bs[0] == SOCKS5_VERSION && bs[1] == CONNECT_CMD
    requires bs[3] != IPV4_ATYP && bs[3] != DOMAIN_NAME_ATYP && bs[3] != IPV6_ATYP
    ensures RepliesWith(c, e, UNSUPPORTED_ATYP, [5, 8, 0, bs[3], 0, 0, 0, 0, 0, 0])
    ensures Session.Step(c, e).c.rb.data == bs[4..]
  {
    hide Ready, Inv, Listening, PutReply, Wait, RequestRead, Session.Step, Session.Possible, Session.Enabled;
    var v := c.rb.Push(e.a.recv.bs);
    TypeBranch(c, e.a);
    var c1 := c.(rb := v.Pop(4), atyp := bs[3]);
    HeaderTaken(c, e, bs);
    WaitKeepsBuffer(c1, UNSUPPORTED_ATYP, Zeros(HOST_MAX_LEN), Zeros(PORT_MAX_LEN));
    RefusalIs(c1, UNSUPPORTED_ATYP, Zeros(HOST_MAX_LEN), Zeros(PORT_MAX_LEN));
    assert Zeros(6) == [0, 0, 0, 0, 0, 0];
    assert Reply(c.inet6, UNSUPPORTED_ATYP, bs[3], Zeros(HOST_MAX_LEN), Zeros(PORT_MAX_LEN))
        == [5, 8, 0, bs[3], 0, 0, 0, 0, 0, 0];
    StepIsHandler(c, e);
  }

  /** A name that cannot be resolved is answered HOST_UNREACHABLE with the stored host and port written back; one that
      resolves to nothing, with an empty host. */
  lemma {:induction false} UnresolvedAnswered(c: Conn, e: Session.Event)
    requires Inv(c) && c.state == STATE_RESOLVE && e.kind.Block? && Session.Possible(c, e)
    ensures e.a.resolved == None ==>
      RepliesWith(c, e, HOST_UNREACHABLE, ReplyFor(c.inet6, HOST_UNREACHABLE, c.atyp, c.host, c.port))
    ensures e.a.resolved == Some(0) ==>
      RepliesWith(c, e, HOST_UNREACHABLE, Reply(c.inet6, HOST_UNREACHABLE, c.atyp, [0], c.port + [c.atyp]))
  {
    hide Reply, Ready, Inv, PutReply, Wait, ResolutionBlock, Session.Step, Session.Possible;
    ResolvingIsReady(c);
    UnresolvedStep(c, e);
    RefusalIs(c, HOST_UNREACHABLE, HostMemory(c), PortMemory(c));
    RefusalIs(c, HOST_UNREACHABLE, [0], PortMemory(c));
  }

  lemma ResolvingIsReady(c: Conn)
    requires Inv(c) && c.state == STATE_RESOLVE
    ensures Ready(c) && !c.hasOrigin
  {
  }

  lemma UnresolvedStep(c: Conn, e: Session.Event)
    requires c.state == STATE_RESOLVE && e.kind.Block? && Session.Possible(c, e)
    ensures e.a.resolved == None || e.a.resolved == Some(0) ==>
      var host := if e.a.resolved == None then HostMemory(c) else [0];
      Session.Step(c, e) == Live(Wait(PutReply(c, HOST_UNREACHABLE, host, PortMemory(c)), Client, OP_WRITE)
                                 .(state := STATE_REQUEST))
  {
    hide PutReply, Wait, BeginSearch;
  }

  // ---------- Requests that are not complete ----------

  /** A header that is short, or a CONNECT header whose address is. */
  predicate Short(bs: seq<byte>) {
    |bs| < 4
    || (bs[0] == SOCKS5_VERSION && bs[1] == CONNECT_CMD
        && ((bs[3] == IPV4_ATYP && |bs| < 10) || (bs[3] == DOMAIN_NAME_ATYP && |bs| < 5)
            || (bs[3] == IPV6_ATYP && |bs| < 22)))
  }

  /** Such a request is waited on: no reply, no search, no end. A short header stays in the buffer; a whole one does
      not, so what arrives later is taken for a header again. */
  lemma {:induction false} IncompleteWaits(c: Conn, e: Session.Event, bs: seq<byte>)
    requires Reads(c, e, bs) && Short(bs)
    ensures var s := Session.Step(c, e);
      && s.Live? && s.c.state == STATE_REQUEST && Listening(s.c) && s.c.log == c.log && SameSearch(c, s.c)
      && s.c.rb.data == if |bs| < 4 then bs else bs[4..]
  {
    hide Inv, Session.Step, Session.Possible, Session.Enabled, RequestRead;
    IncompleteBranch(c, e.a);
    StepIsHandler(c, e);
  }

  lemma IncompleteBranch(c: Conn, a: Answers)
    requires a.recv.Data?
    ensures var v := c.rb.Push(a.recv.bs);
      Short(v.data) ==>
        var c' := if |v.data| < 4 then c.(rb := v) else c.(rb := v.Pop(4), atyp := v.data[3]);
        RequestRead(c, a) == (c', STATE_REQUEST)
  {
    hide PutReply, Wait, BeginSearch;
    var v := c.rb.Push(a.recv.bs);
    if |v.data| >= 4 {
      HeaderIs(v);
    }
  }

  // ---------- Requests that are carried out ----------

  /** A CONNECT request for a literal address lies whole in the buffer. */
  predicate Literal(bs: seq<byte>) {
    && |bs| >= 4 && bs[0] == SOCKS5_VERSION && bs[1] == CONNECT_CMD
    && ((bs[3] == IPV4_ATYP && |bs| >= 10) || (bs[3] == IPV6_ATYP && |bs| >= 22))
  }

  /** One for a name; the parser then takes as much of it as there is. */
  predicate Name(bs: seq<byte>) {
    |bs| >= 5 && bs[0] == SOCKS5_VERSION && bs[1] == CONNECT_CMD && bs[3] == DOMAIN_NAME_ATYP
  }

  lemma Ipv4Readable(v: Buf)
    requires |v.data| >= 6
    ensures ParseIpv4(v).Parsed? && InetPton4(CStr(ParseIpv4(v).host)).Some?
  {
    var a := v.data;
    var text := Dotted(a[0], a[1], a[2], a[3]);
    DottedFits(a[0], a[1], a[2], a[3]);
    DottedParses(a[0], a[1], a[2], a[3]);
    assert text + [] == text;
    CStrIs(text, []);
  }

  lemma Ipv6Readable(inet6: Inet6, v: Buf)
    requires |v.data| >= 18 && inet6.RoundTrips()
    ensures ParseIpv6(inet6, v).Parsed? && inet6.pton(CStr(ParseIpv6(inet6, v).host)).Some?
  {
    var text := inet6.ntop(v.data[..16]);
    assert text + [] == text;
    CStrIs(text, []);
  }

  /** The connection after its request has been taken from the buffer and stored. */
  ghost predicate RequestTaken(c: Conn, c': Conn) {
    c' == c.(rb := c'.rb, atyp := c'.atyp, host := c'.host, port := c'.port)
  }

  lemma LiteralBranch(c: Conn, a: Answers) returns (b: Conn)
    requires a.recv.Data? && c.inet6.RoundTrips() && Literal(c.rb.data + a.recv.bs)
    ensures RequestRead(c, a) == BeginSearch(b, 1, a) && RequestTaken(c, b)
  {
    hide PutReply, Wait, BeginSearch, InetPton4, CStr, Decimal, Dotted, StoredHost, StoredPort;
    var v := c.rb.Push(a.recv.bs);
    HeaderIs(v);
    var c1 := c.(rb := v.Pop(4), atyp := v.data[3]);
    if c1.atyp == IPV4_ATYP {
      Ipv4Readable(c1.rb);
    } else {
      Ipv6Readable(c.inet6, c1.rb);
    }
    b := Store(c1, ParseAddress(c.inet6, c1.atyp, c1.rb).value);
  }

  lemma NameBranch(c: Conn, a: Answers)
    requires a.recv.Data? && Name(c.rb.data + a.recv.bs)
    ensures var (c', s) := RequestRead(c, a);
      RequestTaken(c, c') && s == if a.threadStarted then STATE_RESOLVE else STATE_ERROR
  {
    hide PutReply, Wait, BeginSearch, InetPton4, CStr, Decimal, StoredHost, StoredPort;
    var v := c.rb.Push(a.recv.bs);
    HeaderIs(v);
  }
}
