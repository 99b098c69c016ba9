/** What becomes of a request: where its bytes go, and how its reply relates to it. */
module RequestTheorems {
  import opened Bytes
  import opened Io
  import opened Buffer
  import opened Text
  import opened Codec
  import opened Relay
  import opened Session
  import opened SessionSafety
  import Connect
  import Stm
  import opened SessionTheorems

  // ---------- The request ----------

  /** What a request is stored as: the fields the reply is made from, and what is left of the read buffer. */
  datatype Aim = Aim(inet6: Inet6, atyp: byte, host: seq<byte>, port: seq<byte>, rb: Buf)

  /** A CONNECT request lies whole in the read buffer once this event's bytes are there. */
  ghost predicate ArrivesWhole(c: Conn, q: Request, tail: seq<byte>, a: Answers) {
    && q.WellFormed() && c.rb.Valid() && c.inet6.RoundTrips()
    && a.recv.Data? && CanRecv(a.recv, c.rb.Room()) && c.rb.data + a.recv.bs == q.Wire() + tail
    && |c.host| == HOST_MAX_LEN && |c.port| == PORT_MAX_LEN
  }

  lemma TextsFit(inet6: Inet6, q: Request)
    requires q.WellFormed() && inet6.RoundTrips()
    ensures |q.HostText(inet6)| < HOST_MAX_LEN && |Decimal(q.Port())| < PORT_MAX_LEN
  {
    DecimalLength(q.Port());
    AddressRoundTrip(inet6, q, Zeros(HOST_MAX_LEN), []);
  }

  /** Host and port as the parsers print them, copied by strncpy over what the fields held. */
  ghost function AimOf(c: Conn, q: Request, tail: seq<byte>, a: Answers): Aim
    requires ArrivesWhole(c, q, tail, a)
  {
    TextsFit(c.inet6, q);
    Aim(c.inet6, q.atyp, StoredHost(c.host, q.HostText(c.inet6)), StoredPort(c.port, Decimal(q.Port())),
        c.rb.Push(a.recv.bs).Pop(|q.Wire()|))
  }

  function Stored(c: Conn, aim: Aim): Conn {
    c.(atyp := aim.atyp, host := aim.host, port := aim.port, rb := aim.rb)
  }

  lemma HeaderBytes(v: Buf, q: Request)
    requires v.Valid() && q.Wire() <= v.data && q.WellFormed()
    ensures v.NextByte() == SOCKS5_VERSION && v.Rest().NextByte() == CONNECT_CMD
    ensures v.Rest().Rest().Rest().NextByte() == q.atyp && v.Rest().Rest().Rest().Rest() == v.Pop(4)
  {
    var w := q.Wire();
    assert |v.data| > 4 && v.data[0] == w[0] && v.data[1] == w[1] && v.data[3] == w[3];
    assert v.Rest() == v.Pop(1);
    PopRest(v, 1);
    PopRest(v, 2);
    PopRest(v, 3);
  }

  lemma RequestReadIs(c: Conn, a: Answers)
    requires a.recv.Data?
    ensures var v := c.rb.Push(a.recv.bs);
      |v.data| >= 4 && v.NextByte() == SOCKS5_VERSION && v.Rest().NextByte() == CONNECT_CMD ==>
        var v3 := v.Rest().Rest().Rest();
        RequestRead(c, a) == AddressOf(c.(rb := v3.Rest(), atyp := v3.NextByte()), a)
  {
    hide AddressOf;
  }

  /** The text of a literal address reads back as one. */
  lemma LiteralReadable(inet6: Inet6, q: Request)
    requires q.WellFormed() && inet6.RoundTrips()
    ensures q.atyp == IPV4_ATYP ==> InetPton4(CStr(q.HostText(inet6))).Some?
    ensures q.atyp == IPV6_ATYP ==> inet6.pton(CStr(q.HostText(inet6))).Some?
  {
    var text := q.HostText(inet6);
    assert text + [] == text;
    if q.atyp == IPV4_ATYP {
      DottedFits(q.address[0], q.address[1], q.address[2], q.address[3]);
      DottedParses(q.address[0], q.address[1], q.address[2], q.address[3]);
      CStrIs(text, []);
    } else if q.atyp == IPV6_ATYP {
      CStrIs(text, []);
    }
  }

  /** What request_read makes of a whole request: a literal address begins the search at once, a name is resolved. */
  lemma {:induction false} RequestReadWhole(c: Conn, q: Request, tail: seq<byte>, a: Answers)
    requires ArrivesWhole(c, q, tail, a)
    ensures var aim := AimOf(c, q, tail, a);
      && aim.rb.data == tail && aim.rb.Valid()
      && RequestRead(c, a) == if q.atyp == DOMAIN_NAME_ATYP
                              then (Stored(c, aim), if a.threadStarted then STATE_RESOLVE else STATE_ERROR)
                              else BeginSearch(Stored(c, aim), 1, a)
  {
    hide RequestRead, StoredHost, StoredPort, ParseAddress, Decimal, BeginSearch, CStr, InetPton4;
    var v := c.rb.Push(a.recv.bs);
    ParseWhole(c.inet6, q, tail, v);
    TextsFit(c.inet6, q);
    HeaderBytes(v, q);
    RequestReadIs(c, a);
    LiteralReadable(c.inet6, q);
    var c1 := c.(rb := v.Pop(4), atyp := q.atyp);
    var c2 := Store(c1, ParseAddress(c.inet6, q.atyp, v.Pop(4)).value);
    assert c2 == Stored(c, AimOf(c, q, tail, a));
  }

  /** A CONNECT request that has arrived whole is taken from the read buffer exactly, and its address and port are
      stored. */
  lemma {:induction false} RequestIsStored(c: Conn, q: Request, tail: seq<byte>, a: Answers)
    requires ArrivesWhole(c, q, tail, a)
    ensures |q.HostText(c.inet6)| < HOST_MAX_LEN && |Decimal(q.Port())| < PORT_MAX_LEN
    ensures var c' := RequestRead(c, a).0;
      && c'.rb.data == tail && c'.atyp == q.atyp
      && c'.host == StoredHost(c.host, q.HostText(c.inet6)) && c'.port == StoredPort(c.port, Decimal(q.Port()))
  {
    hide RequestRead, StoredHost, StoredPort, Decimal, BeginSearch;
    TextsFit(c.inet6, q);
    RequestReadWhole(c, q, tail, a);
    BeginSearchKeepsAddress(Stored(c, AimOf(c, q, tail, a)), a);
  }

  lemma BeginSearchKeepsAddress(c: Conn, a: Answers)
    ensures var c' := BeginSearch(c, 1, a).0;
      c'.rb == c.rb && c'.atyp == c.atyp && c'.host == c.host && c'.port == c.port
  {
    hide Reply, Connect.Advance;
  }

  // ---------- From the request to its reply ----------

  /** The aim of a session whose request has been stored. */
  function OwnAim(c: Conn): Aim {
    Aim(c.inet6, c.atyp, c.host, c.port, c.rb)
  }

  /** The reply to a name that resolves to nothing has an empty address. */
  function NothingFound(aim: Aim): seq<byte> {
    Reply(aim.inet6, HOST_UNREACHABLE, aim.atyp, [0], aim.port + [aim.atyp])
  }

  /** SUCCESS or HOST_UNREACHABLE, by the reply that writes back what is stored; only a name that resolves to nothing is
      answered otherwise. */
  predicate Answered(log: Log, aim: Aim)
    requires log.status.Some?
  {
    var status := log.status.value;
    && (status == SUCCESS || status == HOST_UNREACHABLE)
    && (log.reply == ReplyFor(aim.inet6, status, aim.atyp, aim.host, aim.port)
        || (status == HOST_UNREACHABLE && aim.atyp == DOMAIN_NAME_ATYP && log.reply == NothingFound(aim)))
  }

  /** A request for the given aim is being carried out, or was answered. The read buffer is as the request left it. */
  ghost predicate Pursues(c: Conn, aim: Aim) {
    && c.inet6 == aim.inet6 && c.rb == aim.rb
    && (c.log.status == None ==> (c.state == STATE_RESOLVE || c.state == STATE_CONNECT) && OwnAim(c) == aim)
    && (c.log.status == None && c.state == STATE_RESOLVE ==> aim.atyp == DOMAIN_NAME_ATYP)
    && (c.log.status.Some? ==> Answered(c.log, aim))
  }

  lemma EstablishedPursues(c: Conn)
    requires c.log.reply == []
    ensures var (c', next) := Established(c); next != STATE_ERROR ==> Pursues(c'.(state := next), OwnAim(c))
  {
    hide Reply;
    var reply := ReplyFor(c.inet6, SUCCESS, c.atyp, c.host, c.port);
    assert [] + reply == reply;
  }

  lemma ConnectWritePursues(c: Conn, side: Side, a: Answers)
    requires c.log.status == None && c.log.reply == []
    ensures var (c', next) := Session.ConnectWrite(c, side, a);
      next != STATE_ERROR ==> Pursues(c'.(state := next), OwnAim(c))
  {
    hide Connect.Advance, Established, GaveUp, Pursues, OwnAim;
    var (search', result) := Connect.Advance(Connect.Search(c.addrs, c.cursor, c.hasOrigin), a.soError, a.attempt);
    var c1 := if c.cursor < c.addrs && c.hasOrigin && a.soError then DropOrigin(c) else c;
    var c2 := c1.(cursor := search'.cursor);
    EstablishedPursues(c2);
    GaveUpPursues(c2, side);
    SameAim(c, c2);
    if result == Connect.Waiting {
      WaitingPursues(c2);
    }
  }

  lemma SameAim(c: Conn, c': Conn)
    requires c' == c || c' == c.(cursor := c'.cursor)
             || c' == c.(cursor := c'.cursor, hasOrigin := c'.hasOrigin, fds := c'.fds, references := c'.references,
                         released := c'.released)
    ensures OwnAim(c') == OwnAim(c)
  {
  }

  lemma GaveUpPursues(c: Conn, side: Side)
    requires c.log.status == None && c.log.reply == []
    ensures var (c', next) := GaveUp(c, side); next != STATE_ERROR ==> Pursues(c'.(state := next), OwnAim(c))
  {
    hide Reply;
    var reply := ReplyFor(c.inet6, HOST_UNREACHABLE, c.atyp, c.host, c.port);
    assert [] + reply == reply;
  }

  lemma WaitingPursues(c: Conn)
    requires c.log.status == None
    ensures Pursues(c.(hasOrigin := true, fds := c.fds + {Origin}, references := c.references + 1,
                       r := c.r.(origin := c.r.origin.Wait(OP_WRITE)), state := STATE_CONNECT), OwnAim(c))
  {
  }

  lemma BeginSearchPursues(c: Conn, addrs: nat, a: Answers)
    requires c.log.status == None && c.log.reply == []
    ensures var (c', next) := BeginSearch(c, addrs, a);
      next != STATE_ERROR ==> Pursues(c'.(state := next), OwnAim(c))
  {
    hide Session.ConnectWrite, Pursues;
    ConnectWritePursues(Wait(c.(addrs := addrs, cursor := 0), Client, OP_NOOP), Client, a);
  }

  lemma RequestPursued(c: Conn, q: Request, tail: seq<byte>, a: Answers)
    requires ArrivesWhole(c, q, tail, a) && c.log.status == None && c.log.reply == []
    ensures var (c', next) := RequestRead(c, a);
      next != STATE_ERROR ==> Pursues(c'.(state := next), AimOf(c, q, tail, a))
  {
    hide RequestRead, BeginSearch, AimOf;
    RequestReadWhole(c, q, tail, a);
    var aim := AimOf(c, q, tail, a);
    AimFacts(c, q, tail, a);
    BeginSearchPursues(Stored(c, aim), 1, a);
  }

  lemma AimFacts(c: Conn, q: Request, tail: seq<byte>, a: Answers)
    requires ArrivesWhole(c, q, tail, a)
    ensures AimOf(c, q, tail, a).inet6 == c.inet6 && AimOf(c, q, tail, a).atyp == q.atyp
  {
  }

  lemma ResolutionBlockPursues(c: Conn, a: Answers)
    requires c.log.status == None && c.log.reply == [] && c.atyp == DOMAIN_NAME_ATYP
    ensures var (c', next) := ResolutionBlock(c, a);
      next != STATE_ERROR ==> Pursues(c'.(state := next), OwnAim(c))
  {
    hide BeginSearch, Reply;
    var aim := OwnAim(c);
    assert forall bytes: seq<byte> :: [] + bytes == bytes;
    if a.resolved.Some? {
      BeginSearchPursues(c, a.resolved.value, a);
    }
  }

  /** While a request is carried out only resolution_block and connect_write run, and once it is answered no handler
      makes another reply or touches the read buffer. */
  lemma PursuingHandlers(c: Conn, e: Session.Event)
    requires Inv(c) && Session.Possible(c, e) && Session.Enabled(c, e) && Stm.Handles(SOCKS5_STATES[c.state], e.kind)
    requires c.log.status.Some? || c.state == STATE_RESOLVE || c.state == STATE_CONNECT
    ensures var r := Handler(c, e);
      if c.log.status.Some? then
        r.0.inet6 == c.inet6 && r.0.rb == c.rb && r.0.log.status == c.log.status && r.0.log.reply == c.log.reply
      else
        c.log.reply == []
        && r == if c.state == STATE_RESOLVE then ResolutionBlock(c, e.a) else Session.ConnectWrite(c, e.side, e.a)
  {
    hide Sound, ForwardRead, ForwardWrite, ResolutionBlock, Session.ConnectWrite;
  }

  /** While a request is carried out no event changes what is stored of it, and once it is answered none makes another
      reply. */
  lemma StepPursues(c: Conn, e: Session.Event, aim: Aim)
    requires Inv(c) && Session.Possible(c, e) && Session.Enabled(c, e) && Session.Step(c, e).Live?
    requires Pursues(c, aim)
    ensures Pursues(Session.Step(c, e).c, aim)
  {
    PursuingHandlers(c, e);
    if c.log.status == None {
      if c.state == STATE_RESOLVE {
        ResolutionBlockPursues(c, e.a);
      }
      ConnectWritePursues(c, e.side, e.a);
    }
    hide Inv, Handler, Session.Possible, Session.Enabled, Answered, ResolutionBlock, Session.ConnectWrite;
  }

  lemma {:induction false} RunPursues(c: Conn, events: seq<Session.Event>, end: Conn, aim: Aim)
    requires Inv(c) && Pursues(c, aim) && Session.Run(c, events, Live(end))
    ensures Inv(end) && Pursues(end, aim)
    decreases |events|
  {
    hide Inv, Pursues, Session.Step, Session.Possible, Session.Enabled;
    if events != [] {
      StepKeepsInv(c, events[0]);
      var s := Session.Step(c, events[0]);
      if s.Live? {
        StepPursues(c, events[0], aim);
        RunPursues(s.c, events[1..], end, aim);
      }
    }
  }

  /** The client's request is the event e, on a session that waits for one. */
  ghost predicate Requested(c: Conn, q: Request, tail: seq<byte>, e: Session.Event) {
    Inv(c) && c.state == STATE_REQUEST && Listening(c) && e.kind.Read? && ArrivesWhole(c, q, tail, e.a)
  }

  /** The first event of such a run. */
  lemma RequestStep(c: Conn, q: Request, tail: seq<byte>, e: Session.Event)
    requires Requested(c, q, tail, e) && Session.Possible(c, e) && Session.Enabled(c, e)
    ensures var s := Session.Step(c, e); s.Live? ==> Pursues(s.c, AimOf(c, q, tail, e.a))
  {
    hide RequestRead, AimOf, Pursues, Sound, Armed;
    RequestPursued(c, q, tail, e.a);
  }

  lemma {:induction false} RequestFollowed(c: Conn, q: Request, tail: seq<byte>, e: Session.Event,
                                           events: seq<Session.Event>, end: Conn)
    requires Requested(c, q, tail, e) && Session.Run(c, [e] + events, Live(end))
    ensures Inv(end) && Pursues(end, AimOf(c, q, tail, e.a))
  {
    hide Inv, Pursues, AimOf, Session.Step, Session.Possible, Session.Enabled, Listening;
    assert ([e] + events)[1..] == events;
    RequestStep(c, q, tail, e);
    StepKeepsInv(c, e);
    RunPursues(Session.Step(c, e).c, events, end, AimOf(c, q, tail, e.a));
  }

  /** Whatever happens after a request that has arrived whole, be it over many events, it is answered SUCCESS or
      HOST_UNREACHABLE if at all. The reply is 05, that status and 00, followed by the request from its address type
      on, iff a domain holds no zero byte and the port survives its storage; a name that resolves to nothing is
      answered with an empty one in its place. */
  lemma {:induction false} ReplyEchoesRequest(c: Conn, q: Request, tail: seq<byte>, e: Session.Event,
                                              events: seq<Session.Event>, end: Conn)
    requires Requested(c, q, tail, e) && Session.Run(c, [e] + events, Live(end)) && end.log.status.Some?
    ensures var status := end.log.status.value;
      var echo := [SOCKS5_VERSION, status, 0] + q.Wire()[3..];
      && (status == SUCCESS || status == HOST_UNREACHABLE)
      && ((end.log.reply == echo
           <==> (q.atyp == DOMAIN_NAME_ATYP ==> NulFree(q.address[1..])) && PortKept(q.Port(), c.port[5]))
          || (status == HOST_UNREACHABLE && q.atyp == DOMAIN_NAME_ATYP
              && (end.log.reply == [SOCKS5_VERSION, HOST_UNREACHABLE, 0, q.atyp, 0, q.hi, q.lo]
                  <==> PortKept(q.Port(), c.port[5]))))
  {
    hide Session.Run, StoredHost, StoredPort, Decimal, PortKept, NulFree, ReplyFor, Inv, NothingFound;
    RequestFollowed(c, q, tail, e, events, end);
    ReplyRoundTrip(c.inet6, end.log.status.value, q, c.host, c.port);
    if q.atyp == DOMAIN_NAME_ATYP {
      NothingFoundReply(AimOf(c, q, tail, e.a), q, c.port);
    }
  }

  lemma NothingFoundReply(aim: Aim, q: Request, port0: seq<byte>)
    requires aim.atyp == DOMAIN_NAME_ATYP == q.atyp && |port0| == PORT_MAX_LEN && |Decimal(q.Port())| < PORT_MAX_LEN
    requires aim.port == StoredPort(port0, Decimal(q.Port()))
    ensures NothingFound(aim) == [SOCKS5_VERSION, HOST_UNREACHABLE, 0, q.atyp, 0, q.hi, q.lo]
       <==> PortKept(q.Port(), port0[5])
  {
    hide StoredPort, Decimal, PortKept, PortField;
    PortRoundTrip(port0, q.Port(), aim.atyp);
    var p := PortField(aim.port + [aim.atyp]);
    assert CStr([0]) == [];
    assert AddressField(aim.inet6, DOMAIN_NAME_ATYP, [0]) == [0];
    PortFieldLength(aim.port + [aim.atyp]);
    assert q.Port() / 256 == q.hi && q.Port() % 256 == q.lo;
    assert NothingFound(aim) == [SOCKS5_VERSION, HOST_UNREACHABLE, 0, q.atyp, 0] + p;
    assert NothingFound(aim)[5..] == p;
    assert [SOCKS5_VERSION, HOST_UNREACHABLE, 0, q.atyp, 0] + [q.hi, q.lo]
        == [SOCKS5_VERSION, HOST_UNREACHABLE, 0, q.atyp, 0, q.hi, q.lo];
    assert [SOCKS5_VERSION, HOST_UNREACHABLE, 0, q.atyp, 0, q.hi, q.lo][5..] == [q.hi, q.lo];
  }

  /** RFC 1928, sections 4 and 6, end to end and over every run: if a request that has arrived whole is answered
      SUCCESS, be it many events later, after resolving a name and trying addresses, the reply is 05 00 00 followed by
      the request from its address type on, iff a domain holds no zero byte and the port survives its storage in memory
      whose last cell was never written. */
  lemma {:induction false} SuccessEchoesRequest(c: Conn, q: Request, tail: seq<byte>, e: Session.Event,
                                                events: seq<Session.Event>, end: Conn)
    requires Requested(c, q, tail, e) && Session.Run(c, [e] + events, Live(end))
    ensures end.log.status == Some(SUCCESS) ==>
      (end.log.reply == [SOCKS5_VERSION, SUCCESS, 0] + q.Wire()[3..]
       <==> (q.atyp == DOMAIN_NAME_ATYP ==> NulFree(q.address[1..])) && PortKept(q.Port(), c.port[5]))
  {
    hide Session.Run, StoredHost, StoredPort, Decimal, PortKept, NulFree, ReplyFor, Inv;
    RequestFollowed(c, q, tail, e, events, end);
    ReplyRoundTrip(c.inet6, SUCCESS, q, c.host, c.port);
  }

  /** A request for a name leads to RESOLVE, where getaddrinfo is given the two fields as texts. These are the name and
      the port requested iff the name holds no zero byte, a name of 255 bytes happens to be followed by one, and so does
      a port of five digits. */
  lemma {:induction false} ResolverAsksForRequest(c: Conn, q: Request, tail: seq<byte>, e: Session.Event)
    requires Requested(c, q, tail, e) && Session.Possible(c, e) && Session.Enabled(c, e) && q.atyp == DOMAIN_NAME_ATYP
    ensures var name := q.address[1..];
      var s := Session.Step(c, e);
      s.Live? ==>
        && s.c.state == STATE_RESOLVE
        && (CStr(HostMemory(s.c)) == name <==> NulFree(name) && (|name| < 255 || c.host[255] == 0))
        && (CStr(PortMemory(s.c)) == Decimal(q.Port()) <==> q.Port() < 10000 || c.port[5] == 0)
  {
    hide RequestRead, StoredHost, StoredPort, Decimal, Inv, NulFree, BeginSearch;
    RequestReadWhole(c, q, tail, e.a);
    TextsFit(c.inet6, q);
    DomainTargetIsRequested(q, c.host, c.port);
  }

  // ---------- What came along with the request ----------

  /** What the client sent along with its request stays in the read buffer, over every run into FORWARDING and beyond.
      So the origin gets all that the client sent after its request iff nothing came along with it. */
  lemma {:induction false} OriginGetsAllIffNothingPipelined(c: Conn, q: Request, tail: seq<byte>, e: Session.Event,
                                                            events: seq<Session.Event>, end: Conn)
    requires Requested(c, q, tail, e) && Session.Run(c, [e] + events, Live(end)) && end.state == STATE_FORWARDING
    ensures end.rb.data == tail
    ensures end.r.origin.sent + end.r.origin.buf.data == end.log.fromClient
    ensures end.r.origin.sent + end.r.origin.buf.data == tail + end.log.fromClient <==> tail == []
  {
    hide Session.Run, Inv, AimOf;
    RequestFollowed(c, q, tail, e, events, end);
    RequestReadWhole(c, q, tail, e.a);
    InvTranscript(end);
    var got := end.log.fromClient;
    assert |tail + got| == |tail| + |got|;
    assert [] + got == got;
  }

  /** What the client sent along with its request stays in the read buffer for good. */
  lemma {:induction false} PipelinedBytesStay(c: Conn, events: seq<Session.Event>, end: Conn)
    requires Inv(c) && c.state == STATE_FORWARDING && Session.Run(c, events, Live(end))
    ensures end.rb == c.rb && end.state == STATE_FORWARDING
    decreases |events|
  {
    hide Inv, Session.Possible, Session.Enabled;
    if events != [] {
      StepKeepsInv(c, events[0]);
      ForwardingStep(c, events[0]);
      var s := Session.Step(c, events[0]);
      if s.Live? {
        PipelinedBytesStay(s.c, events[1..], end);
      }
    }
  }

  lemma ForwardingStep(c: Conn, e: Session.Event)
    requires c.state == STATE_FORWARDING && Session.Possible(c, e)
    ensures Session.Step(c, e).Live? ==>
        Session.Step(c, e).c.rb == c.rb && Session.Step(c, e).c.state == STATE_FORWARDING
  {
    hide ForwardRead, ForwardWrite;
  }
}
