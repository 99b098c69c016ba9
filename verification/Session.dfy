/** One SOCKS5 session (RFC 1928, RFC 1929) as the handlers of socks5_handler.c and states/ run it, on values.
    Two descriptors drive it, the client's and, once there is one, the origin's. */
module Session {
  import opened Bytes
  import opened Io
  import opened Buffer
  import opened Text
  import opened Codec
  import opened Relay
  import Connect
  import Credentials
  import Stm

  // ---------- States and their handlers ----------

  const STATE_HELLO: nat := 0
  const STATE_HELLO_TO_AUTH: nat := 1
  const STATE_AUTH: nat := 2
  const STATE_AUTH_FAILED: nat := 3
  const STATE_REQUEST: nat := 4
  const STATE_RESOLVE: nat := 5
  const STATE_CONNECT: nat := 6
  const STATE_FORWARDING: nat := 7
  const STATE_DONE: nat := 8
  const STATE_ERROR: nat := 9

  /** The -1 that auth_read answers, as an unsigned number. */
  const NO_STATE: nat := 0xFFFF_FFFF

  /** Stands for no answer at all: the process was killed within the handler. No unsigned number is as large. */
  const KILLED: nat := 0x1_0000_0000

  /** What a handler answers when send() fails. */
  function FailedSendState(send: Send): nat {
    if send == SendFail(true) then KILLED else STATE_ERROR
  }

  const AUTH_VERSION: byte := 1
  const NO_AUTH_METHOD: byte := 0
  const AUTH_METHOD: byte := 2

  function Def(read: bool, write: bool, block: bool): Stm.StateDef {
    Stm.StateDef(false, false, read, write, block)
  }

  const SOCKS5_STATES: seq<Stm.StateDef> := [
    Def(true, true, false),    // hello_read, hello_write
    Def(false, true, false),   // hello_to_auth_write
    Def(true, true, false),    // auth_read, auth_write
    Def(false, true, false),   // auth_failed_write
    Def(true, true, false),    // request_read, request_write
    Def(false, false, true),   // resolution_block
    Def(false, true, false),   // connect_write
    Def(true, true, false),    // forward_read, forward_write
    Def(false, false, false),
    Def(false, false, false)
  ]

  // ---------- A connection ----------

  /** What has happened so far: the three replies written, the decisions behind them, the bytes received while
      forwarding, and whether the address search ended on an event of the origin's descriptor. */
  datatype Log = Log(
    greeting: seq<byte>, auth: seq<byte>, reply: seq<byte>,
    chosen: Option<byte>, login: Option<byte>, status: Option<byte>,
    fromOrigin: seq<byte>, fromClient: seq<byte>,
    stranded: bool)

  /** r holds write_buffer with the client's interest and origin_write_buffer with the origin's. fds are the
      descriptors registered with this connection as their data; released counts how often it was freed. */
  datatype Conn = Conn(
    state: nat,
    r: Links,
    rb: Buf,
    hasOrigin: bool,
    fds: set<Side>,
    references: nat,
    released: nat,
    addrs: nat,
    cursor: nat,
    host: seq<byte>,
    port: seq<byte>,
    atyp: byte,
    inet6: Inet6,
    log: Log)
  {
    function Pending(): seq<byte> {
      r.client.buf.data
    }
  }

  /** What the system answers during one event. users is what the credential store holds at that time. */
  datatype Answers = Answers(
    recv: Recv, send: Send,
    users: Credentials.Users,
    threadStarted: bool,
    resolved: Option<nat>,
    soError: bool,
    attempt: nat -> Connect.Attempt)

  datatype Event = Event(kind: Stm.Kind, side: Side, a: Answers)

  // ---------- Small steps of handlers ----------

  /** selector_set_interest, which does nothing for a descriptor that is not registered. */
  function Wait(c: Conn, side: Side, i: Interest): Conn {
    if side in c.fds then c.(r := c.r.With(side, c.r.Of(side).Wait(i))) else c
  }

  /** Resets write_buffer, whatever it holds, and writes to it. */
  function Refill(c: Conn, bytes: seq<byte>): Conn {
    var l := c.r.client;
    c.(r := c.r.(client := Link(l.buf.Reset().PutAll(bytes), l.interest, l.accepted + bytes, l.sent)))
  }

  function PutReply(c: Conn, status: byte, host: seq<byte>, port: seq<byte>): Conn {
    var bytes := Reply(c.inet6, status, c.atyp, host, port);
    Refill(c, bytes).(log := c.log.(reply := c.log.reply + bytes, status := Some(status)))
  }

  /** The memory behind the pointers origin_host and origin_port. */
  function HostMemory(c: Conn): seq<byte> {
    c.host + c.port + [c.atyp]
  }

  function PortMemory(c: Conn): seq<byte> {
    c.port + [c.atyp]
  }

  /** send() of what write_buffer holds. */
  function SendClient(c: Conn, send: Send): Conn {
    c.(r := c.r.(client := c.r.client.Drain(Clamp(send, |c.Pending()|))))
  }

  /** selector_unregister_fd: the close callback drops a reference and frees the connection with the last one. */
  function Unregister(c: Conn, side: Side): Conn
    requires side in c.fds
  {
    var refs := if c.references > 0 then c.references - 1 else 0;
    c.(fds := c.fds - {side}, references := refs, released := c.released + if refs == 0 then 1 else 0)
  }

  /** A length byte and as many bytes as it says, or as there are. */
  function FieldOf(v: Buf): seq<byte> {
    v.Rest().data[..Min(v.NextByte(), |v.Rest().data|)]
  }

  function AfterField(v: Buf): Buf {
    v.Rest().Pop(Min(v.NextByte(), |v.Rest().data|))
  }

  // ---------- HELLO ----------

  function HelloWriteAux(c: Conn, send: Send, next: nat, current: nat): (r: (Conn, nat))
    ensures r.0.state == c.state
    ensures r.1 in {next, current, STATE_ERROR, KILLED}
  {
    if c.Pending() == [] then (c, current)
    else if send.SendAgain? then (c, current)
    else if send.SendFail? then (c, FailedSendState(send))
    else
      var c' := SendClient(c, send);
      if c'.Pending() != [] then (c', current) else (Wait(c', Client, OP_READ), next)
  }

  function HelloReply(c: Conn, chosen: byte): Conn {
    var bytes := [SOCKS5_VERSION, chosen];
    var c' := Refill(c, bytes).(log := c.log.(greeting := c.log.greeting + bytes, chosen := Some(chosen)));
    Wait(c', Client, OP_WRITE)
  }

  function HelloRead(c: Conn, a: Answers): (r: (Conn, nat))
    ensures r.0.state == c.state
    ensures r.1 <= STATE_ERROR || r.1 == KILLED
  {
    match a.recv
    case RecvAgain => (c, STATE_HELLO)
    case RecvFail => (c, STATE_ERROR)
    case Eof => (c, STATE_DONE)
    case Data(bs) =>
      var v := c.rb.Push(bs);
      var available := |v.data|;
      if available < 2 then (c.(rb := v), STATE_HELLO)
      else if v.NextByte() != SOCKS5_VERSION then (c.(rb := v.Rest()), STATE_ERROR)
      else
        var n := v.Rest().NextByte();
        var v' := v.Rest().Rest();
        if n == 0 then (c.(rb := v'), STATE_ERROR)
        // the count is truncated to eight bits before it is compared
        else if available % 256 < 2 + n as int then (c.(rb := v'), STATE_HELLO)
        else
          var methods := v'.data[..Min(n, |v'.data|)];
          var c' := c.(rb := v'.Pop(|methods|));
          if AUTH_METHOD in methods then
            HelloWriteAux(HelloReply(c', AUTH_METHOD), a.send, STATE_AUTH, STATE_HELLO_TO_AUTH)
          else
            HelloWriteAux(HelloReply(c', NO_AUTH_METHOD), a.send, STATE_REQUEST, STATE_HELLO)
  }

  // ---------- AUTH ----------

  function AuthWriteAux(c: Conn, send: Send, status: byte, current: nat): (r: (Conn, nat))
    ensures r.0.state == c.state
    ensures r.1 in {STATE_AUTH, current, STATE_ERROR, KILLED, STATE_HELLO_TO_AUTH, STATE_REQUEST}
  {
    if c.Pending() == [] then (c, STATE_AUTH)
    else if send.SendAgain? then (c, current)
    else if send.SendFail? then (c, FailedSendState(send))
    else
      var c' := SendClient(c, send);
      if c'.Pending() != [] then (c', current)
      else if status != 0 then (c', STATE_HELLO_TO_AUTH)
      else (Wait(c', Client, OP_READ), STATE_REQUEST)
  }

  function LoginReply(c: Conn, status: byte): Conn {
    var bytes := [AUTH_VERSION, status];
    var c' := Refill(c, bytes).(log := c.log.(auth := c.log.auth + bytes, login := Some(status)));
    Wait(c', Client, OP_WRITE)
  }

  /** credentials_are_valid. */
  function LoginStatus(users: Credentials.Users, name: CString, pass: CString): byte {
    if name in users && users[name] == pass then 0 else 1
  }

  /** A char[256] array that starts out zeroed. */
  function FieldText(field: seq<byte>): CString {
    CStr(field + [0])
  }

  function AuthRead(c: Conn, a: Answers): (r: (Conn, nat))
    ensures r.0.state == c.state
    ensures r.1 <= STATE_ERROR || r.1 == NO_STATE || r.1 == KILLED
    ensures r.1 == NO_STATE <==>
      a.recv.Data? && c.rb.data + a.recv.bs != [] && (c.rb.data + a.recv.bs)[0] != AUTH_VERSION
  {
    match a.recv
    case RecvAgain => (c, STATE_ERROR)
    case RecvFail => (c, STATE_ERROR)
    case Eof => (c, STATE_DONE)
    case Data(bs) =>
      var v := c.rb.Push(bs);
      if v.data == [] then (c.(rb := v), STATE_REQUEST)
      else if v.NextByte() != AUTH_VERSION then (c.(rb := v.Rest()), NO_STATE)
      else
        var v1 := v.Rest();
        var v2 := AfterField(v1);
        var status := LoginStatus(a.users, FieldText(FieldOf(v1)), FieldText(FieldOf(v2)));
        var c' := LoginReply(c.(rb := AfterField(v2)), status);
        if status != 0 then AuthWriteAux(c', a.send, 1, STATE_AUTH_FAILED)
        else AuthWriteAux(c', a.send, 0, STATE_AUTH)
  }

  // ---------- CONNECT ----------

  function DropOrigin(c: Conn): Conn {
    (if Origin in c.fds then Unregister(c, Origin) else c).(hasOrigin := false)
  }

  /** The connection under way has succeeded. */
  function Established(c: Conn): (r: (Conn, nat))
    ensures r.0.state == c.state
    ensures r.1 <= STATE_ERROR
  {
    if Client !in c.fds then (c.(hasOrigin := false), STATE_ERROR)
    else
      var c' := PutReply(Wait(c, Client, OP_WRITE), SUCCESS, HostMemory(c), PortMemory(c));
      (c'.(cursor := c'.addrs), STATE_REQUEST)
  }

  /** No address is left. The descriptor of the handler's key is armed, which for the origin's has just been
      unregistered. */
  function GaveUp(c: Conn, side: Side): (r: (Conn, nat))
    ensures r.0.state == c.state
    ensures r.1 <= STATE_ERROR
  {
    var c' := Wait(PutReply(c, HOST_UNREACHABLE, HostMemory(c), PortMemory(c)), side, OP_WRITE);
    (c'.(cursor := c'.addrs, log := c'.log.(stranded := side == Origin)), STATE_REQUEST)
  }

  /** connect_write, called with the client's key or the origin's. */
  function ConnectWrite(c: Conn, side: Side, a: Answers): (r: (Conn, nat))
    ensures r.0.state == c.state
    ensures r.1 <= STATE_ERROR
  {
    var search := Connect.Search(c.addrs, c.cursor, c.hasOrigin);
    var (search', result) := Connect.Advance(search, a.soError, a.attempt);
    // the connection that was under way has failed
    var c1 := if c.cursor < c.addrs && c.hasOrigin && a.soError then DropOrigin(c) else c;
    var c2 := c1.(cursor := search'.cursor);
    match result
    case Waiting =>
      (c2.(hasOrigin := true, fds := c2.fds + {Origin}, references := c2.references + 1,
           r := c2.r.(origin := c2.r.origin.Wait(OP_WRITE))), STATE_CONNECT)
    case Broken => (c2, STATE_ERROR)
    case Connected => Established(c2)
    case Exhausted => GaveUp(c2, side)
  }

  /** The search begins at the head of a list of addresses. */
  function BeginSearch(c: Conn, addrs: nat, a: Answers): (r: (Conn, nat))
    ensures r.0.state == c.state
    ensures r.1 <= STATE_ERROR
  {
    ConnectWrite(Wait(c.(addrs := addrs, cursor := 0), Client, OP_NOOP), Client, a)
  }

  // ---------- REQUEST ----------

  /** The text of a literal address must read back as one. */
  function CreateRes(c: Conn, readable: bool, a: Answers): (r: (Conn, nat))
    ensures r.0.state == c.state
    ensures r.1 <= STATE_ERROR
  {
    if !readable then (c, STATE_ERROR) else BeginSearch(c, 1, a)
  }

  function Store(c: Conn, p: Parsed): Conn
    requires p.Parsed?
  {
    if |c.host| == HOST_MAX_LEN && |c.port| == PORT_MAX_LEN && |p.host| < HOST_MAX_LEN && |p.port| < PORT_MAX_LEN
    then c.(rb := p.rest, host := StoredHost(c.host, p.host), port := StoredPort(c.port, p.port))
    else c.(rb := p.rest)
  }

  /** What follows the header of a CONNECT request. */
  function AddressOf(c: Conn, a: Answers): (r: (Conn, nat))
    ensures r.0.state == c.state
    ensures r.1 <= STATE_ERROR
  {
    match ParseAddress(c.inet6, c.atyp, c.rb)
    case None =>
      (Wait(PutReply(c, UNSUPPORTED_ATYP, Zeros(HOST_MAX_LEN), Zeros(PORT_MAX_LEN)), Client, OP_WRITE), STATE_REQUEST)
    case Some(Incomplete) => (c, STATE_REQUEST)
    case Some(p) =>
      var c' := Store(c, p);
      if c.atyp == IPV4_ATYP then CreateRes(c', InetPton4(CStr(p.host)).Some?, a)
      else if c.atyp == DOMAIN_NAME_ATYP then (c', if a.threadStarted then STATE_RESOLVE else STATE_ERROR)
      else CreateRes(c', c.inet6.pton(CStr(p.host)).Some?, a)
  }

  function RequestRead(c: Conn, a: Answers): (r: (Conn, nat))
    ensures r.0.state == c.state
    ensures r.1 <= STATE_ERROR
  {
    match a.recv
    case RecvAgain => (c, STATE_ERROR)
    case RecvFail => (c, STATE_ERROR)
    case Eof => (c, STATE_DONE)
    case Data(bs) =>
      var v := c.rb.Push(bs);
      if |v.data| < 4 then (c.(rb := v), STATE_REQUEST)
      else if v.NextByte() != SOCKS5_VERSION then (c.(rb := v.Rest()), STATE_ERROR)
      else
        var cmd := v.Rest().NextByte();
        var atyp := v.Rest().Rest().Rest().NextByte();
        var v' := v.Rest().Rest().Rest().Rest();
        var c1 := c.(rb := v', atyp := atyp);
        if cmd != CONNECT_CMD then
          (Wait(PutReply(c1, UNSUPPORTED_COMMAND, [0], [0]), Client, OP_WRITE), STATE_REQUEST)
        else AddressOf(c1, a)
  }

  /** Whichever descriptor is writable, the reply goes to the client. */
  function RequestWrite(c: Conn, a: Answers): (r: (Conn, nat))
    ensures r.0.state == c.state
    ensures r.1 <= STATE_ERROR || r.1 == KILLED
  {
    if !a.send.Sent? then (c, FailedSendState(a.send))
    else
      var c' := SendClient(c, a.send);
      if c'.Pending() != [] then (c', STATE_REQUEST)
      else if !c'.hasOrigin then (c', STATE_DONE)
      else if Client !in c'.fds then (c', STATE_ERROR)
      else if Origin !in c'.fds then (Wait(c', Client, OP_READ), STATE_ERROR)
      else (Wait(Wait(c', Client, OP_READ), Origin, OP_READ), STATE_FORWARDING)
  }

  // ---------- RESOLVE ----------

  function ResolutionBlock(c: Conn, a: Answers): (r: (Conn, nat))
    ensures r.0.state == c.state
    ensures r.1 <= STATE_ERROR
  {
    match a.resolved
    case None => (Wait(PutReply(c, HOST_UNREACHABLE, HostMemory(c), PortMemory(c)), Client, OP_WRITE), STATE_REQUEST)
    case Some(n) =>
      if n == 0 then (Wait(PutReply(c, HOST_UNREACHABLE, [0], PortMemory(c)), Client, OP_WRITE), STATE_REQUEST)
      else BeginSearch(c, n, a)
  }

  // ---------- FORWARDING ----------

  function StateOf(o: Outcome): nat {
    match o case Forwarding => STATE_FORWARDING case Done => STATE_DONE case Failed => STATE_ERROR case Killed => KILLED
  }

  function ReadSend(c: Conn, side: Side, a: Answers): Send {
    Clamp(a.send, |c.r.Of(side.Other()).buf.data| + if a.recv.Data? then |a.recv.bs| else 0)
  }

  function RelayRead(c: Conn, side: Side, a: Answers): (r: (Conn, nat))
    requires CanRecv(a.recv, c.r.Of(side.Other()).buf.Room())
    ensures r.0.state == c.state
  {
    var (r', o) := ForwardRead(c.r, side, a.recv, ReadSend(c, side, a));
    var got := if a.recv.Data? then a.recv.bs else [];
    var log' := if side == Origin then c.log.(fromOrigin := c.log.fromOrigin + got)
                else c.log.(fromClient := c.log.fromClient + got);
    (c.(r := r', log := log'), StateOf(o))
  }

  function RelayWrite(c: Conn, side: Side, a: Answers): (r: (Conn, nat))
    ensures r.0.state == c.state
  {
    var (r', o) := ForwardWrite(c.r, side, Clamp(a.send, |c.r.Of(side).buf.data|));
    (c.(r := r'), StateOf(o))
  }

  // ---------- One event ----------

  /** The room recv() is given. */
  function RecvRoom(c: Conn, side: Side): int {
    if c.state == STATE_FORWARDING then c.r.Of(side.Other()).buf.Room() else c.rb.Room()
  }

  predicate Possible(c: Conn, e: Event) {
    e.kind.Read? ==> CanRecv(e.a.recv, RecvRoom(c, e.side))
  }

  /** What the selector may report: readiness that a registered descriptor waits for, or the end of the name
      resolution under way, which is reported for the client's descriptor. */
  predicate Enabled(c: Conn, e: Event) {
    && e.side in c.fds
    && match e.kind
       case Read => c.r.Of(e.side).interest.read
       case Write => c.r.Of(e.side).interest.write
       case Block => e.side == Client && c.state == STATE_RESOLVE
  }

  /** The handler that the state table names for an event. */
  function Handler(c: Conn, e: Event): (r: (Conn, nat))
    requires c.state < |SOCKS5_STATES| && Stm.Handles(SOCKS5_STATES[c.state], e.kind) && Possible(c, e)
    ensures r.0.state == c.state
  {
    match e.kind
    case Read =>
      if c.state == STATE_HELLO then HelloRead(c, e.a)
      else if c.state == STATE_AUTH then AuthRead(c, e.a)
      else if c.state == STATE_REQUEST then RequestRead(c, e.a)
      else RelayRead(c, e.side, e.a)
    case Write =>
      if c.state == STATE_HELLO then HelloWriteAux(c, e.a.send, STATE_REQUEST, STATE_HELLO)
      else if c.state == STATE_HELLO_TO_AUTH then HelloWriteAux(c, e.a.send, STATE_AUTH, STATE_HELLO_TO_AUTH)
      else if c.state == STATE_AUTH then AuthWriteAux(c, e.a.send, 0, STATE_AUTH)
      else if c.state == STATE_AUTH_FAILED then AuthWriteAux(c, e.a.send, 1, STATE_AUTH_FAILED)
      else if c.state == STATE_REQUEST then RequestWrite(c, e.a)
      else if c.state == STATE_CONNECT then ConnectWrite(c, e.side, e.a)
      else RelayWrite(c, e.side, e.a)
    case Block => ResolutionBlock(c, e.a)
  }

  /** A session goes on, is over, or takes the whole process down, be it by abort() or by SIGPIPE. */
  datatype Result = Live(c: Conn) | Closed(c: Conn) | Aborted

  /** finish: unregisters both descriptors; a descriptor that is not registered is fatal. */
  function Finish(c: Conn): (r: Result)
    ensures !r.Live?
  {
    if Client !in c.fds then Aborted
    else
      var c1 := Unregister(c, Client);
      if !c.hasOrigin then Closed(c1)
      else if Origin !in c1.fds then Aborted
      else Closed(Unregister(c1, Origin))
  }

  function Step(c: Conn, e: Event): Result
    requires c.state < |SOCKS5_STATES| && Possible(c, e)
  {
    if !Stm.Handles(SOCKS5_STATES[c.state], e.kind) then Aborted
    else
      var (c', next) := Handler(c, e);
      if !Stm.Survives(SOCKS5_STATES, STATE_HELLO, Some(c.state), Stm.Event(e.kind, next)) then Aborted
      else if next == STATE_ERROR || next == STATE_DONE then Finish(c'.(state := next))
      else Live(c'.(state := next))
  }

  const NOTHING_YET := Log([], [], [], None, None, None, [], [], false)

  /** accept_connection. The memory of the text fields is whatever malloc returned. */
  function AcceptConnection(limit: nat, inet6: Inet6, host0: seq<byte>, port0: seq<byte>, atyp0: byte): Conn {
    Conn(STATE_HELLO,
         Links(Link(Empty(limit), OP_READ, [], []), Link(Empty(limit), OP_NOOP, [], []), 0),
         Empty(limit), false, {Client}, 1, 0, 0, 0, host0, port0, atyp0, inet6, NOTHING_YET)
  }

  const BUFFER_SIZE: nat := 16384

  /** Events reported one after the other to a session that is still live. */
  ghost predicate Run(c: Conn, events: seq<Event>, end: Result)
    decreases |events|
  {
    if events == [] then end == Live(c)
    else
      && c.state < |SOCKS5_STATES| && Possible(c, events[0]) && Enabled(c, events[0])
      && var s := Step(c, events[0]);
         if s.Live? then Run(s.c, events[1..], end) else events[1..] == [] && end == s
  }
}
