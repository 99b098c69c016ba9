/** SOCKS5 requests and replies (sections 4 and 6 of RFC 1928): the address parsers of states/state_request.c and
    the reply writers of states/state_utils.c. Addresses travel through memory as C text in between. */
module Codec {
  import opened Bytes
  import opened Buffer
  import opened Text

  const SOCKS5_VERSION: byte := 5
  const CONNECT_CMD: byte := 1
  const RSV: byte := 0
  const IPV4_ATYP: byte := 1
  const DOMAIN_NAME_ATYP: byte := 3
  const IPV6_ATYP: byte := 4
  const SUCCESS: byte := 0
  const HOST_UNREACHABLE: byte := 4
  const UNSUPPORTED_COMMAND: byte := 7
  const UNSUPPORTED_ATYP: byte := 8
  const HOST_MAX_LEN: nat := 256
  const PORT_MAX_LEN: nat := 6

  /** The library's text form of IPv6 addresses, of which only its being a round trip matters. */
  datatype Inet6 = Inet6(ntop: seq<byte> -> seq<byte>, pton: seq<byte> -> Option<seq<byte>>) {
    ghost predicate RoundTrips() {
      && (forall a :: |a| == 16 ==> pton(ntop(a)) == Some(a) && |ntop(a)| <= 45 && NulFree(ntop(a)))
      && (forall s :: pton(s).Some? ==> |pton(s).value| == 16)
    }
  }

  // ---------- Replies ----------

  /** BND.ADDR, from the text in memory at host; zeros when it is no address. */
  function AddressField(inet6: Inet6, atyp: byte, host: seq<byte>): seq<byte> {
    var s := CStr(host);
    if atyp == IPV4_ATYP then
      match InetPton4(s) case Some(a) => a case None => Zeros(4)
    else if atyp == DOMAIN_NAME_ATYP then
      var len: byte := Min(|s|, 255);
      [len] + s[..len]
    else if atyp == IPV6_ATYP then
      match inet6.pton(s) case Some(a) => a case None => Zeros(16)
    else Zeros(4)
  }

  function PortField(port: seq<byte>): seq<byte> {
    var p := Atoi(port) % 0x10000;
    [p / 256, p % 256]
  }

  function ErrorFields(atyp: byte): seq<byte> {
    Zeros((if atyp == DOMAIN_NAME_ATYP then 1 else if atyp == IPV6_ATYP then 16 else 4) + 2)
  }

  /** A reply; host and port are the memory the two pointers lead to. */
  function Reply(inet6: Inet6, status: byte, atyp: byte, host: seq<byte>, port: seq<byte>): seq<byte> {
    [SOCKS5_VERSION, status, RSV, atyp]
    + if status == UNSUPPORTED_ATYP then ErrorFields(atyp) else AddressField(inet6, atyp, host) + PortField(port)
  }

  lemma ReplyLength(inet6: Inet6, status: byte, atyp: byte, host: seq<byte>, port: seq<byte>)
    requires inet6.RoundTrips()
    ensures 7 <= |Reply(inet6, status, atyp, host, port)| <= 262
  {
  }

  /** For the address types of the standard, every reply is well formed: after the four header bytes come an address
      field as long as its type says, a domain's with its length in front, and two bytes of port. */
  lemma ReplyIsWellFormed(inet6: Inet6, status: byte, atyp: byte, host: seq<byte>, port: seq<byte>)
    requires inet6.RoundTrips() && atyp in {IPV4_ATYP, DOMAIN_NAME_ATYP, IPV6_ATYP}
    ensures var r := Reply(inet6, status, atyp, host, port);
      && 7 <= |r| && r[..4] == [SOCKS5_VERSION, status, RSV, atyp]
      && |r| == 4 + 2 + if atyp == IPV4_ATYP then 4 else if atyp == IPV6_ATYP then 16 else 1 + r[4] as int
  {
    var body := if status == UNSUPPORTED_ATYP then ErrorFields(atyp)
        else AddressField(inet6, atyp, host) + PortField(port);
    assert Reply(inet6, status, atyp, host, port) == [SOCKS5_VERSION, status, RSV, atyp] + body;
  }

  lemma {:induction false} PutAllAppend(v: Buf, a: seq<byte>, b: seq<byte>)
    ensures v.PutAll(a + b) == v.PutAll(a).PutAll(b)
    decreases |a|
  {
    if a == [] {
      assert a + b == b;
    } else {
      assert (a + b)[1..] == a[1..] + b;
      PutAllAppend(v.PutByte(a[0]), a[1..], b);
    }
  }

  /** A loop of buffer_write. */
  method WriteAll(b: Buffer, bytes: seq<byte>)
    requires b.Valid()
    modifies b, b.data
    ensures b.Valid() && b.Value() == old(b.Value()).PutAll(bytes)
  {
    for i := 0 to |bytes|
      invariant b.Valid() && b.Value() == old(b.Value()).PutAll(bytes[..i])
    {
      PutAllAppend(old(b.Value()), bytes[..i], [bytes[i]]);
      assert bytes[..i + 1] == bytes[..i] + [bytes[i]];
      assert [bytes[i]][1..] == [];
      b.Write(bytes[i]);
    }
    assert bytes[..|bytes|] == bytes;
  }

  method WriteAddress(b: Buffer, inet6: Inet6, atyp: byte, host: seq<byte>)
    requires b.Valid()
    modifies b, b.data
    ensures b.Valid() && b.Value() == old(b.Value()).PutAll(AddressField(inet6, atyp, host))
  {
    var s := CStr(host);
    if atyp == IPV4_ATYP {
      var a := InetPton4(s);
      if a.Some? {
        WriteAll(b, a.value);
      } else {
        WriteAll(b, Zeros(4));
      }
    } else if atyp == DOMAIN_NAME_ATYP {
      var len := |s|;
      if len > 255 {
        len := 255;
      }
      PutAllAppend(b.Value(), [len], s[..len]);
      assert [len][1..] == [];
      b.Write(len);
      WriteAll(b, s[..len]);
    } else if atyp == IPV6_ATYP {
      var a := inet6.pton(s);
      if a.Some? {
        WriteAll(b, a.value);
      } else {
        WriteAll(b, Zeros(16));
      }
    } else {
      WriteAll(b, Zeros(4));
    }
  }

  /** write_response: discards what the buffer holds and writes a reply. */
  method WriteResponse(b: Buffer, inet6: Inet6, status: byte, atyp: byte, host: seq<byte>, port: seq<byte>)
    requires b.Valid()
    modifies b, b.data
    ensures b.Valid() && b.Value() == old(b.Value()).Reset().PutAll(Reply(inet6, status, atyp, host, port))
  {
    ghost var v := b.Value().Reset();
    var head := [SOCKS5_VERSION, status, RSV, atyp];
    b.Reset();
    WriteAll(b, head);
    if status == UNSUPPORTED_ATYP {
      WriteAll(b, ErrorFields(atyp));
      PutAllAppend(v, head, ErrorFields(atyp));
      return;
    }
    ghost var address := AddressField(inet6, atyp, host);
    WriteAddress(b, inet6, atyp, host);
    var p := Atoi(port) % 0x10000;
    WriteAll(b, [p / 256, p % 256]);
    PutAllAppend(v.PutAll(head), address, PortField(port));
    PutAllAppend(v, head, address + PortField(port));
  }

  // ---------- Parsing ----------

  /** What a parser leaves in the zeroed char arrays host and port. */
  datatype Parsed = Incomplete | Parsed(host: seq<byte>, port: seq<byte>, rest: Buf)

  /** `buffer_read << 8 | buffer_read`, in network order; missing bytes read as 0. */
  function ReadPort(v: Buf): nat {
    256 * v.NextByte() + v.Rest().NextByte()
  }

  function ParseIpv4(v: Buf): Parsed {
    if |v.data| < 6 then Incomplete
    else
      var a := v.data;
      var v' := v.Pop(4);
      Parsed(Dotted(a[0], a[1], a[2], a[3]), Decimal(ReadPort(v')), v'.Rest().Rest())
  }

  function ParseDomain(v: Buf): Parsed {
    if |v.data| < 1 then Incomplete
    else
      var v1 := v.Pop(1);
      var n := Min(v.data[0], |v1.data|);
      var v2 := v1.Pop(n);
      Parsed(v1.data[..n], Decimal(ReadPort(v2)), v2.Rest().Rest())
  }

  function ParseIpv6(inet6: Inet6, v: Buf): Parsed {
    if |v.data| < 18 then Incomplete
    else
      var v' := v.Pop(16);
      Parsed(inet6.ntop(v.data[..16]), Decimal(ReadPort(v')), v'.Rest().Rest())
  }

  /** The address and port that follow the header; None for an address type that is not supported. */
  function ParseAddress(inet6: Inet6, atyp: byte, v: Buf): Option<Parsed> {
    if atyp == IPV4_ATYP then Some(ParseIpv4(v))
    else if atyp == DOMAIN_NAME_ATYP then Some(ParseDomain(v))
    else if atyp == IPV6_ATYP then Some(ParseIpv6(inet6, v))
    else None
  }

  /** A zeroed array with a text in front. */
  function Filled(text: seq<byte>, size: nat): seq<byte>
    requires |text| <= size
  {
    text + Zeros(size - |text|)
  }

  lemma PopRest(v: Buf, n: nat)
    requires n < |v.data|
    ensures v.Pop(n).Rest() == v.Pop(n + 1) && v.Pop(n).NextByte() == v.data[n]
  {
  }

  /** One more character into an array whose front holds those before it. */
  method StoreNext(a: array<byte>, c: byte, count: nat, ghost data: seq<byte>, ghost before: seq<byte>)
    requires count < |data| && count < a.Length == |before| && c == data[count]
    requires a[..] == data[..count] + before[count..]
    modifies a
    ensures a[..] == data[..count + 1] + before[count + 1..]
  {
    a[count] := c;
  }

  /** A loop of buffer_read into an array, as long as there are bytes. */
  method ReadInto(buff: Buffer, a: array<byte>, n: nat) returns (count: nat)
    requires buff.Valid() && n <= a.Length && a != buff.data
    modifies buff, buff.data, a
    ensures buff.Valid() && count == Min(n, |old(buff.Value()).data|)
    ensures buff.Value() == old(buff.Value()).Pop(count)
    ensures a[..] == old(buff.Value()).data[..count] + old(a[count..])
  {
    ghost var v := buff.Value();
    count := 0;
    var more := buff.CanRead();
    while count < n && more
      invariant buff.Valid() && count <= n && count <= |v.data|
      invariant buff.Value() == v.Pop(count) && (more <==> count < |v.data|)
      invariant a[..] == v.data[..count] + old(a[..])[count..]
    {
      PopRest(v, count);
      var c := buff.Read();
      StoreNext(a, c, count, v.data, old(a[..]));
      count := count + 1;
      more := buff.CanRead();
    }
  }

  method ReadPortInto(buff: Buffer, port: array<byte>)
    requires buff.Valid() && port.Length == PORT_MAX_LEN && port[..] == Zeros(PORT_MAX_LEN) && port != buff.data
    modifies buff, buff.data, port
    ensures buff.Valid() && buff.Value() == old(buff.Value()).Rest().Rest()
    ensures |Decimal(ReadPort(old(buff.Value())))| <= 5
    ensures port[..] == Filled(Decimal(ReadPort(old(buff.Value()))), PORT_MAX_LEN)
  {
    var hi := buff.Read();
    var lo := buff.Read();
    var n := 256 * (hi as int) + lo;
    var text := Decimal(n);
    DecimalLength(n);
    Snprintf(port, PORT_MAX_LEN, text);
    assert text[..|text|] == text;
  }

  predicate Zeroed(host: array<byte>, port: array<byte>)
    reads host, port
  {
    && host.Length == HOST_MAX_LEN && host[..] == Zeros(HOST_MAX_LEN)
    && port.Length == PORT_MAX_LEN && port[..] == Zeros(PORT_MAX_LEN)
  }

  /** What a parser's return value and effects mean. */
  ghost predicate Delivers(p: Parsed, before: Buf, r: int, host: seq<byte>, port: seq<byte>, after: Buf) {
    if p == Incomplete then r == -1 && after == before
    else r == 0 && after == p.rest && |p.host| <= HOST_MAX_LEN - 1 && |p.port| <= PORT_MAX_LEN - 1
         && host == Filled(p.host, HOST_MAX_LEN) && port == Filled(p.port, PORT_MAX_LEN)
  }

  method GetIpv4Address(buff: Buffer, host: array<byte>, port: array<byte>) returns (r: int)
    requires buff.Valid() && Zeroed(host, port) && host != port && host != buff.data && port != buff.data
    modifies buff, buff.data, host, port
    ensures buff.Valid()
    ensures Delivers(ParseIpv4(old(buff.Value())), old(buff.Value()), r, host[..], port[..], buff.Value())
  {
    var n := buff.ReadableBytes();
    if n < 6 {
      return -1;
    }
    ghost var v := buff.Value();
    var ip := new byte[4](_ => 0);
    var _ := ReadInto(buff, ip, 4);
    assert ip[..] == v.data[..4];
    assert ip[0] == ip[..][0] && ip[1] == ip[..][1] && ip[2] == ip[..][2] && ip[3] == ip[..][3];
    var text := Dotted(ip[0], ip[1], ip[2], ip[3]);
    DottedFits(ip[0], ip[1], ip[2], ip[3]);
    Snprintf(host, HOST_MAX_LEN, text);
    assert text[..|text|] == text;
    ReadPortInto(buff, port);
    return 0;
  }

  method GetDomainName(host: array<byte>, port: array<byte>, buff: Buffer) returns (r: int)
    requires buff.Valid() && Zeroed(host, port) && host != port && host != buff.data && port != buff.data
    modifies buff, buff.data, host, port
    ensures buff.Valid()
    ensures Delivers(ParseDomain(old(buff.Value())), old(buff.Value()), r, host[..], port[..], buff.Value())
  {
    var n := buff.ReadableBytes();
    if n < 1 {
      return -1;
    }
    var len := buff.Read();
    ghost var v := buff.Value();
    var count := ReadInto(buff, host, len);
    assert host[..] == Filled(v.data[..count], HOST_MAX_LEN);
    ghost var filled := host[..];
    host[len] := 0;
    assert filled[len] == 0 && host[..] == filled;
    ReadPortInto(buff, port);
    return 0;
  }

  method GetIpv6Address(inet6: Inet6, buff: Buffer, host: array<byte>, port: array<byte>) returns (r: int)
    requires inet6.RoundTrips()
    requires buff.Valid() && Zeroed(host, port) && host != port && host != buff.data && port != buff.data
    modifies buff, buff.data, host, port
    ensures buff.Valid()
    ensures Delivers(ParseIpv6(inet6, old(buff.Value())), old(buff.Value()), r, host[..], port[..], buff.Value())
  {
    var n := buff.ReadableBytes();
    if n < 18 {
      return -1;
    }
    ghost var v := buff.Value();
    var ip := new byte[16](_ => 0);
    var _ := ReadInto(buff, ip, 16);
    assert ip[..] == v.data[..16];
    var text := inet6.ntop(ip[..]);
    Snprintf(host, HOST_MAX_LEN, text);
    assert text[..|text|] == text;
    ReadPortInto(buff, port);
    return 0;
  }

  // ---------- The connection's copy ----------

  /** The connection keeps host and port by strncpy with one cell to spare, in memory that was never zeroed; the
      port field has as many usable cells as a port has digits. */
  function StoredHost(host0: seq<byte>, host: seq<byte>): (s: seq<byte>)
    requires |host0| == HOST_MAX_LEN && |host| < HOST_MAX_LEN
    ensures |s| == HOST_MAX_LEN
  {
    Strncpy(host0, Filled(host, HOST_MAX_LEN), HOST_MAX_LEN - 1)
  }

  function StoredPort(port0: seq<byte>, port: seq<byte>): (s: seq<byte>)
    requires |port0| == PORT_MAX_LEN && |port| < PORT_MAX_LEN
    ensures |s| == PORT_MAX_LEN
  {
    Strncpy(port0, Filled(port, PORT_MAX_LEN), PORT_MAX_LEN - 1)
  }

  /** The reply for a connection whose fields host, port and address type lie one after the other. */
  function ReplyFor(inet6: Inet6, status: byte, atyp: byte, host: seq<byte>, port: seq<byte>): seq<byte> {
    Reply(inet6, status, atyp, host + port + [atyp], port + [atyp])
  }

  // ---------- Round trip ----------

  datatype Request = Request(rsv: byte, atyp: byte, address: seq<byte>, hi: byte, lo: byte) {

    /** The address field is as long as its type says; a domain carries its length. */
    predicate WellFormed() {
      || (atyp == IPV4_ATYP && |address| == 4)
      || (atyp == DOMAIN_NAME_ATYP && |address| >= 1 && |address| == 1 + address[0] as int)
      || (atyp == IPV6_ATYP && |address| == 16)
    }

    function Wire(): seq<byte> {
      [SOCKS5_VERSION, CONNECT_CMD, rsv, atyp] + (address + [hi, lo])
    }

    function Port(): nat {
      256 * hi + lo
    }

    /** The text the parser makes of the address. */
    function HostText(inet6: Inet6): seq<byte>
      requires WellFormed()
    {
      if atyp == IPV4_ATYP then Dotted(address[0], address[1], address[2], address[3])
      else if atyp == DOMAIN_NAME_ATYP then address[1..]
      else inet6.ntop(address)
    }
  }

  lemma PopPop(v: Buf, m: nat, n: nat)
    requires m + n <= |v.data| && v.Valid()
    ensures v.Pop(m).Pop(n) == v.Pop(m + n)
  {
    if m < |v.data| {
      assert v.data[m..][n..] == v.data[m + n..];
    }
  }

  /** Parsing consumes exactly the request that lies whole in the buffer. */
  lemma ParseWhole(inet6: Inet6, q: Request, tail: seq<byte>, v: Buf)
    requires q.WellFormed() && v.Valid() && v.data == q.Wire() + tail
    ensures var p := ParseAddress(inet6, q.atyp, v.Pop(4));
      && p == Some(Parsed(q.HostText(inet6), Decimal(q.Port()), v.Pop(|q.Wire()|)))
      && p.value.rest.data == tail
  {
    hide ReadPort, Decimal, Dotted, ParseAddress;
    var n := |q.address|;
    var v1 := v.Pop(4);
    assert |q.Wire()| == 6 + n;
    assert q.Wire() + tail == [SOCKS5_VERSION, CONNECT_CMD, q.rsv, q.atyp] + (q.address + [q.hi, q.lo] + tail);
    assert v1.data == q.address + [q.hi, q.lo] + tail;
    PopPop(v, 4, n + 2);
    if q.atyp == DOMAIN_NAME_ATYP {
      DomainWhole(inet6, q, tail, v1);
    } else {
      LiteralWhole(inet6, q, tail, v1);
    }
    assert (q.Wire() + tail)[6 + n..] == tail;
  }

  lemma LiteralWhole(inet6: Inet6, q: Request, tail: seq<byte>, v: Buf)
    requires q.WellFormed() && q.atyp != DOMAIN_NAME_ATYP && v.data == q.address + [q.hi, q.lo] + tail
    ensures ParseAddress(inet6, q.atyp, v) == Some(Parsed(q.HostText(inet6), Decimal(q.Port()), v.Pop(|q.address| + 2)))
  {
    hide ReadPort, Decimal, Dotted;
    PortWhole(v, q.address, q.hi, q.lo, tail);
    assert v.data[..|q.address|] == q.address;
    assert forall i :: 0 <= i < |q.address| ==> v.data[i] == q.address[i];
  }

  lemma DomainWhole(inet6: Inet6, q: Request, tail: seq<byte>, v: Buf)
    requires q.WellFormed() && q.atyp == DOMAIN_NAME_ATYP && v.Valid() && v.data == q.address + [q.hi, q.lo] + tail
    ensures ParseAddress(inet6, q.atyp, v) == Some(Parsed(q.HostText(inet6), Decimal(q.Port()), v.Pop(|q.address| + 2)))
  {
    hide ReadPort, Decimal;
    PortWhole(v, q.address, q.hi, q.lo, tail);
    PopPop(v, 1, |q.address| - 1);
    assert v.data[0] == q.address[0];
    assert v.Pop(1).data == q.address[1..] + [q.hi, q.lo] + tail;
    assert v.Pop(1).data[..|q.address| - 1] == q.address[1..];
  }

  lemma PortWhole(v: Buf, address: seq<byte>, hi: byte, lo: byte, tail: seq<byte>)
    requires v.data == address + [hi, lo] + tail
    ensures ReadPort(v.Pop(|address|)) == 256 * hi + lo
    ensures v.Pop(|address|).Rest().Rest() == v.Pop(|address| + 2)
  {
    var n := |address|;
    assert v.data[n] == hi && v.data[n + 1] == lo;
    PopRest(v, n);
    PopRest(v, n + 1);
  }

  /** The last cell of the port field is never written. What it holds does no harm unless the port has five
      digits and the cell happens to hold another one, which then counts as a sixth; and even so the number may
      come out the same modulo 2^16. */
  predicate PortKept(port: nat, cell: byte) {
    port < 10000 || !IsDigit(cell) || (9 * port + (cell - 48)) % 0x10000 == 0
  }

  lemma FiveDigitsStored(port0: seq<byte>, text: seq<byte>)
    requires |port0| == PORT_MAX_LEN && |text| == 5 && NulFree(text)
    ensures StoredPort(port0, text) == text + [port0[5]]
  {
    CStrIs(text, Zeros(1));
    assert text[..5] == text;
  }

  lemma FewDigitsStored(port0: seq<byte>, text: seq<byte>)
    requires |port0| == PORT_MAX_LEN && |text| < 5 && NulFree(text)
    ensures StoredPort(port0, text) == text + Zeros(5 - |text|) + [port0[5]]
  {
    CStrIs(text, Zeros(6 - |text|));
  }

  /** The number read back from the port field. */
  lemma StoredPortReads(port0: seq<byte>, port: nat, atyp: byte)
    requires |port0| == PORT_MAX_LEN && port < 0x10000 && !IsDigit(atyp)
    ensures |Decimal(port)| <= 5
    ensures Atoi(StoredPort(port0, Decimal(port)) + [atyp])
         == if port >= 10000 && IsDigit(port0[5]) then 10 * port + (port0[5] - 48) else port
  {
    DecimalLength(port);
    var text := Decimal(port);
    var mem := StoredPort(port0, text) + [atyp];
    if |text| < 5 {
      FewDigitsStored(port0, text);
      var rest := Zeros(5 - |text|) + [port0[5]] + [atyp];
      assert mem == text + rest;
      AtoiOfDecimal(port, rest);
    } else {
      FiveDigitsStored(port0, text);
      var rest := [port0[5]] + [atyp];
      assert mem == text + rest;
      AtoiOfDecimal(port, rest);
      assert rest[1..] == [atyp];
    }
  }

  lemma SameModulo(port: nat, d: nat)
    requires port < 0x10000
    ensures (10 * port + d) % 0x10000 == port <==> (9 * port + d) % 0x10000 == 0
  {
  }

  lemma {:induction false} PortRoundTrip(port0: seq<byte>, port: nat, atyp: byte)
    requires |port0| == PORT_MAX_LEN && port < 0x10000 && !IsDigit(atyp)
    ensures |Decimal(port)| <= 5
    ensures PortField(StoredPort(port0, Decimal(port)) + [atyp]) == [port / 256, port % 256]
        <==> PortKept(port, port0[5])
  {
    hide Decimal, StoredPort, Atoi, PortField;
    StoredPortReads(port0, port, atyp);
    var mem := StoredPort(port0, Decimal(port)) + [atyp];
    PortFieldIs(mem, port);
    if port >= 10000 && IsDigit(port0[5]) {
      SameModulo(port, port0[5] - 48);
    } else {
      assert Atoi(mem) == port;
    }
  }

  lemma PortFieldIs(mem: seq<byte>, port: nat)
    requires port < 0x10000
    ensures PortField(mem) == [port / 256, port % 256] <==> Atoi(mem) % 0x10000 == port
  {
    hide Atoi;
    SameBytes(Atoi(mem) % 0x10000, port);
  }

  lemma SameBytes(p: nat, q: nat)
    requires p < 0x10000 && q < 0x10000
    ensures [p / 256, p % 256] == [q / 256, q % 256] <==> p == q
  {
    var a, b := [p / 256, p % 256], [q / 256, q % 256];
    assert p == 256 * a[0] + a[1] && q == 256 * b[0] + b[1];
  }

  lemma HostStored(host0: seq<byte>, text: seq<byte>, rest: seq<byte>)
    requires |host0| == HOST_MAX_LEN && |text| < HOST_MAX_LEN && NulFree(text)
    ensures |text| < HOST_MAX_LEN - 1 ==> CStr(StoredHost(host0, text) + rest) == text
    ensures text <= CStr(StoredHost(host0, text) + rest)
  {
    var z := Zeros(HOST_MAX_LEN - |text|);
    CStrIs(text, z);
    if |text| < HOST_MAX_LEN - 1 {
      var tail := Zeros(HOST_MAX_LEN - 1 - |text|) + host0[HOST_MAX_LEN - 1..] + rest;
      assert StoredHost(host0, text) + rest == text + tail;
      CStrIs(text, tail);
    } else {
      assert text[..HOST_MAX_LEN - 1] == text;
      assert StoredHost(host0, text) + rest == text + (host0[HOST_MAX_LEN - 1..] + rest);
      CStrKeeps(text, host0[HOST_MAX_LEN - 1..] + rest);
    }
  }

  lemma {:induction false} CStrKeeps(s: seq<byte>, rest: seq<byte>)
    requires NulFree(s)
    ensures s <= CStr(s + rest)
  {
    if s != [] {
      assert (s + rest)[1..] == s[1..] + rest;
      CStrKeeps(s[1..], rest);
    }
  }

  /** A domain with a zero byte comes back cut short. */
  lemma CutHostStored(host0: seq<byte>, text: seq<byte>, rest: seq<byte>)
    requires |host0| == HOST_MAX_LEN && |text| < HOST_MAX_LEN && !NulFree(text)
    ensures |CStr(StoredHost(host0, text) + rest)| < |text|
  {
    var z := Zeros(HOST_MAX_LEN - |text|);
    CStrStopsEarly(text, z);
    var s := CStr(text + z);
    var tail := Zeros(HOST_MAX_LEN - 1 - |s|) + host0[HOST_MAX_LEN - 1..] + rest;
    assert StoredHost(host0, text) + rest == s + tail;
    CStrIs(s, tail);
  }

  /** Address texts fit their array, and the reply's address field is the request's iff a domain holds no zero
      byte. A name of 255 bytes fills the field's usable cells, and the cut to 255 in the writer restores it. */
  lemma AddressRoundTrip(inet6: Inet6, q: Request, host0: seq<byte>, rest: seq<byte>)
    requires q.WellFormed() && inet6.RoundTrips() && |host0| == HOST_MAX_LEN
    ensures |q.HostText(inet6)| < HOST_MAX_LEN
    ensures AddressField(inet6, q.atyp, StoredHost(host0, q.HostText(inet6)) + rest) == q.address
       <==> (q.atyp == DOMAIN_NAME_ATYP ==> NulFree(q.address[1..]))
  {
    if q.atyp == IPV4_ATYP {
      DottedFits(q.address[0], q.address[1], q.address[2], q.address[3]);
      HostStored(host0, q.HostText(inet6), rest);
      DottedParses(q.address[0], q.address[1], q.address[2], q.address[3]);
      assert q.address == [q.address[0], q.address[1], q.address[2], q.address[3]];
    } else if q.atyp == DOMAIN_NAME_ATYP {
      var name := q.address[1..];
      assert q.address == [q.address[0]] + name;
      var s := CStr(StoredHost(host0, name) + rest);
      if NulFree(name) {
        HostStored(host0, name, rest);
        assert s[..|name|] == name;
      } else {
        CutHostStored(host0, name, rest);
        assert AddressField(inet6, q.atyp, StoredHost(host0, name) + rest)[0] == |s|;
      }
    } else {
      HostStored(host0, q.HostText(inet6), rest);
    }
  }

  lemma ReplyRoundTrip(inet6: Inet6, status: byte, q: Request, host0: seq<byte>, port0: seq<byte>)
    requires status != UNSUPPORTED_ATYP
    requires q.WellFormed() && inet6.RoundTrips() && |host0| == HOST_MAX_LEN && |port0| == PORT_MAX_LEN
    ensures |q.HostText(inet6)| < HOST_MAX_LEN && |Decimal(q.Port())| < PORT_MAX_LEN
    ensures ReplyFor(inet6, status, q.atyp, StoredHost(host0, q.HostText(inet6)), StoredPort(port0, Decimal(q.Port())))
         == [SOCKS5_VERSION, status, 0] + q.Wire()[3..]
       <==> (q.atyp == DOMAIN_NAME_ATYP ==> NulFree(q.address[1..])) && PortKept(q.Port(), port0[5])
  {
    hide AddressField, PortField, StoredHost, StoredPort, Decimal, PortKept;
    PortRoundTrip(port0, q.Port(), q.atyp);
    var stored := StoredPort(port0, Decimal(q.Port())) + [q.atyp];
    AddressRoundTrip(inet6, q, host0, stored);
    var host := StoredHost(host0, q.HostText(inet6));
    assert host + StoredPort(port0, Decimal(q.Port())) + [q.atyp] == host + stored;
    var a, p := AddressField(inet6, q.atyp, host + stored), PortField(stored);
    assert |p| == 2 by { PortFieldLength(stored); }
    assert q.Port() / 256 == q.hi && q.Port() % 256 == q.lo;
    assert [SOCKS5_VERSION, status, 0] + q.Wire()[3..]
        == [SOCKS5_VERSION, status, 0, q.atyp] + (q.address + [q.hi, q.lo]);
    ConcatEqual([SOCKS5_VERSION, status, 0, q.atyp], a, p, q.address, [q.hi, q.lo]);
  }

  lemma PortFieldLength(mem: seq<byte>)
    ensures |PortField(mem)| == 2
  {
  }

  /** Request to reply: a CONNECT request that lies whole in the buffer is consumed exactly, and the SUCCESS reply
      is 05 00 00 followed by the request from its address type on, iff a domain holds no zero byte and the port
      survives its storage. */
  lemma RequestReplyRoundTrip(inet6: Inet6, q: Request, tail: seq<byte>, v: Buf, host0: seq<byte>, port0: seq<byte>)
    requires q.WellFormed() && inet6.RoundTrips() && v.Valid() && v.data == q.Wire() + tail
    requires |host0| == HOST_MAX_LEN && |port0| == PORT_MAX_LEN
    ensures var p := ParseAddress(inet6, q.atyp, v.Pop(4));
      && p.Some? && p.value.Parsed? && p.value.rest.data == tail
      && |p.value.host| < HOST_MAX_LEN && |p.value.port| < PORT_MAX_LEN
      && (ReplyFor(inet6, SUCCESS, q.atyp, StoredHost(host0, p.value.host), StoredPort(port0, p.value.port))
            == [SOCKS5_VERSION, SUCCESS, 0] + q.Wire()[3..]
          <==> (q.atyp == DOMAIN_NAME_ATYP ==> NulFree(q.address[1..])) && PortKept(q.Port(), port0[5]))
  {
    hide ReplyFor, ParseAddress, StoredHost, StoredPort, Decimal, PortKept;
    ParseWhole(inet6, q, tail, v);
    ReplyRoundTrip(inet6, SUCCESS, q, host0, port0);
  }

  lemma ConcatEqual(h: seq<byte>, a: seq<byte>, p: seq<byte>, a': seq<byte>, p': seq<byte>)
    requires |p| == |p'|
    ensures h + (a + p) == h + (a' + p') <==> a == a' && p == p'
  {
    if h + (a + p) == h + (a' + p') {
      assert |a| == |a'|;
      assert (h + (a + p))[|h|..] == a + p && (h + (a' + p'))[|h|..] == a' + p';
      assert (a + p)[..|a|] == a && (a + p)[|a|..] == p;
    }
  }

  /** A port that does not survive: 10000 stored before a cell holding '0' comes back as 100000 mod 65536. */
  lemma PortCanBeLost()
    ensures PortField(StoredPort(Zeros(5) + [48], Decimal(10000)) + [IPV4_ATYP]) == [134, 160]
    ensures [10000 / 256, 10000 % 256] == [39, 16]
  {
    DecimalLength(10000);
    var text := Decimal(10000);
    FiveDigitsStored(Zeros(5) + [48], text);
    assert StoredPort(Zeros(5) + [48], text) + [IPV4_ATYP] == text + [48, IPV4_ATYP];
    AtoiOfDecimal(10000, [48, IPV4_ATYP]);
    assert [48, IPV4_ATYP][1..] == [IPV4_ATYP];
  }

  /** The address connected to comes from the parser's own arrays, so it is always the one requested. */
  lemma Ipv4TargetIsRequested(q: Request, inet6: Inet6)
    requires q.WellFormed() && q.atyp == IPV4_ATYP
    ensures |q.HostText(inet6)| < HOST_MAX_LEN && |Decimal(q.Port())| < PORT_MAX_LEN
    ensures InetPton4(CStr(Filled(q.HostText(inet6), HOST_MAX_LEN))) == Some(q.address)
    ensures Atoi(Filled(Decimal(q.Port()), PORT_MAX_LEN)) == q.Port()
  {
    var a := q.address;
    DottedFits(a[0], a[1], a[2], a[3]);
    DottedParses(a[0], a[1], a[2], a[3]);
    assert a == [a[0], a[1], a[2], a[3]];
    CStrIs(q.HostText(inet6), Zeros(HOST_MAX_LEN - |q.HostText(inet6)|));
    DecimalLength(q.Port());
    AtoiOfDecimal(q.Port(), Zeros(PORT_MAX_LEN - |Decimal(q.Port())|));
  }

  /** The port text that getaddrinfo is given comes from the connection's field, and any non-zero cell behind five
      digits spoils it. */
  lemma {:induction false} PortTextRoundTrip(port0: seq<byte>, port: nat, rest: seq<byte>)
    requires |port0| == PORT_MAX_LEN && port < 0x10000
    ensures |Decimal(port)| < PORT_MAX_LEN
    ensures CStr(StoredPort(port0, Decimal(port)) + rest) == Decimal(port) <==> port < 10000 || port0[5] == 0
  {
    DecimalLength(port);
    var text := Decimal(port);
    if |text| < 5 {
      FewDigitsStored(port0, text);
      var tail := Zeros(5 - |text|) + [port0[5]] + rest;
      assert StoredPort(port0, text) + rest == text + tail;
      CStrIs(text, tail);
    } else {
      FiveDigitsStored(port0, text);
      TerminatedIff(text, port0[5], rest);
    }
  }

  /** A text reads back exactly iff a zero byte follows. */
  lemma {:induction false} TerminatedIff(text: seq<byte>, cell: byte, rest: seq<byte>)
    requires NulFree(text)
    ensures text + [cell] + rest == text + ([cell] + rest)
    ensures CStr(text + [cell] + rest) == text <==> cell == 0
  {
    assert text + [cell] + rest == text + ([cell] + rest);
    if cell == 0 {
      CStrIs(text, [cell] + rest);
    } else {
      assert text + [cell] + rest == (text + [cell]) + rest;
      CStrKeeps(text + [cell], rest);
    }
  }

  /** Name resolution is asked for the name and the port requested iff the name holds no zero byte, a name that fills
      its field happens to be followed by one, and so does a port of five digits. */
  lemma {:induction false} DomainTargetIsRequested(q: Request, host0: seq<byte>, port0: seq<byte>)
    requires q.WellFormed() && q.atyp == DOMAIN_NAME_ATYP && |host0| == HOST_MAX_LEN && |port0| == PORT_MAX_LEN
    ensures |q.address[1..]| < HOST_MAX_LEN && |Decimal(q.Port())| < PORT_MAX_LEN
    ensures var name := q.address[1..];
      var host, port := StoredHost(host0, name), StoredPort(port0, Decimal(q.Port()));
      && (CStr(host + port + [q.atyp]) == name
          <==> NulFree(name) && (|name| < HOST_MAX_LEN - 1 || host0[HOST_MAX_LEN - 1] == 0))
      && (CStr(port + [q.atyp]) == Decimal(q.Port()) <==> q.Port() < 10000 || port0[5] == 0)
  {
    PortTextRoundTrip(port0, q.Port(), [q.atyp]);
    hide Decimal, StoredPort;
    var name := q.address[1..];
    var rest := StoredPort(port0, Decimal(q.Port())) + [q.atyp];
    assert StoredHost(host0, name) + StoredPort(port0, Decimal(q.Port())) + [q.atyp] == StoredHost(host0, name) + rest;
    if !NulFree(name) {
      CutHostStored(host0, name, rest);
    } else if |name| < HOST_MAX_LEN - 1 {
      HostStored(host0, name, rest);
    } else {
      FullHostStored(host0, name);
      TerminatedIff(name, host0[HOST_MAX_LEN - 1], rest);
    }
  }

  lemma FullHostStored(host0: seq<byte>, name: seq<byte>)
    requires |host0| == HOST_MAX_LEN && |name| == HOST_MAX_LEN - 1 && NulFree(name)
    ensures StoredHost(host0, name) == name + [host0[HOST_MAX_LEN - 1]]
  {
    CStrIs(name, Zeros(1));
    assert name[..HOST_MAX_LEN - 1] == name;
  }
}
