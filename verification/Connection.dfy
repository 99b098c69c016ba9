/** The connection object of socks5_handler.c and the handlers of states/ that update it in place. Each handler is
    proved to do what module Session says of its value. */
module Connection {
  import opened Bytes
  import opened Io
  import opened Buffer
  import opened Text
  import opened Codec
  import opened Relay
  import opened Session
  import opened SessionSafety
  import SessionTheorems
  import Connect
  import Credentials
  import Stm

  datatype Verdict = Goes | Ends | Aborts

  class Connection {
    const readBuffer: Buffer
    const writeBuffer: Buffer
    const originWriteBuffer: Buffer
    const originHost: array<byte>
    const originPort: array<byte>
    const stm: Stm.StateMachine
    const inet6: Inet6

    /** What the selector has for the two descriptors. */
    var fds: set<Side>
    var clientInterest: Interest
    var originInterest: Interest

    var hasOrigin: bool
    var originAtyp: byte
    var addrs: nat
    var cursor: nat
    var references: nat
    var released: nat
    var metric: nat

    ghost var clientAccepted: seq<byte>
    ghost var clientSent: seq<byte>
    ghost var originAccepted: seq<byte>
    ghost var originSent: seq<byte>
    ghost var log: Log

    ghost function Repr(): set<object> {
      {this, readBuffer, readBuffer.data, writeBuffer, writeBuffer.data, originWriteBuffer, originWriteBuffer.data,
       originHost, originPort, stm}
    }

    ghost predicate Valid()
      reads Repr()
    {
      && readBuffer.Valid() && writeBuffer.Valid() && originWriteBuffer.Valid()
      && readBuffer != writeBuffer && readBuffer != originWriteBuffer && writeBuffer != originWriteBuffer
      && readBuffer.data != writeBuffer.data && readBuffer.data != originWriteBuffer.data
      && writeBuffer.data != originWriteBuffer.data && originHost != originPort
      && originHost !in {readBuffer.data, writeBuffer.data, originWriteBuffer.data}
      && originPort !in {readBuffer.data, writeBuffer.data, originWriteBuffer.data}
      && originHost.Length == HOST_MAX_LEN && originPort.Length == PORT_MAX_LEN
      && stm.Valid() && stm.states == SOCKS5_STATES && stm.initial == STATE_HELLO
      && inet6.RoundTrips()
    }

    ghost function Value(): Conn
      requires Valid()
      reads Repr()
    {
      Conn(stm.State(),
           Links(Link(writeBuffer.Value(), clientInterest, clientAccepted, clientSent),
                 Link(originWriteBuffer.Value(), originInterest, originAccepted, originSent), metric),
           readBuffer.Value(), hasOrigin, fds, references, released, addrs, cursor,
           originHost[..], originPort[..], originAtyp, inet6, log)
    }

    /** accept_connection: the text fields keep whatever malloc left in them. */
    constructor (limit: nat, inet6: Inet6, host0: array<byte>, port0: array<byte>, atyp0: byte)
      requires host0.Length == HOST_MAX_LEN && port0.Length == PORT_MAX_LEN && host0 != port0 && inet6.RoundTrips()
      ensures Valid() && fresh(Repr() - {host0, port0}) && originHost == host0 && originPort == port0
      ensures Value() == AcceptConnection(limit, inet6, host0[..], port0[..], atyp0)
    {
      hide Stm.StateMachine.Valid, Buffer.Valid, Buffer.Value, Inet6.RoundTrips;
      readBuffer := new Buffer(limit);
      writeBuffer := new Buffer(limit);
      originWriteBuffer := new Buffer(limit);
      originHost, originPort, originAtyp := host0, port0, atyp0;
      stm := new Stm.StateMachine(SOCKS5_STATES, STATE_HELLO);
      this.inet6 := inet6;
      fds, clientInterest, originInterest := {Client}, OP_READ, OP_NOOP;
      hasOrigin, addrs, cursor, references, released, metric := false, 0, 0, 1, 0, 0;
      clientAccepted, clientSent, originAccepted, originSent, log := [], [], [], [], NOTHING_YET;
    }

    // ---------- The operations handlers are made of ----------

    method SetInterest(side: Side, i: Interest) returns (ok: bool)
      requires Valid()
      modifies this
      ensures Valid() && Value() == Wait(old(Value()), side, i) && ok == (side in old(Value()).fds)
    {
      hide Stm.StateMachine.Valid, Buffer.Valid, Buffer.Value, Inet6.RoundTrips;
      ok := side in fds;
      if ok {
        if side == Client {
          clientInterest := i;
        } else {
          originInterest := i;
        }
      }
    }

    method UnregisterFd(side: Side) returns (ok: bool)
      requires Valid()
      modifies this
      ensures Valid() && ok == (side in old(Value()).fds)
      ensures Value() == if ok then Unregister(old(Value()), side) else old(Value())
    {
      hide Stm.StateMachine.Valid, Buffer.Valid, Buffer.Value, Inet6.RoundTrips;
      ok := side in fds;
      if ok {
        var refs := if references > 0 then references - 1 else 0;
        fds, references, released := fds - {side}, refs, released + if refs == 0 then 1 else 0;
      }
    }

    /** recv() into read_buffer. */
    method Receive(bs: seq<byte>)
      requires Valid() && |bs| <= Value().rb.Room()
      modifies Repr()
      ensures Valid() && Value() == old(Value()).(rb := old(Value()).rb.Push(bs))
    {
      readBuffer.Receive(bs);
    }

    method Readable() returns (n: nat)
      requires Valid()
      ensures n == |Value().rb.data|
    {
      n := readBuffer.ReadableBytes();
    }

    method ReadByte() returns (c: byte)
      requires Valid()
      modifies Repr()
      ensures Valid() && c == old(Value()).rb.NextByte() && Value() == old(Value()).(rb := old(Value()).rb.Rest())
    {
      c := readBuffer.Read();
    }

    /** As many bytes as there are, up to n. */
    method ReadBytes(n: nat, a: array<byte>) returns (count: nat)
      requires Valid() && n <= a.Length && a !in Repr()
      modifies Repr(), a
      ensures Valid() && count == Min(n, |old(Value()).rb.data|)
      ensures Value() == old(Value()).(rb := old(Value()).rb.Pop(count))
      ensures a[..] == old(Value()).rb.data[..count] + old(a[count..])
    {
      count := ReadInto(readBuffer, a, n);
    }

    method PendingBytes() returns (n: nat)
      requires Valid()
      ensures n == |Value().Pending()|
    {
      n := writeBuffer.ReadableBytes();
    }

    method SendToClient(send: Send)
      requires Valid()
      modifies Repr()
      ensures Valid() && Value() == SendClient(old(Value()), send)
    {
      var n := writeBuffer.ReadableBytes();
      var sent := Clamp(send, n);
      if sent.Sent? && sent.n > 0 {
        clientSent := clientSent + writeBuffer.Value().data[..sent.n];
        writeBuffer.ReadAdv(sent.n);
      }
    }

    /** buffer_reset and a run of buffer_write. */
    method RefillWriteBuffer(bytes: seq<byte>)
      requires Valid()
      modifies Repr()
      ensures Valid() && Value() == Refill(old(Value()), bytes)
    {
      writeBuffer.Reset();
      WriteAll(writeBuffer, bytes);
      clientAccepted := clientAccepted + bytes;
    }

    ghost method Note(log: Log)
      requires Valid()
      modifies this`log
      ensures Valid() && Value() == old(Value()).(log := log)
    {
      hide Stm.StateMachine.Valid, Buffer.Valid, Buffer.Value, Inet6.RoundTrips;
      this.log := log;
    }

    method Respond(status: byte, host: seq<byte>, port: seq<byte>)
      requires Valid()
      modifies Repr()
      ensures Valid() && Value() == PutReply(old(Value()), status, host, port)
    {
      hide Stm.StateMachine.Valid, Buffer.Valid, Buffer.Value, Reply;
      WriteResponse(writeBuffer, inet6, status, originAtyp, host, port);
      ghost var bytes := Reply(inet6, status, originAtyp, host, port);
      clientAccepted := clientAccepted + bytes;
      log := log.(reply := log.reply + bytes, status := Some(status));
    }

    method AnswerGreeting(chosen: byte)
      requires Valid()
      modifies Repr()
      ensures Valid() && Value() == HelloReply(old(Value()), chosen)
    {
      hide Valid, Value;
      ghost var log0 := Value().log;
      RefillWriteBuffer([SOCKS5_VERSION, chosen]);
      Note(log0.(greeting := log0.greeting + [SOCKS5_VERSION, chosen], chosen := Some(chosen)));
      var _ := SetInterest(Client, OP_WRITE);
    }

    method AnswerLogin(status: byte)
      requires Valid()
      modifies Repr()
      ensures Valid() && Value() == LoginReply(old(Value()), status)
    {
      hide Valid, Value;
      ghost var log0 := Value().log;
      RefillWriteBuffer([AUTH_VERSION, status]);
      Note(log0.(auth := log0.auth + [AUTH_VERSION, status], login := Some(status)));
      var _ := SetInterest(Client, OP_WRITE);
    }

    // ---------- HELLO ----------

    method HelloWriteAux(send: Send, next: nat, current: nat) returns (s: nat)
      requires Valid()
      modifies Repr()
      ensures Valid() && (Value(), s) == Session.HelloWriteAux(old(Value()), send, next, current)
    {
      hide Valid, Value;
      var n := PendingBytes();
      if n == 0 {
        return current;
      }
      if send.SendAgain? {
        return current;
      } else if send.SendFail? {
        return FailedSendState(send);
      }
      SendToClient(send);
      n := PendingBytes();
      if n > 0 {
        return current;
      }
      var _ := SetInterest(Client, OP_READ);
      return next;
    }

    /** The scan of the offered methods. */
    method ScanMethods(n: byte) returns (chosen: byte)
      requires Valid()
      modifies Repr()
      ensures Valid()
      ensures var v := old(Value()).rb;
        var methods := v.data[..Min(n, |v.data|)];
        Value() == old(Value()).(rb := v.Pop(|methods|))
        && chosen == if AUTH_METHOD in methods then AUTH_METHOD else NO_AUTH_METHOD
    {
      hide Valid, Value;
      ghost var c := Value();
      ghost var v := c.rb;
      assert v.Pop(0) == v by { RbValid(); }
      hide Buf.Pop, Buf.Rest, Buf.NextByte;
      chosen := NO_AUTH_METHOD;
      var i: nat := 0;
      var left := Readable();
      while i < n && left > 0
        invariant Valid() && i <= n && left == |v.data| - i
        invariant Value() == c.(rb := v.Pop(i))
        invariant chosen == if AUTH_METHOD in v.data[..i] then AUTH_METHOD else NO_AUTH_METHOD
      {
        ScanNext(v, i);
        var m := ReadByte();
        if m == AUTH_METHOD {
          chosen := AUTH_METHOD;
        }
        i := i + 1;
        left := Readable();
      }
    }

    lemma ScanNext(v: Buf, i: nat)
      requires i < |v.data|
      ensures v.Pop(i).Rest() == v.Pop(i + 1) && v.Pop(i).NextByte() == v.data[i]
      ensures |v.Pop(i + 1).data| == |v.data| - i - 1
      ensures AUTH_METHOD in v.data[..i + 1] <==> AUTH_METHOD in v.data[..i] || v.data[i] == AUTH_METHOD
    {
      PopRest(v, i);
      assert v.data[..i + 1] == v.data[..i] + [v.data[i]];
    }

    lemma RbValid()
      requires Valid()
      ensures Value().rb.Valid()
    {
    }

    method HelloRead(recv: Recv, send: Send, ghost a: Answers) returns (s: nat)
      requires Valid() && a.recv == recv && a.send == send && CanRecv(recv, Value().rb.Room())
      modifies Repr()
      ensures Valid() && (Value(), s) == Session.HelloRead(old(Value()), a)
    {
      hide Valid, Value, HelloReply, Session.HelloWriteAux;
      if recv.RecvAgain? {
        return STATE_HELLO;
      } else if recv.RecvFail? {
        return STATE_ERROR;
      } else if recv.Eof? {
        return STATE_DONE;
      }
      Receive(recv.bs);
      var available := Readable();
      if available < 2 {
        return STATE_HELLO;
      }
      var version := ReadByte();
      if version != SOCKS5_VERSION {
        return STATE_ERROR;
      }
      var nmethods := ReadByte();
      if nmethods == 0 {
        return STATE_ERROR;
      }
      if available % 256 < 2 + nmethods as int {
        return STATE_HELLO;
      }
      var chosen := ScanMethods(nmethods);
      AnswerGreeting(chosen);
      if chosen == AUTH_METHOD {
        s := HelloWriteAux(send, STATE_AUTH, STATE_HELLO_TO_AUTH);
      } else {
        s := HelloWriteAux(send, STATE_REQUEST, STATE_HELLO);
      }
    }

    // ---------- AUTH ----------

    method AuthWriteAux(send: Send, status: byte, current: nat) returns (s: nat)
      requires Valid()
      modifies Repr()
      ensures Valid() && (Value(), s) == Session.AuthWriteAux(old(Value()), send, status, current)
    {
      hide Valid, Value;
      var n := PendingBytes();
      if n == 0 {
        return STATE_AUTH;
      }
      if send.SendAgain? {
        return current;
      } else if send.SendFail? {
        return FailedSendState(send);
      }
      SendToClient(send);
      n := PendingBytes();
      if n > 0 {
        return current;
      }
      if status != 0 {
        return STATE_HELLO_TO_AUTH;
      }
      var _ := SetInterest(Client, OP_READ);
      return STATE_REQUEST;
    }

    /** A length byte and the bytes it announces, into a zeroed char[256]. */
    method ReadFieldText() returns (text: CString)
      requires Valid()
      modifies Repr()
      ensures Valid() && text == FieldText(FieldOf(old(Value()).rb))
      ensures Value() == old(Value()).(rb := AfterField(old(Value()).rb))
    {
      hide Valid, Value, CStr, Buf.Pop, Buf.Rest, Buf.NextByte, FieldText;
      ghost var c := Value();
      var field := new byte[256](_ => 0);
      assert field[..] == Zeros(256);
      var len := ReadByte();
      var count := ReadBytes(len, field);
      FieldRead(c.rb, count, field[..]);
      text := CStr(field[..]);
    }

    lemma FieldRead(v: Buf, count: nat, field: seq<byte>)
      requires count == Min(v.NextByte(), |v.Rest().data|) <= 256
      requires field == v.Rest().data[..count] + Zeros(256)[count..]
      ensures CStr(field) == FieldText(FieldOf(v))
    {
      var read := FieldOf(v);
      assert |read| == count && field == read + Zeros(256 - |read|);
      CStrPadded(read, 256 - |read|);
      CStrPadded(read, 1);
      assert Zeros(1) == [0];
    }

    /** The part of auth_read that parses; None stands for a login request without a decision. */
    method ReadLogin(bs: seq<byte>) returns (login: Option<(CString, CString)>, s: nat)
      requires Valid() && |bs| <= Value().rb.Room()
      modifies Repr()
      ensures Valid()
      ensures var v := old(Value()).rb.Push(bs);
        if v.data == [] then login == None && s == STATE_REQUEST && Value() == old(Value()).(rb := v)
        else if v.NextByte() != AUTH_VERSION then login == None && s == NO_STATE
            && Value() == old(Value()).(rb := v.Rest())
        else
          && login == Some((FieldText(FieldOf(v.Rest())), FieldText(FieldOf(AfterField(v.Rest())))))
          && Value() == old(Value()).(rb := AfterField(AfterField(v.Rest())))
    {
      hide Valid, Value, FieldText, FieldOf, AfterField;
      Receive(bs);
      var n := Readable();
      if n == 0 {
        return None, STATE_REQUEST;
      }
      var version := ReadByte();
      if version != AUTH_VERSION {
        return None, NO_STATE;
      }
      var username := ReadFieldText();
      var password := ReadFieldText();
      return Some((username, password)), STATE_AUTH;
    }

    method CheckLogin(store: Credentials.Store, name: CString, pass: CString) returns (status: byte)
      requires Valid() && store.Valid() && store !in Repr()
      modifies store
      ensures Valid() && Value() == old(Value())
      ensures status == LoginStatus(old(store.users), name, pass)
      ensures store.Valid() && store.users == old(store.users)
    {
      hide Valid, Value, Credentials.Store.Valid;
      status := store.AreValid(name, pass);
    }

    /** What auth_read does with the two texts. */
    method DecideLogin(name: CString, pass: CString, send: Send, store: Credentials.Store) returns (s: nat)
      requires Valid() && store.Valid() && store !in Repr()
      modifies Repr(), store
      ensures store.Valid() && store.users == old(store.users)
      ensures Valid()
      ensures var status := LoginStatus(old(store.users), name, pass);
        var c := LoginReply(old(Value()), status);
        (Value(), s) == if status != 0 then Session.AuthWriteAux(c, send, 1, STATE_AUTH_FAILED)
                        else Session.AuthWriteAux(c, send, 0, STATE_AUTH)
    {
      hide Valid, Value, LoginReply, Session.AuthWriteAux, LoginStatus, Credentials.Store.Valid;
      var status := CheckLogin(store, name, pass);
      AnswerLogin(status);
      if status != 0 {
        s := AuthWriteAux(send, 1, STATE_AUTH_FAILED);
      } else {
        s := AuthWriteAux(send, 0, STATE_AUTH);
      }
    }

    method AuthRead(recv: Recv, send: Send, store: Credentials.Store, ghost a: Answers) returns (s: nat)
      requires Valid() && store.Valid() && store !in Repr() && a.users == store.users
      requires a.recv == recv && a.send == send && CanRecv(recv, Value().rb.Room())
      modifies Repr(), store
      ensures Valid() && (Value(), s) == Session.AuthRead(old(Value()), a)
      ensures store.Valid() && store.users == old(store.users)
    {
      hide Valid, Value, LoginReply, Session.AuthWriteAux, FieldText, FieldOf, AfterField;
      if recv.RecvAgain? || recv.RecvFail? {
        return STATE_ERROR;
      } else if recv.Eof? {
        return STATE_DONE;
      }
      var login;
      login, s := ReadLogin(recv.bs);
      if login == None {
        return;
      }
      assert store.Valid();
      s := DecideLogin(login.value.0, login.value.1, send, store);
    }

    // ---------- Fields behind the value ----------

    lemma Fields()
      requires Valid()
      ensures Value().cursor == cursor && Value().addrs == addrs && Value().hasOrigin == hasOrigin
      ensures Value().atyp == originAtyp && Value().inet6 == inet6 && Value().fds == fds
      ensures Value().host == originHost[..] && |Value().host| == HOST_MAX_LEN
      ensures Value().port == originPort[..] && |Value().port| == PORT_MAX_LEN
      ensures Value().state == stm.State() < |SOCKS5_STATES|
    {
    }

    method SetAddressType(atyp: byte)
      requires Valid()
      modifies this`originAtyp
      ensures Valid() && Value() == old(Value()).(atyp := atyp)
    {
      hide Stm.StateMachine.Valid, Buffer.Valid, Buffer.Value, Inet6.RoundTrips;
      originAtyp := atyp;
    }

    method SetCursor(n: nat)
      requires Valid()
      modifies this`cursor
      ensures Valid() && cursor == n && Value() == old(Value()).(cursor := n)
    {
      hide Stm.StateMachine.Valid, Buffer.Valid, Buffer.Value, Inet6.RoundTrips;
      cursor := n;
    }

    method SetAddresses(n: nat)
      requires Valid()
      modifies this`cursor, this`addrs
      ensures Valid() && Value() == old(Value()).(addrs := n, cursor := 0)
    {
      hide Stm.StateMachine.Valid, Buffer.Valid, Buffer.Value, Inet6.RoundTrips;
      addrs, cursor := n, 0;
    }

    method ForgetOrigin()
      requires Valid()
      modifies this`hasOrigin
      ensures Valid() && Value() == old(Value()).(hasOrigin := false)
    {
      hide Stm.StateMachine.Valid, Buffer.Valid, Buffer.Value, Inet6.RoundTrips;
      hasOrigin := false;
    }

    /** selector_register, of the origin's descriptor. */
    method RegisterOrigin()
      requires Valid()
      modifies this
      ensures Valid() && addrs == old(addrs) && cursor == old(cursor)
      ensures var c := old(Value());
        Value() == c.(fds := c.fds + {Origin}, r := c.r.(origin := c.r.origin.Wait(OP_WRITE)))
    {
      hide Stm.StateMachine.Valid, Buffer.Valid, Buffer.Value, Inet6.RoundTrips;
      fds, originInterest := fds + {Origin}, OP_WRITE;
    }

    method AddReference()
      requires Valid()
      modifies this`hasOrigin, this`references
      ensures Valid() && Value() == old(Value()).(hasOrigin := true, references := old(Value()).references + 1)
    {
      hide Stm.StateMachine.Valid, Buffer.Valid, Buffer.Value, Inet6.RoundTrips;
      hasOrigin, references := true, references + 1;
    }

    // ---------- CONNECT ----------

    /** connect_write: the loop over the addresses left. */
    method ConnectWrite(side: Side, soError: bool, attempt: nat -> Connect.Attempt, ghost a: Answers) returns (s: nat)
      requires Valid() && a.soError == soError && a.attempt == attempt
      modifies Repr()
      ensures Valid() && (Value(), s) == Session.ConnectWrite(old(Value()), side, a)
    {
      hide Valid, Value, Session.ConnectWrite;
      ghost var c := Value();
      Fields();
      while cursor < addrs
        invariant Valid() && Value().cursor == cursor && Value().addrs == addrs
        invariant Session.ConnectWrite(Value(), side, a) == Session.ConnectWrite(c, side, a)
        decreases addrs - cursor
      {
        ghost var before := Value();
        var done;
        done, s := TryAddress(side, soError, attempt, a);
        if done {
          return;
        }
        AddressFails(before, side, a);
      }
      NoAddressLeft(Value(), side, a);
      s := GiveUp(side);
    }

    /** One turn of the loop. When it does not decide, the address in turn has failed. */
    method TryAddress(side: Side, soError: bool, attempt: nat -> Connect.Attempt, ghost a: Answers)
      returns (done: bool, s: nat)
      requires Valid() && a.soError == soError && a.attempt == attempt && cursor < addrs
      modifies Repr()
      ensures Valid()
      ensures done ==> (Value(), s) == Session.ConnectWrite(old(Value()), side, a)
      ensures !done ==> FailsAtOnce(old(Value()), a) && Value() == Passed(old(Value()))
      ensures !done ==>
        cursor == old(cursor) + 1 && addrs == old(addrs) && Value().cursor == cursor && Value().addrs == addrs
    {
      hide Valid, Value, DropOrigin, Session.Established;
      Fields();
      if !hasOrigin {
        var outcome := attempt(cursor);
        if outcome.Unregistered? {
          assert Value().(cursor := cursor) == Value();
          return true, STATE_ERROR;
        } else if outcome.Started? {
          RegisterOrigin();
          AddReference();
          return true, STATE_CONNECT;
        }
        // no socket, one that cannot be made non-blocking, or refused: on to the next
        SetCursor(cursor + 1);
        Fields();
        return false, STATE_ERROR;
      }
      if soError {
        CloseOrigin();
        SetCursor(cursor + 1);
        Fields();
        return false, STATE_ERROR;
      }
      assert Value().(cursor := cursor) == Value();
      s := Established();
      done := true;
    }

    /** The address in turn fails within this call. */
    ghost predicate FailsAtOnce(c: Conn, a: Answers) {
      c.cursor < c.addrs
      && if c.hasOrigin then a.soError
         else a.attempt(c.cursor) != Connect.Started && a.attempt(c.cursor) != Connect.Unregistered
    }

    /** Past an address that has failed. */
    ghost function Passed(c: Conn): Conn {
      (if c.hasOrigin then DropOrigin(c) else c).(cursor := c.cursor + 1)
    }

    lemma AddressFails(c: Conn, side: Side, a: Answers)
      requires FailsAtOnce(c, a)
      ensures Session.ConnectWrite(Passed(c), side, a) == Session.ConnectWrite(c, side, a)
    {
      hide Session.Established, Session.GaveUp;
      var c1 := Passed(c);
      NextAddress(Connect.Search(c.addrs, c.cursor, c.hasOrigin), a.soError, a.attempt);
      assert Connect.Search(c1.addrs, c1.cursor, c1.hasOrigin) == Connect.Search(c.addrs, c.cursor + 1, false);
    }

    lemma NoAddressLeft(c: Conn, side: Side, a: Answers)
      requires c.cursor >= c.addrs
      ensures Session.ConnectWrite(c, side, a) == Session.GaveUp(c, side)
    {
      hide Session.GaveUp;
      assert c.(cursor := c.cursor) == c;
    }

    method Established() returns (s: nat)
      requires Valid()
      modifies Repr()
      ensures Valid() && (Value(), s) == Session.Established(old(Value()))
    {
      hide Valid, Value, Wait, PutReply;
      ghost var c := Value();
      Fields();
      var ok := SetInterest(Client, OP_WRITE);
      Fields();
      WaitKeeps(c, Client, OP_WRITE);
      if !ok {
        ForgetOrigin();
        return STATE_ERROR;
      }
      Respond(SUCCESS, originHost[..] + originPort[..] + [originAtyp], originPort[..] + [originAtyp]);
      Fields();
      SetCursor(addrs);
      return STATE_REQUEST;
    }

    method GiveUp(side: Side) returns (s: nat)
      requires Valid()
      modifies Repr()
      ensures Valid() && (Value(), s) == Session.GaveUp(old(Value()), side)
    {
      hide Valid, Value, Wait, PutReply;
      Fields();
      Respond(HOST_UNREACHABLE, originHost[..] + originPort[..] + [originAtyp], originPort[..] + [originAtyp]);
      var _ := SetInterest(side, OP_WRITE);
      Fields();
      SetCursor(addrs);
      Note(Value().log.(stranded := side == Origin));
      return STATE_REQUEST;
    }

    lemma NextAddress(s: Connect.Search, soError: bool, attempt: nat -> Connect.Attempt)
      requires s.cursor < s.addrs
      requires if s.registered then soError
               else attempt(s.cursor) != Connect.Started && attempt(s.cursor) != Connect.Unregistered
      ensures Connect.Advance(s, soError, attempt)
           == Connect.Advance(Connect.Search(s.addrs, s.cursor + 1, false), soError, attempt)
    {
    }

    lemma WaitKeeps(c: Conn, side: Side, i: Interest)
      ensures var c' := Wait(c, side, i);
        c'.fds == c.fds && c'.host == c.host && c'.port == c.port && c'.atyp == c.atyp && c'.addrs == c.addrs
        && (side !in c.fds ==> c' == c)
    {
    }

    /** The connection under way has failed: its descriptor is unregistered and closed. */
    method CloseOrigin()
      requires Valid()
      modifies this
      ensures Valid() && Value() == DropOrigin(old(Value()))
      ensures !hasOrigin && addrs == old(addrs) && cursor == old(cursor)
      ensures !Value().hasOrigin && Value().addrs == addrs
    {
      hide Valid, Value;
      Fields();
      var _ := UnregisterFd(Origin);
      Fields();
      ForgetOrigin();
      Fields();
    }

    method BeginSearch(n: nat, soError: bool, attempt: nat -> Connect.Attempt, ghost a: Answers) returns (s: nat)
      requires Valid() && a.soError == soError && a.attempt == attempt
      modifies Repr()
      ensures Valid() && (Value(), s) == Session.BeginSearch(old(Value()), n, a)
    {
      hide Valid, Value;
      SetAddresses(n);
      var _ := SetInterest(Client, OP_NOOP);
      s := ConnectWrite(Client, soError, attempt, a);
    }

    // ---------- REQUEST ----------

    /** The parser that the address type selects. */
    method ParseAddressInto(host: array<byte>, port: array<byte>) returns (r: int)
      requires Valid() && Zeroed(host, port) && host != port && host !in Repr() && port !in Repr()
      requires Value().atyp in {IPV4_ATYP, DOMAIN_NAME_ATYP, IPV6_ATYP}
      modifies Repr(), host, port
      ensures Valid()
      ensures var c := old(Value());
        var p := ParseAddress(c.inet6, c.atyp, c.rb);
        && p.Some?
        && Delivers(p.value, c.rb, r, host[..], port[..], Value().rb)
        && Value() == c.(rb := Value().rb)
    {
      hide Stm.StateMachine.Valid, Buffer.Valid, Buffer.Value, Delivers, ParseIpv4, ParseDomain, ParseIpv6;
      if originAtyp == IPV4_ATYP {
        r := GetIpv4Address(readBuffer, host, port);
      } else if originAtyp == DOMAIN_NAME_ATYP {
        r := GetDomainName(host, port, readBuffer);
      } else {
        r := GetIpv6Address(inet6, readBuffer, host, port);
      }
    }

    /** The connection keeps the texts by strncpy. */
    method StoreAddress(host: array<byte>, port: array<byte>, ghost p: Parsed)
      requires Valid() && p.Parsed? && |p.host| < HOST_MAX_LEN && |p.port| < PORT_MAX_LEN
      requires host[..] == Filled(p.host, HOST_MAX_LEN) && port[..] == Filled(p.port, PORT_MAX_LEN)
      modifies originHost, originPort
      ensures Valid()
      ensures var c := old(Value());
        && |c.host| == HOST_MAX_LEN && |c.port| == PORT_MAX_LEN
        && Value() == c.(host := StoredHost(c.host, p.host), port := StoredPort(c.port, p.port))
    {
      StrncpyInto(originHost, host[..], HOST_MAX_LEN - 1);
      StrncpyInto(originPort, port[..], PORT_MAX_LEN - 1);
    }

    method CreateRes(readable: bool, soError: bool, attempt: nat -> Connect.Attempt, ghost a: Answers) returns (s: nat)
      requires Valid() && a.soError == soError && a.attempt == attempt
      modifies Repr()
      ensures Valid() && (Value(), s) == Session.CreateRes(old(Value()), readable, a)
    {
      hide Valid, Value, Session.BeginSearch;
      if !readable {
        return STATE_ERROR;
      }
      s := BeginSearch(1, soError, attempt, a);
    }

    /** A refusal that the client is armed to take. */
    method Refuse(status: byte, host: seq<byte>, port: seq<byte>) returns (s: nat)
      requires Valid()
      modifies Repr()
      ensures Valid() && Value() == Wait(PutReply(old(Value()), status, host, port), Client, OP_WRITE)
          && s == STATE_REQUEST
    {
      hide Valid, Value;
      Respond(status, host, port);
      var _ := SetInterest(Client, OP_WRITE);
      return STATE_REQUEST;
    }

    /** Parses an address into local arrays and copies them; false when it is incomplete. */
    method FetchAddress() returns (complete: bool, text: CString)
      requires Valid() && Value().atyp in {IPV4_ATYP, DOMAIN_NAME_ATYP, IPV6_ATYP}
      modifies Repr()
      ensures Valid()
      ensures var c := old(Value());
        var p := ParseAddress(c.inet6, c.atyp, c.rb);
        && p.Some? && (complete <==> p.value.Parsed?)
        && if complete then Value() == Store(c, p.value) && text == CStr(p.value.host) else Value() == c
    {
      hide Valid, Value, ParseAddress, CStr, StoredHost, StoredPort;
      ghost var c := Value();
      var host := new byte[HOST_MAX_LEN](_ => 0);
      var port := new byte[PORT_MAX_LEN](_ => 0);
      assert host[..] == Zeros(HOST_MAX_LEN) && port[..] == Zeros(PORT_MAX_LEN);
      var r := ParseAddressInto(host, port);
      ghost var p := ParseAddress(c.inet6, c.atyp, c.rb).value;
      if r < 0 {
        assert c.(rb := c.rb) == c;
        return false, [];
      }
      StoreAddress(host, port, p);
      CStrPadded(p.host, HOST_MAX_LEN - |p.host|);
      return true, CStr(host[..]);
    }

    /** What follows a CONNECT header. */
    method RequestAddress(threadStarted: bool, soError: bool, attempt: nat -> Connect.Attempt,
                          ghost a: Answers) returns (s: nat)
      requires Valid() && a.soError == soError && a.attempt == attempt && a.threadStarted == threadStarted
      modifies Repr()
      ensures Valid() && (Value(), s) == AddressOf(old(Value()), a)
    {
      hide Valid, Value, ParseAddress, CStr, Store, Session.CreateRes, PutReply, Wait, InetPton4;
      ghost var c := Value();
      Fields();
      var atyp := originAtyp;
      if atyp != IPV4_ATYP && atyp != DOMAIN_NAME_ATYP && atyp != IPV6_ATYP {
        UnsupportedType(c);
        s := Refuse(UNSUPPORTED_ATYP, Zeros(HOST_MAX_LEN), Zeros(PORT_MAX_LEN));
        return;
      }
      var complete, text := FetchAddress();
      if !complete {
        return STATE_REQUEST;
      }
      if atyp == IPV4_ATYP {
        s := CreateRes(InetPton4(text).Some?, soError, attempt, a);
      } else if atyp == DOMAIN_NAME_ATYP {
        s := if threadStarted then STATE_RESOLVE else STATE_ERROR;
      } else {
        s := CreateRes(inet6.pton(text).Some?, soError, attempt, a);
      }
    }

    lemma UnsupportedType(c: Conn)
      requires c.atyp !in {IPV4_ATYP, DOMAIN_NAME_ATYP, IPV6_ATYP}
      ensures ParseAddress(c.inet6, c.atyp, c.rb) == None
    {
    }

    method RequestRead(recv: Recv, threadStarted: bool, soError: bool, attempt: nat -> Connect.Attempt,
                       ghost a: Answers)
      returns (s: nat)
      requires Valid() && a.soError == soError && a.attempt == attempt && a.threadStarted == threadStarted
      requires a.recv == recv && CanRecv(recv, Value().rb.Room())
      modifies Repr()
      ensures Valid() && (Value(), s) == Session.RequestRead(old(Value()), a)
    {
      hide Valid, Value, AddressOf, PutReply, Wait;
      if recv.RecvAgain? || recv.RecvFail? {
        return STATE_ERROR;
      } else if recv.Eof? {
        return STATE_DONE;
      }
      Receive(recv.bs);
      var n := Readable();
      if n < 4 {
        return STATE_REQUEST;
      }
      var version := ReadByte();
      if version != SOCKS5_VERSION {
        return STATE_ERROR;
      }
      var cmd := ReadByte();
      var _ := ReadByte();
      var atyp := ReadByte();
      SetAddressType(atyp);
      if cmd != CONNECT_CMD {
        s := Refuse(UNSUPPORTED_COMMAND, [0], [0]);
        return;
      }
      s := RequestAddress(threadStarted, soError, attempt, a);
    }

    method RequestWrite(send: Send, ghost a: Answers) returns (s: nat)
      requires Valid() && a.send == send
      modifies Repr()
      ensures Valid() && (Value(), s) == Session.RequestWrite(old(Value()), a)
    {
      hide Valid, Value, SendClient;
      if !send.Sent? {
        return FailedSendState(send);
      }
      SendToClient(send);
      var n := PendingBytes();
      if n > 0 {
        return STATE_REQUEST;
      }
      Fields();
      if !hasOrigin {
        return STATE_DONE;
      }
      var ok := SetInterest(Client, OP_READ);
      if !ok {
        return STATE_ERROR;
      }
      ok := SetInterest(Origin, OP_READ);
      if !ok {
        return STATE_ERROR;
      }
      return STATE_FORWARDING;
    }

    // ---------- RESOLVE ----------

    method ResolutionBlock(resolved: Option<nat>, soError: bool, attempt: nat -> Connect.Attempt,
                           ghost a: Answers) returns (s: nat)
      requires Valid() && a.soError == soError && a.attempt == attempt && a.resolved == resolved
      modifies Repr()
      ensures Valid() && (Value(), s) == Session.ResolutionBlock(old(Value()), a)
    {
      hide Valid, Value, PutReply, Wait, Session.BeginSearch;
      Fields();
      if resolved == None {
        s := Refuse(HOST_UNREACHABLE, originHost[..] + originPort[..] + [originAtyp], originPort[..] + [originAtyp]);
      } else if resolved.value == 0 {
        s := Refuse(HOST_UNREACHABLE, [0], originPort[..] + [originAtyp]);
      } else {
        s := BeginSearch(resolved.value, soError, attempt, a);
      }
    }

    // ---------- FORWARDING ----------

    method RoomTowards(side: Side) returns (n: nat)
      requires Valid()
      ensures n == Value().r.Of(side).buf.Room()
    {
      if side == Client {
        n := writeBuffer.WritableBytes();
      } else {
        n := originWriteBuffer.WritableBytes();
      }
    }

    method PendingTowards(side: Side) returns (n: nat)
      requires Valid()
      ensures n == |Value().r.Of(side).buf.data|
    {
      if side == Client {
        n := writeBuffer.ReadableBytes();
      } else {
        n := originWriteBuffer.ReadableBytes();
      }
    }

    method AcceptTowards(side: Side, bs: seq<byte>)
      requires Valid() && |bs| <= Value().r.Of(side).buf.Room()
      modifies Repr()
      ensures Valid() && Value() == Accepted(old(Value()), side, bs)
    {
      hide Valid, Value;
      if side == Client {
        AcceptForClient(bs);
      } else {
        AcceptForOrigin(bs);
      }
    }

    method AcceptForClient(bs: seq<byte>)
      requires Valid() && |bs| <= Value().r.client.buf.Room()
      modifies Repr()
      ensures Valid() && Value() == Accepted(old(Value()), Client, bs)
    {
      hide Valid, Value;
      ReceiveForClient(bs);
      Count(|bs|);
    }

    method ReceiveForClient(bs: seq<byte>)
      requires Valid() && |bs| <= Value().r.client.buf.Room()
      modifies Repr()
      ensures Valid()
      ensures var c := old(Value()); Value() == c.(r := c.r.(client := c.r.client.Accept(bs)))
    {
      writeBuffer.Receive(bs);
      clientAccepted := clientAccepted + bs;
    }

    method AcceptForOrigin(bs: seq<byte>)
      requires Valid() && |bs| <= Value().r.origin.buf.Room()
      modifies Repr()
      ensures Valid() && Value() == Accepted(old(Value()), Origin, bs)
    {
      hide Valid, Value;
      ReceiveForOrigin(bs);
      Count(|bs|);
    }

    method ReceiveForOrigin(bs: seq<byte>)
      requires Valid() && |bs| <= Value().r.origin.buf.Room()
      modifies Repr()
      ensures Valid()
      ensures var c := old(Value()); Value() == c.(r := c.r.(origin := c.r.origin.Accept(bs)))
    {
      originWriteBuffer.Receive(bs);
      originAccepted := originAccepted + bs;
    }

    /** forward_send. */
    method ForwardSend(side: Side, send: Send) returns (sent: Send)
      requires Valid()
      modifies Repr()
      ensures Valid() && sent == Clamp(send, |old(Value()).r.Of(side).buf.data|)
      ensures Value() == Drained(old(Value()), side, sent)
    {
      hide Valid, Value;
      var n := PendingTowards(side);
      sent := Clamp(send, n);
      if sent.Sent? && sent.n > 0 {
        if side == Client {
          DrainForClient(sent);
        } else {
          DrainForOrigin(sent);
        }
      }
    }

    method DrainForClient(sent: Send)
      requires Valid() && CanSend(sent, |Value().r.client.buf.data|) && sent.Sent? && sent.n > 0
      modifies Repr()
      ensures Valid() && Value() == Drained(old(Value()), Client, sent)
    {
      hide Valid, Value;
      SendToClient(sent);
      Count(sent.n);
    }

    method DrainForOrigin(sent: Send)
      requires Valid() && CanSend(sent, |Value().r.origin.buf.data|) && sent.Sent? && sent.n > 0
      modifies Repr()
      ensures Valid() && Value() == Drained(old(Value()), Origin, sent)
    {
      hide Valid, Value;
      SendToOrigin(sent);
      Count(sent.n);
    }

    method SendToOrigin(sent: Send)
      requires Valid() && CanSend(sent, |Value().r.origin.buf.data|) && sent.Sent? && sent.n > 0
      modifies Repr()
      ensures Valid()
      ensures var c := old(Value()); Value() == c.(r := c.r.(origin := c.r.origin.Drain(sent)))
    {
      originSent := originSent + originWriteBuffer.Value().data[..sent.n];
      originWriteBuffer.ReadAdv(sent.n);
    }

    /** metrics_bytes_transferred. */
    method Count(n: nat)
      requires Valid()
      modifies this`metric
      ensures Valid()
      ensures var c := old(Value()); Value() == c.(r := c.r.(metric := c.r.metric + n))
    {
      hide Stm.StateMachine.Valid, Buffer.Valid, Buffer.Value, Inet6.RoundTrips;
      metric := metric + n;
    }

    /** Arms both descriptors; they are registered, so neither call fails. */
    method Rearm(side: Side, i: Interest, j: Interest)
      requires Valid() && Value().fds == {Client, Origin}
      modifies Repr()
      ensures Valid() && Value() == Wait(Wait(old(Value()), side, i), side.Other(), j)
    {
      hide Valid, Value;
      var ok := SetInterest(side, i);
      assert ok;
      ok := SetInterest(side.Other(), j);
      assert ok;
    }

    method ForwardRead(side: Side, recv: Recv, send: Send, ghost a: Answers) returns (s: nat)
      requires Valid() && Value().fds == {Client, Origin} && a.recv == recv && a.send == send
      requires CanRecv(recv, Value().r.Of(side.Other()).buf.Room())
      modifies Repr()
      ensures Valid() && (Value(), s) == RelayRead(old(Value()), side, a)
    {
      hide Valid, Value, RelayRead, PassedOn, Wait, Received, Links.With, Links.Of, Side.Other;
      ghost var c := Value();
      var other := side.Other();
      RelayReadIs(c, side, a);
      var room := RoomTowards(other);
      NoteReceived(side, recv);
      if room == 0 {
        Rearm(side, OP_NOOP, OP_WRITE);
        return STATE_FORWARDING;
      }
      if recv.RecvAgain? {
        return STATE_FORWARDING;
      } else if recv.RecvFail? {
        return STATE_ERROR;
      } else if recv.Eof? {
        return STATE_DONE;
      }
      s := PassOn(side, recv.bs, send);
    }

    /** Bytes just received from a side are offered to the other one at once. */
    method PassOn(side: Side, bs: seq<byte>, send: Send) returns (s: nat)
      requires Valid() && |bs| <= Value().r.Of(side.Other()).buf.Room()
      modifies Repr()
      ensures Valid() && (Value(), s) == PassedOn(old(Value()), side, bs, send)
    {
      hide Valid, Value, Accepted, Drained, Wait, Links.With, Links.Of, Side.Other, Clamp, Buf.Room, CanSend;
      var other := side.Other();
      AcceptTowards(other, bs);
      var sent := ForwardSend(other, send);
      if sent.SendFail? {
        return FailedSendState(sent);
      }
      var pending := PendingTowards(other);
      var _ := SetInterest(other, if pending > 0 then OP_WRITE else OP_READ);
      var room := RoomTowards(other);
      if room > 0 {
        var _ := SetInterest(side, OP_READ);
      }
      return STATE_FORWARDING;
    }

    ghost method NoteReceived(side: Side, recv: Recv)
      requires Valid()
      modifies this`log
      ensures Valid() && Value() == Received(old(Value()), side, recv)
    {
      hide Valid, Value;
      var log0, got := Value().log, if recv.Data? then recv.bs else [];
      Note(if side == Origin then log0.(fromOrigin := log0.fromOrigin + got)
           else log0.(fromClient := log0.fromClient + got));
    }

    method ForwardWrite(side: Side, send: Send, ghost a: Answers) returns (s: nat)
      requires Valid() && Value().fds == {Client, Origin} && a.send == send
      modifies Repr()
      ensures Valid() && (Value(), s) == RelayWrite(old(Value()), side, a)
    {
      hide Valid, Value, RelayWrite, Drained, Wait, Links.With, Links.Of, Side.Other;
      ghost var c := Value();
      var other := side.Other();
      RelayWriteIs(c, side, a);
      var pending := PendingTowards(side);
      if pending == 0 {
        Rearm(side, OP_READ, OP_READ);
        return STATE_FORWARDING;
      }
      var sent := ForwardSend(side, send);
      if sent.SendAgain? {
        return STATE_FORWARDING;
      } else if sent.SendFail? {
        return FailedSendState(sent);
      }
      pending := PendingTowards(side);
      var waiting := PendingTowards(other);
      Rearm(side, if pending > 0 then OP_WRITE else OP_READ, if waiting > 0 then OP_WRITE else OP_READ);
      return STATE_FORWARDING;
    }

    // ---------- One event ----------

    /** finish: false is abort(). */
    method Finish() returns (ok: bool)
      requires Valid()
      modifies Repr()
      ensures Valid()
      ensures var f := Session.Finish(old(Value())); ok == f.Closed? && (ok ==> Value() == f.c)
    {
      hide Valid, Value, Unregister;
      Fields();
      var origin := hasOrigin;
      UnregisterKeeps(Value(), Client);
      ok := UnregisterFd(Client);
      if ok && origin {
        ok := UnregisterFd(Origin);
      }
    }

    lemma UnregisterKeeps(c: Conn, side: Side)
      ensures side in c.fds ==> Unregister(c, side).hasOrigin == c.hasOrigin
    {
    }

    /** The engine moves to the state a handler answers; false is abort(). */
    method Jump(kind: Stm.Kind, next: nat) returns (survived: bool)
      requires Valid()
      modifies Repr()
      ensures survived <==> Stm.Survives(SOCKS5_STATES, STATE_HELLO, Some(old(Value()).state), Stm.Event(kind, next))
      ensures survived ==> Valid() && Value() == old(Value()).(state := next)
    {
      survived := stm.Handle(Stm.Event(kind, next));
    }

    /** The handler that the state table names. */
    method Dispatch(e: Session.Event, store: Credentials.Store) returns (s: nat)
      requires Valid() && store.Valid() && store !in Repr() && e.a.users == store.users
      requires Session.Possible(Value(), e) && Session.Enabled(Value(), e)
          && Stm.Handles(SOCKS5_STATES[Value().state], e.kind)
      requires Value().state == STATE_FORWARDING ==> Value().fds == {Client, Origin}
      requires Value().state < STATE_DONE
      modifies Repr(), store
      ensures Valid() && (Value(), s) == Handler(old(Value()), e)
      ensures store.Valid() && store.users == old(store.users)
    {
      hide Valid, Value, Session.HelloRead, Session.AuthRead, Session.RequestRead, RelayRead, Session.HelloWriteAux,
        Session.AuthWriteAux, Session.RequestWrite, Session.ConnectWrite, RelayWrite, Session.ResolutionBlock,
        Credentials.Store.Valid;
      Fields();
      var state := stm.State();
      var a := e.a;
      if e.kind.Read? {
        if state == STATE_HELLO {
          s := HelloRead(a.recv, a.send, a);
        } else if state == STATE_AUTH {
          s := AuthRead(a.recv, a.send, store, a);
        } else if state == STATE_REQUEST {
          s := RequestRead(a.recv, a.threadStarted, a.soError, a.attempt, a);
        } else {
          s := ForwardRead(e.side, a.recv, a.send, a);
        }
      } else if e.kind.Write? {
        if state == STATE_HELLO {
          s := HelloWriteAux(a.send, STATE_REQUEST, STATE_HELLO);
        } else if state == STATE_HELLO_TO_AUTH {
          s := HelloWriteAux(a.send, STATE_AUTH, STATE_HELLO_TO_AUTH);
        } else if state == STATE_AUTH {
          s := AuthWriteAux(a.send, 0, STATE_AUTH);
        } else if state == STATE_AUTH_FAILED {
          s := AuthWriteAux(a.send, 1, STATE_AUTH_FAILED);
        } else if state == STATE_REQUEST {
          s := RequestWrite(a.send, a);
        } else if state == STATE_CONNECT {
          s := ConnectWrite(e.side, a.soError, a.attempt, a);
        } else {
          s := ForwardWrite(e.side, a.send, a);
        }
      } else {
        s := ResolutionBlock(a.resolved, a.soError, a.attempt, a);
      }
    }

    /** socks5_stm_read, _write and _block: from a connection that meets the session invariant, one event does what
        module Session says and leaves the invariant or a connection that is over. */
    method OnEvent(e: Session.Event, store: Credentials.Store) returns (v: Verdict)
      requires Valid() && store.Valid() && store !in Repr() && e.a.users == store.users
      requires Inv(Value()) && Session.Possible(Value(), e) && Session.Enabled(Value(), e)
      modifies Repr(), store
      ensures match Session.Step(old(Value()), e)
        case Live(c) => v == Goes && Valid() && Value() == c && Inv(c)
        case Closed(c) => v == Ends && Valid() && Value() == c && Over(c)
        case Aborted => v == Aborts && Fatal(old(Value()), e)
      ensures store.Valid() && store.users == old(store.users)
    {
      hide Valid, Value, Shape, Core, Handler, Session.Finish, Over, Credentials.Store.Valid;
      ghost var c := Value();
      Fields();
      StepKeepsInv(c, e);
      InvStates(c);
      if !Stm.Handles(SOCKS5_STATES[stm.State()], e.kind) {
        return Aborts;
      }
      var s := Dispatch(e, store);
      var survived := Jump(e.kind, s);
      if !survived {
        return Aborts;
      }
      if s == STATE_ERROR || s == STATE_DONE {
        var ok := Finish();
        return if ok then Ends else Aborts;
      }
      return Goes;
    }

    /** Events one after the other, until the session is over: a run of the object is a run of its values. */
    method OnEvents(events: seq<Session.Event>, store: Credentials.Store, ghost end: Result) returns (v: Verdict)
      requires Valid() && store.Valid() && store !in Repr() && forall e :: e in events ==> e.a.users == store.users
      requires Inv(Value()) && Session.Run(Value(), events, end)
      modifies Repr(), store
      ensures match end
        case Live(c) => v == Goes && Valid() && Value() == c && Inv(c)
        case Closed(c) => v == Ends && Valid() && Value() == c && Over(c)
        case Aborted => v == Aborts
      ensures store.Valid() && store.users == old(store.users)
    {
      hide Valid, Value, Inv, Over, Session.Step, Session.Possible, Session.Enabled, Credentials.Store.Valid;
      v := Goes;
      var left := events;
      while left != []
        invariant store.Valid() && store.users == old(store.users) && forall e :: e in left ==> e.a.users == store.users
        invariant v == Goes && Valid() && Inv(Value()) && Session.Run(Value(), left, end)
        decreases |left|
      {
        var e := left[0];
        assert e in left;
        v := OnEvent(e, store);
        left := left[1..];
        if v != Goes {
          return;
        }
      }
    }

    lemma InvStates(c: Conn)
      requires Inv(c)
      ensures c.state < STATE_DONE && (c.state == STATE_FORWARDING ==> c.fds == {Client, Origin})
    {
    }
  }

  /** A client is accepted and its events are handled. What is proved of the values' runs holds of the object: it has
      put out the replies in order and then what the origin sent, and it is freed once, at its end. */
  method Serve(limit: nat, inet6: Inet6, host0: array<byte>, port0: array<byte>, atyp0: byte,
               events: seq<Session.Event>, store: Credentials.Store, ghost end: Result)
    returns (conn: Connection, v: Verdict)
    requires host0.Length == HOST_MAX_LEN && port0.Length == PORT_MAX_LEN && host0 != port0
    requires inet6.RoundTrips() && limit >= 262
    requires store.Valid() && forall e :: e in events ==> e.a.users == store.users
    requires Session.Run(AcceptConnection(limit, inet6, host0[..], port0[..], atyp0), events, end)
    modifies host0, port0, store
    ensures v == Aborts <==> end.Aborted?
    ensures v != Aborts ==>
      && conn.Valid()
      && conn.clientSent + conn.writeBuffer.Value().data
         == conn.log.greeting + conn.log.auth + conn.log.reply + conn.log.fromOrigin
      && conn.originSent + conn.originWriteBuffer.Value().data == conn.log.fromClient
      && conn.references == |conn.fds| && conn.released == if v == Goes then 0 else 1
  {
    hide Session.Run, Inv, AcceptConnection;
    ghost var c := AcceptConnection(limit, inet6, host0[..], port0[..], atyp0);
    SessionTheorems.StartInv(limit, inet6, host0[..], port0[..], atyp0);
    conn := new Connection(limit, inet6, host0, port0, atyp0);
    v := conn.OnEvents(events, store, end);
    if v != Aborts {
      assert SessionTheorems.Accepted(c);
      SessionTheorems.ClientSeesOrderedReplies(c, events, end);
      SessionTheorems.ReferencesBalance(c, events, end);
    }
  }

  // ---------- The relay's steps as steps of a connection ----------

  ghost function Accepted(c: Conn, side: Side, bs: seq<byte>): Conn {
    c.(r := c.r.With(side, c.r.Of(side).Accept(bs)).(metric := c.r.metric + |bs|))
  }

  ghost function Drained(c: Conn, side: Side, sent: Send): Conn
    requires CanSend(sent, |c.r.Of(side).buf.data|)
  {
    c.(r := c.r.With(side, c.r.Of(side).Drain(sent)).(metric := c.r.metric + Taken(sent)))
  }

  ghost function Received(c: Conn, side: Side, recv: Recv): Conn {
    var got := if recv.Data? then recv.bs else [];
    c.(log := if side == Origin then c.log.(fromOrigin := c.log.fromOrigin + got)
              else c.log.(fromClient := c.log.fromClient + got))
  }

  /** forward_read, one operation after the other. */
  ghost function ReadInSteps(c: Conn, side: Side, a: Answers): (Conn, nat)
    requires CanRecv(a.recv, c.r.Of(side.Other()).buf.Room())
  {
    var other := side.Other();
    var c1 := Received(c, side, a.recv);
    if c.r.Of(other).buf.Room() <= 0 then (Wait(Wait(c1, side, OP_NOOP), other, OP_WRITE), STATE_FORWARDING)
    else match a.recv
      case RecvAgain => (c1, STATE_FORWARDING)
      case RecvFail => (c1, STATE_ERROR)
      case Eof => (c1, STATE_DONE)
      case Data(bs) => PassedOn(c1, side, bs, a.send)
  }

  ghost function PassedOn(c: Conn, side: Side, bs: seq<byte>, send: Send): (Conn, nat) {
    var other := side.Other();
    var c1 := Accepted(c, other, bs);
    var sent := Clamp(send, |c1.r.Of(other).buf.data|);
    var c2 := Drained(c1, other, sent);
    if sent.SendFail? then (c2, FailedSendState(sent))
    else
      var c3 := Wait(c2, other, if |c2.r.Of(other).buf.data| > 0 then OP_WRITE else OP_READ);
      (if c3.r.Of(other).buf.Room() > 0 then Wait(c3, side, OP_READ) else c3, STATE_FORWARDING)
  }

  lemma RelayReadIs(c: Conn, side: Side, a: Answers)
    requires c.fds == {Client, Origin} && CanRecv(a.recv, c.r.Of(side.Other()).buf.Room())
    ensures RelayRead(c, side, a) == ReadInSteps(c, side, a)
    ensures var c1 := Received(c, side, a.recv);
      && c1.r == c.r && c1.fds == c.fds
      && (a.recv.Data? ==> |a.recv.bs| <= c1.r.Of(side.Other()).buf.Room())
  {
    hide RelayRead, ReadInSteps;
    if side == Client {
      FromClientIs(c, a);
    } else {
      FromOriginIs(c, a);
    }
  }

  lemma FromClientIs(c: Conn, a: Answers)
    requires c.fds == {Client, Origin} && CanRecv(a.recv, c.r.origin.buf.Room())
    ensures RelayRead(c, Client, a) == ReadInSteps(c, Client, a)
  {
    hide Clamp;
  }

  lemma FromOriginIs(c: Conn, a: Answers)
    requires c.fds == {Client, Origin} && CanRecv(a.recv, c.r.client.buf.Room())
    ensures RelayRead(c, Origin, a) == ReadInSteps(c, Origin, a)
  {
    hide Clamp;
  }

  /** forward_write, likewise. */
  ghost function WriteInSteps(c: Conn, side: Side, a: Answers): (Conn, nat) {
    var other := side.Other();
    if c.r.Of(side).buf.data == [] then (Wait(Wait(c, side, OP_READ), other, OP_READ), STATE_FORWARDING)
    else
      var sent := Clamp(a.send, |c.r.Of(side).buf.data|);
      var c1 := Drained(c, side, sent);
      if sent.SendAgain? then (c1, STATE_FORWARDING)
      else if sent.SendFail? then (c1, FailedSendState(sent))
      else
        (Wait(Wait(c1, side, if |c1.r.Of(side).buf.data| > 0 then OP_WRITE else OP_READ),
              other, if |c1.r.Of(other).buf.data| > 0 then OP_WRITE else OP_READ), STATE_FORWARDING)
  }

  lemma RelayWriteIs(c: Conn, side: Side, a: Answers)
    requires c.fds == {Client, Origin}
    ensures RelayWrite(c, side, a) == WriteInSteps(c, side, a)
    ensures forall sent :: CanSend(sent, |c.r.Of(side).buf.data|) ==> Drained(c, side, sent).fds == c.fds
  {
    hide Clamp;
    if side == Client {
    } else {
    }
  }
}
