/** What the greeting and the login of a session lead to. */
module LoginTheorems {
  import opened Bytes
  import opened Io
  import opened Buffer
  import opened Text
  import opened Codec
  import opened Relay
  import opened Session
  import opened SessionSafety
  import Stm
  import opened SessionTheorems

  // ---------- The greeting and the login ----------

  /** A greeting that has arrived whole is answered exactly when the number of bytes received, cut to eight bits,
      still covers it; so one with 254 or 255 methods never is. Method 2 is chosen iff it is offered. */
  lemma {:induction false} GreetingAnswered(c: Conn, methods: seq<byte>, tail: seq<byte>, a: Answers)
    requires c.rb.Valid() && c.log.chosen == None && 1 <= |methods| <= 255
    requires a.recv.Data? && c.rb.data + a.recv.bs == [SOCKS5_VERSION, |methods|] + methods + tail
    ensures var c' := HelloRead(c, a).0;
      && (c'.log.chosen.Some? <==> (2 + |methods| + |tail|) % 256 >= 2 + |methods|)
      && (c'.log.chosen.Some? ==> c'.log.chosen == Some(if AUTH_METHOD in methods then AUTH_METHOD else NO_AUTH_METHOD)
                                  && c'.rb.data == tail)
      && (|methods| >= 254 ==> c'.log.chosen == None)
  {
    hide HelloRead;
    var n := |methods|;
    var v := c.rb.Push(a.recv.bs);
    assert v.data == [SOCKS5_VERSION, n] + methods + tail;
    GreetingBytes(v, n, methods, tail);
    HelloReadRecords(c, a, n, v.Rest().Rest());
  }

  /** A greeting that is not answered yet and has the right version is waited on. Fewer than two bytes stay in the
      buffer; the version and the count do not, so what arrives later is taken for a greeting again. */
  lemma {:induction false} ShortGreetingWaits(c: Conn, bs: seq<byte>, a: Answers)
    requires a.recv.Data? && bs == c.rb.data + a.recv.bs
    requires |bs| < 2 || (bs[0] == SOCKS5_VERSION && bs[1] > 0 && |bs| % 256 < 2 + bs[1] as int)
    ensures var (c', s) := HelloRead(c, a);
      && s == STATE_HELLO && c' == c.(rb := c'.rb)
      && c'.rb.data == if |bs| < 2 then bs else bs[2..]
  {
    hide HelloWriteAux, HelloReply;
    var v := c.rb.Push(a.recv.bs);
    if |bs| >= 2 {
      PopRest(v, 1);
      assert v.Rest() == v.Pop(1) && v.Rest().NextByte() == bs[1] && v.Rest().Rest() == v.Pop(2);
    }
  }

  lemma GreetingBytes(v: Buf, n: byte, methods: seq<byte>, tail: seq<byte>)
    requires v.data == [SOCKS5_VERSION, n] + methods + tail && n == |methods| > 0
    ensures v.NextByte() == SOCKS5_VERSION && v.Rest().NextByte() == n
    ensures var v2 := v.Rest().Rest();
      v2.data == methods + tail && v2.data[..Min(n, |v2.data|)] == methods && v2.Pop(|methods|).data == tail
  {
    assert v.Rest().data == [n] + methods + tail;
    assert v.Rest().Rest().data == methods + tail;
  }

  lemma HelloReadRecords(c: Conn, a: Answers, n: byte, v2: Buf)
    requires a.recv.Data? && n > 0
    requires var v := c.rb.Push(a.recv.bs);
      |v.data| >= 2 && v.NextByte() == SOCKS5_VERSION && v.Rest().NextByte() == n && v2 == v.Rest().Rest()
    ensures var c' := HelloRead(c, a).0;
      var methods := v2.data[..Min(n, |v2.data|)];
      if (|c.rb.data| + |a.recv.bs|) % 256 < 2 + n as int then c'.log == c.log
      else c'.log.chosen == Some(if AUTH_METHOD in methods then AUTH_METHOD else NO_AUTH_METHOD)
           && c'.rb == v2.Pop(|methods|)
  {
    hide HelloWriteAux, HelloReply;
    var methods := v2.data[..Min(n, |v2.data|)];
    var c1 := c.(rb := v2.Pop(|methods|));
    HelloReplyRecords(c1, AUTH_METHOD);
    HelloReplyRecords(c1, NO_AUTH_METHOD);
    HelloWriteKeepsLog(HelloReply(c1, AUTH_METHOD), a.send, STATE_AUTH, STATE_HELLO_TO_AUTH);
    HelloWriteKeepsLog(HelloReply(c1, NO_AUTH_METHOD), a.send, STATE_REQUEST, STATE_HELLO);
  }

  lemma HelloReplyRecords(c: Conn, chosen: byte)
    ensures HelloReply(c, chosen).log.chosen == Some(chosen) && HelloReply(c, chosen).rb == c.rb
  {
  }

  lemma HelloWriteKeepsLog(c: Conn, send: Send, next: nat, current: nat)
    ensures HelloWriteAux(c, send, next, current).0.log == c.log && HelloWriteAux(c, send, next, current).0.rb == c.rb
  {
  }

  /** A login request (section 2 of RFC 1929) that lies whole in the read buffer, however it got there, is taken from
      it exactly and accepted iff the store has that password for that name, both read up to a zero byte. */
  lemma {:induction false} LoginDecided(c: Conn, name: seq<byte>, pass: seq<byte>, tail: seq<byte>, a: Answers)
    requires c.rb.Valid() && |name| <= 255 && |pass| <= 255
    requires a.recv.Data? && CanRecv(a.recv, c.rb.Room())
    requires c.rb.data + a.recv.bs == [AUTH_VERSION] + ([|name|] + name + ([|pass|] + pass + tail))
    ensures var n, p := FieldText(name), FieldText(pass);
      AuthRead(c, a).0.log.login == Some(if n in a.users && a.users[n] == p then 0 else 1)
    ensures AuthRead(c, a).0.rb.data == tail
    ensures NulFree(name) ==> FieldText(name) == name
  {
    hide AuthRead, FieldText;
    var v := c.rb.Push(a.recv.bs);
    AuthReadRecords(c, a);
    var v1 := v.Rest();
    FieldWhole(v1, name, [|pass|] + pass + tail);
    FieldWhole(AfterField(v1), pass, tail);
    if NulFree(name) {
      FieldTextIs(name);
    }
  }

  lemma FieldTextIs(name: seq<byte>)
    requires NulFree(name)
    ensures FieldText(name) == name
  {
    CStrIs(name, [0]);
  }

  lemma AuthReadRecords(c: Conn, a: Answers)
    requires a.recv.Data? && c.rb.data + a.recv.bs != [] && (c.rb.data + a.recv.bs)[0] == AUTH_VERSION
    ensures var v1 := c.rb.Push(a.recv.bs).Rest();
      var v2 := AfterField(v1);
      && AuthRead(c, a).0.log.login == Some(LoginStatus(a.users, FieldText(FieldOf(v1)), FieldText(FieldOf(v2))))
      && AuthRead(c, a).0.rb == AfterField(v2)
  {
    hide AfterField, FieldOf, FieldText;
  }

  lemma FieldWhole(v: Buf, field: seq<byte>, tail: seq<byte>)
    requires |field| <= 255 && v.data == [|field|] + field + tail && v.start + |v.data| <= v.limit
    ensures FieldOf(v) == field && AfterField(v).data == tail
    ensures AfterField(v).start + |AfterField(v).data| <= v.limit
  {
    assert v.data[0] == |field|;
    if field + tail == [] {
      assert v.data == [0];
    }
    assert v.Rest().data == field + tail;
  }

  // ---------- A refused login ----------

  /** One event after a refused login. If part of the reply is still to be sent and sending it fails, the session
      closes, or with a broken pipe the process dies; otherwise what send() takes is gone from the reply and nothing
      else happens. */
  lemma RefusedStep(c: Conn, e: Session.Event)
    requires Inv(c) && c.log.login == Some(1)
    requires c.state < |SOCKS5_STATES| && Session.Possible(c, e) && Session.Enabled(c, e)
    ensures var s := Session.Step(c, e);
      && (s.Closed? <==> c.Pending() != [] && e.a.send == SendFail(false))
      && (s.Aborted? <==> c.Pending() != [] && e.a.send == SendFail(true))
      && (s.Live? ==> Inv(s.c) && s.c.log == c.log
                      && |s.c.Pending()| == |c.Pending()| - Taken(Clamp(e.a.send, |c.Pending()|)))
  {
    RefusedWaits(c, e);
    RefusalIsFinal(c, e);
    StepKeepsInv(c, e);
    hide Inv, Clamp, Session.Possible, Session.Enabled, Session.Finish;
    RefusedSend(c, e.a.send);
  }

  lemma RefusedSend(c: Conn, send: Send)
    ensures c.Pending() == [] ==>
      HelloWriteAux(c, send, STATE_AUTH, STATE_HELLO_TO_AUTH) == (c, STATE_HELLO_TO_AUTH)
      && Taken(Clamp(send, |c.Pending()|)) == 0
    ensures var (c', s) := AuthWriteAux(c, send, 1, STATE_AUTH_FAILED);
      c.Pending() != [] ==>
        && (s == STATE_ERROR <==> send == SendFail(false)) && s != STATE_DONE
        && |c'.Pending()| == |c.Pending()| - Taken(Clamp(send, |c.Pending()|))
  {
  }

  /** Whether some send() fails before all that is left has been taken, and whether it meets a broken pipe. */
  function FailureInTime(left: nat, events: seq<Session.Event>): Option<bool>
    decreases |events|
  {
    if events == [] || left == 0 then None
    else match events[0].a.send
      case SendFail(brokenPipe) => Some(brokenPipe)
      case _ => FailureInTime(left - Taken(Clamp(events[0].a.send, left)), events[1..])
  }

  /** When a refused login does end the session: exactly when a send() fails before the reply is out, and then it takes
      the process along iff the client has gone. In any other run the session lives on, its history closed. */
  lemma {:induction false} RefusedEndsIffSendFails(c: Conn, events: seq<Session.Event>, end: Result)
    requires Inv(c) && c.log.login == Some(1) && Session.Run(c, events, end)
    ensures end.Closed? <==> FailureInTime(|c.Pending()|, events) == Some(false)
    ensures end.Aborted? <==> FailureInTime(|c.Pending()|, events) == Some(true)
    ensures end.Live? ==> end.c.log == c.log && end.c.state in {STATE_AUTH_FAILED, STATE_HELLO_TO_AUTH}
    decreases |events|
  {
    hide Inv, Session.Step, Session.Possible, Session.Enabled, Clamp;
    if events == [] {
      GateFacts(c);
    } else {
      RefusedStep(c, events[0]);
      var s := Session.Step(c, events[0]);
      if s.Live? {
        RefusedEndsIffSendFails(s.c, events[1..], end);
      }
    }
  }

  /** After a refused login has been answered nothing changes any more: the state waits to write and has nothing
      to write, so the session is reported writable again and again, and never closes by itself. */
  lemma {:induction false} RefusedLoginNeverEnds(c: Conn, events: seq<Session.Event>, end: Result)
    requires Inv(c) && c.state == STATE_HELLO_TO_AUTH && c.log.login == Some(1)
    requires Session.Run(c, events, end)
    ensures end == Live(c) && c.r.client.interest.write
    decreases |events|
  {
    assert Rejected(c);
    if events != [] {
      assert Session.Step(c, events[0]) == Live(c);
      RefusedLoginNeverEnds(c, events[1..], end);
    }
  }

  /** A refused login stays refused. */
  lemma {:induction false} RefusalIsFinal(c: Conn, e: Session.Event)
    requires Inv(c) && c.log.login == Some(1)
    requires c.state < |SOCKS5_STATES| && Session.Possible(c, e) && Session.Enabled(c, e)
    ensures var s := Session.Step(c, e);
      && (s.Aborted? ==> e.a.send == SendFail(true))
      && (!s.Aborted? ==> s.c.log == c.log)
      && (s.Live? ==> s.c.state == STATE_AUTH_FAILED || s.c.state == STATE_HELLO_TO_AUTH)
  {
    RefusedHandler(c, e);
    hide Inv, Handler, Session.Finish, Session.Possible, Session.Enabled;
    var (c', next) := Handler(c, e);
    if next == STATE_ERROR {
      assert next != STATE_DONE;
      FinishReleases(c'.(state := next));
    }
  }

  lemma RefusedHandler(c: Conn, e: Session.Event)
    requires Inv(c) && c.log.login == Some(1)
    requires c.state < |SOCKS5_STATES| && Session.Possible(c, e) && Session.Enabled(c, e)
    ensures Stm.Handles(SOCKS5_STATES[c.state], e.kind)
    ensures var (c', next) := Handler(c, e);
      && c'.log == c.log && next in {STATE_AUTH_FAILED, STATE_HELLO_TO_AUTH, STATE_ERROR, KILLED}
      && (next == KILLED ==> e.a.send == SendFail(true))
      && Core(c'.(state := next))
  {
    hide HelloRead, AuthRead, RequestRead, RelayRead, RelayWrite, AuthWriteAux, RequestWrite, Session.ConnectWrite,
      ResolutionBlock, Core, Shape;
    RefusedWaits(c, e);
    HandlerLeaves(c, e);
    AuthFailedWriteAnswers(c, e.a.send);
    StateChange(Handler(c, e).0, Handler(c, e).1);
  }

  /** Only the client is waited on, for writing. */
  lemma RefusedWaits(c: Conn, e: Session.Event)
    requires Inv(c) && c.log.login == Some(1) && Session.Enabled(c, e)
    ensures e.kind.Write? && if c.Pending() != [] then c.state == STATE_AUTH_FAILED else c.state == STATE_HELLO_TO_AUTH
  {
    hide Sound, Armed;
    GateFacts(c);
    assert e.side == Client;
  }

  lemma AuthFailedWriteAnswers(c: Conn, send: Send)
    ensures var (c', s) := AuthWriteAux(c, send, 1, STATE_AUTH_FAILED);
      && c'.log == c.log && (s == KILLED ==> send == SendFail(true))
      && (c.Pending() != [] ==> s in {STATE_AUTH_FAILED, STATE_HELLO_TO_AUTH, STATE_ERROR, KILLED})
  {
  }
}
