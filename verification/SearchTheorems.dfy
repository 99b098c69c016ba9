/** The address search of a session, and the sessions that it strands. */
module SearchTheorems {
  import opened Bytes
  import opened Io
  import opened Codec
  import opened Relay
  import opened Session
  import opened SessionSafety
  import Connect
  import Stm
  import opened SessionTheorems
  import opened RequestTheorems

  // ---------- A stranded session ----------

  /** Some event may still happen. */
  predicate Waiting(c: Conn) {
    || (Client in c.fds && c.r.client.interest != OP_NOOP)
    || (Origin in c.fds && c.r.origin.interest != OP_NOOP)
    || c.state == STATE_RESOLVE
  }

  /** A live session waits for something, unless its address search ended on an event of the origin's descriptor:
      then the HOST_UNREACHABLE reply stays in write_buffer and nothing is waited for. */
  lemma {:induction false} StuckIffStranded(c: Conn, events: seq<Session.Event>, end: Conn)
    requires Accepted(c) && Session.Run(c, events, Live(end))
    ensures !Waiting(end) <==> end.log.stranded
    ensures end.log.stranded ==>
      end.state == STATE_REQUEST && end.log.status == Some(HOST_UNREACHABLE) && end.Pending() != []
    ensures end.log.stranded ==> forall e :: !Session.Enabled(end, e)
  {
    hide Inv, Accepted, Session.Run, Waiting, Session.Enabled;
    AcceptedInv(c);
    RunKeepsInv(c, events, Live(end));
    StrandedFacts(end);
  }

  lemma StrandedFacts(c: Conn)
    requires Inv(c)
    ensures !Waiting(c) <==> c.log.stranded
    ensures c.log.stranded ==> c.state == STATE_REQUEST && c.log.status == Some(HOST_UNREACHABLE) && c.Pending() != []
    ensures c.log.stranded ==> forall e :: !Session.Enabled(c, e)
  {
    hide Sound;
    if c.state == STATE_FORWARDING {
      SomethingEnabled(c.r);
    }
  }

  /** Whether the reply of a failed search will go out depends on whose event ended it: the client's descriptor is
      armed iff the handler ran with the client's key. */
  lemma {:induction false} UnreachableSentIffClientKey(c: Conn, side: Side, a: Answers)
    requires Ready(c) && c.r.client.interest == OP_NOOP && (side == Origin ==> c.hasOrigin)
    requires c.hasOrigin ==> c.cursor < c.addrs && c.r.origin.interest == OP_WRITE
    ensures var (c', next) := ConnectWrite(c, side, a);
      next == STATE_REQUEST && c'.log.status == Some(HOST_UNREACHABLE) ==>
        (c'.r.client.interest == OP_WRITE <==> side == Client) && c'.Pending() != []
  {
    hide Session.ConnectWrite, Ready, Core, Armed;
    ConnectWriteLeaves(c, side, a);
  }

  // ---------- The address search over several events ----------

  /** Events of a session in CONNECT, answered as the addresses of world w would. */
  ghost predicate SearchRun(c: Conn, events: seq<Session.Event>, w: Connect.World, end: Conn)
    decreases |events|
  {
    if events == [] then end == c
    else
      && c.state == STATE_CONNECT && Session.Possible(c, events[0]) && Session.Enabled(c, events[0])
      && events[0].a.attempt == w.attempt && events[0].a.soError == w.failsLater(c.cursor)
      && Session.Step(c, events[0]).Live?
      && SearchRun(Session.Step(c, events[0]).c, events[1..], w, end)
  }

  /** While connecting, the cursor's address is under way and all before it have failed. */
  ghost predicate Searching(c: Conn, w: Connect.World) {
    c.state == STATE_CONNECT && w.attempt(c.cursor) == Connect.Started && forall j :: 0 <= j < c.cursor ==> w.Fails(j)
  }

  /** A write event in CONNECT is one call of the search loop. */
  lemma ConnectStep(c: Conn, e: Session.Event)
    requires Inv(c) && c.state == STATE_CONNECT && Session.Possible(c, e) && Session.Enabled(c, e)
    requires Session.Step(c, e).Live?
    ensures var c' := Session.Step(c, e).c;
      var (s', r) := Connect.Advance(Connect.Search(c.addrs, c.cursor, true), e.a.soError, e.a.attempt);
      && c.cursor < c.addrs && c'.addrs == c.addrs
      && match r
         case Waiting => c'.state == STATE_CONNECT && c'.cursor == s'.cursor
         case Connected => c'.state == STATE_REQUEST && c'.log.status == Some(SUCCESS) && c'.cursor == c'.addrs
         case Exhausted =>
           && c'.state == STATE_REQUEST && c'.log.status == Some(HOST_UNREACHABLE)
           && c'.log.stranded && c'.cursor == c'.addrs
         case Broken => false
  {
    ConnectFacts(c, e);
    ConnectAnswers(c, e.a);
    hide Inv, Session.ConnectWrite, Session.Possible, Session.Enabled;
  }

  lemma ConnectFacts(c: Conn, e: Session.Event)
    requires Inv(c) && c.state == STATE_CONNECT && Session.Enabled(c, e)
    ensures c.hasOrigin && c.cursor < c.addrs && Client in c.fds && Origin in c.fds
    ensures e.kind.Write? && e.side == Origin
  {
    hide Sound;
  }

  lemma ConnectAnswers(c: Conn, a: Answers)
    requires c.hasOrigin && c.cursor < c.addrs && Client in c.fds && Origin in c.fds
    ensures var (c', next) := Session.ConnectWrite(c, Origin, a);
      var (s', r) := Connect.Advance(Connect.Search(c.addrs, c.cursor, true), a.soError, a.attempt);
      && c'.addrs == c.addrs
      && match r
         case Waiting => next == STATE_CONNECT && c'.cursor == s'.cursor
         case Connected => next == STATE_REQUEST && c'.log.status == Some(SUCCESS) && c'.cursor == c'.addrs
         case Exhausted =>
           && next == STATE_REQUEST && c'.log.status == Some(HOST_UNREACHABLE)
           && c'.log.stranded && c'.cursor == c'.addrs
         case Broken => next == STATE_ERROR
  {
    hide Connect.Advance, Reply;
  }

  lemma SearchStep(c: Conn, e: Session.Event, w: Connect.World)
    requires Inv(c) && Searching(c, w) && Session.Possible(c, e) && Session.Enabled(c, e)
    requires e.a.attempt == w.attempt && e.a.soError == w.failsLater(c.cursor)
    requires Session.Step(c, e).Live?
    ensures var c' := Session.Step(c, e).c;
      && c'.addrs == c.addrs
      && (c'.state == STATE_CONNECT ==> Searching(c', w))
      && (c'.state != STATE_CONNECT ==>
            && c'.state == STATE_REQUEST
            && (c'.log.status == Some(SUCCESS) <==> exists i :: Connect.First(w, c.addrs, i))
            && (c'.log.status == Some(HOST_UNREACHABLE) <==> forall j :: 0 <= j < c.addrs ==> w.Fails(j))
            && (c'.log.status == Some(HOST_UNREACHABLE) ==> c'.log.stranded))
  {
    hide Inv, Session.Step, Session.Possible, Session.Enabled, Connect.Advance, Connect.First;
    ConnectStep(c, e);
    Connect.AdvanceDecides(Connect.Search(c.addrs, c.cursor, true), w);
  }

  /** Over all the events of a search, the SUCCESS reply is produced exactly when some address works after only
      failing ones, and HOST_UNREACHABLE exactly when all fail. */
  lemma {:induction false} SearchRunDecides(c: Conn, events: seq<Session.Event>, w: Connect.World, end: Conn)
    requires Inv(c) && Searching(c, w) && SearchRun(c, events, w, end)
    ensures Inv(end) && (end.state == STATE_CONNECT ==> Searching(end, w))
    ensures end.state != STATE_CONNECT ==>
      && end.state == STATE_REQUEST
      && (end.log.status == Some(SUCCESS) <==> exists i :: Connect.First(w, c.addrs, i))
      && (end.log.status == Some(HOST_UNREACHABLE) <==> forall j :: 0 <= j < c.addrs ==> w.Fails(j))
      && (end.log.status == Some(HOST_UNREACHABLE) ==> end.log.stranded)
    decreases |events|
  {
    hide Inv, Session.Step, Session.Possible, Session.Enabled, Connect.First;
    if events != [] {
      SearchStep(c, events[0], w);
      StepKeepsInv(c, events[0]);
      var c' := Session.Step(c, events[0]).c;
      if c'.state == STATE_CONNECT {
        SearchRunDecides(c', events[1..], w, end);
      }
    }
  }

  // ---------- The whole search ----------

  /** No address was ever under way. */
  ghost predicate NoneStarted(w: Connect.World, addrs: nat) {
    forall j: nat :: j < addrs ==> w.attempt(j) != Connect.Started
  }

  /** The event starts the search through that many addresses. */
  ghost predicate BeginsSearch(c: Conn, e: Session.Event, addrs: nat) {
    && Inv(c) && c.state < |SOCKS5_STATES| && Session.Possible(c, e) && Session.Enabled(c, e)
    && Stm.Handles(SOCKS5_STATES[c.state], e.kind)
    && exists b :: Ready(b) && !b.hasOrigin && Handler(c, e) == BeginSearch(b, addrs, e.a)
  }

  /** A name that resolves starts one through what it resolves to. */
  lemma ResolvedBegins(c: Conn, e: Session.Event, addrs: nat)
    requires Inv(c) && c.state == STATE_RESOLVE && e.kind.Block? && e.side == Client && e.a.resolved == Some(addrs)
        && addrs > 0
    ensures BeginsSearch(c, e, addrs)
  {
    hide BeginSearch, Sound;
    assert Ready(c) && !c.hasOrigin;
    assert Handler(c, e) == BeginSearch(c, addrs, e.a);
  }

  /** A request for a literal address starts one through that address. */
  lemma LiteralBegins(c: Conn, q: Request, tail: seq<byte>, e: Session.Event)
    requires Requested(c, q, tail, e) && Session.Possible(c, e) && Session.Enabled(c, e) && q.atyp != DOMAIN_NAME_ATYP
    ensures BeginsSearch(c, e, 1)
  {
    RequestReadWhole(c, q, tail, e.a);
    var aim := AimOf(c, q, tail, e.a);
    ListeningReady(c, Stored(c, aim));
    hide BeginSearch, RequestRead, AimOf, Inv, Ready;
    assert Handler(c, e) == BeginSearch(Stored(c, aim), 1, e.a);
  }

  /** The first call either leaves an address under way, all before it having failed, or has seen every address fail
      without a connection; the client is then armed for the reply. */
  lemma FirstCall(c: Conn, addrs: nat, a: Answers, w: Connect.World)
    requires Ready(c) && !c.hasOrigin && a.attempt == w.attempt
    ensures var (c', next) := BeginSearch(c, addrs, a);
      && (next == STATE_CONNECT || next == STATE_REQUEST || next == STATE_ERROR)
      && c'.addrs == addrs
      && (next == STATE_CONNECT ==> Searching(c'.(state := next), w) && c'.cursor < addrs)
      && (next == STATE_REQUEST ==>
            && c'.log.status == Some(HOST_UNREACHABLE) && !c'.log.stranded
            && (forall j :: 0 <= j < addrs ==> w.Fails(j)) && NoneStarted(w, addrs))
  {
    hide Connect.Advance, Reply, Ready;
    Connect.AdvanceUnregistered(Connect.Search(addrs, 0, false), a.soError, a.attempt);
    var (s', r) := Connect.Advance(Connect.Search(addrs, 0, false), a.soError, a.attempt);
    assert forall j :: 0 <= j < s'.cursor ==> w.attempt(j) != Connect.Started && w.Fails(j);
  }

  lemma BeginsSearchStep(c: Conn, e: Session.Event, addrs: nat, w: Connect.World)
    requires BeginsSearch(c, e, addrs) && e.a.attempt == w.attempt && Session.Step(c, e).Live?
    ensures var c' := Session.Step(c, e).c;
      && Inv(c') && c'.addrs == addrs
      && (c'.state == STATE_CONNECT ==> Searching(c', w) && c'.cursor < addrs)
      && (c'.state != STATE_CONNECT ==>
            && c'.state == STATE_REQUEST && c'.log.status == Some(HOST_UNREACHABLE) && !c'.log.stranded
            && (forall j :: 0 <= j < addrs ==> w.Fails(j)) && NoneStarted(w, addrs))
  {
    hide Inv, Ready, Handler, BeginSearch, Searching, NoneStarted, Session.Step, Session.Possible, Session.Enabled,
      Stm.Handles;
    StepKeepsInv(c, e);
    LiveStep(c, e);
    var b :| Ready(b) && !b.hasOrigin && Handler(c, e) == BeginSearch(b, addrs, e.a);
    FirstCall(b, addrs, e.a, w);
    var (c', next) := BeginSearch(b, addrs, e.a);
    if next == STATE_CONNECT {
      assert Searching(c'.(state := next), w);
    }
  }

  /** What a session that lives on has become. */
  lemma LiveStep(c: Conn, e: Session.Event)
    requires c.state < |SOCKS5_STATES| && Session.Possible(c, e) && Session.Step(c, e).Live?
    ensures Stm.Handles(SOCKS5_STATES[c.state], e.kind)
    ensures var (c', next) := Handler(c, e); Session.Step(c, e).c == c'.(state := next) && next != STATE_ERROR
  {
    hide Handler, Session.Possible, Stm.Handles, Session.Finish;
  }

  /** From the event that starts it to the reply, over any number of events: SUCCESS iff some address works after only
      failing ones, HOST_UNREACHABLE iff all fail. The failure reply goes out iff no address was ever under way: one
      whose connection was started and then failed is enough to strand the session, wherever it stands in the list. */
  lemma {:induction false} WholeSearchDecides(c: Conn, e: Session.Event, addrs: nat, events: seq<Session.Event>,
                                              w: Connect.World, end: Conn)
    requires BeginsSearch(c, e, addrs) && e.a.attempt == w.attempt && Session.Step(c, e).Live?
    requires SearchRun(Session.Step(c, e).c, events, w, end) && end.state != STATE_CONNECT
    ensures end.state == STATE_REQUEST
    ensures end.log.status == Some(SUCCESS) <==> exists i :: Connect.First(w, addrs, i)
    ensures end.log.status == Some(HOST_UNREACHABLE) <==> forall j :: 0 <= j < addrs ==> w.Fails(j)
    ensures end.log.status == Some(HOST_UNREACHABLE) ==>
      && end.Pending() != []
      && (end.r.client.interest == OP_WRITE <==> NoneStarted(w, addrs))
      && (end.log.stranded <==> !NoneStarted(w, addrs))
  {
    hide Inv, Ready, Handler, BeginSearch, Session.Step, NoneStarted, Session.Possible, Session.Enabled;
    BeginsSearchStep(c, e, addrs, w);
    var c' := Session.Step(c, e).c;
    if c'.state == STATE_CONNECT {
      assert !NoneStarted(w, addrs) by { StartedSomewhere(c', addrs, w); }
      SearchRunDecides(c', events, w, end);
    } else {
      assert end == c';
      AllFailNoneFirst(w, addrs);
    }
    if end.log.status.Some? {
      UnreachableArmed(end);
    }
  }

  lemma StartedSomewhere(c: Conn, addrs: nat, w: Connect.World)
    requires Searching(c, w) && c.cursor < addrs
    ensures !NoneStarted(w, addrs)
  {
    assert w.attempt(c.cursor) == Connect.Started;
  }

  lemma AllFailNoneFirst(w: Connect.World, addrs: nat)
    requires forall j :: 0 <= j < addrs ==> w.Fails(j)
    ensures !exists i :: Connect.First(w, addrs, i)
  {
    forall i: nat ensures !Connect.First(w, addrs, i) {
      assert w.Works(i) ==> !w.Fails(i);
    }
  }

  /** A failed search leaves its reply pending; the client is waited on for writing unless the session is stranded. */
  lemma UnreachableArmed(c: Conn)
    requires Inv(c) && c.state == STATE_REQUEST && c.log.status.Some?
    ensures c.Pending() != [] && (c.r.client.interest == OP_WRITE <==> !c.log.stranded)
  {
    hide Sound;
  }
}
