/** The descriptor multiplexer of utils/selector.c: a table indexed by descriptor, two descriptor sets and a
    cached maximum. Callbacks are given by what they do to the selector; time is a parameter. */
module Selector {
  import opened Bytes
  import opened Io

  datatype Status = Success | NoMemory | MaxFd | IllegalArgument | FdInUse | IoError

  /** FD_SETSIZE, which is also the most items the table may be asked for. */
  const ITEMS_MAX_SIZE: nat := 1024
  const FD_UNUSED := -1

  datatype Item = Item(fd: int, interest: Interest, handler: Option<nat>, data: nat, tv: int, toBeRemoved: bool) {
    predicate Used() {
      fd != FD_UNUSED
    }
  }

  /** memset and item_init. */
  function Unused(now: int): Item {
    Item(FD_UNUSED, OP_NOOP, None, 0, now, false)
  }

  predicate InvalidFd(fd: int) {
    fd < 0 || fd >= ITEMS_MAX_SIZE
  }

  // ---------- Agreement of the table with its indexes ----------

  ghost predicate Slots(items: seq<Item>) {
    forall i :: 0 <= i < |items| && items[i].Used() ==> items[i].fd == i < ITEMS_MAX_SIZE
  }

  /** A descriptor is in a set iff it is registered with that interest. */
  ghost predicate Indexed(items: seq<Item>, r: set<int>, w: set<int>) {
    && (forall fd :: fd in r <==> 0 <= fd < |items| && items[fd].Used() && items[fd].interest.read)
    && (forall fd :: fd in w <==> 0 <= fd < |items| && items[fd].Used() && items[fd].interest.write)
  }

  /** The largest registered descriptor, or 0. */
  ghost predicate IsMax(items: seq<Item>, max: int) {
    && (forall i :: 0 <= i < |items| && items[i].Used() ==> i <= max)
    && 0 <= max && (max == 0 || (max < |items| && items[max].Used()))
  }

  // ---------- Capacity ----------

  function Pow2(n: nat): (p: nat)
    ensures p >= 1
  {
    if n == 0 then 1 else 2 * Pow2(n - 1)
  }

  /** q is the quotient of n by p. */
  ghost predicate Quotient(n: nat, q: nat, p: nat) {
    q * p <= n < (q + 1) * p
  }

  lemma QuotientHalves(n: nat, q: nat, p: nat)
    requires q >= 1 && Quotient(n, q, p)
    ensures Quotient(n, q / 2, 2 * p) && p <= n
  {
    var h := q / 2;
    if q == 2 * h {
      assert h * (2 * p) == q * p && (h + 1) * (2 * p) == q * p + 2 * p == (q + 1) * p + p;
    } else {
      assert q == 2 * h + 1;
      assert h * (2 * p) == q * p - p && (h + 1) * (2 * p) == (q + 1) * p;
    }
    assert q * p == (q - 1) * p + p;
    assert (q - 1) * p >= 0;
  }

  lemma QuotientOne(n: nat)
    ensures Quotient(n, n, 1)
  {
  }

  lemma QuotientZero(n: nat, p: nat)
    requires Quotient(n, 0, p)
    ensures n < p
  {
  }

  /** The smallest power of two above n, cut to the platform's limit, and one more. */
  method NextCapacity(n: nat) returns (size: nat, ghost bits: nat)
    ensures n < Pow2(bits) && (bits > 0 ==> Pow2(bits - 1) <= n)
    ensures size == (if Pow2(bits) > ITEMS_MAX_SIZE then ITEMS_MAX_SIZE else Pow2(bits)) + 1
    ensures n <= ITEMS_MAX_SIZE ==> n < size <= ITEMS_MAX_SIZE + 1
    ensures n == ITEMS_MAX_SIZE ==> size == 1025
  {
    hide Quotient;
    bits := 0;
    var shifted, tmp := n, 1;
    QuotientOne(n);
    while shifted != 0
      invariant tmp == Pow2(bits)
      invariant Quotient(n, shifted, tmp)
      invariant bits > 0 ==> Pow2(bits - 1) <= n
      decreases shifted
    {
      QuotientHalves(n, shifted, tmp);
      shifted := shifted / 2;
      bits := bits + 1;
      tmp := tmp * 2;
    }
    QuotientZero(n, tmp);
    if tmp > ITEMS_MAX_SIZE {
      tmp := ITEMS_MAX_SIZE;
    }
    size := tmp + 1;
  }

  // ---------- The idle sweep ----------

  predicate Evicted(item: Item, now: int, timeout: nat, ignored: set<int>) {
    item.Used() && (item.toBeRemoved || (item.fd !in ignored && now - item.tv > timeout))
  }

  /** A handle_close callback that was made. */
  datatype Closing = Closing(fd: int, data: nat)

  function EvictedUpTo(items: seq<Item>, n: nat, now: int, timeout: nat, ignored: set<int>): seq<Closing>
    requires n <= |items|
  {
    if n == 0 then []
    else
      var before := EvictedUpTo(items, n - 1, now, timeout, ignored);
      var item := items[n - 1];
      if Evicted(item, now, timeout, ignored) then before + [Closing(item.fd, item.data)] else before
  }

  lemma NoneEvicted(items: seq<Item>, now: int, timeout: nat, ignored: set<int>)
    ensures EvictedUpTo(items, 0, now, timeout, ignored) == []
  {
  }

  lemma NextEvicted(items: seq<Item>, n: nat, now: int, timeout: nat, ignored: set<int>)
    requires n < |items| && (items[n].Used() ==> items[n].fd == n)
    ensures EvictedUpTo(items, n + 1, now, timeout, ignored) == EvictedUpTo(items, n, now, timeout, ignored)
         + if Evicted(items[n], now, timeout, ignored) then [Closing(n, items[n].data)] else []
  {
  }

  lemma {:induction false} NothingEvictedAbove(items: seq<Item>, m: nat, n: nat, now: int, timeout: nat,
                                               ignored: set<int>)
    requires m <= n <= |items| && forall i :: m <= i < n ==> !items[i].Used()
    ensures EvictedUpTo(items, n, now, timeout, ignored) == EvictedUpTo(items, m, now, timeout, ignored)
  {
    if m < n {
      NothingEvictedAbove(items, m, n - 1, now, timeout, ignored);
    }
  }

  // ---------- What callbacks do to the table ----------

  /** The items and the handle_close callbacks made so far. */
  datatype Table = Table(items: seq<Item>, closings: seq<Closing>) {
    /** Holds every valid descriptor, as the server's table does; so callbacks never make it move. */
    predicate Full() {
      |items| == 1025
    }
  }

  /** What a callback may ask of the selector. */
  datatype Request = Register(fd: int, handler: Option<nat>, interest: Interest, data: nat)
                   | Unregister(fd: int)
                   | SetInterest(fd: int, interest: Interest)

  /** An item is stamped whenever it is told to wait for something. */
  function Armed(item: Item, now: int): Item {
    if item.interest == OP_NOOP then item else item.(tv := now)
  }

  function AfterRequest(t: Table, r: Request, now: int): (t': Table)
    requires t.Full()
    ensures t'.Full()
    ensures Slots(t.items) ==> Slots(t'.items)
    ensures forall i :: 0 <= i < 1025 && i != r.fd ==> t'.items[i] == t.items[i]
  {
    if InvalidFd(r.fd) || (r.Register? && r.handler == None) || t.items[r.fd].Used() == r.Register? then t
    else
      var item := t.items[r.fd];
      match r
      case Register(fd, handler, interest, data) =>
        t.(items := t.items[fd := Armed(item.(fd := fd, handler := handler, interest := interest, data := data), now)])
      case Unregister(fd) =>
        Table(t.items[fd := Unused(now)], t.closings + [Closing(fd, item.data)])
      case SetInterest(fd, interest) =>
        t.(items := t.items[fd := Armed(item.(interest := interest), now)])
  }

  function AfterAll(t: Table, rs: seq<Request>, now: int): (t': Table)
    requires t.Full()
    ensures t'.Full()
    ensures Slots(t.items) ==> Slots(t'.items)
    ensures forall i :: 0 <= i < 1025 && !Mentions(rs, i) ==> t'.items[i] == t.items[i]
  {
    if rs == [] then t
    else
      var n := |rs| - 1;
      assert forall i :: Mentions(rs[..n], i) ==> Mentions(rs, i);
      AfterRequest(AfterAll(t, rs[..n], now), rs[n], now)
  }

  predicate Mentions(rs: seq<Request>, fd: int) {
    exists k :: 0 <= k < |rs| && rs[k].fd == fd
  }

  /** A descriptor is either still registered after a callback's requests or left waiting for nothing. */
  lemma {:induction false} UnregisteredWaitsForNothing(t: Table, rs: seq<Request>, now: int, i: nat)
    requires t.Full() && i < 1025 && (t.items[i].Used() || t.items[i].interest == OP_NOOP)
    ensures var item := AfterAll(t, rs, now).items[i]; item.Used() || item.interest == OP_NOOP
  {
    if rs != [] {
      UnregisteredWaitsForNothing(t, rs[..|rs| - 1], now, i);
    }
  }

  predicate OnlyStamped(before: Item, after: Item) {
    after == before.(tv := after.tv)
  }

  /** A ready callback does as it asks, then its own item is stamped. */
  function AfterCallback(t: Table, i: nat, rs: seq<Request>, now: int): (t': Table)
    requires t.Full() && i < 1025
    ensures t'.Full()
    ensures Slots(t.items) ==> Slots(t'.items)
    ensures forall k :: 0 <= k < 1025 && !Mentions(rs, k) ==> OnlyStamped(t.items[k], t'.items[k])
  {
    var t' := AfterAll(t, rs, now);
    t'.(items := t'.items[i := t'.items[i].(tv := now)])
  }

  /** The requests of the k-th callback made. */
  function Asked(script: seq<seq<Request>>, k: nat): seq<Request> {
    if k < |script| then script[k] else []
  }

  // ---------- One round of readiness ----------

  /** A callback that was made: key.fd, key.data, and the item as it was at that moment. */
  datatype Call = Call(fd: int, write: bool, data: nat, item: Item)

  /** What a round leaves and the callbacks it makes. */
  datatype Outcome = Outcome(table: Table, calls: seq<Call>) {
    /** The same after earlier callbacks. */
    function Behind(made: seq<Call>): Outcome {
      Outcome(table, made + calls)
    }

    lemma BehindTwice(a: seq<Call>, b: seq<Call>)
      ensures Behind(b).Behind(a) == Behind(a + b) && Behind([]) == this
    {
      assert a + (b + calls) == a + b + calls;
    }
  }

  /** Each descriptor has two turns in a round, the even one for reading and the odd one for writing. */
  function Turn(c: Call): int {
    2 * c.fd + if c.write then 1 else 0
  }

  /** The sets of ready descriptors, slave_r and slave_w. */
  datatype Ready = Ready(r: set<int>, w: set<int>)

  /** At turn p the item is registered, ready and waiting for the event of that turn. */
  predicate Due(item: Item, p: nat, ready: Ready) {
    && item.Used()
    && if p % 2 == 0 then p / 2 in ready.r && item.interest.read else p / 2 in ready.w && item.interest.write
  }

  /** The rest of a round, from turn p on: what it leaves and the callbacks it makes, the first of which is number
      done. key.data is loaded at the first turn of a descriptor and kept, as data, for the second. */
  function Round(t: Table, p: nat, data: nat, n: nat, ready: Ready, script: seq<seq<Request>>, done: nat,
                 now: int): (o: Outcome)
    requires t.Full() && n < 1025
    ensures o.table.Full()
    decreases 2 * n + 2 - p
  {
    if p >= 2 * n + 2 then Outcome(t, [])
    else
      var item := t.items[p / 2];
      var loaded := if p % 2 == 0 then item.data else data;
      var kept := if p % 2 == 0 then loaded else 0;
      if Due(item, p, ready) then
        var t' := AfterCallback(t, p / 2, Asked(script, done), now);
        Round(t', p + 1, kept, n, ready, script, done + 1, now).Behind([Call(p / 2, p % 2 == 1, loaded, item)])
      else
        Round(t, p + 1, kept, n, ready, script, done, now)
  }

  lemma RoundOver(t: Table, p: nat, data: nat, n: nat, ready: Ready, script: seq<seq<Request>>, done: nat, now: int)
    requires t.Full() && n < 1025 && p >= 2 * n + 2
    ensures Round(t, p, data, n, ready, script, done, now) == Outcome(t, [])
    ensures forall calls: seq<Call> :: Outcome(t, []).Behind(calls) == Outcome(t, calls)
  {
  }

  /** One turn of a round. */
  lemma RoundTurn(t: Table, p: nat, data: nat, n: nat, ready: Ready, script: seq<seq<Request>>, done: nat, now: int)
    requires t.Full() && n < 1025 && p < 2 * n + 2
    ensures var item := t.items[p / 2];
      var loaded, kept := if p % 2 == 0 then item.data else data, if p % 2 == 0 then item.data else 0;
      Round(t, p, data, n, ready, script, done, now)
      == if Due(item, p, ready) then
           Round(AfterCallback(t, p / 2, Asked(script, done), now), p + 1, kept, n, ready, script, done + 1, now)
           .Behind([Call(p / 2, p % 2 == 1, loaded, item)])
         else Round(t, p + 1, kept, n, ready, script, done, now)
  {
  }

  predicate InTable(calls: seq<Call>) {
    forall k :: 0 <= k < |calls| ==> 0 <= calls[k].fd < 1025
  }

  /** The table that the first k callbacks of a list leave. */
  function Replay(t: Table, calls: seq<Call>, script: seq<seq<Request>>, done: nat, now: int, k: nat): (t': Table)
    requires t.Full() && k <= |calls| && InTable(calls)
    ensures t'.Full()
    ensures Slots(t.items) ==> Slots(t'.items)
    decreases k
  {
    if k == 0 then t
    else Replay(AfterCallback(t, calls[0].fd, Asked(script, done), now), calls[1..], script, done + 1, now, k - 1)
  }

  /** The first k callbacks of an ordered list are those made before turn q. */
  ghost predicate MadeBefore(calls: seq<Call>, k: nat, q: int) {
    k <= |calls| && (k > 0 ==> Turn(calls[k - 1]) < q) && (k < |calls| ==> q <= Turn(calls[k]))
  }

  /** The two turns of descriptor i, one after the other. */
  lemma TwoTurns(t: Table, i: nat, n: nat, ready: Ready, script: seq<seq<Request>>, done: nat, now: int)
    requires t.Full() && i <= n < 1025
    ensures var item := t.items[i];
      var (t1, made) := if Due(item, 2 * i, ready)
          then (AfterCallback(t, i, Asked(script, done), now), [Call(i, false, item.data, item)])
                        else (t, []);
      var item1 := t1.items[i];
      var (t2, made') := if Due(item1, 2 * i + 1, ready)
        then (AfterCallback(t1, i, Asked(script, done + |made|), now), made + [Call(i, true, item.data, item1)])
        else (t1, made);
      Round(t, 2 * i, 0, n, ready, script, done, now)
      == Round(t2, 2 * i + 2, 0, n, ready, script, done + |made'|, now).Behind(made')
  {
    hide AfterCallback, Asked, Round, Due;
    RoundTurn(t, 2 * i, 0, n, ready, script, done, now);
    var item := t.items[i];
    var (t1, made) := if Due(item, 2 * i, ready)
        then (AfterCallback(t, i, Asked(script, done), now), [Call(i, false, item.data, item)])
                      else (t, []);
    var second := Round(t1, 2 * i + 1, item.data, n, ready, script, done + |made|, now);
    second.BehindTwice([], []);
    assert Round(t, 2 * i, 0, n, ready, script, done, now) == second.Behind(made);
    var item1 := t1.items[i];
    RoundTurn(t1, 2 * i + 1, item.data, n, ready, script, done + |made|, now);
    var (t2, made1) := if Due(item1, 2 * i + 1, ready)
      then (AfterCallback(t1, i, Asked(script, done + |made|), now), [Call(i, true, item.data, item1)])
      else (t1, []);
    var third := Round(t2, 2 * i + 2, 0, n, ready, script, done + |made| + |made1|, now);
    third.BehindTwice([], []);
    assert second == third.Behind(made1);
    third.BehindTwice(made, made1);
    assert made + [] == made;
  }

  /** Callbacks come in order of turn, so none is repeated, and only where they are due. */
  lemma {:induction false} RoundInOrder(t: Table, p: nat, data: nat, n: nat, ready: Ready, script: seq<seq<Request>>,
                                        done: nat, now: int, calls: seq<Call>)
    requires t.Full() && n < 1025
    requires calls == Round(t, p, data, n, ready, script, done, now).calls
    ensures forall k :: 0 <= k < |calls| ==>
        0 <= calls[k].fd <= n && p <= Turn(calls[k]) && Due(calls[k].item, Turn(calls[k]), ready)
    ensures forall k, l :: 0 <= k < l < |calls| ==> Turn(calls[k]) < Turn(calls[l])
    decreases 2 * n + 2 - p
  {
    hide AfterCallback, Asked, Due, Round;
    if p >= 2 * n + 2 {
      RoundOver(t, p, data, n, ready, script, done, now);
    } else {
      RoundTurn(t, p, data, n, ready, script, done, now);
      var item := t.items[p / 2];
      var kept := if p % 2 == 0 then item.data else 0;
      if Due(item, p, ready) {
        var t1 := AfterCallback(t, p / 2, Asked(script, done), now);
        var rest := Round(t1, p + 1, kept, n, ready, script, done + 1, now).calls;
        RoundInOrder(t1, p + 1, kept, n, ready, script, done + 1, now, rest);
        assert Turn(calls[0]) == p;
        assert forall k :: 0 < k < |calls| ==> calls[k] == rest[k - 1];
      } else {
        RoundInOrder(t, p + 1, kept, n, ready, script, done, now, calls);
      }
    }
  }

  /** What key.data holds in the k-th callback, if it held data when turn p came. */
  ghost predicate DataLoaded(calls: seq<Call>, k: nat, p: nat, data: nat)
    requires k < |calls|
  {
    calls[k].data == if k == 0 && Turn(calls[k]) == p && calls[k].write then data
                     else if k > 0 && calls[k].write && calls[k - 1].fd == calls[k].fd then calls[k - 1].data
                     else calls[k].item.data
  }

  ghost predicate AllLoaded(calls: seq<Call>, p: nat, data: nat) {
    forall k :: 0 <= k < |calls| ==> DataLoaded(calls, k, p, data)
  }

  lemma RoundFirst(t: Table, p: nat, data: nat, n: nat, ready: Ready, script: seq<seq<Request>>, done: nat, now: int,
                   calls: seq<Call>)
    requires t.Full() && n < 1025
    requires calls == Round(t, p, data, n, ready, script, done, now).calls
    ensures calls != [] && Turn(calls[0]) == p ==> p / 2 < 1025 && calls[0].item == t.items[p / 2]
  {
    RoundInOrder(t, p, data, n, ready, script, done, now, calls);
    if p < 2 * n + 2 {
      hide AfterCallback, Asked, Due, Round;
      RoundTurn(t, p, data, n, ready, script, done, now);
      if !Due(t.items[p / 2], p, ready) {
        RoundInOrder(t, p + 1, if p % 2 == 0 then t.items[p / 2].data else 0, n, ready, script, done, now, calls);
      }
    }
  }

  /** A callback is given its item's data, except that a write callback right after the same descriptor's read callback
      is given what that one was, even if its item has been registered anew with other data. */
  lemma {:induction false} RoundData(t: Table, p: nat, data: nat, n: nat, ready: Ready, script: seq<seq<Request>>,
                                     done: nat, now: int, calls: seq<Call>)
    requires t.Full() && n < 1025
    requires calls == Round(t, p, data, n, ready, script, done, now).calls
    ensures AllLoaded(calls, p, data)
    decreases 2 * n + 2 - p
  {
    hide AfterCallback, Asked, AllLoaded, Due, Round;
    if p >= 2 * n + 2 {
      RoundOver(t, p, data, n, ready, script, done, now);
      NoneLoaded(p, data);
    } else {
      RoundTurn(t, p, data, n, ready, script, done, now);
      var item := t.items[p / 2];
      var kept := if p % 2 == 0 then item.data else 0;
      if Due(item, p, ready) {
        var t1 := AfterCallback(t, p / 2, Asked(script, done), now);
        var rest := Round(t1, p + 1, kept, n, ready, script, done + 1, now).calls;
        assert calls[1..] == rest && calls[0] == Call(p / 2, p % 2 == 1, if p % 2 == 0 then item.data else data, item);
        RoundData(t1, p + 1, kept, n, ready, script, done + 1, now, rest);
        RoundInOrder(t1, p + 1, kept, n, ready, script, done + 1, now, rest);
        DataStep(calls, p, data, kept);
      } else {
        RoundData(t, p + 1, kept, n, ready, script, done, now, calls);
        RoundInOrder(t, p + 1, kept, n, ready, script, done, now, calls);
        RoundFirst(t, p + 1, kept, n, ready, script, done, now, calls);
        NoDataStep(t, calls, p, data, kept);
      }
    }
  }

  lemma NoneLoaded(p: nat, data: nat)
    ensures AllLoaded([], p, data)
  {
  }

  lemma DataStep(calls: seq<Call>, p: nat, data: nat, kept: nat)
    requires calls != [] && Turn(calls[0]) == p && calls[0].data == (if p % 2 == 0 then calls[0].item.data else data)
    requires kept == if p % 2 == 0 then calls[0].item.data else 0
    requires forall k :: 0 < k < |calls| ==> p < Turn(calls[k])
    requires AllLoaded(calls[1..], p + 1, kept)
    ensures AllLoaded(calls, p, data)
  {
    forall k | 0 < k < |calls| ensures DataLoaded(calls, k, p, data) {
      assert DataLoaded(calls[1..], k - 1, p + 1, kept);
    }
  }

  lemma NoDataStep(t: Table, calls: seq<Call>, p: nat, data: nat, kept: nat)
    requires p / 2 < |t.items| && (p % 2 == 0 ==> kept == t.items[p / 2].data)
    requires forall k :: 0 <= k < |calls| ==> p < Turn(calls[k])
    requires calls != [] && Turn(calls[0]) == p + 1 ==> (p + 1) / 2 < |t.items| && calls[0].item == t.items[(p + 1) / 2]
    requires AllLoaded(calls, p + 1, kept)
    ensures AllLoaded(calls, p, data)
  {
    forall k | 0 <= k < |calls| ensures DataLoaded(calls, k, p, data) {
      assert DataLoaded(calls, k, p + 1, kept);
    }
  }

  /** Each callback made is recorded with the item that the callbacks before it leave. */
  ghost predicate Recorded(t: Table, calls: seq<Call>, script: seq<seq<Request>>, done: nat, now: int)
    requires t.Full() && InTable(calls)
  {
    forall k :: 0 <= k < |calls| ==> calls[k].item == Replay(t, calls, script, done, now, k).items[calls[k].fd]
  }

  /** Turn q makes its callback exactly if the table left by the callbacks made before it says that it is due. */
  ghost predicate MadeWhenDue(t: Table, p: nat, n: nat, ready: Ready, calls: seq<Call>, script: seq<seq<Request>>,
                              done: nat, now: int)
    requires t.Full() && n < 1025 && InTable(calls)
  {
    forall k: nat, q: nat :: p <= q < 2 * n + 2 && MadeBefore(calls, k, q) ==>
      ((k < |calls| && Turn(calls[k]) == q) <==> Due(Replay(t, calls, script, done, now, k).items[q / 2], q, ready))
  }

  /** The round leaves the table that its callbacks leave. */
  lemma {:induction false} RoundReplayed(t: Table, p: nat, data: nat, n: nat, ready: Ready,
                                         script: seq<seq<Request>>, done: nat,
                                         now: int, calls: seq<Call>)
    requires t.Full() && n < 1025 && InTable(calls)
    requires calls == Round(t, p, data, n, ready, script, done, now).calls
    ensures Round(t, p, data, n, ready, script, done, now).table == Replay(t, calls, script, done, now, |calls|)
    ensures Recorded(t, calls, script, done, now)
    decreases 2 * n + 2 - p
  {
    hide AfterCallback, Asked, Replay, Recorded, Due, Round;
    if p >= 2 * n + 2 {
      RoundOver(t, p, data, n, ready, script, done, now);
      ReplayNone(t, [], script, done, now);
    } else {
      RoundTurn(t, p, data, n, ready, script, done, now);
      var item := t.items[p / 2];
      var kept := if p % 2 == 0 then item.data else 0;
      if Due(item, p, ready) {
        var t1 := AfterCallback(t, p / 2, Asked(script, done), now);
        var rest := Round(t1, p + 1, kept, n, ready, script, done + 1, now).calls;
        assert calls[1..] == rest && calls[0].item == item;
        RoundReplayed(t1, p + 1, kept, n, ready, script, done + 1, now, rest);
        ReplayStep(t, calls, script, done, now);
      } else {
        RoundReplayed(t, p + 1, kept, n, ready, script, done, now, calls);
      }
    }
  }

  /** The round, told without following the loop. */
  lemma {:induction false} RoundExact(t: Table, p: nat, data: nat, n: nat, ready: Ready, script: seq<seq<Request>>,
                                      done: nat, now: int, calls: seq<Call>)
    requires t.Full() && n < 1025 && InTable(calls)
    requires calls == Round(t, p, data, n, ready, script, done, now).calls
    ensures MadeWhenDue(t, p, n, ready, calls, script, done, now)
    decreases 2 * n + 2 - p
  {
    hide AfterCallback, Asked, MadeWhenDue, Due, Round;
    if p >= 2 * n + 2 {
      RoundOver(t, p, data, n, ready, script, done, now);
      NoneMade(t, p, n, ready, script, done, now);
    } else {
      RoundTurn(t, p, data, n, ready, script, done, now);
      RoundInOrder(t, p, data, n, ready, script, done, now, calls);
      var item := t.items[p / 2];
      var kept := if p % 2 == 0 then item.data else 0;
      if Due(item, p, ready) {
        var t1 := AfterCallback(t, p / 2, Asked(script, done), now);
        var rest := Round(t1, p + 1, kept, n, ready, script, done + 1, now).calls;
        assert calls[1..] == rest && Turn(calls[0]) == p;
        RoundExact(t1, p + 1, kept, n, ready, script, done + 1, now, rest);
        MadeStep(t, p, n, ready, calls, script, done, now);
      } else {
        RoundInOrder(t, p + 1, kept, n, ready, script, done, now, calls);
        RoundExact(t, p + 1, kept, n, ready, script, done, now, calls);
        NotMadeStep(t, p, n, ready, calls, script, done, now);
      }
    }
  }

  lemma ReplayStep(t: Table, calls: seq<Call>, script: seq<seq<Request>>, done: nat, now: int)
    requires t.Full() && InTable(calls) && calls != [] && calls[0].item == t.items[calls[0].fd]
    requires Recorded(AfterCallback(t, calls[0].fd, Asked(script, done), now), calls[1..], script, done + 1, now)
    ensures Replay(t, calls, script, done, now, |calls|)
         == Replay(AfterCallback(t, calls[0].fd, Asked(script, done), now), calls[1..], script, done + 1, now,
           |calls[1..]|)
    ensures Recorded(t, calls, script, done, now)
  {
    hide AfterCallback, Asked;
    assert forall k :: 0 < k < |calls| ==> calls[k] == calls[1..][k - 1];
  }

  lemma NoneMade(t: Table, p: nat, n: nat, ready: Ready, script: seq<seq<Request>>, done: nat, now: int)
    requires t.Full() && n < 1025 && p >= 2 * n + 2
    ensures MadeWhenDue(t, p, n, ready, [], script, done, now)
  {
  }

  lemma MadeStep(t: Table, p: nat, n: nat, ready: Ready, calls: seq<Call>, script: seq<seq<Request>>, done: nat,
                 now: int)
    requires t.Full() && n < 1025 && InTable(calls) && calls != [] && Turn(calls[0]) == p
        && Due(t.items[calls[0].fd], p, ready)
    requires forall k :: 0 < k < |calls| ==> p < Turn(calls[k])
    requires MadeWhenDue(AfterCallback(t, calls[0].fd, Asked(script, done), now), p + 1, n, ready, calls[1..],
      script, done + 1, now)
    ensures MadeWhenDue(t, p, n, ready, calls, script, done, now)
  {
    hide AfterCallback, Asked, Due;
    forall k: nat, q: nat | p <= q < 2 * n + 2 && MadeBefore(calls, k, q)
      ensures (k < |calls| && Turn(calls[k]) == q)
          <==> Due(Replay(t, calls, script, done, now, k).items[q / 2], q, ready)
    {
      if k > 0 {
        assert Turn(calls[k - 1]) < q;
        assert MadeBefore(calls[1..], k - 1, q);
      }
    }
  }

  lemma NotMadeStep(t: Table, p: nat, n: nat, ready: Ready, calls: seq<Call>, script: seq<seq<Request>>, done: nat,
                    now: int)
    requires t.Full() && n < 1025 && InTable(calls) && p / 2 < 1025 && !Due(t.items[p / 2], p, ready)
    requires forall k :: 0 <= k < |calls| ==> p < Turn(calls[k])
    requires MadeWhenDue(t, p + 1, n, ready, calls, script, done, now)
    ensures MadeWhenDue(t, p, n, ready, calls, script, done, now)
  {
    hide AfterCallback, Asked, Due;
  }

  /** No callback from number done on asks anything about the descriptor. */
  ghost predicate LeftAlone(script: seq<seq<Request>>, done: nat, fd: int) {
    forall k :: done <= k < |script| ==> !Mentions(script[k], fd)
  }

  lemma OnlyStampedTwice(a: Item, b: Item, c: Item)
    ensures OnlyStamped(a, a) && (OnlyStamped(a, b) && OnlyStamped(b, c) ==> OnlyStamped(a, c))
  {
  }

  lemma ReplayNone(t: Table, calls: seq<Call>, script: seq<seq<Request>>, done: nat, now: int)
    requires t.Full() && InTable(calls)
    ensures Replay(t, calls, script, done, now, 0) == t && Recorded(t, [], script, done, now)
  {
  }

  lemma ReplayUnfolds(t: Table, calls: seq<Call>, script: seq<seq<Request>>, done: nat, now: int, k: nat)
    requires t.Full() && 0 < k <= |calls| && InTable(calls)
    ensures 0 <= calls[0].fd < 1025 && InTable(calls[1..])
    ensures Replay(t, calls, script, done, now, k)
         == Replay(AfterCallback(t, calls[0].fd, Asked(script, done), now), calls[1..], script, done + 1, now, k - 1)
  {
  }

  lemma CallbackLeavesAlone(t: Table, i: nat, script: seq<seq<Request>>, done: nat, now: int, fd: nat)
    requires t.Full() && i < 1025 && fd < 1025 && LeftAlone(script, done, fd)
    ensures LeftAlone(script, done + 1, fd)
    ensures OnlyStamped(t.items[fd], AfterCallback(t, i, Asked(script, done), now).items[fd])
  {
    assert !Mentions(Asked(script, done), fd);
  }

  lemma {:induction false} LeftAloneKept(t: Table, calls: seq<Call>, script: seq<seq<Request>>, done: nat, now: int,
                                         k: nat, fd: nat)
    requires t.Full() && k <= |calls| && InTable(calls)
    requires LeftAlone(script, done, fd) && fd < 1025
    ensures OnlyStamped(t.items[fd], Replay(t, calls, script, done, now, k).items[fd])
    decreases k
  {
    hide AfterCallback, Asked, LeftAlone, Slots, Replay, OnlyStamped, InTable;
    if k == 0 {
      ReplayNone(t, calls, script, done, now);
      OnlyStampedTwice(t.items[fd], t.items[fd], t.items[fd]);
    } else {
      ReplayUnfolds(t, calls, script, done, now, k);
      CallbackLeavesAlone(t, calls[0].fd, script, done, now, fd);
      var t1 := AfterCallback(t, calls[0].fd, Asked(script, done), now);
      LeftAloneKept(t1, calls[1..], script, done + 1, now, k - 1, fd);
      OnlyStampedTwice(t.items[fd], t1.items[fd], Replay(t, calls, script, done, now, k).items[fd]);
    }
  }

  /** How many callbacks are made before turn q. */
  lemma {:induction false} MadeBeforeExists(calls: seq<Call>, q: int) returns (k: nat)
    requires forall k, l :: 0 <= k < l < |calls| ==> Turn(calls[k]) < Turn(calls[l])
    ensures MadeBefore(calls, k, q)
    ensures forall c :: c in calls && Turn(c) == q ==> k < |calls| && c == calls[k]
  {
    k := 0;
    while k < |calls| && Turn(calls[k]) < q
      invariant k <= |calls| && forall l :: 0 <= l < k ==> Turn(calls[l]) < q
    {
      k := k + 1;
    }
  }

  /** What a callback leaves that closes a descriptor and registers its number anew. */
  lemma NewcomerIn(t: Table, a: nat, b: nat, newcomer: Request, now: int)
    requires t.Full() && a < b < ITEMS_MAX_SIZE && t.items[b].Used()
    requires newcomer.Register? && newcomer.fd == b && newcomer.handler != None
    ensures var item := AfterCallback(t, a, [Unregister(b), newcomer], now).items[b];
      && item.Used() && item.interest == newcomer.interest && item.data == newcomer.data
      && item.handler == newcomer.handler
  {
    var rs := [Unregister(b), newcomer];
    assert rs[..1] == [Unregister(b)] && rs[..1][..0] == [];
    assert AfterAll(t, [], now) == t;
    assert AfterAll(t, rs[..1], now) == AfterRequest(t, Unregister(b), now);
    assert AfterAll(t, rs, now) == AfterRequest(AfterRequest(t, Unregister(b), now), newcomer, now);
  }

  /** In what is left of a round, a descriptor that no callback's requests touch is called iff it is due. */
  lemma {:induction false} CalledIffDue(t: Table, p: nat, data: nat, n: nat, ready: Ready, script: seq<seq<Request>>,
                                        done: nat, now: int, q: nat, calls: seq<Call>)
    requires t.Full() && n < 1025 && p <= q < 2 * n + 2 && LeftAlone(script, done, q / 2)
    requires calls == Round(t, p, data, n, ready, script, done, now).calls
    ensures Due(t.items[q / 2], q, ready) <==> exists c :: c in calls && Turn(c) == q
  {
    hide Round, Replay, Slots, LeftAlone;
    RoundInOrder(t, p, data, n, ready, script, done, now, calls);
    RoundExact(t, p, data, n, ready, script, done, now, calls);
    var k := MadeBeforeExists(calls, q);
    LeftAloneKept(t, calls, script, done, now, k, q / 2);
    assert Due(Replay(t, calls, script, done, now, k).items[q / 2], q, ready) == Due(t.items[q / 2], q, ready);
  }

  lemma {:induction false} LeftAloneItems(t: Table, p: nat, data: nat, n: nat, ready: Ready, script: seq<seq<Request>>,
                                          done: nat, now: int, fd: nat, calls: seq<Call>)
    requires t.Full() && n < 1025 && fd < 1025 && LeftAlone(script, done, fd)
    requires calls == Round(t, p, data, n, ready, script, done, now).calls
    ensures forall c :: c in calls && c.fd == fd ==> OnlyStamped(t.items[fd], c.item)
  {
    hide Round, Replay, Slots, LeftAlone, OnlyStamped;
    RoundInOrder(t, p, data, n, ready, script, done, now, calls);
    RoundReplayed(t, p, data, n, ready, script, done, now, calls);
    forall c | c in calls && c.fd == fd ensures OnlyStamped(t.items[fd], c.item) {
      var k :| 0 <= k < |calls| && calls[k] == c;
      LeftAloneKept(t, calls, script, done, now, k, fd);
    }
  }

  /** A descriptor that no callback's requests touch is served in a full round iff it is registered, ready and waiting
      when the round begins. */
  lemma {:induction false} LeftAloneServed(t: Table, max: nat, ready: Ready, script: seq<seq<Request>>, now: int,
                                           q: nat, calls: seq<Call>)
    requires t.Full() && Slots(t.items) && IsMax(t.items, max) && q / 2 < 1025
    requires LeftAlone(script, 0, q / 2)
    requires calls == Round(t, 0, 0, max, ready, script, 0, now).calls
    ensures Due(t.items[q / 2], q, ready) <==> exists c :: c in calls && Turn(c) == q
  {
    if q / 2 <= max {
      CalledIffDue(t, 0, 0, max, ready, script, 0, now, q, calls);
    } else {
      RoundInOrder(t, 0, 0, max, ready, script, 0, now, calls);
    }
  }

  /** The ready sets are those of the last pselect, whoever held a number then. If a callback closes a later descriptor
      and its number is taken again before its turns come, the newcomer is called for exactly the readiness reported of
      its predecessor: nothing in the loop tells them apart. Here a is the descriptor whose callback does so, and no
      later callback touches b. */
  lemma {:induction false} StaleReadiness(t: Table, p: nat, data: nat, n: nat, ready: Ready, script: seq<seq<Request>>,
                                          done: nat, now: int, b: nat, newcomer: Request, calls: seq<Call>, write: bool)
    requires t.Full() && p / 2 < b <= n < ITEMS_MAX_SIZE && Due(t.items[p / 2], p, ready)
    requires newcomer.Register? && newcomer.fd == b && newcomer.handler != None && t.items[b].Used()
    requires Asked(script, done) == [Unregister(b), newcomer] && LeftAlone(script, done + 1, b)
    requires calls == Round(t, p, data, n, ready, script, done, now).calls
    ensures (exists c :: c in calls && c.fd == b && c.write == write)
       <==> if write then b in ready.w && newcomer.interest.write else b in ready.r && newcomer.interest.read
    ensures forall c :: c in calls && c.fd == b ==> c.item.data == newcomer.data && c.item.handler == newcomer.handler
  {
    hide AfterCallback, Asked, LeftAlone, Round, Slots;
    RoundTurn(t, p, data, n, ready, script, done, now);
    var t1 := AfterCallback(t, p / 2, Asked(script, done), now);
    var item := t.items[p / 2];
    var rest := Round(t1, p + 1, if p % 2 == 0 then item.data else 0, n, ready, script, done + 1, now).calls;
    assert calls[0].fd == p / 2 && calls == [calls[0]] + rest;
    NewcomerIn(t, p / 2, b, newcomer, now);
    var q := 2 * b + if write then 1 else 0;
    CalledIffDue(t1, p + 1, if p % 2 == 0 then item.data else 0, n, ready, script, done + 1, now, q, rest);
    LeftAloneItems(t1, p + 1, if p % 2 == 0 then item.data else 0, n, ready, script, done + 1, now, b, rest);
    assert forall c :: c in calls && c.fd == b ==> c in rest;
    assert forall c: Call :: Turn(c) == q <==> c.fd == b && c.write == write;
  }

  // ---------- Activity stamps ----------

  /** A stamp is kept or brought up to date. */
  predicate StampKept(before: Item, after: Item, now: int) {
    after.tv == before.tv || after.tv == now
  }

  lemma {:induction false} RequestsStamp(t: Table, rs: seq<Request>, now: int, fd: nat)
    requires t.Full() && fd < 1025
    ensures StampKept(t.items[fd], AfterAll(t, rs, now).items[fd], now)
  {
    if rs != [] {
      RequestsStamp(t, rs[..|rs| - 1], now, fd);
    }
  }

  lemma CallbackStamps(t: Table, i: nat, rs: seq<Request>, now: int, fd: nat)
    requires t.Full() && i < 1025 && fd < 1025
    ensures StampKept(t.items[fd], AfterCallback(t, i, rs, now).items[fd], now)
    ensures AfterCallback(t, i, rs, now).items[i].tv == now
    ensures fd != i && !Mentions(rs, fd) ==> AfterCallback(t, i, rs, now).items[fd] == t.items[fd]
  {
    RequestsStamp(t, rs, now, fd);
  }

  lemma {:induction false} RoundKeepsStamps(t: Table, p: nat, data: nat, n: nat, ready: Ready,
                                            script: seq<seq<Request>>, done: nat, now: int, fd: nat)
    requires t.Full() && n < 1025 && fd < 1025
    ensures StampKept(t.items[fd], Round(t, p, data, n, ready, script, done, now).table.items[fd], now)
    decreases 2 * n + 2 - p
  {
    hide AfterCallback, Asked, Round, Due;
    if p >= 2 * n + 2 {
      RoundOver(t, p, data, n, ready, script, done, now);
    } else {
      RoundTurn(t, p, data, n, ready, script, done, now);
      var item := t.items[p / 2];
      var kept := if p % 2 == 0 then item.data else 0;
      if Due(item, p, ready) {
        CallbackStamps(t, p / 2, Asked(script, done), now, fd);
        var t1 := AfterCallback(t, p / 2, Asked(script, done), now);
        RoundKeepsStamps(t1, p + 1, kept, n, ready, script, done + 1, now, fd);
      } else {
        RoundKeepsStamps(t, p + 1, kept, n, ready, script, done, now, fd);
      }
    }
  }

  /** Whoever is served in a round is stamped with its time, whatever its callback and the later ones do. */
  lemma {:induction false} ServedIsStamped(t: Table, p: nat, data: nat, n: nat, ready: Ready, script: seq<seq<Request>>,
                                           done: nat, now: int, c: Call)
    requires t.Full() && n < 1025 && c in Round(t, p, data, n, ready, script, done, now).calls
    ensures 0 <= c.fd <= n && Round(t, p, data, n, ready, script, done, now).table.items[c.fd].tv == now
    decreases 2 * n + 2 - p
  {
    hide AfterCallback, Asked, Round, Due;
    if p >= 2 * n + 2 {
      RoundOver(t, p, data, n, ready, script, done, now);
    } else {
      RoundTurn(t, p, data, n, ready, script, done, now);
      var item := t.items[p / 2];
      var kept := if p % 2 == 0 then item.data else 0;
      if Due(item, p, ready) {
        CallbackStamps(t, p / 2, Asked(script, done), now, p / 2);
        var t1 := AfterCallback(t, p / 2, Asked(script, done), now);
        RoundKeepsStamps(t1, p + 1, kept, n, ready, script, done + 1, now, p / 2);
        if c.fd != p / 2 || c in Round(t1, p + 1, kept, n, ready, script, done + 1, now).calls {
          ServedIsStamped(t1, p + 1, kept, n, ready, script, done + 1, now, c);
        }
      } else {
        ServedIsStamped(t, p + 1, kept, n, ready, script, done, now, c);
      }
    }
  }

  /** Whoever is not served, and touched by no callback, keeps its item as it was, stamp included. */
  lemma {:induction false} UnservedIsUnchanged(t: Table, p: nat, data: nat, n: nat, ready: Ready,
                                               script: seq<seq<Request>>, done: nat, now: int, fd: nat)
    requires t.Full() && n < 1025 && fd < 1025 && LeftAlone(script, done, fd)
    requires forall c :: c in Round(t, p, data, n, ready, script, done, now).calls ==> c.fd != fd
    ensures Round(t, p, data, n, ready, script, done, now).table.items[fd] == t.items[fd]
    decreases 2 * n + 2 - p
  {
    hide AfterCallback, Round, Due, Mentions;
    if p >= 2 * n + 2 {
      RoundOver(t, p, data, n, ready, script, done, now);
    } else {
      RoundTurn(t, p, data, n, ready, script, done, now);
      var item := t.items[p / 2];
      var kept := if p % 2 == 0 then item.data else 0;
      if Due(item, p, ready) {
        var first := Call(p / 2, p % 2 == 1, if p % 2 == 0 then item.data else data, item);
        assert first in Round(t, p, data, n, ready, script, done, now).calls;
        assert !Mentions(Asked(script, done), fd) by { AskedLeavesAlone(script, done, fd); }
        CallbackStamps(t, p / 2, Asked(script, done), now, fd);
        var t1 := AfterCallback(t, p / 2, Asked(script, done), now);
        UnservedIsUnchanged(t1, p + 1, kept, n, ready, script, done + 1, now, fd);
      } else {
        UnservedIsUnchanged(t, p + 1, kept, n, ready, script, done, now, fd);
      }
    }
  }

  lemma AskedLeavesAlone(script: seq<seq<Request>>, done: nat, fd: nat)
    requires LeftAlone(script, done, fd)
    ensures !Mentions(Asked(script, done), fd) && LeftAlone(script, done + 1, fd)
  {
  }

  /** The dispatch loop feeds the sweep: a descriptor served at `now` that nobody has marked is not evicted while the
      timeout has not passed, and the sweep's own contract then keeps it registered. */
  lemma {:induction false} ServedSurvivesSweep(t: Table, n: nat, ready: Ready, script: seq<seq<Request>>, now: int,
                                               c: Call, later: int, timeout: nat, ignored: set<int>)
    requires t.Full() && n < 1025 && c in Round(t, 0, 0, n, ready, script, 0, now).calls && later - now <= timeout
    ensures 0 <= c.fd <= n
    ensures var item := Round(t, 0, 0, n, ready, script, 0, now).table.items[c.fd];
      Evicted(item, later, timeout, ignored) <==> item.Used() && item.toBeRemoved
  {
    ServedIsStamped(t, 0, 0, n, ready, script, 0, now, c);
  }

  // ---------- One round of finished jobs ----------

  /** One turn for each job, in list order: what the round leaves and the callbacks it makes. */
  function BlockRound(t: Table, jobs: seq<int>, script: seq<seq<Request>>, done: nat, now: int): (o: Outcome)
    requires t.Full() && forall k :: 0 <= k < |jobs| ==> 0 <= jobs[k] < 1025
    ensures o.table.Full()
    decreases |jobs|
  {
    if jobs == [] then Outcome(t, [])
    else
      var item := t.items[jobs[0]];
      if item.Used() then
        var t' := AfterAll(t, Asked(script, done), now);
        BlockRound(t', jobs[1..], script, done + 1, now).Behind([Call(item.fd, false, item.data, item)])
      else
        BlockRound(t, jobs[1..], script, done, now)
  }

  /** The descriptors of the callbacks made. */
  function FdsOf(calls: seq<Call>): seq<int> {
    if calls == [] then [] else [calls[0].fd] + FdsOf(calls[1..])
  }

  /** The jobs whose descriptor is registered, in list order. */
  function Registered(items: seq<Item>, jobs: seq<int>): seq<int>
    requires forall k :: 0 <= k < |jobs| ==> 0 <= jobs[k] < |items|
  {
    if jobs == [] then []
    else (if items[jobs[0]].Used() then [jobs[0]] else []) + Registered(items, jobs[1..])
  }

  lemma {:induction false} RegisteredSame(items: seq<Item>, items': seq<Item>, jobs: seq<int>)
    requires forall k :: 0 <= k < |jobs| ==> 0 <= jobs[k] < |items| && jobs[k] < |items'|
    requires forall k :: 0 <= k < |jobs| ==> items'[jobs[k]] == items[jobs[k]]
    ensures Registered(items', jobs) == Registered(items, jobs)
  {
    if jobs != [] {
      RegisteredSame(items, items', jobs[1..]);
    }
  }

  /** Jobs are handed over in list order: if no callback touches a descriptor of the list, the callbacks made are, one
      by one, those of the jobs whose descriptors are registered. */
  lemma {:induction false} JobsInOrder(t: Table, jobs: seq<int>, script: seq<seq<Request>>, done: nat, now: int,
                                       calls: seq<Call>)
    requires t.Full() && Slots(t.items) && forall k :: 0 <= k < |jobs| ==> 0 <= jobs[k] < 1025
    requires forall k :: 0 <= k < |jobs| ==> LeftAlone(script, done, jobs[k])
    requires calls == BlockRound(t, jobs, script, done, now).calls
    ensures FdsOf(calls) == Registered(t.items, jobs)
    decreases |jobs|
  {
    hide AfterAll, LeftAlone, Mentions, BlockRound;
    BlockTurn(t, jobs, script, done, now);
    if jobs == [] {
    } else if t.items[jobs[0]].Used() {
      var t1 := AfterAll(t, Asked(script, done), now);
      var rest := BlockRound(t1, jobs[1..], script, done + 1, now).calls;
      forall k | 0 <= k < |jobs|
        ensures t1.items[jobs[k]] == t.items[jobs[k]] && LeftAlone(script, done + 1, jobs[k])
      {
        AskedLeavesAlone(script, done, jobs[k]);
      }
      assert calls[1..] == rest;
      JobsInOrder(t1, jobs[1..], script, done + 1, now, rest);
      RegisteredSame(t.items, t1.items, jobs[1..]);
    } else {
      JobsInOrder(t, jobs[1..], script, done, now, calls);
    }
  }

  /** What the first k callbacks leave: each does as it asks. */
  function AsAsked(t: Table, script: seq<seq<Request>>, done: nat, now: int, k: nat): (t': Table)
    requires t.Full()
    ensures t'.Full()
    decreases k
  {
    if k == 0 then t else AsAsked(AfterAll(t, Asked(script, done), now), script, done + 1, now, k - 1)
  }

  /** A round of jobs leaves what its callbacks ask for, no more and no less, and hands each job over with the item that
      the callbacks before it leave. */
  lemma {:induction false} JobsReplayed(t: Table, jobs: seq<int>, script: seq<seq<Request>>, done: nat, now: int,
                                        calls: seq<Call>)
    requires t.Full() && Slots(t.items) && forall k :: 0 <= k < |jobs| ==> 0 <= jobs[k] < 1025
    requires calls == BlockRound(t, jobs, script, done, now).calls
    ensures BlockRound(t, jobs, script, done, now).table == AsAsked(t, script, done, now, |calls|)
    ensures forall k :: 0 <= k < |calls| ==>
      0 <= calls[k].fd < 1025 && calls[k].item == AsAsked(t, script, done, now, k).items[calls[k].fd]
    decreases |jobs|
  {
    hide AfterAll, BlockRound, Slots;
    BlockTurn(t, jobs, script, done, now);
    if jobs == [] {
    } else if t.items[jobs[0]].Used() {
      var t1 := AfterAll(t, Asked(script, done), now);
      var rest := BlockRound(t1, jobs[1..], script, done + 1, now).calls;
      JobsReplayed(t1, jobs[1..], script, done + 1, now, rest);
      assert calls[1..] == rest;
      assert forall k :: 0 < k < |calls| ==> calls[k] == rest[k - 1];
    } else {
      JobsReplayed(t, jobs[1..], script, done, now, calls);
    }
  }

  lemma BlockTurn(t: Table, jobs: seq<int>, script: seq<seq<Request>>, done: nat, now: int)
    requires t.Full() && Slots(t.items) && forall k :: 0 <= k < |jobs| ==> 0 <= jobs[k] < 1025
    ensures BlockRound(t, jobs, script, done, now)
         == if jobs == [] then Outcome(t, [])
            else if t.items[jobs[0]].Used() then
              BlockRound(AfterAll(t, Asked(script, done), now), jobs[1..], script, done + 1, now)
              .Behind([Call(jobs[0], false, t.items[jobs[0]].data, t.items[jobs[0]])])
            else BlockRound(t, jobs[1..], script, done, now)
    ensures jobs != [] && t.items[jobs[0]].Used() ==> t.items[jobs[0]].fd == jobs[0]
  {
  }

  function CallsTo(calls: seq<Call>, fd: int): nat {
    if calls == [] then 0 else (if calls[0].fd == fd then 1 else 0) + CallsTo(calls[1..], fd)
  }

  /** No job is handed over twice, none to a descriptor that is not registered at its turn; and each job of a
      registered descriptor that no callback's requests touch is handed over. */
  lemma {:induction false} JobsOnce(t: Table, jobs: seq<int>, script: seq<seq<Request>>, done: nat, now: int,
                                    fd: nat, calls: seq<Call>)
    requires t.Full() && Slots(t.items) && fd < 1025 && forall k :: 0 <= k < |jobs| ==> 0 <= jobs[k] < 1025
    requires calls == BlockRound(t, jobs, script, done, now).calls
    ensures CallsTo(calls, fd) <= multiset(jobs)[fd]
    ensures forall c :: c in calls ==> c.item.Used() && c.item.fd == c.fd && c.data == c.item.data && !c.write
    ensures LeftAlone(script, done, fd) ==> CallsTo(calls, fd) == if t.items[fd].Used() then multiset(jobs)[fd] else 0
    decreases |jobs|
  {
    if jobs != [] {
      assert jobs == [jobs[0]] + jobs[1..];
      if t.items[jobs[0]].Used() {
        assert LeftAlone(script, done, fd) ==> !Mentions(Asked(script, done), fd);
        var t1 := AfterAll(t, Asked(script, done), now);
        var rest := BlockRound(t1, jobs[1..], script, done + 1, now).calls;
        JobsOnce(t1, jobs[1..], script, done + 1, now, fd, rest);
        assert calls == [calls[0]] + rest && calls[1..] == rest;
      } else {
        JobsOnce(t, jobs[1..], script, done, now, fd, calls);
      }
    }
  }

  class Selector {
    /** fd_size is the length of this table; length 0 stands for a table not yet allocated. */
    var fds: array<Item>
    var maxFd: int
    var masterR: set<int>
    var masterW: set<int>
    var closings: seq<Closing>
    /** resolution_jobs: the descriptors whose blocking work is done, the latest first. */
    var jobs: seq<int>

    ghost predicate Valid()
      reads this, fds
    {
      Slots(fds[..]) && Indexed(fds[..], masterR, masterW) && IsMax(fds[..], maxFd)
    }

    constructor ()
      ensures Valid() && fresh(fds) && fds.Length == 0 && closings == [] && jobs == []
    {
      fds := new Item[0];
      maxFd, masterR, masterW, closings, jobs := 0, {}, {}, [], [];
    }

    method EnsureCapacity(n: nat, now: int) returns (status: Status)
      requires Valid()
      modifies this`fds
      ensures Valid() && fds.Length >= old(fds.Length)
      ensures fds == old(fds) || fresh(fds)
      ensures status == Success <==> n < old(fds.Length) || n <= ITEMS_MAX_SIZE
      ensures status == Success ==> n < fds.Length
      ensures status != Success ==> status == MaxFd && fds == old(fds)
      ensures n < old(fds.Length) ==> fds == old(fds)
      ensures fds[..old(fds.Length)] == old(fds[..])
      ensures forall i :: old(fds.Length) <= i < fds.Length ==> !fds[i].Used()
      ensures old(fds.Length) == 0 ==> forall i :: 0 <= i < fds.Length ==> fds[i] == Unused(now)
      ensures old(fds.Length) == 0 && n == ITEMS_MAX_SIZE ==> fds.Length == 1025
    {
      if n < fds.Length {
        return Success;
      } else if n > ITEMS_MAX_SIZE {
        return MaxFd;
      }
      var newSize, _ := NextCapacity(n);
      // The first table comes zeroed. Storage beyond an old one comes as it is; items_init sets only two fields of it.
      var tmp := new Item[newSize];
      ghost var items := fds[..];
      for i := 0 to fds.Length
        modifies tmp
        invariant tmp[..i] == items[..i]
      {
        tmp[i] := fds[i];
      }
      for i := fds.Length to newSize
        modifies tmp
        invariant tmp[..fds.Length] == items
        invariant forall k :: fds.Length <= k < i ==> !tmp[k].Used() && (fds.Length == 0 ==> tmp[k] == Unused(now))
      {
        tmp[i] := if fds.Length == 0 then Unused(now) else tmp[i].(fd := FD_UNUSED, tv := now);
      }
      assert forall i :: 0 <= i < |items| ==> tmp[i] == tmp[..fds.Length][i];
      fds := tmp;
      return Success;
    }

    method ItemsMaxFd() returns (max: int)
      requires Slots(fds[..]) && 0 <= maxFd < fds.Length
      requires forall i :: 0 <= i < fds.Length && fds[i].Used() ==> i <= maxFd
      ensures IsMax(fds[..], max)
    {
      max := 0;
      for i := 0 to maxFd + 1
        invariant 0 <= max && (max == 0 || (max < fds.Length && fds[max].Used()))
        invariant forall k :: 0 <= k < i && fds[k].Used() ==> k <= max
      {
        assert fds[i] == fds[..][i];
        if fds[i].Used() && fds[i].fd > max {
          max := fds[i].fd;
        }
      }
    }

    /** items_update_fdset_for_fd: makes the sets agree with one item and stamps it when it waits for anything. */
    method UpdateFdsets(i: nat, now: int)
      requires i < fds.Length && fds[i].fd == i
      modifies fds, `masterR, `masterW
      ensures masterR == old(masterR) - {i} + if fds[i].interest.read then {i} else {}
      ensures masterW == old(masterW) - {i} + if fds[i].interest.write then {i} else {}
      ensures fds[..] == old(fds[..])[i := Armed(old(fds[i]), now)]
    {
      masterR, masterW := masterR - {i}, masterW - {i};
      if fds[i].interest.read {
        masterR := masterR + {i};
        fds[i] := fds[i].(tv := now);
      }
      if fds[i].interest.write {
        masterW := masterW + {i};
        fds[i] := fds[i].(tv := now);
      }
    }

    /** Registers a descriptor. Room is made only for one that exceeds fd_size; the one equal to it, which the
        precondition leaves out, is the only valid descriptor whose slot then lies outside the table. */
    method Register(fd: int, handler: Option<nat>, interest: Interest, data: nat, now: int) returns (status: Status)
      requires Valid() && (InvalidFd(fd) || fd != fds.Length)
      modifies this, fds
      ensures Valid() && closings == old(closings) && jobs == old(jobs)
      ensures fds == old(fds) || (fresh(fds) && old(fds.Length) < fd < ITEMS_MAX_SIZE)
      ensures status == if InvalidFd(fd) || handler == None then IllegalArgument
                        else if fd < old(fds.Length) && old(fds[..])[fd].Used() then FdInUse else Success
      ensures status == Success ==> fd < fds.Length && fds[fd].fd == fd && fds[fd].interest == interest
                                    && fds[fd].handler == handler && fds[fd].data == data
      ensures status == Success && fd < old(fds.Length) && interest != OP_NOOP ==> fds[fd].tv == now
      ensures status == Success && fd < old(fds.Length) ==>
        fds[fd] == Armed(old(fds[..])[fd].(fd := fd, handler := handler, interest := interest, data := data), now)
      ensures forall i :: 0 <= i < fds.Length && (i != fd || status != Success) ==>
                if i < old(fds.Length) then fds[i] == old(fds[..])[i] else !fds[i].Used()
    {
      if InvalidFd(fd) || handler == None {
        return IllegalArgument;
      }
      if fd > fds.Length {
        status := EnsureCapacity(fd, now);
      }
      ghost var items := fds[..];
      assert items[..old(fds.Length)] == old(fds[..]);
      assert forall i :: 0 <= i < old(fds.Length) ==> items[i] == items[..old(fds.Length)][i];
      if fds[fd].Used() {
        return FdInUse;
      }
      Occupy(fd, handler, interest, data, now);
      return Success;
    }

    method Occupy(fd: nat, handler: Option<nat>, interest: Interest, data: nat, now: int)
      requires Valid() && fd < fds.Length && fd < ITEMS_MAX_SIZE && !fds[fd].Used()
      modifies this, fds
      ensures Valid() && fds == old(fds) && closings == old(closings) && jobs == old(jobs)
      ensures var item := old(fds[fd]).(fd := fd, handler := handler, interest := interest, data := data);
        fds[..] == old(fds[..])[fd := Armed(item, now)]
    {
      fds[fd] := fds[fd].(fd := fd, handler := handler, interest := interest, data := data);
      if fd > maxFd {
        maxFd := fd;
      }
      UpdateFdsets(fd, now);
    }

    /** Unregisters a descriptor after calling its handle_close. The source reads the item unchecked, so a valid
        descriptor must have a slot. */
    method Unregister(fd: int, now: int) returns (status: Status)
      requires Valid() && (InvalidFd(fd) || fd < fds.Length)
      modifies this, fds
      ensures Valid() && fds == old(fds) && jobs == old(jobs)
      ensures status == if InvalidFd(fd) || !old(fds[..])[fd].Used() then IllegalArgument else Success
      ensures fds[..] == if status == Success then old(fds[..])[fd := Unused(now)] else old(fds[..])
      ensures status == Success ==>
        !fds[fd].Used() && fds[fd].interest == OP_NOOP && fds[fd].handler == None && !fds[fd].toBeRemoved
      ensures closings == if status == Success then old(closings) + [Closing(fd, old(fds[..])[fd].data)]
          else old(closings)
    {
      if InvalidFd(fd) || !fds[fd].Used() {
        return IllegalArgument;
      }
      closings := closings + [Closing(fds[fd].fd, fds[fd].data)];
      fds[fd] := fds[fd].(interest := OP_NOOP);
      UpdateFdsets(fd, now);
      fds[fd] := Unused(now);
      maxFd := ItemsMaxFd();
      return Success;
    }

    method SetInterest(fd: int, interest: Interest, now: int) returns (status: Status)
      requires Valid() && (InvalidFd(fd) || fd < fds.Length)
      modifies this, fds
      ensures Valid() && fds == old(fds) && closings == old(closings) && maxFd == old(maxFd) && jobs == old(jobs)
      ensures status == if InvalidFd(fd) || !old(fds[..])[fd].Used() then IllegalArgument else Success
      ensures status != Success ==> fds[..] == old(fds[..]) && masterR == old(masterR) && masterW == old(masterW)
      ensures status == Success ==>
        && fds[..] == old(fds[..])[fd := Armed(old(fds[..])[fd].(interest := interest), now)]
        && fds[fd].tv == if interest == OP_NOOP then old(fds[..])[fd].tv else now
    {
      if InvalidFd(fd) || !fds[fd].Used() {
        return IllegalArgument;
      }
      fds[fd] := fds[fd].(interest := interest);
      UpdateFdsets(fd, now);
      return Success;
    }

    lemma MaxAndSlots()
      requires Valid() && fds.Length > 0
      ensures 0 <= maxFd < fds.Length && forall i :: maxFd < i < fds.Length ==> !fds[i].Used()
      ensures forall i :: 0 <= i < fds.Length && fds[i].Used() ==> fds[i].fd == i
    {
    }

    /** The idle sweep at the head of selector_select. The bound is read afresh on every turn and shrinks with each
        eviction; still a descriptor survives iff it was neither marked for removal nor, unless ignored, idle for
        longer than the timeout. Each evicted one is closed once. */
    method Sweep(now: int, timeout: nat, ignored: set<int>)
      requires Valid() && fds.Length > 0
      modifies this, fds
      ensures Valid() && fds == old(fds)
      ensures forall i :: 0 <= i < fds.Length && old(fds[..])[i].Used() ==>
                var item := old(fds[..])[i];
                fds[i] == if item.toBeRemoved || (i !in ignored && now - item.tv > timeout) then Unused(now) else item
      ensures forall i :: 0 <= i < fds.Length && !old(fds[..])[i].Used() ==> !fds[i].Used()
      ensures closings == old(closings) + EvictedUpTo(old(fds[..]), fds.Length, now, timeout, ignored)
    {
      hide Valid, EvictedUpTo;
      MaxAndSlots();
      NoneEvicted(fds[..], now, timeout, ignored);
      ghost var items := fds[..];
      var i := 0;
      while i <= maxFd
        invariant 0 <= i <= fds.Length && Valid() && fds == old(fds) && maxFd < fds.Length
        invariant forall k :: 0 <= k < fds.Length && maxFd < k ==> !fds[k].Used()
        invariant forall k :: i <= k < fds.Length ==> fds[k] == items[k]
        invariant forall k :: 0 <= k < i && items[k].Used() ==>
                    fds[k] == if Evicted(items[k], now, timeout, ignored) then Unused(now) else items[k]
        invariant forall k :: 0 <= k < i && !items[k].Used() ==> !fds[k].Used()
        invariant closings == old(closings) + EvictedUpTo(items, i, now, timeout, ignored)
        decreases fds.Length - i
      {
        NextEvicted(items, i, now, timeout, ignored);
        SweepSlot(i, now, timeout, ignored);
        MaxAndSlots();
        i := i + 1;
      }
      NothingEvictedAbove(items, i, fds.Length, now, timeout, ignored);
    }

    /** The body of the sweep. */
    method SweepSlot(i: nat, now: int, timeout: nat, ignored: set<int>)
      requires Valid() && i < fds.Length
      modifies this, fds
      ensures Valid() && fds == old(fds)
      ensures fds[..] == old(fds[..])[i := fds[i]]
      ensures var item := old(fds[..])[i];
        if Evicted(item, now, timeout, ignored) then fds[i] == Unused(now)
            && closings == old(closings) + [Closing(i, item.data)]
        else closings == old(closings) && (if item.Used() then fds[i] == item else !fds[i].Used())
    {
      ghost var items := fds[..];
      assert fds[i] == items[i];
      if fds[i].toBeRemoved {
        if i < ITEMS_MAX_SIZE {
          var _ := Unregister(i, now);
        }
        ghost var items' := fds[..];
        fds[i] := fds[i].(toBeRemoved := false);
        assert forall k :: 0 <= k < fds.Length && k != i ==> fds[..][k] == items'[k];
      }
      if fds[i].Used() {
        if fds[i].fd !in ignored && now - fds[i].tv > timeout {
          var _ := Unregister(i, now);
        }
      }
    }

    ghost function Contents(): Table
      reads this, fds
    {
      Table(fds[..], closings)
    }

    /** One request of a callback. */
    method Apply(r: Request, now: int)
      requires Valid() && fds.Length == 1025
      modifies this, fds
      ensures Valid() && fds == old(fds) && jobs == old(jobs)
      ensures Contents() == AfterRequest(old(Contents()), r, now)
    {
      match r
      case Register(fd, handler, interest, data) =>
        var status := Register(fd, handler, interest, data, now);
        assert fds[..] == if status == Success then old(fds[..])[fd := fds[fd]] else old(fds[..]);
      case Unregister(fd) => var _ := Unregister(fd, now);
      case SetInterest(fd, interest) => var _ := SetInterest(fd, interest, now);
    }

    method ApplyAll(rs: seq<Request>, now: int)
      requires Valid() && fds.Length == 1025
      modifies this, fds
      ensures Valid() && fds == old(fds) && jobs == old(jobs)
      ensures Contents() == AfterAll(old(Contents()), rs, now)
    {
      for k := 0 to |rs|
        invariant Valid() && fds == old(fds) && jobs == old(jobs)
        invariant Contents() == AfterAll(old(Contents()), rs[..k], now)
      {
        assert rs[..k + 1][..k] == rs[..k];
        Apply(rs[k], now);
      }
      assert rs[..|rs|] == rs;
    }

    /** One ready callback. */
    method Invoke(i: nat, rs: seq<Request>, now: int)
      requires Valid() && fds.Length == 1025 && i < fds.Length
      modifies this, fds
      ensures Valid() && fds == old(fds) && jobs == old(jobs)
      ensures Contents() == AfterCallback(old(Contents()), i, rs, now)
    {
      ApplyAll(rs, now);
      fds[i] := fds[i].(tv := now);
      assert forall k :: 0 <= k < fds.Length && k != i ==> fds[..][k] == AfterAll(old(Contents()), rs, now).items[k];
    }

    /** Dispatches one round of readiness. The k-th callback made does what script[k] says, be it to its own
        descriptor or to others. */
    method HandleIteration(ready: Ready, script: seq<seq<Request>>, now: int) returns (calls: seq<Call>)
      requires Valid() && fds.Length == 1025
      modifies this, fds
      ensures Valid() && fds == old(fds) && jobs == old(jobs)
      ensures Outcome(Contents(), calls) == Round(old(Contents()), 0, 0, old(maxFd), ready, script, 0, now)
    {
      hide Valid, Round, Outcome.Behind;
      MaxAndSlots();
      var n := maxFd;
      ghost var whole := Round(Contents(), 0, 0, n, ready, script, 0, now);
      calls := [];
      Round(Contents(), 0, 0, n, ready, script, 0, now).BehindTwice([], []);
      for i := 0 to n + 1
        invariant Valid() && fds == old(fds) && jobs == old(jobs)
        invariant whole == Round(Contents(), 2 * i, 0, n, ready, script, |calls|, now).Behind(calls)
      {
        var made := Visit(i, n, ready, script, |calls|, now);
        Round(Contents(), 2 * i + 2, 0, n, ready, script, |calls| + |made|, now).BehindTwice(calls, made);
        calls := calls + made;
      }
      RoundOver(Contents(), 2 * n + 2, 0, n, ready, script, |calls|, now);
    }

    /** The loop body of handle_iteration: the two turns of one descriptor. */
    method Visit(i: nat, n: nat, ready: Ready, script: seq<seq<Request>>, done: nat, now: int) returns (made: seq<Call>)
      requires Valid() && i <= n < fds.Length == 1025
      modifies this, fds
      ensures Valid() && fds == old(fds) && jobs == old(jobs)
      ensures Round(old(Contents()), 2 * i, 0, n, ready, script, done, now)
           == Round(Contents(), 2 * i + 2, 0, n, ready, script, done + |made|, now).Behind(made)
    {
      hide AfterAll, Asked, Round, Indexed, IsMax;
      TwoTurns(Contents(), i, n, ready, script, done, now);
      assert Slots(fds[..]) ==> fds[..][i] == fds[i];
      made := [];
      if fds[i].Used() {
        var fd, data := fds[i].fd, fds[i].data;
        UnregisteredWaitsForNothing(Contents(), Asked(script, done), now, i);
        if fd in ready.r {
          if fds[i].interest.read {
            made := made + [Call(fd, false, data, fds[i])];
            Invoke(i, Asked(script, done), now);
          }
        }
        if i in ready.w {
          if fds[i].interest.write {
            made := made + [Call(fd, true, data, fds[i])];
            Invoke(i, Asked(script, done + |made| - 1), now);
          }
        }
      }
    }

    // ---------- Blocking work ----------

    /** selector_notify_block, once the lock is held. */
    method NotifyBlock(fd: int)
      requires Valid()
      modifies this`jobs
      ensures Valid() && jobs == [fd] + old(jobs)
    {
      jobs := [fd] + jobs;
    }

    /** handle_block_notifications: one turn for each job, whatever the callbacks do to the table. */
    method HandleBlockNotifications(script: seq<seq<Request>>, now: int) returns (calls: seq<Call>)
      requires Valid() && fds.Length == 1025 && forall k :: 0 <= k < |jobs| ==> 0 <= jobs[k] < 1025
      modifies this, fds
      ensures Valid() && fds == old(fds) && jobs == []
      ensures Outcome(Contents(), calls) == BlockRound(old(Contents()), old(jobs), script, 0, now)
    {
      hide Slots, Indexed, IsMax, AfterAll, Asked, BlockRound;
      ghost var whole := BlockRound(Contents(), jobs, script, 0, now);
      calls := [];
      BlockRound(Contents(), jobs, script, 0, now).BehindTwice([], []);
      var j := jobs;
      while j != []
        invariant Valid() && fds == old(fds) && forall k :: 0 <= k < |j| ==> 0 <= j[k] < 1025
        invariant whole == BlockRound(Contents(), j, script, |calls|, now).Behind(calls)
        decreases |j|
      {
        BlockTurn(Contents(), j, script, |calls|, now);
        var item := fds[j[0]];
        if item.Used() {
          ghost var made, t' := calls, AfterAll(Contents(), Asked(script, |calls|), now);
          BlockRound(t', j[1..], script, |calls| + 1, now).BehindTwice(made, [Call(j[0], false, item.data, item)]);
          var k := |calls|;
          calls := calls + [Call(item.fd, false, item.data, item)];
          ApplyAll(Asked(script, k), now);
        }
        j := j[1..];
      }
      BlockTurn(Contents(), j, script, |calls|, now);
      jobs := [];
    }
  }

  /** selector_new: null when the platform does not support that many descriptors. */
  method SelectorNew(initialElements: nat, now: int) returns (s: Selector?)
    ensures s == null <==> initialElements > ITEMS_MAX_SIZE
    ensures s != null ==> fresh(s) && s.Valid() && fresh(s.fds) && s.closings == [] && s.jobs == []
    ensures s != null ==> s.fds.Length > initialElements
    ensures s != null ==> forall i :: 0 <= i < s.fds.Length ==> s.fds[i] == Unused(now)
    ensures initialElements == ITEMS_MAX_SIZE ==> s.fds.Length == 1025
  {
    s := new Selector();
    var status := s.EnsureCapacity(initialElements, now);
    if status != Success {
      return null;
    }
  }
}
