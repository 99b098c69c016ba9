/** The address search of states/state_connect.c: a loop over the resolved addresses that is left whenever a
    connection is under way and entered again when its socket becomes writable. */
module Connect {
  /** What becomes of an address when its turn comes: no socket, a socket that cannot be made non-blocking, an
      immediate refusal, a socket the selector does not take, or a connection made or under way. */
  datatype Attempt = NoSocket | Blocking | Refused | Unregistered | Started

  /** How many addresses there are, the one in turn, and whether its socket is registered. At the end of the list
      the cursor equals the length. */
  datatype Search = Search(addrs: nat, cursor: nat, registered: bool)

  datatype Result = Waiting | Connected | Exhausted | Broken

  /** One call of the loop. soError is what the socket registered earlier reports. */
  function Advance(s: Search, soError: bool, attempt: nat -> Attempt): (r: (Search, Result))
    ensures r.0.addrs == s.addrs && s.cursor <= r.0.cursor && (s.cursor <= s.addrs ==> r.0.cursor <= s.addrs)
    ensures r.0.registered <==>
      r.1 == Waiting || r.1 == Connected || (r.1 == Exhausted && s.cursor >= s.addrs && s.registered)
    ensures r.1 == Waiting || r.1 == Connected ==> r.0.cursor < r.0.addrs
    ensures r.1 == Waiting ==> !s.registered || s.cursor < r.0.cursor
    ensures r.1 == Connected ==> s.registered && r.0 == s && !soError
    decreases s.addrs - s.cursor
  {
    if s.cursor >= s.addrs then (s, Exhausted)
    else if !s.registered then
      match attempt(s.cursor)
      case Started => (s.(registered := true), Waiting)
      case Unregistered => (s, Broken)
      case _ => Advance(s.(cursor := s.cursor + 1), soError, attempt)
    else if soError then Advance(s.(cursor := s.cursor + 1, registered := false), soError, attempt)
    else (s, Connected)
  }

  /** Address i works and all before it fail. */
  ghost predicate First(w: World, addrs: nat, i: int) {
    0 <= i < addrs && w.Works(i) && forall j :: 0 <= j < i ==> w.Fails(j)
  }

  /** All there is to know about the addresses: what their attempts lead to, and which of the connections started
      turn out to have failed. */
  datatype World = World(attempt: nat -> Attempt, failsLater: nat -> bool) {
    predicate Works(i: nat) {
      attempt(i) == Started && !failsLater(i)
    }

    predicate Fails(i: nat) {
      attempt(i) == NoSocket || attempt(i) == Blocking || attempt(i) == Refused
      || (attempt(i) == Started && failsLater(i))
    }
  }

  /** The whole search, over as many write events as it takes. */
  function Outcome(s: Search, w: World): (Search, Result)
    decreases s.addrs - s.cursor, if s.registered then 0 else 1
  {
    var (s', r) := Advance(s, w.failsLater(s.cursor), w.attempt);
    if r == Waiting then Outcome(s', w) else (s', r)
  }

  /** Within one call, the addresses passed over are those that fail at once. */
  lemma {:induction false} AdvanceSkipsFailures(s: Search, w: World)
    requires s.cursor <= s.addrs
    requires s.registered ==> s.cursor < s.addrs && w.attempt(s.cursor) == Started
    ensures var (s', r) := Advance(s, w.failsLater(s.cursor), w.attempt);
      && (forall i :: s.cursor <= i < s'.cursor ==> w.Fails(i))
      && (r == Waiting ==> w.attempt(s'.cursor) == Started)
      && (r == Connected ==> w.Works(s'.cursor))
      && (r == Exhausted ==> s'.cursor == s.addrs)
      && (r == Broken ==> s'.cursor < s.addrs && w.attempt(s'.cursor) == Unregistered)
  {
    AdvanceFrom(s, w.failsLater(s.cursor), w);
  }

  lemma {:induction false} AdvanceFrom(s: Search, soError: bool, w: World)
    requires s.cursor <= s.addrs
    requires s.registered ==> s.cursor < s.addrs && w.attempt(s.cursor) == Started && soError == w.failsLater(s.cursor)
    ensures var (s', r) := Advance(s, soError, w.attempt);
      && (forall i :: s.cursor <= i < s'.cursor ==> w.Fails(i))
      && (r == Waiting ==> w.attempt(s'.cursor) == Started)
      && (r == Connected ==> w.Works(s'.cursor))
      && (r == Exhausted ==> s'.cursor == s.addrs)
      && (r == Broken ==> s'.cursor < s.addrs && w.attempt(s'.cursor) == Unregistered)
    decreases s.addrs - s.cursor
  {
    if s.cursor < s.addrs
      && (if s.registered then soError else w.attempt(s.cursor) != Started && w.attempt(s.cursor) != Unregistered) {
      AdvanceFrom(s.(cursor := s.cursor + 1, registered := false), soError, w);
    }
  }

  /** The search over all its events connects to the first address in list order that works, reports the host
      unreachable exactly when every address has failed, and gives up early only at an address whose socket the
      selector refuses. It always ends. */
  lemma {:induction false} SearchFindsFirst(s: Search, w: World)
    requires s.cursor <= s.addrs
    requires s.registered ==> s.cursor < s.addrs && w.attempt(s.cursor) == Started
    requires forall i :: 0 <= i < s.cursor ==> w.Fails(i)
    ensures var (s', r) := Outcome(s, w);
      && r != Waiting
      && (r == Connected <==> exists i :: First(w, s.addrs, i))
      && (r == Connected ==> First(w, s.addrs, s'.cursor))
      && (r == Exhausted <==> forall j :: 0 <= j < s.addrs ==> w.Fails(j))
      && (r == Broken ==> w.attempt(s'.cursor) == Unregistered && forall j :: 0 <= j < s'.cursor ==> w.Fails(j))
    decreases s.addrs - s.cursor, if s.registered then 0 else 1
  {
    AdvanceSkipsFailures(s, w);
    var (s', r) := Advance(s, w.failsLater(s.cursor), w.attempt);
    if r == Waiting {
      SearchFindsFirst(s', w);
    } else {
      // An address that works does not fail, nor does one whose socket the selector refuses.
      if r == Connected {
        assert First(w, s.addrs, s'.cursor) && !w.Fails(s'.cursor);
      } else {
        assert r == Broken ==> !w.Fails(s'.cursor) && !w.Works(s'.cursor);
        forall i: nat ensures !First(w, s.addrs, i) {
          assert w.Works(i) ==> !w.Fails(i);
          assert First(w, s.addrs, i) && s'.cursor < i ==> w.Fails(s'.cursor);
        }
      }
    }
  }

  /** What a call that decides the search says about the whole list, when all before the cursor have failed. */
  lemma AdvanceDecides(s: Search, w: World)
    requires s.registered && s.cursor < s.addrs && w.attempt(s.cursor) == Started
    requires forall j :: 0 <= j < s.cursor ==> w.Fails(j)
    ensures var (s', r) := Advance(s, w.failsLater(s.cursor), w.attempt);
      && (forall j :: 0 <= j < s'.cursor ==> w.Fails(j))
      && (r == Waiting ==> w.attempt(s'.cursor) == Started)
      && (r == Connected ==> (exists i :: First(w, s.addrs, i)) && !(forall j :: 0 <= j < s.addrs ==> w.Fails(j)))
      && (r == Exhausted ==> !(exists i :: First(w, s.addrs, i)) && (forall j :: 0 <= j < s.addrs ==> w.Fails(j)))
  {
    AdvanceSkipsFailures(s, w);
    var (s', r) := Advance(s, w.failsLater(s.cursor), w.attempt);
    if r == Connected {
      assert First(w, s.addrs, s'.cursor) && !w.Fails(s'.cursor);
    } else if r == Exhausted {
      forall i: nat ensures !First(w, s.addrs, i) {
        assert w.Works(i) ==> !w.Fails(i);
      }
    }
  }

  /** A call that starts without a socket passes over addresses that lead to no connection at all. */
  lemma {:induction false} AdvanceUnregistered(s: Search, soError: bool, attempt: nat -> Attempt)
    requires s.cursor <= s.addrs && !s.registered
    ensures var (s', r) := Advance(s, soError, attempt);
      && (forall j :: s.cursor <= j < s'.cursor ==> attempt(j) != Started && attempt(j) != Unregistered)
      && r != Connected
      && (r == Waiting ==> attempt(s'.cursor) == Started)
      && (r == Exhausted ==> s'.cursor == s.addrs)
    decreases s.addrs - s.cursor
  {
    if s.cursor < s.addrs && attempt(s.cursor) != Started && attempt(s.cursor) != Unregistered {
      AdvanceUnregistered(s.(cursor := s.cursor + 1), soError, attempt);
    }
  }

  /** From an address on, all fail at once until one whose socket the selector does not take. */
  ghost predicate Stumbles(attempt: nat -> Attempt, from: nat, addrs: nat) {
    exists i: nat :: StumblesAt(attempt, from, addrs, i)
  }

  predicate StumblesAt(attempt: nat -> Attempt, from: nat, addrs: nat, i: nat) {
    && from <= i < addrs && attempt(i) == Unregistered
    && forall j: nat :: from <= j < i ==> attempt(j) == NoSocket || attempt(j) == Blocking || attempt(j) == Refused
  }

  /** The search breaks off exactly where it stumbles. */
  lemma {:induction false} BrokenIffStumbles(s: Search, soError: bool, attempt: nat -> Attempt)
    requires s.cursor <= s.addrs
    ensures !s.registered ==> (Advance(s, soError, attempt).1 == Broken <==> Stumbles(attempt, s.cursor, s.addrs))
    ensures s.registered && s.cursor < s.addrs ==>
      (Advance(s, soError, attempt).1 == Broken <==> soError && Stumbles(attempt, s.cursor + 1, s.addrs))
    decreases s.addrs - s.cursor
  {
    if s.cursor < s.addrs {
      if s.registered {
        BrokenIffStumbles(s.(cursor := s.cursor + 1, registered := false), soError, attempt);
      } else if attempt(s.cursor) == Unregistered {
        assert StumblesAt(attempt, s.cursor, s.addrs, s.cursor);
      } else if attempt(s.cursor) != Started {
        BrokenIffStumbles(s.(cursor := s.cursor + 1), soError, attempt);
        StumblesOn(attempt, s.cursor, s.addrs);
      }
    }
  }

  lemma StumblesOn(attempt: nat -> Attempt, from: nat, addrs: nat)
    requires attempt(from) != Unregistered && attempt(from) != Started
    ensures Stumbles(attempt, from, addrs) <==> Stumbles(attempt, from + 1, addrs)
  {
    if Stumbles(attempt, from, addrs) {
      var i: nat :| StumblesAt(attempt, from, addrs, i);
      assert StumblesAt(attempt, from + 1, addrs, i);
    }
    if Stumbles(attempt, from + 1, addrs) {
      var i: nat :| StumblesAt(attempt, from + 1, addrs, i);
      assert StumblesAt(attempt, from, addrs, i);
    }
  }
}
