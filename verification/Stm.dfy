/** The state-machine engine of utils/stm.c, driven by the selector's events. */
module Stm {
  import opened Bytes

  datatype Kind = Read | Write | Block

  /** Which callbacks a state defines. */
  datatype StateDef = StateDef(arrival: bool, departure: bool, read: bool, write: bool, block: bool)

  datatype Call = Arrival(s: nat) | Departure(s: nat) | Ready(kind: Kind, s: nat)

  /** An event and the state its callback answers with. */
  datatype Event = Event(kind: Kind, ret: nat)

  predicate Handles(d: StateDef, kind: Kind) {
    match kind case Read => d.read case Write => d.write case Block => d.block
  }

  predicate Defined(states: seq<StateDef>, c: Call)
    requires c.s < |states|
  {
    match c
    case Arrival(s) => states[s].arrival
    case Departure(s) => states[s].departure
    case Ready(kind, s) => Handles(states[s], kind)
  }

  /** The calls that the states define. */
  function Made(states: seq<StateDef>, calls: seq<Call>): seq<Call>
    requires forall c :: c in calls ==> c.s < |states|
  {
    if calls == [] then []
    else
      var rest := Made(states, calls[..|calls| - 1]);
      var c := calls[|calls| - 1];
      if Defined(states, c) then rest + [c] else rest
  }

  /** Where an event finds the machine: it enters its initial state on the first one. */
  function Entered(initial: nat, current: Option<nat>): nat {
    if current == None then initial else current.value
  }

  /** The calls one event is worth, were every callback defined. */
  function StepCalls(initial: nat, current: Option<nat>, e: Event): seq<Call> {
    var s := Entered(initial, current);
    (if current == None then [Arrival(s)] else [])
    + [Ready(e.kind, s)]
    + (if e.ret != s then [Departure(s), Arrival(e.ret)] else [])
  }

  /** The engine aborts on an event its state does not handle, and on an answer that is no state. */
  predicate Survives(states: seq<StateDef>, initial: nat, current: Option<nat>, e: Event)
    requires Entered(initial, current) < |states|
  {
    Handles(states[Entered(initial, current)], e.kind) && e.ret < |states|
  }

  /** Events from `current` on, none of which aborts, and the calls they are worth. */
  ghost predicate Run(states: seq<StateDef>, initial: nat, current: Option<nat>, events: seq<Event>,
                      calls: seq<Call>, end: Option<nat>)
    requires Entered(initial, current) < |states|
    decreases |events|
  {
    if events == [] then calls == [] && end == current
    else
      var step := StepCalls(initial, current, events[0]);
      && Survives(states, initial, current, events[0])
      && step <= calls
      && Run(states, initial, Some(events[0].ret), events[1..], calls[|step|..], end)
  }

  predicate AllSurvive(states: seq<StateDef>, initial: nat, current: Option<nat>, events: seq<Event>)
    requires Entered(initial, current) < |states|
    decreases |events|
  {
    events == []
    || (Survives(states, initial, current, events[0])
        && AllSurvive(states, initial, Some(events[0].ret), events[1..]))
  }

  lemma RunNothing(states: seq<StateDef>, initial: nat, current: Option<nat>)
    requires Entered(initial, current) < |states|
    ensures Run(states, initial, current, [], [], current) && AllSurvive(states, initial, current, [])
  {
  }

  lemma FirstSurvives(states: seq<StateDef>, initial: nat, current: Option<nat>, events: seq<Event>)
    requires Entered(initial, current) < |states| && events != []
    ensures AllSurvive(states, initial, current, events)
       <==> Survives(states, initial, current, events[0])
            && (Entered(initial, Some(events[0].ret)) < |states|
                && AllSurvive(states, initial, Some(events[0].ret), events[1..]))
  {
  }

  /** A run that goes on for one more event. */
  lemma {:induction false} RunThen(states: seq<StateDef>, initial: nat, current: Option<nat>, events: seq<Event>,
                                   calls: seq<Call>, mid: Option<nat>, e: Event)
    requires Entered(initial, current) < |states| && Run(states, initial, current, events, calls, mid)
    requires Entered(initial, mid) < |states| && Survives(states, initial, mid, e)
    ensures Run(states, initial, current, events + [e], calls + StepCalls(initial, mid, e), Some(e.ret))
    decreases |events|
  {
    var more := StepCalls(initial, mid, e);
    if events == [] {
      assert [] + [e] == [e] && [e][1..] == [] && calls + more == more && more[|more|..] == [];
    } else {
      var step := StepCalls(initial, current, events[0]);
      assert (events + [e])[1..] == events[1..] + [e];
      assert (calls + more)[|step|..] == calls[|step|..] + more;
      RunThen(states, initial, Some(events[0].ret), events[1..], calls[|step|..], mid, e);
    }
  }

  /** A well-bracketed trace: a state is arrived at while in none, and left or asked only while in it. */
  predicate Bracketed(inside: Option<nat>, calls: seq<Call>, end: Option<nat>)
    decreases |calls|
  {
    if calls == [] then inside == end
    else match calls[0]
      case Arrival(s) => inside == None && Bracketed(Some(s), calls[1..], end)
      case Departure(s) => inside == Some(s) && Bracketed(None, calls[1..], end)
      case Ready(_, s) => inside == Some(s) && Bracketed(inside, calls[1..], end)
  }

  function Occurrences(calls: seq<Call>, c: Call): nat {
    if calls == [] then 0 else (if calls[0] == c then 1 else 0) + Occurrences(calls[1..], c)
  }

  lemma {:induction false} BracketedAppend(a: Option<nat>, x: seq<Call>, b: Option<nat>, y: seq<Call>, c: Option<nat>)
    requires Bracketed(a, x, b) && Bracketed(b, y, c)
    ensures Bracketed(a, x + y, c)
    decreases |x|
  {
    if x == [] {
      assert x + y == y;
    } else {
      assert (x + y)[1..] == x[1..] + y;
      var a' := match x[0] case Arrival(s) => Some(s) case Departure(_) => None case Ready(_, _) => a;
      BracketedAppend(a', x[1..], b, y, c);
    }
  }

  lemma StepIsBracketed(initial: nat, current: Option<nat>, e: Event)
    ensures Bracketed(current, StepCalls(initial, current, e), Some(e.ret))
  {
    var s := Entered(initial, current);
    var ready := [Ready(e.kind, s)];
    var tail := if e.ret != s then [Departure(s), Arrival(e.ret)] else [];
    assert Bracketed(Some(s), ready, Some(s));
    if e.ret != s {
      assert tail[1..] == [Arrival(e.ret)];
      assert Bracketed(None, [Arrival(e.ret)], Some(e.ret));
    }
    BracketedAppend(Some(s), ready, Some(s), tail, Some(e.ret));
    if current == None {
      assert Bracketed(None, [Arrival(s)], Some(s));
      BracketedAppend(None, [Arrival(s)], Some(s), ready + tail, Some(e.ret));
      assert [Arrival(s)] + (ready + tail) == StepCalls(initial, current, e);
    } else {
      assert ready + tail == StepCalls(initial, current, e);
    }
  }

  /** Over any run, arrivals and departures alternate and every ready callback runs inside its own state. */
  lemma {:induction false} RunIsBracketed(states: seq<StateDef>, initial: nat, current: Option<nat>,
                                          events: seq<Event>, calls: seq<Call>, end: Option<nat>)
    requires Entered(initial, current) < |states|
    requires Run(states, initial, current, events, calls, end)
    ensures Bracketed(current, calls, end)
    ensures current == None && events != [] ==> calls != [] && calls[0] == Arrival(initial)
    decreases |events|
  {
    if events != [] {
      var step := StepCalls(initial, current, events[0]);
      RunIsBracketed(states, initial, Some(events[0].ret), events[1..], calls[|step|..], end);
      StepIsBracketed(initial, current, events[0]);
      BracketedAppend(current, step, Some(events[0].ret), calls[|step|..], end);
      assert step + calls[|step|..] == calls;
    }
  }

  /** In a bracketed trace that starts outside, exactly the state it ends in has one more arrival than
      departures. */
  lemma {:induction false} BracketedBalance(inside: Option<nat>, calls: seq<Call>, end: Option<nat>, s: nat)
    requires Bracketed(inside, calls, end)
    ensures Occurrences(calls, Arrival(s)) - Occurrences(calls, Departure(s))
         == (if end == Some(s) then 1 else 0) - (if inside == Some(s) then 1 else 0)
    decreases |calls|
  {
    if calls != [] {
      match calls[0]
      case Arrival(t) => BracketedBalance(Some(t), calls[1..], end, s);
      case Departure(t) => BracketedBalance(None, calls[1..], end, s);
      case Ready(_, t) => BracketedBalance(inside, calls[1..], end, s);
    }
  }

  /** The whole-run statement, for a machine that starts before its first event. */
  lemma RunBalance(states: seq<StateDef>, initial: nat, events: seq<Event>, calls: seq<Call>, end: Option<nat>, s: nat)
    requires initial < |states| && Run(states, initial, None, events, calls, end)
    ensures Occurrences(calls, Arrival(s)) - Occurrences(calls, Departure(s)) == if end == Some(s) then 1 else 0
  {
    RunIsBracketed(states, initial, None, events, calls, end);
    BracketedBalance(None, calls, end, s);
  }

  // ---------- What a run's calls are, counted ----------

  /** The events whose answer differs from the state they find. */
  function Changes(initial: nat, current: Option<nat>, events: seq<Event>): nat
    decreases |events|
  {
    if events == [] then 0
    else
      (if events[0].ret == Entered(initial, current) then 0 else 1)
      + Changes(initial, Some(events[0].ret), events[1..])
  }

  /** Each event's kind and the state it finds. */
  function Asked(initial: nat, current: Option<nat>, events: seq<Event>): seq<Call>
    decreases |events|
  {
    if events == [] then []
    else [Ready(events[0].kind, Entered(initial, current))] + Asked(initial, Some(events[0].ret), events[1..])
  }

  function Departures(calls: seq<Call>): nat {
    if calls == [] then 0 else (if calls[0].Departure? then 1 else 0) + Departures(calls[1..])
  }

  function Arrivals(calls: seq<Call>): nat {
    if calls == [] then 0 else (if calls[0].Arrival? then 1 else 0) + Arrivals(calls[1..])
  }

  function Readies(calls: seq<Call>): seq<Call> {
    if calls == [] then [] else (if calls[0].Ready? then [calls[0]] else []) + Readies(calls[1..])
  }

  lemma {:induction false} CountsAppend(a: seq<Call>, b: seq<Call>)
    ensures Departures(a + b) == Departures(a) + Departures(b)
    ensures Arrivals(a + b) == Arrivals(a) + Arrivals(b)
  {
    if a == [] {
      assert a + b == b;
    } else {
      assert (a + b)[1..] == a[1..] + b;
      CountsAppend(a[1..], b);
    }
  }

  lemma {:induction false} ReadiesAppend(a: seq<Call>, b: seq<Call>)
    ensures Readies(a + b) == Readies(a) + Readies(b)
  {
    if a == [] {
      assert a + b == b;
    } else {
      assert (a + b)[1..] == a[1..] + b;
      ReadiesAppend(a[1..], b);
      var first := if a[0].Ready? then [a[0]] else [];
      assert first + (Readies(a[1..]) + Readies(b)) == first + Readies(a[1..]) + Readies(b);
    }
  }

  lemma OneCall(c: Call)
    ensures Departures([c]) == (if c.Departure? then 1 else 0) && Arrivals([c]) == (if c.Arrival? then 1 else 0)
    ensures Readies([c]) == if c.Ready? then [c] else []
  {
    assert [c][1..] == [];
  }

  lemma StepCounts(initial: nat, current: Option<nat>, e: Event)
    ensures var calls, s := StepCalls(initial, current, e), Entered(initial, current);
      && Departures(calls) == (if e.ret == s then 0 else 1)
      && Arrivals(calls) == (if e.ret == s then 0 else 1) + (if current == None then 1 else 0)
      && Readies(calls) == [Ready(e.kind, s)]
  {
    var s := Entered(initial, current);
    var first := if current == None then [Arrival(s)] else [];
    var last := if e.ret != s then [Departure(s), Arrival(e.ret)] else [];
    OneCall(Arrival(s));
    OneCall(Ready(e.kind, s));
    OneCall(Departure(s));
    OneCall(Arrival(e.ret));
    assert last != [] ==> last == [Departure(s)] + [Arrival(e.ret)];
    CountsAppend([Departure(s)], [Arrival(e.ret)]);
    ReadiesAppend([Departure(s)], [Arrival(e.ret)]);
    CountsAppend(first + [Ready(e.kind, s)], last);
    ReadiesAppend(first + [Ready(e.kind, s)], last);
    CountsAppend(first, [Ready(e.kind, s)]);
    ReadiesAppend(first, [Ready(e.kind, s)]);
  }

  /** A machine departs exactly as often as an answer differs from the state its event finds, so an answer that names
      the current state makes no departure and no arrival; it arrives as often, and once more to begin with; and it
      asks each event's callback of the state the event finds, once and in order. */
  lemma {:induction false} RunCounts(states: seq<StateDef>, initial: nat, current: Option<nat>, events: seq<Event>,
                                     calls: seq<Call>, end: Option<nat>)
    requires Entered(initial, current) < |states| && Run(states, initial, current, events, calls, end)
    ensures Departures(calls) == Changes(initial, current, events)
    ensures Arrivals(calls)
         == Changes(initial, current, events) + if current == None && events != [] then 1 else 0
    ensures Readies(calls) == Asked(initial, current, events)
    decreases |events|
  {
    if events != [] {
      var step := StepCalls(initial, current, events[0]);
      var rest := calls[|step|..];
      RunCounts(states, initial, Some(events[0].ret), events[1..], rest, end);
      StepCounts(initial, current, events[0]);
      CountsAppend(step, rest);
      ReadiesAppend(step, rest);
      assert step + rest == calls;
    }
  }

  /** No state is left but for another one, which is entered at once. */
  ghost predicate LeadsOn(calls: seq<Call>) {
    forall i :: 0 <= i < |calls| && calls[i].Departure? ==>
      i + 1 < |calls| && calls[i + 1].Arrival? && calls[i + 1].s != calls[i].s
  }

  lemma {:induction false} RunLeadsOn(states: seq<StateDef>, initial: nat, current: Option<nat>, events: seq<Event>,
                                      calls: seq<Call>, end: Option<nat>)
    requires Entered(initial, current) < |states| && Run(states, initial, current, events, calls, end)
    ensures LeadsOn(calls)
    decreases |events|
  {
    if events != [] {
      var step := StepCalls(initial, current, events[0]);
      var rest := calls[|step|..];
      RunLeadsOn(states, initial, Some(events[0].ret), events[1..], rest, end);
      assert LeadsOn(step);
      assert forall i :: 0 <= i < |calls| ==> calls[i] == if i < |step| then step[i] else rest[i - |step|];
    }
  }

  class StateMachine {
    const states: seq<StateDef>
    const initial: nat
    var current: Option<nat>
    /** The callbacks invoked so far. */
    var made: seq<Call>
    /** What they would be if every state defined all of them. */
    ghost var calls: seq<Call>

    ghost predicate Valid()
      reads this
    {
      && initial < |states|
      && (current.Some? ==> current.value < |states|)
      && (forall c :: c in calls ==> c.s < |states|)
      && made == Made(states, calls)
    }

    /** stm_init: the initial state must lie strictly below the last one. */
    constructor (states: seq<StateDef>, initial: nat)
      requires initial < |states| - 1
      ensures Valid() && current == None && made == [] && calls == []
      ensures this.states == states && this.initial == initial
    {
      this.states, this.initial := states, initial;
      current, made, calls := None, [], [];
    }

    method Invoke(c: Call)
      requires Valid() && c.s < |states|
      modifies `made, `calls
      ensures Valid() && calls == old(calls) + [c]
    {
      assert (calls + [c])[..|calls|] == calls;
      calls := calls + [c];
      if Defined(states, c) {
        made := made + [c];
      }
    }

    method HandleFirst()
      requires Valid()
      modifies this
      ensures Valid() && current == Some(Entered(initial, old(current)))
      ensures calls == old(calls) + if old(current) == None then [Arrival(initial)] else []
    {
      if current == None {
        current := Some(initial);
        Invoke(Arrival(initial));
      }
    }

    method Jump(next: nat)
      requires Valid() && current.Some? && next < |states|
      modifies this
      ensures Valid() && current == Some(next)
      ensures calls == old(calls)
        + if next != old(current).value then [Departure(old(current).value), Arrival(next)] else []
    {
      if current != Some(next) {
        Invoke(Departure(current.value));
        current := Some(next);
        Invoke(Arrival(next));
      }
    }

    /** stm_handler_read, _write and _block; false is abort(). e.ret is what the callback answers. */
    method Handle(e: Event) returns (survived: bool)
      requires Valid()
      modifies this
      ensures survived <==> Survives(states, initial, old(current), e)
      ensures survived ==> Valid() && current == Some(e.ret)
      ensures survived ==> calls == old(calls) + StepCalls(initial, old(current), e)
      ensures survived && old(current) == Some(e.ret) ==> calls == old(calls) + [Ready(e.kind, e.ret)]
    {
      HandleFirst();
      if !Handles(states[current.value], e.kind) {
        return false;
      }
      Invoke(Ready(e.kind, current.value));
      if e.ret >= |states| {
        return false;
      }
      Jump(e.ret);
      return true;
    }

    lemma InState()
      requires Valid()
      ensures Entered(initial, current) < |states|
    {
    }

    /** Events one after the other; false is abort(). The object's calls are those of a run. */
    method HandleAll(events: seq<Event>) returns (survived: bool)
      requires Valid()
      modifies this
      ensures survived <==> AllSurvive(states, initial, old(current), events)
      ensures survived ==> Valid() && old(calls) <= calls
      ensures survived ==> Run(states, initial, old(current), events, calls[|old(calls)|..], current)
    {
      hide Valid, Run, AllSurvive, Survives, StepCalls, Entered;
      InState();
      RunNothing(states, initial, current);
      var left := events;
      ghost var before, from := calls, current;
      ghost var done: seq<Event> := [];
      assert calls[|before|..] == [];
      while left != []
        invariant Valid() && done + left == events && before <= calls
        invariant Entered(initial, from) < |states| && Entered(initial, current) < |states|
        invariant AllSurvive(states, initial, from, events) <==> AllSurvive(states, initial, current, left)
        invariant Run(states, initial, from, done, calls[|before|..], current)
        decreases |left|
      {
        FirstSurvives(states, initial, current, left);
        ghost var calls0 := calls[|before|..];
        ghost var current0 := current;
        var ok := Handle(left[0]);
        if !ok {
          return false;
        }
        InState();
        RunThen(states, initial, from, done, calls0, current0, left[0]);
        assert calls[|before|..] == calls0 + StepCalls(initial, current0, left[0]);
        done, left := done + [left[0]], left[1..];
      }
      assert done == events && left == [];
      RunNothing(states, initial, current);
      return true;
    }

    function State(): nat
      reads this
    {
      if current.Some? then current.value else initial
    }
  }
}
