/** The table-driven lexer engine of parser.c. */
module Parser {
  import opened Bytes

  type int32 = x: int | -0x8000_0000 <= x < 0x8000_0000

  /** `when` value that matches every byte. */
  const ANY: int32 := 512

  /** Every action of the repository stores an event type together with the byte; an absent action is None. */
  type Action = Option<nat>

  datatype Transition = Transition(when: int32, dest: nat, act1: Action, act2: Action)

  /** What calloc leaves in a transition. */
  const BLANK := Transition(0, 0, None, None)

  datatype Event = Event(kind: nat, first: byte, n: byte, hasNext: bool)

  /** A definition: one flat table, and for each state where its transitions start and how many there are. */
  datatype Machine = Machine(transitions: seq<Transition>, states: seq<nat>, statesN: seq<nat>, start: nat) {

    ghost predicate InTable(state: nat, i: nat)
      requires |states| == |statesN|
    {
      state < |states| && i < statesN[state]
    }

    /** Each state's transitions lie in the table, lead to states, and have their required action. */
    ghost predicate WellFormed() {
      && |states| == |statesN| && start < |states|
      && (forall s :: 0 <= s < |states| ==> states[s] + statesN[s] <= |transitions|)
      && (forall s: nat, i: nat :: InTable(s, i) ==>
            transitions[states[s] + i].dest < |states| && transitions[states[s] + i].act1.Some?)
    }

    /** The first transition from the i-th on that the byte matches. */
    function Hit(state: nat, i: nat, c: byte, class_: bv32): Option<Transition>
      requires |states| == |statesN| && state < |states| && states[state] + statesN[state] <= |transitions|
      decreases statesN[state] - i
    {
      if i >= statesN[state] then None
      else
        var t := transitions[states[state] + i];
        if Matches(t, c, class_) then Some(t) else Hit(state, i + 1, c, class_)
    }
  }

  predicate Matches(t: Transition, c: byte, class_: bv32) {
    if t.when <= 0xFF then c == t.when
    else t.when == ANY || SharesClass(class_, t.when as bv32)
  }

  /** Some class is in both masks. */
  predicate SharesClass(a: bv32, b: bv32) {
    a & b != 0
  }

  /** Masks are sets of classes: a mask of several classes is matched by whatever matches one of them, */
  lemma MasksAreUnions(a: bv32, b: bv32, c: bv32)
    ensures SharesClass(a, b | c) <==> SharesClass(a, b) || SharesClass(a, c)
  {
    assert a & (b | c) == (a & b) | (a & c);
    EitherBits(a & b, a & c);
  }

  /** and a mask with some class matches itself but not what is outside it. */
  lemma MaskMatchesItself(a: bv32)
    ensures SharesClass(a, a) <==> a != 0
    ensures !SharesClass(a, 0) && !SharesClass(a, !a)
  {
    assert a & a == a;
    assert a & !a == 0;
  }

  lemma EitherBits(a: bv32, b: bv32)
    ensures a | b != 0 <==> a != 0 || b != 0
  {
  }

  /** The engine's state after a byte; it does not move when nothing matches. */
  function Next(m: Machine, state: nat, c: byte, class_: bv32): nat
    requires m.WellFormed() && state < |m.states|
  {
    match m.Hit(state, 0, c, class_)
    case Some(t) => t.dest
    case None => state
  }

  lemma {:induction false} HitInTable(m: Machine, state: nat, i: nat, c: byte, class_: bv32)
    requires m.WellFormed() && state < |m.states|
    ensures var h := m.Hit(state, i, c, class_); h.Some? ==> h.value.dest < |m.states| && h.value.act1.Some?
    decreases m.statesN[state] - i
  {
    if i < m.statesN[state] {
      assert m.InTable(state, i);
      HitInTable(m, state, i + 1, c, class_);
    }
  }

  class Definition {
    const transitions: array<Transition>
    const states: array<nat>
    const statesN: array<nat>
    const start: nat

    constructor (transitions: array<Transition>, states: array<nat>, statesN: array<nat>, start: nat)
      ensures this.transitions == transitions && this.states == states
      ensures this.statesN == statesN && this.start == start
    {
      this.transitions, this.states, this.statesN, this.start := transitions, states, statesN, start;
    }

    ghost function Value(): Machine
      reads transitions, states, statesN
    {
      Machine(transitions[..], states[..], statesN[..], start)
    }
  }

  class Parser {
    const classes: array<bv32>
    const def: Definition
    var state: nat
    var e1: Event
    var e2: Event

    ghost predicate Valid()
      reads this, def.transitions, def.states, def.statesN
    {
      def.Value().WellFormed() && state < def.states.Length
    }

    constructor (classes: array<bv32>, def: Definition)
      requires def.Value().WellFormed()
      ensures Valid() && this.classes == classes && this.def == def && state == def.start
    {
      this.classes := classes;
      this.def := def;
      state := def.start;
      e1, e2 := Event(0, 0, 0, false), Event(0, 0, 0, false);
    }

    method Reset()
      requires def.Value().WellFormed()
      modifies this
      ensures Valid() && state == def.start && e1 == old(e1) && e2 == old(e2)
    {
      state := def.start;
    }

    /** Feeds one byte: the first matching transition moves the state and writes the event, or two of them. */
    method Feed(c: byte) returns (e: Event)
      requires Valid() && c < classes.Length
      modifies this
      ensures Valid() && state == Next(def.Value(), old(state), c, classes[c]) && e == e1
      ensures match def.Value().Hit(old(state), 0, c, classes[c])
        case None => state == old(state) && e1 == old(e1).(hasNext := false) && e2 == old(e2).(hasNext := false)
        case Some(t) =>
          && state == t.dest && t.act1.Some?
          && e1 == Event(t.act1.value, c, 1, t.act2.Some?)
          && e2 == if t.act2.Some? then Event(t.act2.value, c, 1, false) else old(e2).(hasNext := false)
    {
      ghost var m := def.Value();
      var class_ := classes[c];
      e1, e2 := e1.(hasNext := false), e2.(hasNext := false);
      ghost var s0, e10, e20 := state, e1, e2;
      HitInTable(m, state, 0, c, class_);
      var base, n := def.states[state], def.statesN[state];
      var i := 0;
      while i < n
        invariant 0 <= i <= n && state == s0 && e1 == e10 && e2 == e20
        invariant m.Hit(s0, i, c, class_) == m.Hit(s0, 0, c, class_)
      {
        var t := def.transitions[base + i];
        assert t == m.transitions[m.states[s0] + i];
        if Matches(t, c, class_) {
          assert m.Hit(s0, 0, c, class_) == Some(t);
          e1 := Event(t.act1.value, c, 1, false);
          if t.act2.Some? {
            e1 := e1.(hasNext := true);
            e2 := Event(t.act2.value, c, 1, false);
          }
          state := t.dest;
          break;
        }
        i := i + 1;
      }
      e := e1;
    }
  }

  /** The default class table: the source gives it 255 elements, so it covers every byte but 255. */
  method NoClasses() returns (classes: array<bv32>)
    ensures fresh(classes) && classes.Length == 255
    ensures forall c :: 0 <= c < classes.Length ==> classes[c] == 0
  {
    classes := new bv32[0xFF](_ => 0);
  }
}
