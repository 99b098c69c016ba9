/** The factory of parser_utils.c: compiles a string into an automaton that compares input with it,
    ignoring ASCII case. */
module ParserUtils {
  import opened Bytes
  import opened Parser

  const STRING_CMP_MAYEQ: nat := 0
  const STRING_CMP_EQ: nat := 1
  const STRING_CMP_NEQ: nat := 2

  function Lower(c: byte): byte {
    if 65 <= c <= 90 then c + 32 else c
  }

  function Upper(c: byte): byte {
    if 97 <= c <= 122 then c - 32 else c
  }

  /** ctype is defined on ASCII, and a C string holds no zero byte. */
  predicate Pattern(s: seq<byte>) {
    forall i :: 0 <= i < |s| ==> 0 < s[i] < 128
  }

  predicate SameLetters(s: seq<byte>, w: seq<byte>) {
    |s| == |w| && forall i :: 0 <= i < |s| ==> Lower(s[i]) == Lower(w[i])
  }

  /** w spells out a beginning of s. */
  predicate Begins(s: seq<byte>, w: seq<byte>) {
    |w| <= |s| && SameLetters(s[..|w|], w)
  }

  function Step(s: seq<byte>, i: nat, letter: byte): Transition
    requires i < |s|
  {
    Transition(letter, i + 1, Some(if i + 1 == |s| then STRING_CMP_EQ else STRING_CMP_MAYEQ), None)
  }

  function Otherwise(s: seq<byte>): Transition {
    Transition(ANY, |s| + 1, Some(STRING_CMP_NEQ), None)
  }

  /** The layout: state i < |s| waits for letter i, state |s| has seen all of s, state |s| + 1 is the sink. */
  ghost predicate Row(m: Machine, s: seq<byte>, i: nat)
    requires i < |m.states| == |m.statesN| && 3 * i + 2 < |m.transitions|
  {
    && m.states[i] == 3 * i
    && if i < |s| then
         && m.statesN[i] == 3
         && m.transitions[3 * i] == Step(s, i, Lower(s[i]))
         && m.transitions[3 * i + 1] == Step(s, i, Upper(s[i]))
         && m.transitions[3 * i + 2] == Otherwise(s)
       else
         m.statesN[i] == 1 && m.transitions[3 * i] == Otherwise(s)
  }

  ghost predicate Rows(m: Machine, s: seq<byte>, n: nat)
    requires n <= |s| + 2 == |m.states| == |m.statesN| && |m.transitions| == 3 * (|s| + 2)
  {
    forall k :: 0 <= k < n ==> Row(m, s, k)
  }

  ghost predicate Spells(m: Machine, s: seq<byte>) {
    && |m.states| == |m.statesN| == |s| + 2 && |m.transitions| == 3 * (|s| + 2) && m.start == 0
    && Rows(m, s, |s| + 2)
  }

  lemma SpellsIsWellFormed(m: Machine, s: seq<byte>)
    requires Spells(m, s)
    ensures m.WellFormed()
  {
    forall k | 0 <= k < |m.states| ensures m.states[k] + m.statesN[k] <= |m.transitions| {
      assert Row(m, s, k);
    }
    forall k: nat, i: nat | m.InTable(k, i)
      ensures m.states[k] + i < |m.transitions|
      ensures m.transitions[m.states[k] + i].dest < |m.states| && m.transitions[m.states[k] + i].act1.Some?
    {
      assert Row(m, s, k);
    }
  }

  /** Every state is total, and waits for exactly its letter in either case. */
  lemma HitIs(m: Machine, s: seq<byte>, state: nat, c: byte, class_: bv32)
    requires Spells(m, s) && Pattern(s) && m.WellFormed() && state < |s| + 2
    ensures m.Hit(state, 0, c, class_).Some?
    ensures m.Hit(state, 0, c, class_).value.(when := 0)
         == (if state < |s| && Lower(c) == Lower(s[state]) then Step(s, state, 0) else Otherwise(s)).(when := 0)
  {
    assert Row(m, s, state);
    assert m.transitions[m.states[state]] == m.transitions[3 * state];
    if state < |s| {
      assert m.Hit(state, 2, c, class_) == Some(Otherwise(s));
      assert m.Hit(state, 1, c, class_)
          == if c == Upper(s[state]) then Some(Step(s, state, Upper(s[state]))) else Some(Otherwise(s));
    }
  }

  /** The state reached on w, and the type of the last event; the start state when nothing was fed. */
  function StateAfter(m: Machine, classes: seq<bv32>, w: seq<byte>): (state: nat)
    requires m.WellFormed() && |classes| == 256
    ensures state < |m.states|
  {
    if w == [] then m.start
    else
      var before := StateAfter(m, classes, w[..|w| - 1]);
      var c := w[|w| - 1];
      HitInTable(m, before, 0, c, classes[c]);
      Next(m, before, c, classes[c])
  }

  lemma {:induction false} StateIs(m: Machine, classes: seq<bv32>, s: seq<byte>, w: seq<byte>)
    requires Spells(m, s) && Pattern(s) && m.WellFormed() && |classes| == 256
    ensures StateAfter(m, classes, w) == if Begins(s, w) then |w| else |s| + 1
  {
    if w != [] {
      var v, c := w[..|w| - 1], w[|w| - 1];
      StateIs(m, classes, s, v);
      HitIs(m, s, StateAfter(m, classes, v), c, classes[c]);
      BeginsSnoc(s, v, c);
      assert v + [c] == w;
    }
  }

  lemma BeginsSnoc(s: seq<byte>, v: seq<byte>, c: byte)
    ensures Begins(s, v + [c]) <==> Begins(s, v) && |v| < |s| && Lower(s[|v|]) == Lower(c)
  {
    var w := v + [c];
    assert forall i :: 0 <= i < |v| ==> w[i] == v[i];
    assert w[|v|] == c;
    if Begins(s, w) {
      forall i | 0 <= i < |v| ensures Lower(s[..|v|][i]) == Lower(v[i]) {
        assert Lower(s[..|w|][i]) == Lower(w[i]);
      }
    }
  }

  /** The verdict of the event written for the last byte c of w + [c]. */
  function Verdict(s: seq<byte>, w: seq<byte>): nat {
    if SameLetters(s, w) then STRING_CMP_EQ
    else if Begins(s, w) then STRING_CMP_MAYEQ
    else STRING_CMP_NEQ
  }

  /** The table and the engine together decide equality up to case: the event for the last byte of any
      non-empty input is EQ iff the input equals the pattern, MAYEQ iff it is a strictly shorter beginning of
      it, and NEQ otherwise. */
  lemma LastEventDecides(m: Machine, classes: seq<bv32>, s: seq<byte>, v: seq<byte>, c: byte)
    requires Spells(m, s) && Pattern(s) && m.WellFormed() && |classes| == 256
    ensures var hit := m.Hit(StateAfter(m, classes, v), 0, c, classes[c]);
      hit.Some? && hit.value.act1 == Some(Verdict(s, v + [c])) && hit.value.act2 == None
  {
    StateIs(m, classes, s, v);
    HitIs(m, s, StateAfter(m, classes, v), c, classes[c]);
    BeginsSnoc(s, v, c);
    if |v| + 1 == |s| {
      assert s[..|v + [c]|] == s;
    }
  }

  /** Writing row n leaves the rows before it as they were. */
  lemma RowsExtend(m: Machine, m': Machine, s: seq<byte>, n: nat)
    requires n < |s| + 2 == |m.states| == |m.statesN| && |m.transitions| == 3 * (|s| + 2)
    requires |m'.states| == |m'.statesN| == |s| + 2 && |m'.transitions| == |m.transitions|
    requires m'.states[..n] == m.states[..n] && m'.statesN[..n] == m.statesN[..n]
    requires m'.transitions[..3 * n] == m.transitions[..3 * n]
    requires Rows(m, s, n) && Row(m', s, n)
    ensures Rows(m', s, n + 1)
  {
    forall k | 0 <= k < n ensures Row(m', s, k) {
      assert Row(m, s, k);
      assert m'.states[k] == m'.states[..n][k] && m'.statesN[k] == m'.statesN[..n][k];
      assert forall j :: 0 <= j < 3 * n ==> m'.transitions[j] == m'.transitions[..3 * n][j];
    }
  }

  /** The rows of the two fixed states, which every byte leads to the sink. */
  method FixedRow(transitions: array<Transition>, states: array<nat>, nstates: array<nat>, s: seq<byte>, i: nat)
    requires |s| <= i < |s| + 2 == states.Length == nstates.Length && transitions.Length == 3 * (|s| + 2)
    requires states != nstates
    requires Rows(Machine(transitions[..], states[..], nstates[..], 0), s, i)
    modifies transitions, states, nstates
    ensures Rows(Machine(transitions[..], states[..], nstates[..], 0), s, i + 1)
  {
    ghost var m := Machine(transitions[..], states[..], nstates[..], 0);
    transitions[i * 3] := Transition(ANY, |s| + 1, Some(STRING_CMP_NEQ), None);
    states[i] := i * 3 + 0;
    nstates[i] := 1;
    RowsExtend(m, Machine(transitions[..], states[..], nstates[..], 0), s, i);
  }

  /** The row of the i-th letter: its transitions come before the catch-all one. */
  method LetterRow(transitions: array<Transition>, states: array<nat>, nstates: array<nat>, s: seq<byte>, i: nat)
    requires i < |s| && |s| + 2 == states.Length == nstates.Length && transitions.Length == 3 * (|s| + 2)
    requires states != nstates
    requires Rows(Machine(transitions[..], states[..], nstates[..], 0), s, i)
    modifies transitions, states, nstates
    ensures Rows(Machine(transitions[..], states[..], nstates[..], 0), s, i + 1)
  {
    ghost var m := Machine(transitions[..], states[..], nstates[..], 0);
    var stEq, stNeq := |s|, |s| + 1;
    var dest := if i + 1 == |s| then stEq else i + 1;
    var act := Some(if i + 1 == |s| then STRING_CMP_EQ else STRING_CMP_MAYEQ);
    transitions[i * 3 + 0] := Transition(Lower(s[i]), dest, act, None);
    transitions[i * 3 + 1] := Transition(Upper(s[i]), dest, act, None);
    transitions[i * 3 + 2] := Transition(ANY, stNeq, Some(STRING_CMP_NEQ), None);
    states[i] := i * 3 + 0;
    nstates[i] := 3;
    RowsExtend(m, Machine(transitions[..], states[..], nstates[..], 0), s, i);
  }

  /** Builds the table of a pattern. */
  method Strcmpi(s: seq<byte>) returns (def: Definition)
    requires Pattern(s)
    ensures fresh(def) && fresh(def.transitions) && fresh(def.states) && fresh(def.statesN)
    ensures Spells(def.Value(), s) && def.Value().WellFormed()
  {
    var n := |s|;
    var states := new nat[n + 2](_ => 0);
    var nstates := new nat[n + 2](_ => 0);
    var transitions := new Transition[3 * (n + 2)](_ => BLANK);
    for i := 0 to n
      invariant Rows(Machine(transitions[..], states[..], nstates[..], 0), s, i)
    {
      LetterRow(transitions, states, nstates, s, i);
    }
    FixedRow(transitions, states, nstates, s, n + 0);
    FixedRow(transitions, states, nstates, s, n + 1);
    def := new Definition(transitions, states, nstates, 0);
    SpellsIsWellFormed(def.Value(), s);
  }

  /** Compiling s and feeding w to a fresh parser decides whether they are equal up to case. */
  method Compare(classes: array<bv32>, s: seq<byte>, w: seq<byte>) returns (kind: nat)
    requires classes.Length == 256 && Pattern(s) && w != []
    ensures kind == STRING_CMP_EQ <==> SameLetters(s, w)
    ensures kind == STRING_CMP_MAYEQ <==> Begins(s, w) && |w| < |s|
    ensures kind == STRING_CMP_NEQ <==> !Begins(s, w)
  {
    hide SameLetters, Begins, Verdict;
    var def := Strcmpi(s);
    ghost var m := def.Value();
    var parser := new Parser(classes, def);
    kind := STRING_CMP_NEQ;
    for i := 0 to |w|
      invariant fresh(parser) && parser.def == def && parser.classes == classes
      invariant fresh(def.transitions) && fresh(def.states) && fresh(def.statesN)
      invariant def.Value() == m && parser.Valid()
      invariant parser.state == StateAfter(m, classes[..], w[..i])
      invariant i > 0 ==> kind == Verdict(s, w[..i])
    {
      LastEventDecides(m, classes[..], s, w[..i], w[i]);
      assert w[..i + 1] == w[..i] + [w[i]];
      var e := parser.Feed(w[i]);
      kind := e.kind;
    }
    assert w[..|w|] == w;
    VerdictMeans(s, w);
  }

  /** A beginning as long as the whole is the whole. */
  lemma VerdictMeans(s: seq<byte>, w: seq<byte>)
    ensures Verdict(s, w) == STRING_CMP_EQ <==> SameLetters(s, w)
    ensures Verdict(s, w) == STRING_CMP_MAYEQ <==> Begins(s, w) && |w| < |s|
    ensures Verdict(s, w) == STRING_CMP_NEQ <==> !Begins(s, w)
  {
    if |w| == |s| {
      assert s[..|w|] == s;
    }
  }
}
