/** The credential table of utils/hashmap.c: open addressing, linear probing that never wraps,
    doubling when a probe runs off the end. */
module HashMap {
  import opened Bytes

  datatype Entry = Entry(present: bool, key: CString, value: CString)

  /** A slot of freshly allocated storage. */
  const FREE := Entry(false, [], [])

  const WORD := 0x1_0000_0000_0000_0000

  // ---------- djb2 ----------

  /** `char` is signed: bytes from 128 up are added to the hash as negative numbers. */
  function SignedChar(b: byte): int {
    if b < 128 then b else b - 256
  }

  /** The 64-bit djb2 hash of a key. */
  function Djb2(s: seq<byte>): (h: nat)
    ensures h < WORD
  {
    if s == [] then 5381 else (Djb2(s[..|s| - 1]) * 33 + SignedChar(s[|s| - 1])) % WORD
  }

  function Pow33(n: nat): (p: nat) {
    if n == 0 then 1 else 33 * Pow33(n - 1)
  }

  /** The characters as the digits of a number in base 33, the first the highest. */
  function Base33(s: seq<byte>): int {
    if s == [] then 0 else SignedChar(s[0]) * Pow33(|s| - 1) + Base33(s[1..])
  }

  lemma {:induction false} Base33Snoc(s: seq<byte>, c: byte)
    ensures Base33(s + [c]) == 33 * Base33(s) + SignedChar(c)
  {
    if s == [] {
      assert [] + [c] == [c] && [c][1..] == [];
      assert Base33([c]) == SignedChar(c) * Pow33(0) + Base33([]);
    } else {
      assert (s + [c])[1..] == s[1..] + [c];
      Base33Snoc(s[1..], c);
      var d, p := SignedChar(s[0]), Pow33(|s| - 1);
      assert Pow33(|s|) == 33 * p;
      assert d * (33 * p) == 33 * (d * p);
    }
  }

  lemma WrapOnce(x: int, c: int)
    ensures ((x % WORD) * 33 + c) % WORD == (x * 33 + c) % WORD
  {
    var q := x / WORD;
    assert x * 33 + c == (x % WORD) * 33 + c + 33 * q * WORD;
  }

  /** The hash in closed form: the characters as digits in base 33 below the seed 5381, modulo 2^64. */
  lemma {:induction false} Djb2IsPolynomial(s: seq<byte>)
    ensures Djb2(s) == (5381 * Pow33(|s|) + Base33(s)) % WORD
  {
    if s != [] {
      var n := |s| - 1;
      Djb2IsPolynomial(s[..n]);
      assert s[..n] + [s[n]] == s;
      Base33Snoc(s[..n], s[n]);
      var x := 5381 * Pow33(n) + Base33(s[..n]);
      WrapOnce(x, SignedChar(s[n]));
      assert x * 33 + SignedChar(s[n]) == 5381 * Pow33(n + 1) + Base33(s);
    }
  }

  /** Wrapping after the shift and wrapping once at the end agree. */
  lemma ShiftAndAdd(h: nat, c: int)
    ensures (h * 32 % WORD + h + c) % WORD == (h * 33 + c) % WORD
  {
    var q, x := h * 32 / WORD, h * 33 + c;
    assert h * 32 % WORD + h + c == x - q * WORD;
  }

  method HashKey(key: CString) returns (hash: nat)
    ensures hash == Djb2(key)
  {
    hash := 5381;
    for i := 0 to |key|
      invariant hash == Djb2(key[..i])
    {
      assert key[..i + 1][..i] == key[..i];
      ShiftAndAdd(hash, SignedChar(key[i]));
      hash := (hash * 32 % WORD + hash + SignedChar(key[i])) % WORD;
    }
    assert key[..|key|] == key;
  }

  // ---------- Tables as sequences of slots ----------

  function Home(key: CString, capacity: nat): (slot: nat)
    requires capacity > 0
    ensures slot < capacity
  {
    Djb2(key) % capacity
  }

  ghost predicate SitsAfterHome(t: seq<Entry>, i: nat)
    requires i < |t| && t[i].present
  {
    Home(t[i].key, |t|) <= i && forall j :: Home(t[i].key, |t|) <= j < i ==> t[j].present
  }

  /** Every entry sits at or after its home slot, with no free slot in between. */
  ghost predicate NoGaps(t: seq<Entry>) {
    forall i :: 0 <= i < |t| && t[i].present ==> SitsAfterHome(t, i)
  }

  ghost predicate UniqueKeys(t: seq<Entry>) {
    forall i, j :: 0 <= i < j < |t| && t[i].present && t[j].present ==> t[i].key != t[j].key
  }

  function Count(t: seq<Entry>): nat {
    if t == [] then 0 else Count(t[..|t| - 1]) + if t[|t| - 1].present then 1 else 0
  }

  /** The entries stored, wherever they sit. */
  function Entries(t: seq<Entry>): multiset<Entry> {
    if t == [] then multiset{}
    else Entries(t[..|t| - 1]) + if t[|t| - 1].present then multiset{t[|t| - 1]} else multiset{}
  }

  /** What the table means: the first entry with the key, scanning every slot and ignoring hashes. */
  function FirstMatch(t: seq<Entry>, key: CString): Option<Entry> {
    if t == [] then None
    else if t[0].present && t[0].key == key then Some(t[0])
    else FirstMatch(t[1..], key)
  }

  /** The slot where non-wrapping linear probing stops: the first free one, or else the last. */
  function Probe(t: seq<Entry>, from: nat): (pos: nat)
    requires from < |t|
    ensures from <= pos < |t|
    ensures forall j :: from <= j < pos ==> t[j].present
    ensures t[pos].present ==> pos == |t| - 1
    decreases |t| - from
  {
    if t[from].present && from < |t| - 1 then Probe(t, from + 1) else from
  }

  /** One step of the rehash loop; like the source, it does not look at what the slot held. */
  function Reinsert(t: seq<Entry>, e: Entry): (t': seq<Entry>)
    requires |t| > 0
    ensures |t'| == |t|
  {
    t[Probe(t, Home(e.key, |t|)) := e]
  }

  function RehashFrom(was: seq<Entry>, i: nat, t: seq<Entry>): (t': seq<Entry>)
    requires i <= |was| && |t| > 0
    ensures |t'| == |t|
    decreases |was| - i
  {
    if i == |was| then t
    else RehashFrom(was, i + 1, if was[i].present then Reinsert(t, was[i]) else t)
  }

  /** The table that rehash builds in `capacity` fresh slots. */
  function Rehashed(t: seq<Entry>, capacity: nat): (t': seq<Entry>)
    requires capacity > 0
    ensures |t'| == capacity
  {
    RehashFrom(t, 0, seq(capacity, _ => FREE))
  }

  // ---------- Facts about Count and FirstMatch ----------

  lemma {:induction false} CountOccupy(t: seq<Entry>, pos: nat, e: Entry)
    requires pos < |t| && e.present
    ensures Count(t[pos := e]) == Count(t) + if t[pos].present then 0 else 1
  {
    var n := |t| - 1;
    if pos == n {
      assert t[pos := e][..n] == t[..n];
    } else {
      CountOccupy(t[..n], pos, e);
      assert t[pos := e][..n] == t[..n][pos := e];
    }
  }

  function Present(e: Entry): multiset<Entry> {
    if e.present then multiset{e} else multiset{}
  }

  lemma LastEntry(t: seq<Entry>)
    requires t != []
    ensures Entries(t) == Entries(t[..|t| - 1]) + Present(t[|t| - 1])
  {
  }

  lemma {:induction false} EntriesOccupy(t: seq<Entry>, pos: nat, e: Entry)
    requires pos < |t| && e.present && !t[pos].present
    ensures Entries(t[pos := e]) == Entries(t) + multiset{e}
  {
    hide Entries;
    var n := |t| - 1;
    LastEntry(t);
    LastEntry(t[pos := e]);
    if pos == n {
      assert t[pos := e][..n] == t[..n];
    } else {
      EntriesOccupy(t[..n], pos, e);
      assert t[pos := e][..n] == t[..n][pos := e];
      hide Present;
      AddedInAnyOrder(Entries(t[..n]), Present(t[n]), multiset{e});
    }
  }

  lemma AddedInAnyOrder(a: multiset<Entry>, b: multiset<Entry>, c: multiset<Entry>)
    ensures a + b + c == a + c + b
  {
  }

  lemma {:induction false} EntriesFree(t: seq<Entry>)
    requires forall i :: 0 <= i < |t| ==> !t[i].present
    ensures Entries(t) == multiset{}
  {
    if t != [] {
      EntriesFree(t[..|t| - 1]);
    }
  }

  lemma {:induction false} CountFull(t: seq<Entry>, lo: nat)
    requires lo <= |t| && forall j :: lo <= j < |t| ==> t[j].present
    ensures Count(t) >= |t| - lo
    decreases |t|
  {
    if lo < |t| {
      CountFull(t[..|t| - 1], lo);
    }
  }

  lemma {:induction false} CountFree(t: seq<Entry>)
    requires forall j :: 0 <= j < |t| ==> !t[j].present
    ensures Count(t) == 0
  {
    if t != [] {
      CountFree(t[..|t| - 1]);
    }
  }

  lemma {:induction false} FirstMatchAt(t: seq<Entry>, key: CString, i: nat)
    requires i < |t| && t[i].present && t[i].key == key
    requires forall j :: 0 <= j < i && t[j].present ==> t[j].key != key
    ensures FirstMatch(t, key) == Some(t[i])
  {
    if i > 0 {
      FirstMatchAt(t[1..], key, i - 1);
    }
  }

  lemma {:induction false} FirstMatchNone(t: seq<Entry>, key: CString)
    requires forall j :: 0 <= j < |t| && t[j].present ==> t[j].key != key
    ensures FirstMatch(t, key) == None
  {
    if t != [] {
      FirstMatchNone(t[1..], key);
    }
  }

  /** The slot FirstMatch answers from. */
  lemma {:induction false} FirstMatchSlot(t: seq<Entry>, key: CString) returns (i: nat)
    requires FirstMatch(t, key).Some?
    ensures i < |t| && t[i].present && t[i].key == key && FirstMatch(t, key) == Some(t[i])
    ensures forall j :: 0 <= j < i && t[j].present ==> t[j].key != key
  {
    if t[0].present && t[0].key == key {
      i := 0;
    } else {
      var k := FirstMatchSlot(t[1..], key);
      i := k + 1;
      forall j | 0 <= j < i && t[j].present ensures t[j].key != key {
        if j > 0 {
          assert t[j] == t[1..][j - 1];
        }
      }
    }
  }

  // ---------- Putting an entry into a free slot found by probing ----------

  /** Every entry that has the same key lies before the free slot a probe stops at. */
  lemma OccupyComesLast(t: seq<Entry>, e: Entry)
    requires |t| > 0 && NoGaps(t) && !t[Probe(t, Home(e.key, |t|))].present
    ensures forall j :: Probe(t, Home(e.key, |t|)) <= j < |t| && t[j].present ==> t[j].key != e.key
  {
    hide Home;
    var pos := Probe(t, Home(e.key, |t|));
    forall j | pos <= j < |t| && t[j].present ensures t[j].key != e.key {
      assert SitsAfterHome(t, j);
    }
  }

  /** Filling that slot keeps the table free of gaps. */
  lemma OccupyKeepsNoGaps(t: seq<Entry>, e: Entry)
    requires |t| > 0 && NoGaps(t) && e.present
    requires !t[Probe(t, Home(e.key, |t|))].present
    ensures NoGaps(Reinsert(t, e))
  {
    hide Home, NoGaps;
    var pos := Probe(t, Home(e.key, |t|));
    var t' := t[pos := e];
    forall i | 0 <= i < |t'| && t'[i].present ensures SitsAfterHome(t', i) {
      if i == pos {
        assert forall j :: Home(e.key, |t|) <= j < pos ==> t[j].present;
      } else {
        NoGapsAt(t, i);
      }
    }
    NoGapsIntro(t');
  }

  lemma NoGapsAt(t: seq<Entry>, i: nat)
    requires NoGaps(t) && i < |t| && t[i].present
    ensures SitsAfterHome(t, i)
  {
  }

  lemma NoGapsIntro(t: seq<Entry>)
    requires forall i :: 0 <= i < |t| && t[i].present ==> SitsAfterHome(t, i)
    ensures NoGaps(t)
  {
  }

  /** Inserting never changes what an earlier key maps to; a new key maps to its value. */
  lemma OccupyMeans(t: seq<Entry>, e: Entry, key: CString)
    requires |t| > 0 && NoGaps(t) && e.present
    requires !t[Probe(t, Home(e.key, |t|))].present
    ensures FirstMatch(Reinsert(t, e), key)
         == if key == e.key && FirstMatch(t, key) == None then Some(e) else FirstMatch(t, key)
  {
    hide Home, NoGaps;
    OccupyComesLast(t, e);
    var pos := Probe(t, Home(e.key, |t|));
    var t' := Reinsert(t, e);
    if FirstMatch(t, key).Some? {
      var i := FirstMatchSlot(t, key);
      FirstMatchAt(t', key, i);
    } else {
      AbsentEverywhere(t, key);
      if key == e.key {
        FirstMatchAt(t', key, pos);
      } else {
        FirstMatchNone(t', key);
      }
    }
  }

  /** What an insertion that finds room does. */
  lemma OccupyInserts(t: seq<Entry>, e: Entry)
    requires |t| > 0 && NoGaps(t) && e.present
    requires !t[Probe(t, Home(e.key, |t|))].present
    ensures var t' := Reinsert(t, e);
      && NoGaps(t') && Count(t') == Count(t) + 1
      && (forall k :: FirstMatch(t', k) == if k == e.key && FirstMatch(t, k) == None then Some(e) else FirstMatch(t, k))
      && (UniqueKeys(t) && FirstMatch(t, e.key) == None ==> UniqueKeys(t'))
  {
    hide NoGaps, FirstMatch, Count;
    CountOccupy(t, Probe(t, Home(e.key, |t|)), e);
    OccupyKeepsNoGaps(t, e);
    forall k
      ensures FirstMatch(Reinsert(t, e), k)
           == if k == e.key && FirstMatch(t, k) == None then Some(e) else FirstMatch(t, k)
    {
      OccupyMeans(t, e, k);
    }
    if FirstMatch(t, e.key) == None {
      AbsentEverywhere(t, e.key);
    }
  }

  lemma {:induction false} AbsentEverywhere(t: seq<Entry>, key: CString)
    requires FirstMatch(t, key) == None
    ensures forall j :: 0 <= j < |t| && t[j].present ==> t[j].key != key
  {
    if t != [] {
      AbsentEverywhere(t[1..], key);
      forall j | 0 <= j < |t| && t[j].present ensures t[j].key != key {
        if j > 0 {
          assert t[j] == t[1..][j - 1];
        }
      }
    }
  }

  // ---------- Doubling is lossless ----------

  /** Injections do not shrink: distinct values taken at the positions [a, b) of s, all within [c, d). */
  lemma {:induction false} Pigeonhole(s: seq<int>, a: nat, b: nat, c: int, d: int)
    requires a <= b <= |s| && c <= d
    requires forall k :: a <= k < b ==> c <= s[k] < d
    requires forall k, l :: a <= k < l < b ==> s[k] != s[l]
    ensures b - a <= d - c
    decreases b
  {
    if a < b {
      assert c <= s[a] < d;
      // Swap the value d - 1, if present, for the last one and drop both ends.
      var x := s[b - 1];
      if k :| a <= k < b && s[k] == d - 1 {
        Pigeonhole(s[k := x], a, b - 1, c, d - 1);
      } else {
        Pigeonhole(s, a, b - 1, c, d - 1);
      }
    }
  }

  /** src names the old slot behind each entry of t: an order-preserving (per key) injection that reaches all
      entries among the first i slots of was. */
  ghost predicate Sourced(was: seq<Entry>, i: nat, t: seq<Entry>, src: seq<int>) {
    && i <= |was| && |t| == |src|
    && (forall k :: 0 <= k < |t| && t[k].present ==> 0 <= src[k] < i && t[k] == was[src[k]])
    && (forall k, l :: 0 <= k < l < |t| && t[k].present && t[l].present ==> src[k] != src[l])
    && (forall k, l :: 0 <= k < l < |t| && t[k].present && t[l].present && t[k].key == t[l].key ==> src[k] < src[l])
    && (forall j :: 0 <= j < i && was[j].present ==> exists k :: 0 <= k < |t| && t[k].present && src[k] == j)
  }

  /** The state of a rehash that has moved the first i slots of was into t. */
  ghost predicate Moved(was: seq<Entry>, i: nat, t: seq<Entry>, src: seq<int>) {
    && Sourced(was, i, t, src)
    && |src| == |t| == 2 * |was| > 0
    && NoGaps(t)
    && Count(t) == Count(was[..i])
  }

  lemma SourcedStep(was: seq<Entry>, i: nat, t: seq<Entry>, src: seq<int>, pos: nat)
    requires Sourced(was, i, t, src) && i < |was| && was[i].present
    requires pos < |t| && !t[pos].present
    requires forall j :: pos <= j < |t| && t[j].present ==> t[j].key != was[i].key
    ensures Sourced(was, i + 1, t[pos := was[i]], src[pos := i])
  {
    var t', src' := t[pos := was[i]], src[pos := i];
    forall j | 0 <= j < i + 1 && was[j].present
      ensures exists k :: 0 <= k < |t'| && t'[k].present && src'[k] == j
    {
      if j < i {
        var k :| 0 <= k < |t| && t[k].present && src[k] == j;
        assert t'[k].present && src'[k] == j;
      } else {
        assert t'[pos].present && src'[pos] == j;
      }
    }
  }

  lemma SourcedSkip(was: seq<Entry>, i: nat, t: seq<Entry>, src: seq<int>)
    requires Sourced(was, i, t, src) && i < |was| && !was[i].present
    ensures Sourced(was, i + 1, t, src)
  {
    forall j | 0 <= j < i + 1 && was[j].present
      ensures exists k :: 0 <= k < |t| && t[k].present && src[k] == j
    {
      assert j < i;
    }
  }

  lemma HomeDoubles(key: CString, capacity: nat)
    requires capacity > 0
    ensures Home(key, 2 * capacity) == Home(key, capacity) || Home(key, 2 * capacity) == Home(key, capacity) + capacity
  {
    var h, q, r := Djb2(key), Djb2(key) / (2 * capacity), Djb2(key) % (2 * capacity);
    assert h == (2 * q) * capacity + r;
    if r < capacity {
      DivModIs(h, capacity, 2 * q, r);
    } else {
      assert h == (2 * q + 1) * capacity + (r - capacity);
      DivModIs(h, capacity, 2 * q + 1, r - capacity);
    }
  }

  lemma DivModIs(h: int, c: int, q: int, r: int)
    requires c > 0 && h == q * c + r && 0 <= r < c
    ensures h % c == r
  {
    var q', r' := h / c, h % c;
    assert (q - q') * c == r' - r;
    if q > q' {
      MulAtLeast(q - q', c);
    } else if q < q' {
      MulAtLeast(q' - q, c);
    }
  }

  lemma MulAtLeast(n: int, c: int)
    requires n >= 1 && c > 0
    ensures n * c >= c && -n * c <= -c
  {
    assert n * c == (n - 1) * c + c;
    assert -n * c == -(n * c);
  }

  /** The counting argument. If a probe for was[i] found no free slot, then the maximal full run at the end
      of the new table would hold more entries than the old table has slots for. */
  lemma {:induction false} ProbeFindsFreeSlot(was: seq<Entry>, i: nat, t: seq<Entry>, src: seq<int>)
    requires Moved(was, i, t, src) && NoGaps(was)
    requires i < |was| && was[i].present
    ensures !t[Probe(t, Home(was[i].key, |t|))].present
  {
    hide Home;
    var c, h := |was|, Home(was[i].key, |t|);
    if t[Probe(t, h)].present {
      // p is the start of the maximal full run that ends the table
      var p := h;
      while p > 0 && t[p - 1].present
        invariant 0 <= p <= h && forall j :: p <= j < |t| ==> t[j].present
      {
        p := p - 1;
      }
      var lo := if p <= c then 0 else p - c;
      forall k | p <= k < |t| ensures lo <= src[k] < i {
        assert SitsAfterHome(t, k) && SitsAfterHome(was, src[k]);
        HomeDoubles(t[k].key, c);
      }
      assert lo <= i by {
        assert SitsAfterHome(was, i);
        HomeDoubles(was[i].key, c);
      }
      Pigeonhole(src, p, |t|, lo, i);
    }
  }

  lemma MoveStep(was: seq<Entry>, i: nat, t: seq<Entry>, src: seq<int>) returns (src': seq<int>)
    requires Moved(was, i, t, src) && NoGaps(was) && i < |was|
    ensures Moved(was, i + 1, if was[i].present then Reinsert(t, was[i]) else t, src')
  {
    hide Home;
    hide NoGaps, Sourced;
    assert was[..i + 1][..i] == was[..i];
    src' := src;
    if was[i].present {
      var pos := Probe(t, Home(was[i].key, |t|));
      ProbeFindsFreeSlot(was, i, t, src);
      OccupyKeepsNoGaps(t, was[i]);
      OccupyComesLast(t, was[i]);
      CountOccupy(t, pos, was[i]);
      src' := src[pos := i];
      SourcedStep(was, i, t, src, pos);
    } else {
      SourcedSkip(was, i, t, src);
    }
  }

  lemma {:induction false} MoveAll(was: seq<Entry>, i: nat, t: seq<Entry>, src: seq<int>) returns (src': seq<int>)
    requires Moved(was, i, t, src) && NoGaps(was)
    ensures Moved(was, |was|, RehashFrom(was, i, t), src')
    decreases |was| - i
  {
    if i == |was| {
      src' := src;
    } else {
      src' := MoveStep(was, i, t, src);
      src' := MoveAll(was, i + 1, if was[i].present then Reinsert(t, was[i]) else t, src');
    }
  }

  /** Every entry is put into a free slot, so none is lost and none made up. */
  lemma {:induction false} MoveKeepsEntries(was: seq<Entry>, i: nat, t: seq<Entry>, src: seq<int>)
    requires Moved(was, i, t, src) && NoGaps(was) && Entries(t) == Entries(was[..i])
    ensures Entries(RehashFrom(was, i, t)) == Entries(was)
    decreases |was| - i
  {
    hide Home, NoGaps;
    if i == |was| {
      assert was[..i] == was;
    } else {
      assert was[..i + 1][..i] == was[..i];
      if was[i].present {
        ProbeFindsFreeSlot(was, i, t, src);
        EntriesOccupy(t, Probe(t, Home(was[i].key, |t|)), was[i]);
      }
      var src' := MoveStep(was, i, t, src);
      MoveKeepsEntries(was, i + 1, if was[i].present then Reinsert(t, was[i]) else t, src');
    }
  }

  /** Two entries with one key keep their order, so lookups keep their answer. */
  lemma MovedMeans(was: seq<Entry>, t: seq<Entry>, src: seq<int>, key: CString)
    requires Moved(was, |was|, t, src)
    ensures FirstMatch(t, key) == FirstMatch(was, key)
  {
    hide Home;
    if FirstMatch(was, key).Some? {
      var i := FirstMatchSlot(was, key);
      var k :| 0 <= k < |t| && t[k].present && src[k] == i;
      FirstMatchAt(t, key, k);
    } else {
      AbsentEverywhere(was, key);
      FirstMatchNone(t, key);
    }
  }

  lemma MovedKeepsKeysUnique(was: seq<Entry>, t: seq<Entry>, src: seq<int>)
    requires Moved(was, |was|, t, src) && UniqueKeys(was)
    ensures UniqueKeys(t)
  {
    hide NoGaps;
    forall k, l | 0 <= k < l < |t| && t[k].present && t[l].present ensures t[k].key != t[l].key {
      var a, b := src[k], src[l];
      assert t[k] == was[a] && t[l] == was[b] && a != b;
      if a < b {
        assert was[a].key != was[b].key;
      } else {
        assert was[b].key != was[a].key;
      }
    }
  }

  lemma FreshIsMoved(was: seq<Entry>) returns (t: seq<Entry>, src: seq<int>)
    requires |was| > 0
    ensures t == seq(2 * |was|, _ => FREE) && Moved(was, 0, t, src)
  {
    t, src := seq(2 * |was|, _ => FREE), seq(2 * |was|, _ => -1);
    CountFree(t);
  }

  /** Doubling overwrites nothing: the same entries, the same answers to every lookup, no gaps again. */
  lemma {:induction false} DoublingIsLossless(t: seq<Entry>)
    requires |t| > 0 && NoGaps(t)
    ensures var t' := Rehashed(t, 2 * |t|);
      && NoGaps(t') && Count(t') == Count(t) && Entries(t') == Entries(t)
      && (UniqueKeys(t) ==> UniqueKeys(t'))
      && forall key :: FirstMatch(t', key) == FirstMatch(t, key)
  {
    hide NoGaps, UniqueKeys, Sourced, FirstMatch, RehashFrom;
    var blank, src := FreshIsMoved(t);
    EntriesFree(blank);
    MoveKeepsEntries(t, 0, blank, src);
    src := MoveAll(t, 0, blank, src);
    var t' := Rehashed(t, 2 * |t|);
    assert t[..|t|] == t;
    if UniqueKeys(t) {
      MovedKeepsKeysUnique(t, t', src);
    }
    forall key ensures FirstMatch(t', key) == FirstMatch(t, key) {
      MovedMeans(t, t', src, key);
    }
  }

  /** Doubling matters: growing 2 slots to 3 drops one of two entries whose new homes are both the last slot. */
  lemma GrowthByOneLosesAnEntry()
    ensures var a, b := Entry(true, [5], []), Entry(true, [2], []);
      NoGaps([a, b]) && Rehashed([a, b], 3) == [FREE, FREE, b]
      && FirstMatch([a, b], [5]) == Some(a) && FirstMatch(Rehashed([a, b], 3), [5]) == None
  {
    var a, b := Entry(true, [5], []), Entry(true, [2], []);
    assert [5][..0] == [] && [2][..0] == [];
    assert Djb2([]) == 5381;
    assert Djb2([5]) == 177578 && Djb2([2]) == 177575;
    var t0 := seq(3, _ => FREE);
    assert t0 == [FREE, FREE, FREE];
    assert Reinsert(t0, a) == [FREE, FREE, a];
    assert Reinsert([FREE, FREE, a], b) == [FREE, FREE, b];
    assert RehashFrom([a, b], 1, [FREE, FREE, a]) == RehashFrom([a, b], 2, [FREE, FREE, b]);
    FirstMatchAt([a, b], [5], 0);
    FirstMatchNone([FREE, FREE, b], [5]);
  }

  // ---------- The table as an object ----------

  /** b is a doubled some number of times. */
  predicate Doubled(a: nat, b: nat)
    decreases b - a
  {
    b == a || (0 < a < b && Doubled(2 * a, b))
  }

  lemma {:induction false} DoubledGrows(a: nat, b: nat)
    requires Doubled(a, b)
    ensures a <= b
    decreases b - a
  {
    if a != b {
      DoubledGrows(2 * a, b);
    }
  }

  /** The body of the rehash loop. */
  method Place(t: array<Entry>, e: Entry)
    requires t.Length > 0
    modifies t
    ensures t[..] == Reinsert(old(t[..]), e)
  {
    ghost var before := t[..];
    var hash := HashKey(e.key);
    var position := hash % t.Length;
    while t[position].present && position < t.Length - 1
      invariant 0 <= position < t.Length && t[..] == before
      invariant Probe(before, position) == Probe(before, Home(e.key, |before|))
    {
      position := position + 1;
    }
    t[position] := e;
  }

  class Table {
    var entries: array<Entry>
    var size: nat
    var capacity: nat

    ghost predicate Valid()
      reads this, entries
    {
      && capacity == entries.Length > 0
      && NoGaps(entries[..])
      && size == Count(entries[..])
    }

    /** What a lookup of the key must answer. */
    ghost function Lookup(key: CString): Option<Entry>
      reads this, entries
    {
      FirstMatch(entries[..], key)
    }

    constructor (capacity: nat)
      requires capacity > 0
      ensures Valid() && fresh(entries) && size == 0 && this.capacity == capacity
      ensures forall key :: Lookup(key) == None
      ensures UniqueKeys(entries[..])
    {
      entries := new Entry[capacity](_ => FREE);
      size := 0;
      this.capacity := capacity;
      new;
      CountFree(entries[..]);
      forall key ensures Lookup(key) == None {
        FirstMatchNone(entries[..], key);
      }
    }

    /** Moves every entry into newCapacity fresh slots. */
    method Rehash(newCapacity: nat)
      requires capacity == entries.Length > 0
      modifies this
      ensures size == old(size) && capacity == entries.Length
      ensures newCapacity <= old(capacity) ==> entries == old(entries)
      ensures newCapacity > old(capacity) ==> fresh(entries) && entries[..] == Rehashed(old(entries[..]), newCapacity)
    {
      if newCapacity <= capacity {
        return;
      }
      var newEntries := new Entry[newCapacity](_ => FREE);
      assert newEntries[..] == seq(newCapacity, _ => FREE);
      for i := 0 to capacity
        modifies newEntries
        invariant RehashFrom(entries[..], i, newEntries[..]) == Rehashed(entries[..], newCapacity)
      {
        if entries[i].present {
          Place(newEntries, entries[i]);
        }
      }
      entries := newEntries;
      capacity := newCapacity;
    }

    /** Adds an entry; 1 when it fitted, 0 when the table had to grow first. Keys already present keep
        their first value. */
    method Insert(key: CString, value: CString) returns (r: int)
      requires Valid() && |key| < 255 && |value| < 255
      modifies this, entries
      ensures Valid() && (fresh(entries) || entries == old(entries))
      ensures size == old(size) + 1
      ensures r == (if capacity == old(capacity) then 1 else 0) && Doubled(old(capacity), capacity)
      ensures forall k :: Lookup(k) == if k == key && old(Lookup(k)) == None then Some(Entry(true, key, value))
                                       else old(Lookup(k))
      ensures old(UniqueKeys(entries[..])) && old(Lookup(key)) == None ==> UniqueKeys(entries[..])
      decreases Djb2(key) + size + 1 - capacity
    {
      hide NoGaps, Count, FirstMatch, UniqueKeys, RehashFrom;
      ghost var t := entries[..];
      var hash := HashKey(key);
      var position := hash % capacity;
      while entries[position].present && position < capacity - 1
        invariant position < capacity && entries[..] == t
        invariant Probe(t, position) == Probe(t, Home(key, capacity))
        decreases capacity - position
      {
        position := position + 1;
      }
      assert Probe(t, Home(key, capacity)) == position;
      if !entries[position].present {
        ghost var e := Entry(true, key, value);
        entries[position] := Entry(true, key, value);
        size := size + 1;
        assert entries[..] == Reinsert(t, e);
        OccupyInserts(t, e);
        return 1;
      }
      FullSuffixIsBounded(t, key);
      DoublingIsLossless(t);
      Rehash(capacity * 2);
      var _ := Insert(key, value);
      DoubledGrows(2 * old(capacity), capacity);
      return 0;
    }

    /** The entry stored first under the key. */
    method Get(key: CString) returns (r: Option<Entry>)
      requires Valid()
      ensures r == Lookup(key)
    {
      ghost var t := entries[..];
      var hash := HashKey(key);
      var position := hash % capacity;
      while entries[position].present && position < capacity - 1 && entries[position].key != key
        invariant Home(key, capacity) <= position < capacity
        invariant forall j :: Home(key, capacity) <= j < position ==> entries[j].present && entries[j].key != key
      {
        position := position + 1;
      }
      if entries[position].present && entries[position].key == key {
        forall j | 0 <= j < position && t[j].present ensures t[j].key != key {
          assert SitsAfterHome(t, j);
        }
        FirstMatchAt(t, key, position);
        return Some(entries[position]);
      }
      forall j | 0 <= j < |t| && t[j].present ensures t[j].key != key {
        assert SitsAfterHome(t, j);
      }
      FirstMatchNone(t, key);
      return None;
    }
  }

  /** Why insertion terminates: once the capacity exceeds hash + size, a probe cannot find its suffix full. */
  lemma {:induction false} FullSuffixIsBounded(t: seq<Entry>, key: CString)
    requires |t| > 0 && t[Probe(t, Home(key, |t|))].present
    ensures |t| <= Djb2(key) + Count(t)
  {
    CountFull(t, Home(key, |t|));
    if |t| > Djb2(key) {
      assert Home(key, |t|) == Djb2(key) by { DivModIs(Djb2(key), |t|, 0, Djb2(key)); }
    }
  }
}
