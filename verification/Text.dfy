/** The C library's text conversions as this server uses them: C strings in memory, decimal numbers and IPv4
    addresses. */
module Text {
  import opened Bytes

  const DOT: byte := 46

  function Min(a: int, b: int): int {
    if a < b then a else b
  }

  function Zeros(n: nat): (z: seq<byte>)
    ensures |z| == n && forall i :: 0 <= i < n ==> z[i] == 0
  {
    seq(n, _ => 0)
  }

  // ---------- C strings in memory ----------

  /** The string that starts a piece of memory: all up to the first zero byte. */
  function CStr(mem: seq<byte>): (s: seq<byte>)
    ensures s <= mem && forall i :: 0 <= i < |s| ==> s[i] != 0
    ensures |s| < |mem| ==> mem[|s|] == 0
  {
    if mem == [] || mem[0] == 0 then [] else [mem[0]] + CStr(mem[1..])
  }

  predicate NulFree(s: seq<byte>) {
    0 !in s
  }

  lemma {:induction false} CStrIs(s: seq<byte>, rest: seq<byte>)
    requires NulFree(s) && (rest == [] || rest[0] == 0)
    ensures CStr(s + rest) == s
  {
    if s == [] {
      assert s + rest == rest;
    } else {
      assert (s + rest)[1..] == s[1..] + rest;
      CStrIs(s[1..], rest);
    }
  }

  lemma {:induction false} CStrPadded(s: seq<byte>, n: nat)
    ensures CStr(s + Zeros(n)) == CStr(s)
  {
    if s == [] {
      assert [] + Zeros(n) == Zeros(n);
    } else {
      assert (s + Zeros(n))[1..] == s[1..] + Zeros(n);
      CStrPadded(s[1..], n);
    }
  }

  /** A zero byte cuts a string short. */
  lemma {:induction false} CStrStopsEarly(s: seq<byte>, rest: seq<byte>)
    requires !NulFree(s)
    ensures |CStr(s + rest)| < |s|
  {
    if s[0] != 0 {
      assert (s + rest)[1..] == s[1..] + rest;
      CStrStopsEarly(s[1..], rest);
    }
  }

  /** strncpy: at most n characters, padded with zeros up to n; what lies beyond n stays. */
  function Strncpy(dst: seq<byte>, src: seq<byte>, n: nat): (r: seq<byte>)
    requires n <= |dst|
    ensures |r| == |dst|
  {
    var s := CStr(src);
    if |s| >= n then s[..n] + dst[n..] else s + Zeros(n - |s|) + dst[n..]
  }

  // ---------- Decimal ----------

  predicate IsDigit(c: byte) {
    48 <= c <= 57
  }

  /** "%u". */
  function Decimal(n: nat): (s: seq<byte>)
    ensures s != [] && forall i :: 0 <= i < |s| ==> IsDigit(s[i])
  {
    if n < 10 then [48 + n] else Decimal(n / 10) + [48 + n % 10]
  }

  /** atoi on a text that starts with no sign or blank: the number spelled by the digits in front. */
  function Atoi(s: seq<byte>): nat {
    AtoiFrom(0, s)
  }

  function AtoiFrom(acc: nat, s: seq<byte>): nat
    decreases |s|
  {
    if s == [] || !IsDigit(s[0]) then acc else AtoiFrom(10 * acc + (s[0] - 48), s[1..])
  }

  lemma {:induction false} AtoiOfDecimal(n: nat, rest: seq<byte>)
    ensures Atoi(Decimal(n) + rest) == AtoiFrom(n, rest)
    decreases n
  {
    if n < 10 {
      assert ([48 + n] + rest)[1..] == rest;
    } else {
      var last := [48 + n % 10];
      assert Decimal(n) + rest == Decimal(n / 10) + (last + rest);
      AtoiOfDecimal(n / 10, last + rest);
      assert (last + rest)[1..] == rest;
    }
  }

  lemma DecimalLength(n: nat)
    requires n < 100000
    ensures |Decimal(n)| == if n < 10 then 1 else if n < 100 then 2 else if n < 1000 then 3
        else if n < 10000 then 4 else 5
  {
    if n >= 10 {
      assert |Decimal(n)| == |Decimal(n / 10)| + 1;
      if n >= 100 {
        assert |Decimal(n / 10)| == |Decimal(n / 10 / 10)| + 1;
        if n >= 1000 {
          assert |Decimal(n / 10 / 10)| == |Decimal(n / 10 / 10 / 10)| + 1;
          if n >= 10000 {
            assert |Decimal(n / 10 / 10 / 10)| == |Decimal(n / 10 / 10 / 10 / 10)| + 1;
          }
        }
      }
    }
  }

  // ---------- IPv4 addresses ----------

  /** "%u.%u.%u.%u". */
  function Dotted(a: byte, b: byte, c: byte, d: byte): seq<byte> {
    Decimal(a) + [DOT] + Decimal(b) + [DOT] + Decimal(c) + [DOT] + Decimal(d)
  }

  /** inet_pton(AF_INET): four octets of at most 255 without leading zeros. octets are those complete, current
      the one being read. */
  function ParseQuad(s: seq<byte>, octets: seq<byte>, current: Option<byte>): (r: Option<seq<byte>>)
    requires |octets| <= 3
    ensures r.Some? ==> |r.value| == 4
    decreases |s|
  {
    if s == [] then
      if current.Some? && |octets| == 3 then Some(octets + [current.value]) else None
    else if IsDigit(s[0]) then
      var digit := s[0] - 48;
      match current
      case None => ParseQuad(s[1..], octets, Some(digit))
      case Some(v) =>
        if v == 0 || 10 * v + digit > 255 then None else ParseQuad(s[1..], octets, Some(10 * v + digit))
    else if s[0] == DOT && current.Some? && |octets| < 3 then
      ParseQuad(s[1..], octets + [current.value], None)
    else None
  }

  function InetPton4(s: seq<byte>): (r: Option<seq<byte>>)
    ensures r.Some? ==> |r.value| == 4
  {
    ParseQuad(s, [], None)
  }

  lemma ParseDigit(k: nat, rest: seq<byte>, octets: seq<byte>, current: Option<byte>)
    requires k < 10 && |octets| <= 3 && (current.Some? ==> current.value > 0 && 10 * current.value + k <= 255)
    ensures ParseQuad([48 + k] + rest, octets, current)
         == ParseQuad(rest, octets, Some(if current.Some? then 10 * current.value + k else k))
  {
    assert ([48 + k] + rest)[1..] == rest;
  }

  lemma ParseOctet(n: byte, rest: seq<byte>, octets: seq<byte>)
    requires |octets| <= 3
    ensures ParseQuad(Decimal(n) + rest, octets, None) == ParseQuad(rest, octets, Some(n))
  {
    hide ParseQuad;
    var last := [48 + n % 10];
    if n < 10 {
      ParseDigit(n, rest, octets, None);
    } else if n < 100 {
      assert Decimal(n) + rest == Decimal(n / 10) + (last + rest);
      ParseDigit(n / 10, last + rest, octets, None);
      ParseDigit(n % 10, rest, octets, Some(n / 10));
    } else {
      var m := n / 10;
      var middle := [48 + m % 10];
      assert Decimal(n) + rest == Decimal(m / 10) + (middle + (last + rest));
      ParseDigit(m / 10, middle + (last + rest), octets, None);
      ParseDigit(m % 10, last + rest, octets, Some(m / 10));
      ParseDigit(n % 10, rest, octets, Some(m));
    }
  }

  lemma ParseDot(rest: seq<byte>, octets: seq<byte>, n: byte)
    requires |octets| < 3
    ensures ParseQuad([DOT] + rest, octets, Some(n)) == ParseQuad(rest, octets + [n], None)
  {
    assert ([DOT] + rest)[1..] == rest;
  }

  /** Printing an address and reading it back gives the same four bytes. */
  lemma DottedParses(a: byte, b: byte, c: byte, d: byte)
    ensures InetPton4(Dotted(a, b, c, d)) == Some([a, b, c, d])
  {
    var r3 := Decimal(d);
    var r2 := Decimal(c) + ([DOT] + r3);
    var r1 := Decimal(b) + ([DOT] + r2);
    assert Dotted(a, b, c, d) == Decimal(a) + ([DOT] + r1);
    ParseOctet(a, [DOT] + r1, []);
    ParseDot(r1, [], a);
    ParseOctet(b, [DOT] + r2, [a]);
    ParseDot(r2, [a], b);
    ParseOctet(c, [DOT] + r3, [a, b]);
    ParseDot(r3, [a, b], c);
    assert r3 + [] == r3;
    ParseOctet(d, [], [a, b, c]);
    assert [] + [a] == [a] && [a] + [b] == [a, b] && [a, b] + [c] == [a, b, c] && [a, b, c] + [d] == [a, b, c, d];
  }

  /** The text an octet sequence is the reading of, up to the octet in progress. */
  function Printed(octets: seq<byte>, current: Option<byte>): seq<byte> {
    PrintedDots(octets) + if current.Some? then Decimal(current.value) else []
  }

  function PrintedDots(octets: seq<byte>): seq<byte> {
    if octets == [] then []
    else PrintedDots(octets[..|octets| - 1]) + Decimal(octets[|octets| - 1]) + [DOT]
  }

  /** Reading is injective: whatever parses is the text that its four bytes print as. */
  lemma {:induction false} ParsedIsPrinted(s: seq<byte>, octets: seq<byte>, current: Option<byte>)
    requires |octets| <= 3 && ParseQuad(s, octets, current).Some?
    ensures var q := ParseQuad(s, octets, current).value;
      Printed(octets, current) + s == Printed(q[..3], Some(q[3]))
    decreases |s|
  {
    hide Decimal, PrintedDots;
    if s == [] {
      assert (octets + [current.value])[..3] == octets;
      assert Printed(octets, current) + [] == Printed(octets, current);
    } else if IsDigit(s[0]) {
      var current' := Some(if current.Some? then 10 * current.value + (s[0] - 48) else s[0] - 48);
      assert s == [s[0]] + s[1..];
      ParsedIsPrinted(s[1..], octets, current');
      PrintedDigit(octets, current, s[0] - 48);
    } else {
      assert s == [DOT] + s[1..];
      ParsedIsPrinted(s[1..], octets + [current.value], None);
      PrintedDot(octets, current.value);
    }
  }

  lemma PrintedDigit(octets: seq<byte>, current: Option<byte>, k: nat)
    requires k < 10 && (current.Some? ==> current.value > 0 && 10 * current.value + k <= 255)
    ensures var next := if current.Some? then 10 * current.value + k else k;
      Printed(octets, Some(next)) == Printed(octets, current) + [48 + k]
  {
    if current.Some? {
      assert Decimal(10 * current.value + k) == Decimal(current.value) + [48 + k];
    }
  }

  lemma PrintedDot(octets: seq<byte>, n: byte)
    ensures Printed(octets + [n], None) == Printed(octets, Some(n)) + [DOT]
  {
    assert (octets + [n])[..|octets|] == octets;
  }

  lemma PtonIsInverse(s: seq<byte>, q: seq<byte>)
    requires InetPton4(s) == Some(q)
    ensures s == Dotted(q[0], q[1], q[2], q[3])
  {
    ParsedIsPrinted(s, [], None);
    assert Printed([], None) + s == s;
    var a, b, c := q[0], q[1], q[2];
    assert q[..3] == [a, b, c];
    assert [a, b, c][..2] == [a, b] && [a, b][..1] == [a] && [a][..0] == [];
    assert PrintedDots([a]) == Decimal(a) + [DOT];
    assert PrintedDots([a, b]) == Decimal(a) + [DOT] + Decimal(b) + [DOT];
    assert PrintedDots([a, b, c]) == Decimal(a) + [DOT] + Decimal(b) + [DOT] + Decimal(c) + [DOT];
  }

  lemma DottedFits(a: byte, b: byte, c: byte, d: byte)
    ensures |Dotted(a, b, c, d)| <= 15 && NulFree(Dotted(a, b, c, d))
  {
    DecimalLength(a);
    DecimalLength(b);
    DecimalLength(c);
    DecimalLength(d);
  }

  // ---------- Writing text into an array ----------

  /** snprintf of a text into the front of a zeroed array, cut to size - 1 characters. */
  method Snprintf(a: array<byte>, size: nat, text: seq<byte>)
    requires 0 < size <= a.Length && a[..] == Zeros(a.Length)
    modifies a
    ensures a[..] == text[..Min(|text|, size - 1)] + Zeros(a.Length - Min(|text|, size - 1))
  {
    var n := Min(|text|, size - 1);
    for i := 0 to n
      invariant a[..i] == text[..i] && a[i..] == Zeros(a.Length - i)
    {
      a[i] := text[i];
      assert a[i + 1..] == Zeros(a.Length - i)[1..];
    }
    assert a[n] == a[n..][0] == 0;
  }

  /** strncpy into an array. */
  method StrncpyInto(dst: array<byte>, src: seq<byte>, n: nat)
    requires n <= dst.Length
    modifies dst
    ensures dst[..] == Strncpy(old(dst[..]), src, n)
  {
    var s := CStr(src);
    for i := 0 to n
      invariant forall k :: 0 <= k < i ==> dst[k] == if k < |s| then s[k] else 0
      invariant forall k :: i <= k < dst.Length ==> dst[k] == old(dst[k])
    {
      dst[i] := if i < |s| then s[i] else 0;
    }
    assert forall k :: 0 <= k < dst.Length ==> dst[..][k] == Strncpy(old(dst[..]), src, n)[k];
  }
}
