/** The byte buffer of utils/buffer.c: one array, a read and a write cursor. */
module Buffer {
  import opened Bytes

  /** What a buffer is at a given moment: where its first pending byte sits, the pending bytes, the size. */
  datatype Buf = Buf(start: nat, data: seq<byte>, limit: nat) {

    /** Cursors in order, and an empty buffer has both at the start. */
    ghost predicate Valid() {
      start + |data| <= limit && (data == [] ==> start == 0)
    }

    function Room(): (n: int) {
      limit - start - |data|
    }

    function Push(bs: seq<byte>): Buf {
      Buf(start, data + bs, limit)
    }

    function Pop(n: nat): Buf
      requires n <= |data|
    {
      if n == |data| then Buf(0, [], limit) else Buf(start + n, data[n..], limit)
    }

    function Compacted(): Buf {
      Buf(0, data, limit)
    }

    function Reset(): Buf {
      Buf(0, [], limit)
    }

    /** Bytes that do not fit are dropped without notice. */
    function PutByte(c: byte): Buf {
      if Room() > 0 then Push([c]) else this
    }

    function PutAll(bs: seq<byte>): Buf
      decreases |bs|
    {
      if bs == [] then this else PutByte(bs[0]).PutAll(bs[1..])
    }

    /** An empty buffer yields 0. */
    function NextByte(): byte {
      if data == [] then 0 else data[0]
    }

    function Rest(): Buf {
      if data == [] then this else Pop(1)
    }
  }

  function Empty(limit: nat): Buf {
    Buf(0, [], limit)
  }

  /** With room for all of them, writing bytes one by one appends them in order. */
  lemma {:induction false} PutAllFits(v: Buf, bs: seq<byte>)
    requires |bs| <= v.Room()
    ensures v.PutAll(bs) == v.Push(bs)
    decreases |bs|
  {
    if bs == [] {
      assert v.data + [] == v.data;
    } else {
      PutAllFits(v.Push([bs[0]]), bs[1..]);
      assert v.data + [bs[0]] + bs[1..] == v.data + bs;
    }
  }

  // ---------- Runs of operations ----------

  /** Receive: bytes stored through the write pointer. Take: bytes used through the read pointer. */
  datatype Op = Receive(bs: seq<byte>) | Take(n: nat) | Get | Put(c: byte) | Compact

  predicate Legal(v: Buf, op: Op) {
    match op
    case Receive(bs) => |bs| <= v.Room()
    case Take(n) => n <= |v.data|
    case _ => true
  }

  function After(v: Buf, op: Op): Buf
    requires Legal(v, op)
  {
    match op
    case Receive(bs) => v.Push(bs)
    case Take(n) => v.Pop(n)
    case Get => v.Rest()
    case Put(c) => v.PutByte(c)
    case Compact => v.Compacted()
  }

  /** The bytes an operation hands in and out. */
  function BytesIn(v: Buf, op: Op): seq<byte> {
    match op
    case Receive(bs) => bs
    case Put(c) => if v.Room() > 0 then [c] else []
    case _ => []
  }

  function BytesOut(v: Buf, op: Op): seq<byte>
    requires Legal(v, op)
  {
    match op
    case Take(n) => v.data[..n]
    case Get => if v.data == [] then [] else [v.data[0]]
    case _ => []
  }

  /** A run from v: each operation legal where it happens, and what went in and out along the way. */
  ghost predicate Run(v: Buf, ops: seq<Op>, bytesIn: seq<byte>, bytesOut: seq<byte>, end: Buf)
    decreases |ops|
  {
    if ops == [] then bytesIn == [] && bytesOut == [] && end == v
    else
      && Legal(v, ops[0])
      && BytesIn(v, ops[0]) <= bytesIn && BytesOut(v, ops[0]) <= bytesOut
      && Run(After(v, ops[0]), ops[1..], bytesIn[|BytesIn(v, ops[0])|..], bytesOut[|BytesOut(v, ops[0])|..], end)
  }

  /** No operation loses room but to the bytes it takes in; a compaction, and reading the last byte, wins back all that
      is not held. */
  lemma StepKeepsRoom(v: Buf, op: Op)
    requires v.Valid() && Legal(v, op)
    ensures After(v, op).Room() >= v.Room() - |BytesIn(v, op)|
    ensures op.Compact? || After(v, op).data == [] ==> After(v, op).Room() == v.limit - |After(v, op).data|
  {
  }

  lemma StepIsFifo(v: Buf, op: Op)
    requires v.Valid() && Legal(v, op)
    ensures After(v, op).Valid() && After(v, op).limit == v.limit
    ensures BytesOut(v, op) + After(v, op).data == v.data + BytesIn(v, op)
  {
  }

  /** A bounded FIFO under any interleaving of operations: the bytes read followed by the bytes still held are
      the bytes held at first followed by the bytes accepted. A buffer of some size is never empty and full. */
  lemma {:induction false} RunIsFifo(v: Buf, ops: seq<Op>, bytesIn: seq<byte>, bytesOut: seq<byte>, end: Buf)
    requires v.Valid() && Run(v, ops, bytesIn, bytesOut, end)
    ensures end.Valid() && end.limit == v.limit
    ensures bytesOut + end.data == v.data + bytesIn
    ensures v.limit > 0 && end.data == [] ==> end.Room() == v.limit
    decreases |ops|
  {
    hide After, BytesIn, BytesOut, Legal;
    if ops != [] {
      StepIsFifo(v, ops[0]);
      var v', i, o := After(v, ops[0]), BytesIn(v, ops[0]), BytesOut(v, ops[0]);
      RunIsFifo(v', ops[1..], bytesIn[|i|..], bytesOut[|o|..], end);
      Chain(o, bytesOut[|o|..], end.data, v'.data, i, bytesIn[|i|..], v.data);
      assert bytesOut == o + bytesOut[|o|..] && bytesIn == i + bytesIn[|i|..];
    }
  }

  lemma Chain(o: seq<byte>, o': seq<byte>, end: seq<byte>, mid: seq<byte>, i: seq<byte>, i': seq<byte>, v: seq<byte>)
    requires o' + end == mid + i' && o + mid == v + i
    ensures (o + o') + end == v + (i + i')
  {
    assert (o + o') + end == o + (o' + end);
    assert o + (mid + i') == (o + mid) + i';
    assert (v + i) + i' == v + (i + i');
  }

  // ---------- The buffer as an object ----------

  /** Moves n bytes down within one array; source and destination may overlap. */
  method MoveDown(a: array<byte>, src: nat, n: nat)
    requires src + n <= a.Length
    modifies a
    ensures a[..n] == old(a[src..src + n])
  {
    for i := 0 to n
      invariant forall k :: 0 <= k < i ==> a[k] == old(a[src + k])
      invariant forall k :: i <= k < a.Length ==> a[k] == old(a[k])
    {
      a[i] := a[src + i];
    }
  }

  class Buffer {
    const data: array<byte>
    var read: nat
    var write: nat

    ghost predicate Valid()
      reads this, data
    {
      read <= write <= data.Length && (read == write ==> read == 0)
    }

    ghost function Value(): (v: Buf)
      requires Valid()
      reads this, data
      ensures v.Valid()
    {
      Buf(read, data[read..write], data.Length)
    }

    constructor (limit: nat)
      ensures Valid() && fresh(data) && Value() == Empty(limit)
    {
      data := new byte[limit];
      read, write := 0, 0;
    }

    method Reset()
      modifies this
      ensures Valid() && Value() == Empty(data.Length)
    {
      read, write := 0, 0;
    }

    method CanWrite() returns (b: bool)
      requires Valid()
      ensures b <==> Value().Room() > 0
    {
      b := data.Length - write > 0;
    }

    method CanRead() returns (b: bool)
      requires Valid()
      ensures b <==> Value().data != []
    {
      b := write - read > 0;
    }

    method ReadableBytes() returns (n: nat)
      requires Valid()
      ensures n == |Value().data|
    {
      n := write - read;
    }

    /** The room behind the write pointer. */
    method WritableBytes() returns (n: nat)
      requires Valid()
      ensures n == Value().Room()
    {
      n := data.Length - write;
    }

    /** recv() into the write pointer followed by buffer_write_adv. */
    method Receive(bs: seq<byte>)
      requires Valid() && |bs| <= Value().Room()
      modifies this, data
      ensures Valid() && Value() == old(Value()).Push(bs)
    {
      for i := 0 to |bs|
        invariant data[write..write + i] == bs[..i]
        invariant data[read..write] == old(data[read..write])
        modifies data
      {
        data[write + i] := bs[i];
      }
      write := write + |bs|;
      assert data[read..write] == old(data[read..write]) + bs;
    }

    /** buffer_read_adv; a negative count, the result of a failed call, changes nothing. */
    method ReadAdv(n: int)
      requires Valid() && n <= |Value().data|
      modifies this, data
      ensures Valid() && Value() == if n > -1 then old(Value()).Pop(n) else old(Value())
    {
      if n > -1 {
        read := read + n;
        if read == write {
          Compact();
        }
      }
    }

    method Read() returns (c: byte)
      requires Valid()
      modifies this, data
      ensures Valid() && c == old(Value()).NextByte() && Value() == old(Value()).Rest()
      ensures old(Value()).data == [] ==> c == 0
    {
      var b := CanRead();
      if b {
        c := data[read];
        ReadAdv(1);
      } else {
        c := 0;
      }
    }

    method Write(c: byte)
      requires Valid()
      modifies this, data
      ensures Valid() && Value() == old(Value()).PutByte(c)
      ensures Value().data == old(Value()).data + if old(Value()).Room() > 0 then [c] else []
    {
      var b := CanWrite();
      if b {
        data[write] := c;
        write := write + 1;
      }
    }

    /** Moves the pending bytes to the start. Also called with the cursors equal but not yet at the start. */
    method Compact()
      requires read <= write <= data.Length
      modifies this, data
      ensures Valid() && Value() == Buf(0, old(data[read..write]), data.Length)
    {
      if read == 0 {
      } else if read == write {
        read, write := 0, 0;
      } else {
        var n := write - read;
        MoveDown(data, read, n);
        read, write := 0, n;
      }
    }
  }
}
