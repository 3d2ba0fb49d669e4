/** The audio ring buffer in software mode: a byte array with a read and a write position. Equal
    positions mean empty, so a buffer that is filled to the last byte looks empty. */
module AudioRing {

  type Byte = b: nat | b < 256

  lemma ModOnce(x: nat, n: nat)
    requires x <= n && n > 0
    ensures x % n == if x == n then 0 else x
  {
  }

  /** The bytes between two positions of a ring. */
  function Span(mem: seq<Byte>, rp: nat, wp: nat): seq<Byte>
    requires rp <= |mem| && wp <= |mem|
  {
    if wp >= rp then mem[rp..wp] else mem[rp..] + mem[..wp]
  }

  /** Memory with `src` copied to position `at`. */
  function Put(mem: seq<Byte>, at: nat, src: seq<Byte>): (m: seq<Byte>)
    requires at + |src| <= |mem|
    ensures |m| == |mem|
  {
    mem[..at] + src + mem[at + |src|..]
  }

  /** What a reader finds after an accepted write: the old bytes and the new ones, unless they fill the ring. */
  function Grown(held: seq<Byte>, src: seq<Byte>, capacity: nat): seq<Byte>
  {
    if |held| + |src| < capacity then held + src else []
  }

  lemma AppendAbove(mem: seq<Byte>, rp: nat, wp: nat, src: seq<Byte>)
    requires rp <= wp < |mem| && wp + |src| <= |mem| && src != []
    ensures var w := if wp + |src| == |mem| then 0 else wp + |src|;
            Span(Put(mem, wp, src), rp, w) == Grown(Span(mem, rp, wp), src, |mem|)
  {
    assert Put(mem, wp, src)[rp..wp + |src|] == mem[rp..wp] + src;
    if wp + |src| == |mem| {
      assert Put(mem, wp, src)[rp..] == mem[rp..wp] + src;
    }
  }

  lemma AppendBelow(mem: seq<Byte>, rp: nat, wp: nat, src: seq<Byte>)
    requires wp < rp < |mem| && wp + |src| <= rp
    ensures Span(Put(mem, wp, src), rp, wp + |src|) == Grown(Span(mem, rp, wp), src, |mem|)
  {
    assert Put(mem, wp, src)[rp..] == mem[rp..];
    assert Put(mem, wp, src)[..wp + |src|] == mem[..wp] + src;
  }

  lemma AroundHigh(mem: seq<Byte>, rp: nat, wp: nat, high: seq<Byte>, low: seq<Byte>)
    requires rp <= wp < |mem| && wp + |high| == |mem| && |low| <= rp
    ensures var m := Put(Put(mem, wp, high), 0, low); m[rp..] == mem[rp..wp] + high && m[..|low|] == low
  {
    var m := Put(mem, wp, high);
    assert m[rp..] == mem[rp..wp] + high;
    assert Put(m, 0, low)[rp..] == m[rp..];
  }

  lemma AppendAround(mem: seq<Byte>, rp: nat, wp: nat, src: seq<Byte>)
    requires rp <= wp < |mem| && |mem| - wp < |src| <= |mem| - wp + rp
    ensures var r := |mem| - wp;
            Span(Put(Put(mem, wp, src[..r]), 0, src[r..]), rp, |src| - r) == Grown(Span(mem, rp, wp), src, |mem|)
  {
    var r := |mem| - wp;
    var high, low := src[..r], src[r..];
    AroundHigh(mem, rp, wp, high, low);
    assert mem[rp..wp] + src == mem[rp..wp] + high + low;
  }

  /** Moving the read position on by `k` bytes, around the end where needed, drops the oldest `k`. */
  lemma SpanDrop(mem: seq<Byte>, rp: nat, wp: nat, k: nat)
    requires rp < |mem| && wp < |mem| && k <= |Span(mem, rp, wp)|
    ensures var p := if rp + k < |mem| then rp + k else rp + k - |mem|;
            && Span(mem, p, wp) == Span(mem, rp, wp)[k..]
            && Span(mem, rp, wp)[..k] == if rp + k <= |mem| then mem[rp..rp + k] else mem[rp..] + mem[..p]
  {
  }

  function Min(a: nat, b: nat): nat
  {
    if a < b then a else b
  }

  class RingBuffer {
    const mem: array<Byte>
    var rp: nat
    var wp: nat

    ghost predicate Valid()
      reads this
    {
      mem.Length > 0 && rp < mem.Length && wp < mem.Length
    }

    /** What the buffer holds, oldest byte first. */
    ghost function Contents(): (s: seq<Byte>)
      requires Valid()
      reads this, mem
      ensures |s| < mem.Length
    {
      Span(mem[..], rp, wp)
    }

    constructor (mem: array<Byte>)
      requires mem.Length > 0
      ensures this.mem == mem && Valid() && Contents() == []
    {
      this.mem := mem;
      rp, wp := 0, 0;
    }

    method Clear()
      requires Valid()
      modifies this
      ensures Valid() && Contents() == []
    {
      wp := 0;
      rp := 0;
    }

    method CopyIn(at: nat, src: seq<Byte>)
      requires at + |src| <= mem.Length
      modifies mem
      ensures mem[..] == Put(old(mem[..]), at, src)
    {
      var i := 0;
      while i < |src|
        invariant 0 <= i <= |src|
        invariant forall j :: at <= j < at + i ==> mem[j] == src[j - at]
        invariant forall j :: 0 <= j < mem.Length && !(at <= j < at + i) ==> mem[j] == old(mem[j])
      {
        mem[at + i] := src[i];
        i := i + 1;
      }
    }

    /** Takes bytes from below the write position. */
    method TakeBelow(size: nat) returns (out: seq<Byte>)
      requires Valid() && wp > rp && size > 0
      modifies this`rp
      ensures Valid()
      ensures var n := Min(size, |old(Contents())|);
              out == old(Contents())[..n] && Contents() == old(Contents())[n..]
    {
      SpanDrop(mem[..], rp, wp, Min(size, |Contents()|));
      var remain := wp - rp;
      if size > remain {
        out := mem[rp..rp + remain];
        rp := Wrap(rp + remain);
      } else {
        out := mem[rp..rp + size];
        rp := Wrap(rp + size);
      }
    }

    /** Takes bytes up to the end of the memory and on from its start. */
    method TakeAround(size: nat) returns (out: seq<Byte>)
      requires Valid() && wp < rp && size > 0
      modifies this`rp
      ensures Valid()
      ensures var n := Min(size, |old(Contents())|);
              out == old(Contents())[..n] && Contents() == old(Contents())[n..]
    {
      SpanDrop(mem[..], rp, wp, Min(size, |Contents()|));
      var remain := mem.Length - rp;
      if size > remain {
        out := mem[rp..];
        if size - remain > wp {
          out := out + mem[..wp];
          rp := wp;
        } else {
          out := out + mem[..size - remain];
          rp := size - remain;
        }
      } else {
        out := mem[rp..rp + size];
        rp := Wrap(rp + size);
      }
    }

    /** Takes up to `size` bytes from the front. */
    method Read(size: nat) returns (out: seq<Byte>)
      requires Valid()
      modifies this`rp
      ensures Valid()
      ensures var n := Min(size, |old(Contents())|);
              out == old(Contents())[..n] && Contents() == old(Contents())[n..]
    {
      if size == 0 {
        return [];
      }
      if wp > rp {
        out := TakeBelow(size);
      } else {
        if wp == rp {
          return [];
        }
        out := TakeAround(size);
      }
    }

    method Wrap(p: nat) returns (r: nat)
      requires Valid() && p <= mem.Length
      ensures r == if p == mem.Length then 0 else p
    {
      ModOnce(p, mem.Length);
      r := p % mem.Length;
    }

    /** Stores `src` in one or two pieces from the write position on, with the read position not above it. */
    method StoreAbove(src: seq<Byte>)
      requires Valid() && rp <= wp && 0 < |src| <= mem.Length - wp + rp
      modifies this`wp, mem
      ensures Valid() && Contents() == Grown(old(Contents()), src, mem.Length)
    {
      ghost var m := mem[..];
      var remain := mem.Length - wp;
      if remain >= |src| {
        AppendAbove(m, rp, wp, src);
        CopyIn(wp, src);
        wp := Wrap(wp + |src|);
      } else {
        AppendAround(m, rp, wp, src);
        CopyIn(wp, src[..remain]);
        wp := |src| - remain;
        CopyIn(0, src[remain..]);
      }
    }

    /** Stores `src` between the write position and the read position above it. */
    method StoreBelow(src: seq<Byte>)
      requires Valid() && wp < rp && 0 < |src| <= rp - wp
      modifies this`wp, mem
      ensures Valid() && Contents() == Grown(old(Contents()), src, mem.Length)
    {
      AppendBelow(mem[..], rp, wp, src);
      CopyIn(wp, src);
      wp := Wrap(wp + |src|);
    }

    /** Appends all of `src` or nothing. */
    method Write(src: seq<Byte>) returns (written: nat)
      requires Valid()
      modifies this`wp, mem
      ensures Valid()
      ensures written == if |src| <= mem.Length - |old(Contents())| then |src| else 0
      ensures written == 0 ==> Contents() == old(Contents())
      ensures written > 0 ==> Contents() == Grown(old(Contents()), src, mem.Length)
    {
      if |src| == 0 {
        return 0;
      }
      if wp >= rp {
        if mem.Length - wp + rp >= |src| {
          StoreAbove(src);
        } else {
          return 0;
        }
      } else {
        if rp - wp >= |src| {
          StoreBelow(src);
        } else {
          return 0;
        }
      }
      return |src|;
    }

    method FillSize() returns (n: nat)
      requires Valid()
      ensures n == |Contents()|
    {
      n := if wp >= rp then wp - rp else mem.Length - rp + wp;
    }

    method FreeSize() returns (n: nat)
      requires Valid()
      ensures n + |Contents()| == mem.Length
    {
      var fill := FillSize();
      n := mem.Length - fill;
    }
  }

  // ---- runs against a bounded queue ----

  datatype Op = Append(src: seq<Byte>) | Take(size: nat) | Reset

  predicate Accepts(held: seq<Byte>, src: seq<Byte>, capacity: nat)
  {
    0 < |src| <= capacity - |held|
  }

  /** The bytes held after one operation of a bounded queue. */
  function Fifo(held: seq<Byte>, op: Op, capacity: nat): seq<Byte>
  {
    match op
    case Append(src) => if Accepts(held, src, capacity) then held + src else held
    case Take(size) => held[Min(size, |held|)..]
    case Reset => []
  }

  /** The bytes handed out by one operation. */
  function Answer(held: seq<Byte>, op: Op): seq<Byte>
  {
    if op.Take? then held[..Min(op.size, |held|)] else []
  }

  function FifoRun(held: seq<Byte>, ops: seq<Op>, capacity: nat): seq<Byte>
    decreases |ops|
  {
    if ops == [] then held else FifoRun(Fifo(held, ops[0], capacity), ops[1..], capacity)
  }

  /** Everything a queue hands out over a run. */
  function FifoOut(held: seq<Byte>, ops: seq<Op>, capacity: nat): seq<Byte>
    decreases |ops|
  {
    if ops == [] then [] else Answer(held, ops[0]) + FifoOut(Fifo(held, ops[0], capacity), ops[1..], capacity)
  }

  /** No accepted write takes the last free byte. */
  predicate KeepsRoom(held: seq<Byte>, op: Op, capacity: nat)
  {
    op.Append? && Accepts(held, op.src, capacity) ==> |held| + |op.src| < capacity
  }

  predicate AlwaysKeepsRoom(held: seq<Byte>, ops: seq<Op>, capacity: nat)
    decreases |ops|
  {
    ops == [] || (KeepsRoom(held, ops[0], capacity) && AlwaysKeepsRoom(Fifo(held, ops[0], capacity), ops[1..], capacity))
  }

  /** One operation on the ring: a queue step exactly when it keeps room, and the loss of everything when it does not. */
  method Apply(rb: RingBuffer, op: Op) returns (out: seq<Byte>)
    requires rb.Valid()
    modifies rb, rb.mem
    ensures rb.Valid() && out == Answer(old(rb.Contents()), op)
    ensures rb.Contents() == Fifo(old(rb.Contents()), op, rb.mem.Length) <==> KeepsRoom(old(rb.Contents()), op, rb.mem.Length)
    ensures !KeepsRoom(old(rb.Contents()), op, rb.mem.Length) ==> rb.Contents() == []
  {
    out := [];
    match op
    case Append(src) =>
      var written := rb.Write(src);
    case Take(size) =>
      out := rb.Read(size);
    case Reset =>
      rb.Clear();
  }

  /** The bytes that one operation adds. */
  function Added(held: seq<Byte>, op: Op, capacity: nat): seq<Byte>
  {
    if op.Append? && Accepts(held, op.src, capacity) then op.src else []
  }

  /** The bytes of all accepted writes of a run, in order. */
  function Accepted(held: seq<Byte>, ops: seq<Op>, capacity: nat): seq<Byte>
    decreases |ops|
  {
    if ops == [] then [] else Added(held, ops[0], capacity) + Accepted(Fifo(held, ops[0], capacity), ops[1..], capacity)
  }

  /** The bytes that leave the queue with one operation: handed out, or dropped by a reset. */
  function Gone(held: seq<Byte>, op: Op): seq<Byte>
  {
    if op.Reset? then held else Answer(held, op)
  }

  function FifoGone(held: seq<Byte>, ops: seq<Op>, capacity: nat): seq<Byte>
    decreases |ops|
  {
    if ops == [] then [] else Gone(held, ops[0]) + FifoGone(Fifo(held, ops[0], capacity), ops[1..], capacity)
  }

  predicate NoReset(ops: seq<Op>)
  {
    forall i :: 0 <= i < |ops| ==> !ops[i].Reset?
  }

  /** Without a reset, what leaves the queue is handed out. */
  lemma {:induction false} GoneIsOut(held: seq<Byte>, ops: seq<Op>, capacity: nat)
    requires NoReset(ops)
    ensures FifoGone(held, ops, capacity) == FifoOut(held, ops, capacity)
    decreases |ops|
  {
    if ops != [] {
      assert !ops[0].Reset? && NoReset(ops[1..]);
      GoneIsOut(Fifo(held, ops[0], capacity), ops[1..], capacity);
    }
  }

  lemma OneConserves(held: seq<Byte>, op: Op, capacity: nat)
    ensures Gone(held, op) + Fifo(held, op, capacity) == held + Added(held, op, capacity)
  {
  }

  lemma Regroup(a: seq<Byte>, gone: seq<Byte>, end: seq<Byte>, mid: seq<Byte>, later: seq<Byte>, held: seq<Byte>, added: seq<Byte>)
    requires gone + end == mid + later && a + mid == held + added
    ensures (a + gone) + end == held + (added + later)
  {
    calc {
      (a + gone) + end;
      a + (gone + end);
      a + (mid + later);
      (a + mid) + later;
      (held + added) + later;
      held + (added + later);
    }
  }

  /** What a queue held and accepted is what left it, followed by what it still holds, in order. */
  lemma {:induction false} FifoConserves(held: seq<Byte>, ops: seq<Op>, capacity: nat)
    ensures FifoGone(held, ops, capacity) + FifoRun(held, ops, capacity) == held + Accepted(held, ops, capacity)
    decreases |ops|
  {
    if ops != [] {
      var next, rest := Fifo(held, ops[0], capacity), ops[1..];
      FifoConserves(next, rest, capacity);
      var gone, end, later := FifoGone(next, rest, capacity), FifoRun(next, rest, capacity), Accepted(next, rest, capacity);
      OneConserves(held, ops[0], capacity);
      Regroup(Gone(held, ops[0]), gone, end, next, later, held, Added(held, ops[0], capacity));
      assert FifoGone(held, ops, capacity) == Gone(held, ops[0]) + gone;
      assert Accepted(held, ops, capacity) == Added(held, ops[0], capacity) + later;
    }
  }

  /** The operations of a run, one after another. */
  method Replay(rb: RingBuffer, ops: seq<Op>) returns (out: seq<Byte>)
    requires rb.Valid() && AlwaysKeepsRoom(rb.Contents(), ops, rb.mem.Length)
    modifies rb, rb.mem
    ensures rb.Valid()
    ensures rb.Contents() == FifoRun(old(rb.Contents()), ops, rb.mem.Length)
    ensures out == FifoOut(old(rb.Contents()), ops, rb.mem.Length)
  {
    out := [];
    var i := 0;
    while i < |ops|
      invariant 0 <= i <= |ops| && rb.Valid()
      invariant AlwaysKeepsRoom(rb.Contents(), ops[i..], rb.mem.Length)
      invariant FifoRun(rb.Contents(), ops[i..], rb.mem.Length) == FifoRun(old(rb.Contents()), ops, rb.mem.Length)
      invariant out + FifoOut(rb.Contents(), ops[i..], rb.mem.Length) == FifoOut(old(rb.Contents()), ops, rb.mem.Length)
    {
      assert ops[i..][1..] == ops[i + 1..];
      var some := Apply(rb, ops[i]);
      out := out + some;
      i := i + 1;
    }
  }

  /** Over every run that always keeps room, the ring hands out and holds exactly what a bounded queue does;
      what was held and accepted is what left the ring, followed by what it still holds. */
  method Drive(rb: RingBuffer, ops: seq<Op>) returns (out: seq<Byte>)
    requires rb.Valid() && AlwaysKeepsRoom(rb.Contents(), ops, rb.mem.Length)
    modifies rb, rb.mem
    ensures rb.Valid()
    ensures rb.Contents() == FifoRun(old(rb.Contents()), ops, rb.mem.Length)
    ensures out == FifoOut(old(rb.Contents()), ops, rb.mem.Length)
    ensures FifoGone(old(rb.Contents()), ops, rb.mem.Length) + rb.Contents()
            == old(rb.Contents()) + Accepted(old(rb.Contents()), ops, rb.mem.Length)
    ensures NoReset(ops) ==> out + rb.Contents() == old(rb.Contents()) + Accepted(old(rb.Contents()), ops, rb.mem.Length)
  {
    ghost var held, n := rb.Contents(), rb.mem.Length;
    out := Replay(rb, ops);
    FifoConserves(held, ops, n);
    if NoReset(ops) {
      GoneIsOut(held, ops, n);
    }
  }

  /** A fresh buffer that accepts as many bytes as it has room for looks empty. */
  method FullWriteWitness(src: seq<Byte>) returns (rb: RingBuffer, written: nat)
    requires src != []
    ensures rb.Valid() && written == |src| && rb.Contents() == []
  {
    var mem := new Byte[|src|](i => 0);
    rb := new RingBuffer(mem);
    written := rb.Write(src);
  }
}
