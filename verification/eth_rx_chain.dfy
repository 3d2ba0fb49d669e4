/** The link callback of the receive path: lwIP packet buffers chained on the heap, each with its own length
    and the total length from it to the end of the chain, in 16-bit arithmetic. */
module EthRxChain {
  import opened EthRx

  class Pbuf {
    var next: Pbuf?
    var totLen: nat
    var len: nat
  }

  /** The sum of the lengths from position `i` on. */
  function SumFrom(lens: seq<nat>, i: nat): nat
    requires i <= |lens|
    decreases |lens| - i
  {
    if i == |lens| then 0 else lens[i] + SumFrom(lens, i + 1)
  }

  lemma {:induction false} SumSnoc(lens: seq<nat>, x: nat, i: nat)
    requires i <= |lens|
    ensures SumFrom(lens + [x], i) == SumFrom(lens, i) + x
    decreases |lens| - i
  {
    if i < |lens| {
      SumSnoc(lens, x, i + 1);
    }
  }

  lemma U16Sum(a: nat, b: nat)
    ensures U16(U16(a) + b) == U16(a + b)
  {
  }

  /** The totals of a chain with a fresh buffer at its end. */
  function TotalsOf(lens: seq<nat>): (t: seq<nat>)
    ensures |t| == |lens| + 1
  {
    seq(|lens| + 1, i requires 0 <= i <= |lens| => if i < |lens| then U16(SumFrom(lens, i)) else 0)
  }

  /** Adding the fresh buffer's length to every total makes them right again. */
  lemma NewTotal(lens: seq<nat>, length: nat, i: nat)
    requires i <= |lens|
    ensures U16(TotalsOf(lens)[i] + length) == U16(SumFrom(lens + [length], i))
  {
    SumSnoc(lens, length, i);
    U16Sum(SumFrom(lens, i), length);
  }

  class Chain {
    /** pRxStart and pRxEnd; the latter is meaningless while the chain is empty. */
    var start: Pbuf?
    var end: Pbuf?
    ghost var content: seq<Pbuf>

    ghost predicate Linked()
      reads this, content
    {
      && (forall i, j :: 0 <= i < j < |content| ==> content[i] != content[j])
      && start == (if content == [] then null else content[0])
      && (forall i :: 0 <= i < |content| - 1 ==> content[i].next == content[i + 1])
      && (content != [] ==> content[|content| - 1].next == null && end == content[|content| - 1])
    }

    ghost function Lens(): (l: seq<nat>)
      reads this, content
      ensures |l| == |content|
    {
      seq(|content|, i requires 0 <= i < |content| reads this, content => content[i].len)
    }

    /** Every buffer's total is its own length plus those of all that follow. */
    ghost predicate Totals()
      reads this, content
    {
      forall i {:trigger content[i]} :: 0 <= i < |content| ==> content[i].totLen == U16(SumFrom(Lens(), i))
    }

    ghost predicate Valid()
      reads this, content
    {
      Linked() && Totals()
    }

    constructor ()
      ensures Valid() && content == []
    {
      start, end, content := null, null, [];
    }

    /** HAL_ETH_RxLinkCallback. */
    method Link(p: Pbuf, length: nat)
      requires Valid() && p !in content && length < 0x1_0000
      modifies this, content, p
      ensures Valid() && content == old(content) + [p] && Lens() == old(Lens()) + [length]
    {
      ghost var before := Lens();
      Append(p, length);
      AddLength(length, before);
    }

    /** Puts `p` at the end with a total of zero. */
    method Append(p: Pbuf, length: nat)
      requires Linked() && p !in content
      modifies this, p, content`next
      ensures Linked() && content == old(content) + [p] && p.totLen == 0
      ensures Lens() == old(Lens()) + [length]
      ensures forall i {:trigger content[i]} :: 0 <= i < |content| - 1 ==> content[i].totLen == old(content[i].totLen)
    {
      p.next, p.totLen, p.len := null, 0, length;
      if start == null {
        start := p;
      } else {
        end.next := p;
      }
      end := p;
      content := content + [p];
      assert Lens() == old(Lens()) + [length];
    }

    /** The loop over the chain that adds the new length to every total. */
    method AddToAll(length: nat, ghost totals: seq<nat>)
      requires Linked() && |totals| == |content|
      requires forall i {:trigger content[i]} :: 0 <= i < |content| ==> content[i].totLen == totals[i]
      modifies content`totLen
      ensures Linked()
      ensures forall i {:trigger content[i]} :: 0 <= i < |content| ==> content[i].totLen == U16(totals[i] + length)
    {
      var q := start;
      ghost var k := 0;
      while q != null
        invariant 0 <= k <= |content| && q == (if k < |content| then content[k] else null)
        invariant Linked()
        invariant forall i {:trigger content[i]} :: 0 <= i < |content| ==>
                    content[i].totLen == if i < k then U16(totals[i] + length) else totals[i]
        decreases |content| - k
      {
        q.totLen := U16(q.totLen + length);
        q := q.next;
        k := k + 1;
      }
    }

    /** The totals after a buffer of the given length was appended with a total of zero. */
    method AddLength(length: nat, ghost before: seq<nat>)
      requires Linked() && content != [] && Lens() == before + [length] && content[|content| - 1].totLen == 0
      requires forall i {:trigger content[i]} :: 0 <= i < |before| ==> content[i].totLen == U16(SumFrom(before, i))
      modifies content`totLen
      ensures Valid() && Lens() == before + [length]
    {
      AddToAll(length, TotalsOf(before));
      assert Lens() == before + [length];
      forall i | 0 <= i < |content| ensures content[i].totLen == U16(SumFrom(Lens(), i)) {
        NewTotal(before, length, i);
      }
    }
  }
}
