/** Reassembly: for every stream in which packets are properly framed, the delivered packets
    are the buffers the DMA filled, cut at the last descriptors, with the right lengths. */
module EthRxPackets {
  import opened EthRx
  import opened EthRxRuns

  // ---- well-formed streams ----

  /** How many descriptors of the same packet come before position `p`. */
  function Depth(stream: seq<RxDesc>, p: nat): (d: nat)
    requires p <= |stream|
    ensures d <= p
  {
    if p == 0 || stream[p - 1].ld then 0 else Depth(stream, p - 1) + 1
  }

  /** A first mark starts every packet and nothing else. */
  ghost predicate FramedAt(stream: seq<RxDesc>, p: nat)
    requires p < |stream|
  {
    stream[p].fd <==> Depth(stream, p) == 0
  }

  ghost predicate Framed(stream: seq<RxDesc>)
  {
    forall p {:trigger FramedAt(stream, p)} :: 0 <= p < |stream| ==> FramedAt(stream, p)
  }

  /** The packet length covers the buffers before the last one, and lengths stay within the
      15 bits of the status word. */
  ghost predicate SizedAt(stream: seq<RxDesc>, p: nat, buffLen: nat)
    requires p < |stream|
  {
    if stream[p].ld then Before(stream, p, buffLen) <= stream[p].pl < 0x8000
    else Before(stream, p, buffLen) + buffLen < 0x8000
  }

  ghost predicate Sized(stream: seq<RxDesc>, buffLen: nat)
  {
    forall p {:trigger SizedAt(stream, p, buffLen)} :: 0 <= p < |stream| ==> SizedAt(stream, p, buffLen)
  }

  /** How many bytes of the same packet come before position `p`. */
  function Before(stream: seq<RxDesc>, p: nat, buffLen: nat): nat
    requires p <= |stream|
  {
    if p == 0 || stream[p - 1].ld then 0 else Before(stream, p - 1, buffLen) + buffLen
  }

  // ---- the packets of a stream, without the driver ----

  /** The packet under way after the first `taken` positions: whole buffers only. */
  function Rest(stream: seq<RxDesc>, taken: nat, buffLen: nat): (r: seq<Segment>)
    requires taken <= |stream|
    ensures |r| == Depth(stream, taken)
    decreases taken
  {
    if taken == 0 || stream[taken - 1].ld then []
    else Rest(stream, taken - 1, buffLen) + [Segment(stream[taken - 1].buf, buffLen)]
  }

  /** The packet that ends at position `p`; its last buffer holds what is left of its length. */
  ghost function PacketAt(stream: seq<RxDesc>, p: nat, buffLen: nat): seq<Segment>
    requires p < |stream| && SizedAt(stream, p, buffLen) && stream[p].ld
  {
    Rest(stream, p, buffLen) + [Segment(stream[p].buf, stream[p].pl - Before(stream, p, buffLen))]
  }

  /** The complete packets among the first `taken` positions. */
  ghost function Packets(stream: seq<RxDesc>, taken: nat, buffLen: nat): seq<seq<Segment>>
    requires taken <= |stream| && Sized(stream, buffLen)
    decreases taken
  {
    if taken == 0 then []
    else
      assert SizedAt(stream, taken - 1, buffLen);
      Packets(stream, taken - 1, buffLen) + (if stream[taken - 1].ld then [PacketAt(stream, taken - 1, buffLen)] else [])
  }

  lemma LinkStep(k: Link, e: RxDesc, base: nat, buffLen: nat)
    requires (e.fd <==> k.chain == []) && (if e.fd then base == 0 else base == k.dataLen)
    requires if e.ld then base <= e.pl < 0x8000 else base + buffLen < 0x8000
    ensures var len := if e.ld then e.pl - base else buffLen;
            var k' := Consume(k, e, buffLen);
            k'.chain == k.chain + [Segment(e.buf, len)] && k'.dataLen == base + len
  {
  }

  lemma DepthZeroBefore(stream: seq<RxDesc>, p: nat, buffLen: nat)
    requires p <= |stream|
    ensures Depth(stream, p) == 0 ==> Before(stream, p, buffLen) == 0
  {
  }

  /** On a well-formed stream the driver's fold computes exactly the packets of the stream. */
  lemma {:induction false} FoldIsPackets(stream: seq<RxDesc>, taken: nat, buffLen: nat)
    requires taken <= |stream| && Framed(stream) && Sized(stream, buffLen)
    ensures var (k, out) := Fold(stream, taken, buffLen);
            && out == Packets(stream, taken, buffLen)
            && k.chain == Rest(stream, taken, buffLen)
            && (k.chain != [] ==> k.dataLen == Before(stream, taken, buffLen))
    decreases taken
  {
    if taken > 0 {
      var p := taken - 1;
      FoldIsPackets(stream, p, buffLen);
      assert FramedAt(stream, p) && SizedAt(stream, p, buffLen);
      DepthZeroBefore(stream, p, buffLen);
      LinkStep(Fold(stream, p, buffLen).0, stream[p], Before(stream, p, buffLen), buffLen);
    }
  }

  // ---- what the packets of a stream are ----

  function TotalLength(packet: seq<Segment>): nat
  {
    if packet == [] then 0 else TotalLength(packet[..|packet| - 1]) + packet[|packet| - 1].len
  }

  lemma TotalSnoc(packet: seq<Segment>, s: Segment)
    ensures TotalLength(packet + [s]) == TotalLength(packet) + s.len
  {
    assert (packet + [s])[..|packet|] == packet;
  }

  lemma {:induction false} RestLength(stream: seq<RxDesc>, p: nat, buffLen: nat)
    requires p <= |stream|
    ensures TotalLength(Rest(stream, p, buffLen)) == Before(stream, p, buffLen)
    decreases p
  {
    if p > 0 && !stream[p - 1].ld {
      RestLength(stream, p - 1, buffLen);
      TotalSnoc(Rest(stream, p - 1, buffLen), Segment(stream[p - 1].buf, buffLen));
    }
  }

  /** A packet that ends at `p` holds as many bytes as the hardware reported. */
  lemma PacketLength(stream: seq<RxDesc>, p: nat, buffLen: nat)
    requires p < |stream| && stream[p].ld && SizedAt(stream, p, buffLen)
    ensures TotalLength(PacketAt(stream, p, buffLen)) == stream[p].pl
  {
    RestLength(stream, p, buffLen);
    TotalSnoc(Rest(stream, p, buffLen), Segment(stream[p].buf, stream[p].pl - Before(stream, p, buffLen)));
  }

  /** Every packet of the stream ends at a last descriptor and has the length reported there. */
  lemma {:induction false} PacketsSized(stream: seq<RxDesc>, taken: nat, buffLen: nat, j: nat) returns (p: nat)
    requires taken <= |stream| && Sized(stream, buffLen) && j < |Packets(stream, taken, buffLen)|
    ensures p < taken && stream[p].ld && SizedAt(stream, p, buffLen)
    ensures Packets(stream, taken, buffLen)[j] == PacketAt(stream, p, buffLen)
    ensures TotalLength(PacketAt(stream, p, buffLen)) == stream[p].pl
    decreases taken
  {
    if j < |Packets(stream, taken - 1, buffLen)| {
      p := PacketsSized(stream, taken - 1, buffLen, j);
    } else {
      p := taken - 1;
      assert SizedAt(stream, p, buffLen);
      PacketLength(stream, p, buffLen);
    }
  }

  function Filled(stream: seq<RxDesc>): seq<nat>
  {
    seq(|stream|, i requires 0 <= i < |stream| => stream[i].buf)
  }

  lemma BufsSnoc(packet: seq<Segment>, s: Segment)
    ensures BufsOf(packet + [s]) == BufsOf(packet) + [s.buf]
  {
  }

  /** The length of the segment at position `p`. */
  function SegmentLength(stream: seq<RxDesc>, p: nat, buffLen: nat): nat
    requires p < |stream| && (stream[p].ld ==> Before(stream, p, buffLen) <= stream[p].pl)
  {
    if stream[p].ld then stream[p].pl - Before(stream, p, buffLen) else buffLen
  }

  /** One more position either completes the packet under way or extends it. */
  lemma PacketsNext(stream: seq<RxDesc>, p: nat, buffLen: nat)
    requires p < |stream| && Sized(stream, buffLen)
    ensures stream[p].ld ==> Before(stream, p, buffLen) <= stream[p].pl
    ensures var grown := Rest(stream, p, buffLen) + [Segment(stream[p].buf, SegmentLength(stream, p, buffLen))];
            if stream[p].ld then
              Packets(stream, p + 1, buffLen) == Packets(stream, p, buffLen) + [grown] && Rest(stream, p + 1, buffLen) == []
            else
              Packets(stream, p + 1, buffLen) == Packets(stream, p, buffLen) && Rest(stream, p + 1, buffLen) == grown
  {
    assert SizedAt(stream, p, buffLen);
  }

  lemma CompleteCovers(done: seq<seq<Segment>>, rest: seq<Segment>, s: Segment, filled: seq<nat>)
    requires AllBufs(done) + BufsOf(rest) == filled
    ensures AllBufs(done + [rest + [s]]) + BufsOf([]) == filled + [s.buf]
  {
    BufsSnoc(rest, s);
    AllBufsSnoc(done, rest + [s]);
    assert BufsOf([]) == [];
  }

  lemma ExtendCovers(done: seq<seq<Segment>>, rest: seq<Segment>, s: Segment, filled: seq<nat>)
    requires AllBufs(done) + BufsOf(rest) == filled
    ensures AllBufs(done) + BufsOf(rest + [s]) == filled + [s.buf]
  {
    BufsSnoc(rest, s);
  }

  /** The packets, followed by the one under way, hold the filled buffers in ring order. */
  lemma {:induction false} PacketsCover(stream: seq<RxDesc>, taken: nat, buffLen: nat)
    requires taken <= |stream| && Sized(stream, buffLen)
    ensures AllBufs(Packets(stream, taken, buffLen)) + BufsOf(Rest(stream, taken, buffLen)) == Filled(stream)[..taken]
    decreases taken
  {
    if taken > 0 {
      var p := taken - 1;
      PacketsCover(stream, p, buffLen);
      PacketsNext(stream, p, buffLen);
      assert Filled(stream)[..taken] == Filled(stream)[..p] + [stream[p].buf];
      var done, rest := Packets(stream, p, buffLen), Rest(stream, p, buffLen);
      var s := Segment(stream[p].buf, SegmentLength(stream, p, buffLen));
      if stream[p].ld {
        CompleteCovers(done, rest, s, Filled(stream)[..p]);
      } else {
        ExtendCovers(done, rest, s, Filled(stream)[..p]);
      }
    }
  }

  /** Reassembly over every run: if what the DMA wrote is well formed, then the delivered packets are
      the packets of the stream and hold the filled buffers in ring order, whatever the cut into
      read calls and whenever allocation failed. */
  lemma RunReassembles(n: nat, first: seq<nat>, run: seq<Event>, buffLen: nat)
    requires n > 0 && LegalRun(first, run)
    requires var x := After(n, first, run, buffLen); Framed(x.stream) && Sized(x.stream, buffLen)
    ensures var x := After(n, first, run, buffLen);
            && x.taken <= |x.stream|
            && x.delivered == Packets(x.stream, x.taken, buffLen)
            && x.rx.link.chain == Rest(x.stream, x.taken, buffLen)
            && AllBufs(x.delivered) + BufsOf(x.rx.link.chain) == Filled(x.stream)[..x.taken]
  {
    var x := After(n, first, run, buffLen);
    RunFolded(n, first, run, buffLen);
    FoldIsPackets(x.stream, x.taken, buffLen);
    PacketsCover(x.stream, x.taken, buffLen);
  }
}
