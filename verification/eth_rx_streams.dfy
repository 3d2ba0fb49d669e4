/** What the driver makes of every stream of completed descriptors, properly framed or not: where packets begin
    and end, which buffers they hold and how long each is, position by position. */
module EthRxStreams {
  import opened EthRx
  import opened EthRxRuns

  /** A packet is under way before position `p`: a first mark has come and no last mark since. */
  predicate Open(stream: seq<RxDesc>, p: nat)
    requires p <= |stream|
  {
    p > 0 && (stream[p - 1].fd || Open(stream, p - 1)) && !stream[p - 1].ld
  }

  /** The descriptor at `p` starts a packet or continues one. */
  predicate Belongs(stream: seq<RxDesc>, p: nat)
    requires p < |stream|
  {
    stream[p].fd || Open(stream, p)
  }

  /** The descriptors since the latest first mark of the packet under way. */
  function Since(stream: seq<RxDesc>, p: nat): nat
    requires p <= |stream|
  {
    if !Open(stream, p) then 0 else if stream[p - 1].fd then 1 else Since(stream, p - 1) + 1
  }

  /** Their bytes: none of them is the last of its packet, so each is a whole buffer. */
  function Bytes(stream: seq<RxDesc>, p: nat, buffLen: nat): nat
    requires p <= |stream|
  {
    if !Open(stream, p) then 0 else if stream[p - 1].fd then buffLen else Bytes(stream, p - 1, buffLen) + buffLen
  }

  function Base(stream: seq<RxDesc>, p: nat, buffLen: nat): nat
    requires p < |stream|
  {
    if stream[p].fd then 0 else Bytes(stream, p, buffLen)
  }

  /** The buffer at `p` with its length: what is left of the packet length at a last descriptor, in the widths
      of the driver, and a whole buffer anywhere else. */
  function SegmentAt(stream: seq<RxDesc>, p: nat, buffLen: nat): Segment
    requires p < |stream|
  {
    Segment(stream[p].buf, U16(if stream[p].ld then U32(stream[p].pl - Base(stream, p, buffLen)) else buffLen))
  }

  /** The packet under way before position `p`. */
  function UnderWay(stream: seq<RxDesc>, p: nat, buffLen: nat): (r: seq<Segment>)
    requires p <= |stream|
    ensures r != [] <==> Open(stream, p)
  {
    if !Open(stream, p) then [] else UnderWay(stream, p - 1, buffLen) + [SegmentAt(stream, p - 1, buffLen)]
  }

  /** The packets that end before position `p`. */
  function Ended(stream: seq<RxDesc>, p: nat, buffLen: nat): seq<seq<Segment>>
    requires p <= |stream|
  {
    if p == 0 then []
    else
      Ended(stream, p - 1, buffLen) +
      (if Belongs(stream, p - 1) && stream[p - 1].ld
       then [UnderWay(stream, p - 1, buffLen) + [SegmentAt(stream, p - 1, buffLen)]] else [])
  }

  lemma U32Sub(a: int, b: int)
    ensures U32(a - U32(b)) == U32(a - b)
  {
  }

  lemma U32Add(a: int, b: int)
    ensures U32(U32(a) + b) == U32(a + b)
  {
  }

  /** The packet length is what the last descriptor makes of the bytes before it. */
  lemma U32Rest(pl: nat, base: nat)
    ensures U32(base + U32(pl - base)) == U32(pl)
  {
    U32Add(pl - base, base);
  }

  /** One descriptor of a packet of which `base` bytes were counted. */
  lemma ConsumeBase(k: Link, d: RxDesc, base: nat, buffLen: nat)
    requires Links(k, d) && (if d.fd then base == 0 else k.dataLen == U32(base))
    ensures var k' := Consume(k, d, buffLen);
            && k'.chain == k.chain + [Segment(d.buf, U16(if d.ld then U32(d.pl - base) else buffLen))]
            && k'.descCnt == (if d.fd then 0 else k.descCnt) + 1
            && k'.dataLen == if d.ld then U32(d.pl) else U32(base + buffLen)
  {
    U32Sub(d.pl, base);
    var counted := if d.fd then 0 else k.dataLen;
    if d.ld {
      U32Rest(d.pl, counted);
    } else {
      U32Add(base, buffLen);
    }
  }

  /** The counts of the link state: RxDescCnt and RxDataLength. */
  ghost predicate Counts(stream: seq<RxDesc>, p: nat, buffLen: nat, k: Link)
    requires p <= |stream|
  {
    && (Open(stream, p) ==> k.descCnt == Since(stream, p) && k.dataLen == U32(Bytes(stream, p, buffLen)))
    && (p > 0 && Belongs(stream, p - 1) && stream[p - 1].ld ==>
          && k.descCnt == (if stream[p - 1].fd then 0 else Since(stream, p - 1)) + 1
          && k.dataLen == U32(stream[p - 1].pl))
  }

  lemma CountsNext(stream: seq<RxDesc>, p: nat, buffLen: nat, k: Link)
    requires p < |stream| && Belongs(stream, p)
    requires k.descCnt == (if stream[p].fd then 0 else Since(stream, p)) + 1
    requires k.dataLen == if stream[p].ld then U32(stream[p].pl) else U32(Base(stream, p, buffLen) + buffLen)
    ensures Counts(stream, p + 1, buffLen, k)
  {
    assert Open(stream, p + 1) ==> Bytes(stream, p + 1, buffLen) == Base(stream, p, buffLen) + buffLen;
  }

  /** One descriptor read by the driver, in terms of its position. */
  lemma ConsumeAt(stream: seq<RxDesc>, p: nat, buffLen: nat, k: Link)
    requires p < |stream| && Counts(stream, p, buffLen, k) && (k.chain != [] <==> Open(stream, p))
    ensures Links(k, stream[p]) <==> Belongs(stream, p)
    ensures Belongs(stream, p) ==>
              var k' := Consume(k, stream[p], buffLen);
              k'.chain == k.chain + [SegmentAt(stream, p, buffLen)] && Counts(stream, p + 1, buffLen, k')
  {
    if Belongs(stream, p) {
      ConsumeBase(k, stream[p], Base(stream, p, buffLen), buffLen);
      CountsNext(stream, p, buffLen, Consume(k, stream[p], buffLen));
    }
  }

  /** For every stream, the driver's fold is the packets that end and the one under way. */
  lemma {:induction false} FoldIsEnded(stream: seq<RxDesc>, taken: nat, buffLen: nat)
    requires taken <= |stream|
    ensures var (k, out) := Fold(stream, taken, buffLen);
            && out == Ended(stream, taken, buffLen)
            && k.chain == UnderWay(stream, taken, buffLen)
            && Counts(stream, taken, buffLen, k)
    decreases taken
  {
    if taken > 0 {
      FoldIsEnded(stream, taken - 1, buffLen);
      ConsumeAt(stream, taken - 1, buffLen, Fold(stream, taken - 1, buffLen).0);
    }
  }

  /** Over every run, whatever the DMA wrote: what is delivered is exactly what ends in the stream. */
  lemma RunDelivers(n: nat, first: seq<nat>, run: seq<Event>, buffLen: nat)
    requires n > 0 && LegalRun(first, run)
    ensures var x := After(n, first, run, buffLen);
            && x.taken <= |x.stream|
            && x.delivered == Ended(x.stream, x.taken, buffLen)
            && x.rx.link.chain == UnderWay(x.stream, x.taken, buffLen)
            && Counts(x.stream, x.taken, buffLen, x.rx.link)
  {
    RunFolded(n, first, run, buffLen);
    FoldIsEnded(After(n, first, run, buffLen).stream, After(n, first, run, buffLen).taken, buffLen);
  }
}
