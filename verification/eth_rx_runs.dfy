/** Reception over whole runs: every mix of DMA write-backs and read calls, with the
    allocator failing whenever it likes. */
module EthRxRuns {
  import opened RingIndex
  import opened PointerTable
  import opened EthRx

  /** The ring; the descriptors the DMA completed so far, in order, each with the address it
      wrote to (`addr`) and the buffer the driver had attached (`buf`); the status words it put in
      place of the addresses; how many of them were read; the packets delivered; and the buffers the
      allocator handed out. */
  datatype World = World(rx: RxState, stream: seq<RxDesc>, status: seq<nat>, taken: nat,
                         delivered: seq<seq<Segment>>, granted: seq<nat>)

  /** `WriteBack` is the DMA completing the next descriptor of the ring; the status words replace
      the buffer address by `status`. `ReadCall` is a call of HAL_ETH_ReadData during which the
      allocator has the buffers `supply`. */
  datatype Event = WriteBack(fd: bool, ld: bool, pl: nat, status: nat) | ReadCall(supply: seq<nat>)

  ghost predicate NonNull(supply: seq<nat>)
  {
    forall i :: 0 <= i < |supply| ==> supply[i] != 0
  }

  ghost predicate Legal(e: Event)
  {
    e.ReadCall? ==> NonNull(e.supply)
  }

  /** What the allocator gave when `rest` is left of `supply`. */
  function Used(supply: seq<nat>, rest: seq<nat>): seq<nat>
    requires |rest| <= |supply|
  {
    supply[..|supply| - |rest|]
  }

  /** HAL_ETH_Init followed by HAL_ETH_Start_IT. */
  function Start(n: nat, supply: seq<nat>): (x: World)
    requires n > 0
    ensures WellFormed(x.rx) && |x.rx.desc| == n
  {
    var (s, rest) := Update(Blank(n).(buildCnt := n), supply, true);
    World(s, [], [], 0, [], Used(supply, rest))
  }

  function Completed(d: RxDesc, e: Event): RxDesc
    requires e.WriteBack?
  {
    d.(own := false, fd := e.fd, ld := e.ld, pl := e.pl)
  }

  function Step(x: World, e: Event, buffLen: nat): (y: World)
    requires WellFormed(x.rx)
    ensures WellFormed(y.rx) && |y.rx.desc| == |x.rx.desc|
  {
    var s := x.rx;
    match e
    case WriteBack(fd, ld, pl, status) =>
      var i := Slot(|x.stream|, |s.desc|);
      if s.desc[i].own then
        var d := Completed(s.desc[i], e);
        x.(rx := s.(desc := s.desc[i := d.(addr := status)]), stream := x.stream + [d], status := x.status + [status])
      else x
    case ReadCall(supply) =>
      var r := Read(s, supply, true, buffLen);
      var scan := ScanFrom(s.desc, s.link, s.idx, |s.desc| - s.buildCnt, buffLen);
      World(r.state, x.stream, x.status, x.taken + scan.cnt,
            x.delivered + (if r.packet.Some? then [r.packet.value] else []),
            x.granted + Used(supply, r.supply))
  }

  function After(n: nat, first: seq<nat>, run: seq<Event>, buffLen: nat): (x: World)
    requires n > 0
    ensures WellFormed(x.rx) && |x.rx.desc| == n
  {
    if run == [] then Start(n, first)
    else Step(After(n, first, run[..|run| - 1], buffLen), run[|run| - 1], buffLen)
  }

  ghost predicate LegalRun(first: seq<nat>, run: seq<Event>)
  {
    NonNull(first) && forall i {:trigger run[i]} :: 0 <= i < |run| ==> Legal(run[i])
  }

  // ---- where everything is around the ring ----

  /** `d` holds the completed descriptor `e` of the stream, with its buffer still attached. */
  ghost predicate Done(d: RxDesc, e: RxDesc)
  {
    !d.own && (d.fd, d.ld, d.pl, d.buf) == (e.fd, e.ld, e.pl, e.buf) && d.buf != 0
  }

  /** Going round from slot `idx`: the completed descriptors not yet read, those the DMA owns,
      and `build` descriptors waiting to be rebuilt. */
  ghost predicate Layout(desc: seq<RxDesc>, idx: nat, stream: seq<RxDesc>, taken: nat, build: nat)
  {
    && idx < |desc| && build <= |desc|
    && taken <= |stream| <= taken + |desc| - build
    && forall k {:trigger At(idx, k, |desc|)} :: 0 <= k < |desc| ==>
         var d := desc[At(idx, k, |desc|)];
         if taken + k < |stream| then Done(d, stream[taken + k])
         else if k < |desc| - build then d.own && d.buf != 0
         else !d.own
  }

  /** One descriptor is read. */
  lemma LayoutRead(desc: seq<RxDesc>, idx: nat, stream: seq<RxDesc>, taken: nat, build: nat, d: RxDesc)
    requires Layout(desc, idx, stream, taken, build) && taken < |stream| && !d.own
    ensures Layout(desc[idx := d], Next(idx, |desc|), stream, taken + 1, build + 1)
  {
    var n, next, desc' := |desc|, Next(idx, |desc|), desc[idx := d];
    forall k {:trigger At(next, k, n)} | 0 <= k < n
      ensures var d' := desc'[At(next, k, n)];
              if taken + 1 + k < |stream| then Done(d', stream[taken + 1 + k])
              else if k < n - (build + 1) then d'.own && d'.buf != 0
              else !d'.own
    {
      if k < n - 1 {
        assert At(next, k, n) == At(idx, k + 1, n) != idx;
      }
    }
  }

  /** One descriptor is rebuilt. */
  lemma LayoutBuild(desc: seq<RxDesc>, idx: nat, stream: seq<RxDesc>, taken: nat, build: nat, b: nat, d: RxDesc)
    requires Layout(desc, idx, stream, taken, build) && build > 0 && b < |desc| && At(b, build, |desc|) == idx
    requires d.own && d.buf != 0
    ensures Layout(desc[b := d], idx, stream, taken, build - 1) && At(Next(b, |desc|), build - 1, |desc|) == idx
  {
    AtMeetsDist(idx, |desc| - build, |desc|);
  }

  /** One descriptor is completed. */
  lemma LayoutWrite(desc: seq<RxDesc>, idx: nat, stream: seq<RxDesc>, taken: nat, build: nat, i: nat, e: RxDesc, d: RxDesc)
    requires Layout(desc, idx, stream, taken, build) && |stream| < taken + |desc|
    requires i == At(idx, |stream| - taken, |desc|) && desc[i].own && Done(d, e)
    ensures Layout(desc[i := d], idx, stream + [e], taken, build)
  {
    AtMeetsDist(idx, |stream| - taken, |desc|);
  }

  // ---- the link state is a fold over the stream ----

  /** The link state and the packets put together from the first `taken` descriptors. */
  function Fold(stream: seq<RxDesc>, taken: nat, buffLen: nat): (Link, seq<seq<Segment>>)
    requires taken <= |stream|
    decreases taken
  {
    if taken == 0 then (EMPTY_LINK, [])
    else
      var e := stream[taken - 1];
      var (k, out) := Fold(stream, taken - 1, buffLen);
      var k' := Consume(k, e, buffLen);
      if Completes(k, e) then (k'.(chain := []), out + [k'.chain]) else (k', out)
  }

  /** Reading `d`, which holds the next descriptor of the stream, advances the fold. */
  lemma FoldNext(stream: seq<RxDesc>, taken: nat, buffLen: nat, link: Link, out: seq<seq<Segment>>, d: RxDesc)
    requires taken < |stream| && Fold(stream, taken, buffLen) == (link, out) && Done(d, stream[taken])
    ensures var link' := Consume(link, d, buffLen);
            Fold(stream, taken + 1, buffLen) ==
            if Completes(link, d) then (link'.(chain := []), out + [link'.chain]) else (link', out)
  {
  }

  lemma {:induction false} FoldPrefix(stream: seq<RxDesc>, taken: nat, e: RxDesc, buffLen: nat)
    requires taken <= |stream|
    ensures Fold(stream + [e], taken, buffLen) == Fold(stream, taken, buffLen)
    decreases taken
  {
    if taken > 0 {
      FoldPrefix(stream, taken - 1, e, buffLen);
    }
  }

  lemma LayoutHead(desc: seq<RxDesc>, idx: nat, stream: seq<RxDesc>, taken: nat, build: nat)
    requires Layout(desc, idx, stream, taken, build)
    ensures if taken < |stream| then Done(desc[idx], stream[taken]) && build < |desc| else desc[idx].own || build == |desc|
  {
    assert desc[idx] == desc[At(idx, 0, |desc|)];
  }

  /** The read loop takes completed descriptors off the front and stops only at the end of a
      packet or when none is left. */
  lemma {:induction false} ScanKeeps(desc: seq<RxDesc>, link: Link, idx: nat, stream: seq<RxDesc>, taken: nat, build: nat, buffLen: nat)
    requires Layout(desc, idx, stream, taken, build)
    ensures var r := ScanFrom(desc, link, idx, |desc| - build, buffLen);
            Layout(r.desc, r.idx, stream, taken + r.cnt, build + r.cnt) && (!r.ready ==> taken + r.cnt == |stream|)
    decreases |desc| - build
  {
    LayoutHead(desc, idx, stream, taken, build);
    var d := desc[idx];
    if !d.own && build < |desc| {
      assert Layout(desc[idx := Detached(link, d)], Next(idx, |desc|), stream, taken + 1, build + 1) by {
        LayoutRead(desc, idx, stream, taken, build, Detached(link, d));
      }
      if !Completes(link, d) {
        ScanKeeps(desc[idx := Detached(link, d)], Consume(link, d, buffLen), Next(idx, |desc|), stream, taken + 1, build + 1, buffLen);
      }
    }
  }

  lemma {:induction false} ScanIndex(desc: seq<RxDesc>, link: Link, idx: nat, left: nat, buffLen: nat)
    requires idx < |desc| && left <= |desc|
    ensures var r := ScanFrom(desc, link, idx, left, buffLen);
            r.idx == At(idx, r.cnt, |desc|)
    decreases left
  {
    var d := desc[idx];
    if !d.own && left > 0 && !Completes(link, d) {
      ScanIndex(desc[idx := Detached(link, d)], Consume(link, d, buffLen), Next(idx, |desc|), left - 1, buffLen);
    }
  }

  /** The read loop advances the fold by what it takes. */
  lemma {:induction false} ScanFolds(desc: seq<RxDesc>, link: Link, idx: nat, stream: seq<RxDesc>, taken: nat, build: nat, buffLen: nat,
                                     out: seq<seq<Segment>>)
    requires Layout(desc, idx, stream, taken, build) && Fold(stream, taken, buffLen) == (link, out)
    ensures var r := ScanFrom(desc, link, idx, |desc| - build, buffLen);
            && taken + r.cnt <= |stream|
            && Fold(stream, taken + r.cnt, buffLen) ==
               if r.ready then (r.link.(chain := []), out + [r.link.chain]) else (r.link, out)
    decreases |desc| - build
  {
    LayoutHead(desc, idx, stream, taken, build);
    var d := desc[idx];
    if !d.own && build < |desc| {
      LayoutRead(desc, idx, stream, taken, build, Detached(link, d));
      FoldNext(stream, taken, buffLen, link, out, d);
      if !Completes(link, d) {
        ScanFolds(desc[idx := Detached(link, d)], Consume(link, d, buffLen), Next(idx, |desc|), stream, taken + 1, build + 1, buffLen, out);
      }
    }
  }

  lemma {:induction false} BuildKeeps(desc: seq<RxDesc>, b: nat, build: nat, supply: seq<nat>, it: bool, idx: nat, stream: seq<RxDesc>, taken: nat)
    requires Layout(desc, idx, stream, taken, build) && b < |desc| && At(b, build, |desc|) == idx && NonNull(supply)
    ensures var r := BuildFrom(desc, b, build, supply, it);
            && Layout(r.desc, idx, stream, taken, r.cnt)
            && At(r.idx, r.cnt, |desc|) == idx
    decreases build
  {
    if build > 0 && !(desc[b].buf == 0 && supply == []) {
      var attached := if desc[b].buf == 0 then desc[b].(buf := supply[0], addr := supply[0]) else desc[b];
      LayoutBuild(desc, idx, stream, taken, build, b, Armed(attached, it));
      BuildKeeps(desc[b := Armed(attached, it)], Next(b, |desc|), build - 1,
                 if desc[b].buf == 0 then supply[1..] else supply, it, idx, stream, taken);
    }
  }

  // ---- every buffer is in one place ----

  function Attached(desc: seq<RxDesc>): (t: seq<nat>)
    ensures |t| == |desc|
  {
    seq(|desc|, i requires 0 <= i < |desc| => desc[i].buf)
  }

  function BufsOf(packet: seq<Segment>): seq<nat>
  {
    seq(|packet|, i requires 0 <= i < |packet| => packet[i].buf)
  }

  function AllBufs(packets: seq<seq<Segment>>): seq<nat>
  {
    if packets == [] then [] else AllBufs(packets[..|packets| - 1]) + BufsOf(packets[|packets| - 1])
  }

  lemma AllBufsSnoc(packets: seq<seq<Segment>>, packet: seq<Segment>)
    ensures AllBufs(packets + [packet]) == AllBufs(packets) + BufsOf(packet)
  {
    assert (packets + [packet])[..|packets|] == packets;
  }

  lemma AttachedUpdate(desc: seq<RxDesc>, i: nat, d: RxDesc)
    requires i < |desc|
    ensures Attached(desc[i := d]) == Attached(desc)[i := d.buf]
  {
  }

  /** Reading one descriptor moves its buffer to the packet, or nothing. */
  lemma TakeConserves(desc: seq<RxDesc>, link: Link, idx: nat, buffLen: nat)
    requires idx < |desc| && desc[idx].buf != 0
    ensures InTable(Attached(desc[idx := Detached(link, desc[idx])])) + multiset(BufsOf(Consume(link, desc[idx], buffLen).chain)) ==
            InTable(Attached(desc)) + multiset(BufsOf(link.chain))
  {
    var d := desc[idx];
    AttachedUpdate(desc, idx, Detached(link, d));
    if Links(link, d) {
      InTableUpdate(Attached(desc), idx, 0);
      assert BufsOf(Consume(link, d, buffLen).chain) == BufsOf(link.chain) + [d.buf];
    } else {
      assert desc[idx := d] == desc;
    }
  }

  lemma {:induction false} ScanConserves(desc: seq<RxDesc>, link: Link, idx: nat, stream: seq<RxDesc>, taken: nat, build: nat, buffLen: nat)
    requires Layout(desc, idx, stream, taken, build)
    ensures var r := ScanFrom(desc, link, idx, |desc| - build, buffLen);
            InTable(Attached(r.desc)) + multiset(BufsOf(r.link.chain)) == InTable(Attached(desc)) + multiset(BufsOf(link.chain))
    decreases |desc| - build
  {
    LayoutHead(desc, idx, stream, taken, build);
    var d := desc[idx];
    if !d.own && build < |desc| {
      LayoutRead(desc, idx, stream, taken, build, Detached(link, d));
      TakeConserves(desc, link, idx, buffLen);
      if !Completes(link, d) {
        ScanConserves(desc[idx := Detached(link, d)], Consume(link, d, buffLen), Next(idx, |desc|), stream, taken + 1, build + 1, buffLen);
      }
    }
  }

  lemma UsedStep(supply: seq<nat>, rest: seq<nat>)
    requires |rest| < |supply|
    ensures Used(supply, rest) == [supply[0]] + Used(supply[1..], rest)
  {
    assert supply == [supply[0]] + supply[1..];
  }

  /** Attaching a fresh buffer. */
  lemma AttachConserves(desc: seq<RxDesc>, b: nat, p: nat, it: bool)
    requires b < |desc| && desc[b].buf == 0 && p != 0
    ensures InTable(Attached(desc[b := Armed(desc[b].(buf := p, addr := p), it)])) == InTable(Attached(desc)) + multiset{p}
  {
    AttachedUpdate(desc, b, Armed(desc[b].(buf := p, addr := p), it));
    InTableUpdate(Attached(desc), b, p);
  }

  lemma AttachFirst(desc: seq<RxDesc>, b: nat, p: nat, it: bool, used: seq<nat>, end: multiset<nat>)
    requires b < |desc| && desc[b].buf == 0 && p != 0
    requires end == InTable(Attached(desc[b := Armed(desc[b].(buf := p, addr := p), it)])) + multiset(used)
    ensures end == InTable(Attached(desc)) + multiset([p] + used)
  {
    AttachConserves(desc, b, p, it);
    GiveIn(InTable(Attached(desc)), p, InTable(Attached(desc[b := Armed(desc[b].(buf := p, addr := p), it)])), used, end);
  }

  lemma RearmKeepsAttached(desc: seq<RxDesc>, b: nat, it: bool)
    requires b < |desc|
    ensures Attached(desc[b := Armed(desc[b], it)]) == Attached(desc)
  {
    AttachedUpdate(desc, b, Armed(desc[b], it));
  }

  lemma {:induction false} BuildConserves(desc: seq<RxDesc>, b: nat, build: nat, supply: seq<nat>, it: bool)
    requires b < |desc| && NonNull(supply)
    ensures var r := BuildFrom(desc, b, build, supply, it);
            InTable(Attached(r.desc)) == InTable(Attached(desc)) + multiset(Used(supply, r.supply))
    decreases build
  {
    if build == 0 || (desc[b].buf == 0 && supply == []) {
      assert Used(supply, supply) == [];
    } else if desc[b].buf == 0 {
      var p := supply[0];
      var desc1 := desc[b := Armed(desc[b].(buf := p, addr := p), it)];
      BuildConserves(desc1, Next(b, |desc|), build - 1, supply[1..], it);
      var r := BuildFrom(desc1, Next(b, |desc|), build - 1, supply[1..], it);
      UsedStep(supply, r.supply);
      AttachFirst(desc, b, p, it, Used(supply[1..], r.supply), InTable(Attached(r.desc)));
    } else {
      RearmKeepsAttached(desc, b, it);
      BuildConserves(desc[b := Armed(desc[b], it)], Next(b, |desc|), build - 1, supply, it);
    }
  }

  /** The buffers attached to descriptors, linked into the packet under way, and delivered. */
  ghost function Holdings(desc: seq<RxDesc>, chain: seq<Segment>, delivered: seq<seq<Segment>>): multiset<nat>
  {
    InTable(Attached(desc)) + multiset(BufsOf(chain)) + multiset(AllBufs(delivered))
  }

  lemma DeliverConserves(desc: seq<RxDesc>, chain: seq<Segment>, delivered: seq<seq<Segment>>)
    ensures Holdings(desc, [], delivered + [chain]) == Holdings(desc, chain, delivered)
  {
    AllBufsSnoc(delivered, chain);
    assert BufsOf([]) == [];
  }

  // ---- the invariant ----

  /** The indices agree with the counts and with where everything is. */
  ghost predicate Placed(x: World)
  {
    && WellFormed(x.rx)
    && Layout(x.rx.desc, x.rx.idx, x.stream, x.taken, x.rx.buildCnt)
    && At(x.rx.buildIdx, x.rx.buildCnt, |x.rx.desc|) == x.rx.idx
    && x.rx.idx == Slot(x.taken, |x.rx.desc|)
  }

  /** What was delivered, and what is linked so far, is the fold of what was read. */
  ghost predicate Folded(x: World, buffLen: nat)
  {
    x.taken <= |x.stream| && Fold(x.stream, x.taken, buffLen) == (x.rx.link, x.delivered)
  }

  /** Every buffer handed out is in exactly one place. */
  ghost predicate Conserved(x: World)
  {
    multiset(x.granted) == Holdings(x.rx.desc, x.rx.link.chain, x.delivered)
  }

  lemma StartPlaced(n: nat, supply: seq<nat>)
    requires n > 0 && NonNull(supply)
    ensures Placed(Start(n, supply))
  {
    BuildKeeps(Blank(n).desc, 0, n, supply, true, 0, [], 0);
  }

  lemma StartConserved(n: nat, supply: seq<nat>)
    requires n > 0 && NonNull(supply)
    ensures Conserved(Start(n, supply))
  {
    var desc := Blank(n).desc;
    BuildConserves(desc, 0, n, supply, true);
    assert forall x :: x in Attached(desc) ==> x == 0;
    assert InTable(Attached(desc)) == multiset{};
  }

  lemma WriteBackKeeps(x: World, e: Event, buffLen: nat)
    requires Placed(x) && e.WriteBack?
    ensures Placed(Step(x, e, buffLen))
    ensures Conserved(x) ==> Conserved(Step(x, e, buffLen))
  {
    var s, w := x.rx, |x.stream|;
    var i := Slot(w, |s.desc|);
    SlotAdd(x.taken, w - x.taken, |s.desc|);
    LayoutHead(s.desc, s.idx, x.stream, x.taken, s.buildCnt);
    if s.desc[i].own {
      var d := Completed(s.desc[i], e);
      LayoutWrite(s.desc, s.idx, x.stream, x.taken, s.buildCnt, i, d, d.(addr := e.status));
      AttachedUpdate(s.desc, i, d.(addr := e.status));
      assert Attached(s.desc)[i := d.buf] == Attached(s.desc);
    }
  }

  lemma WriteBackFolded(x: World, e: Event, buffLen: nat)
    requires WellFormed(x.rx) && Folded(x, buffLen) && e.WriteBack?
    ensures Folded(Step(x, e, buffLen), buffLen)
  {
    FoldPrefix(x.stream, x.taken, Completed(x.rx.desc[Slot(|x.stream|, |x.rx.desc|)], e), buffLen);
  }

  // ---- a read call ----

  /** The outcome of a read call in terms of its two loops. */
  function Outcome(x: World, scan: Scan, b: Build, supply: seq<nat>): World
    requires |b.supply| <= |supply|
  {
    World(RxState(b.desc, scan.idx, b.idx, b.cnt, if scan.ready then scan.link.(chain := []) else scan.link),
          x.stream, x.status, x.taken + scan.cnt,
          x.delivered + (if scan.ready then [scan.link.chain] else []),
          x.granted + Used(supply, b.supply))
  }

  function ScanOf(x: World, buffLen: nat): (r: Scan)
    requires WellFormed(x.rx)
    ensures |r.desc| == |x.rx.desc| && r.idx < |r.desc| && x.rx.buildCnt + r.cnt <= |r.desc|
  {
    ScanFrom(x.rx.desc, x.rx.link, x.rx.idx, |x.rx.desc| - x.rx.buildCnt, buffLen)
  }

  function BuildOf(x: World, scan: Scan, supply: seq<nat>): (b: Build)
    requires WellFormed(x.rx) && |scan.desc| == |x.rx.desc|
    ensures |b.supply| <= |supply|
  {
    BuildFrom(scan.desc, x.rx.buildIdx, x.rx.buildCnt + scan.cnt, supply, true)
  }

  lemma StepReads(x: World, supply: seq<nat>, buffLen: nat)
    requires WellFormed(x.rx)
    ensures var scan := ScanOf(x, buffLen);
            Step(x, ReadCall(supply), buffLen) == Outcome(x, scan, BuildOf(x, scan, supply), supply)
  {
  }

  lemma OutcomePlaced(x: World, scan: Scan, b: Build, supply: seq<nat>)
    requires Placed(x) && |b.supply| <= |supply| && |b.desc| == |x.rx.desc| && b.idx < |b.desc|
    requires scan.cnt <= |x.rx.desc| && scan.idx == At(x.rx.idx, scan.cnt, |x.rx.desc|)
    requires Layout(b.desc, scan.idx, x.stream, x.taken + scan.cnt, b.cnt)
    requires At(b.idx, b.cnt, |b.desc|) == scan.idx
    ensures Placed(Outcome(x, scan, b, supply))
  {
    SlotAdd(x.taken, scan.cnt, |x.rx.desc|);
  }

  lemma ScanIndices(x: World, buffLen: nat)
    requires WellFormed(x.rx) && At(x.rx.buildIdx, x.rx.buildCnt, |x.rx.desc|) == x.rx.idx
    ensures var scan := ScanOf(x, buffLen);
            && scan.idx == At(x.rx.idx, scan.cnt, |x.rx.desc|)
            && At(x.rx.buildIdx, x.rx.buildCnt + scan.cnt, |x.rx.desc|) == scan.idx
  {
    ScanIndex(x.rx.desc, x.rx.link, x.rx.idx, |x.rx.desc| - x.rx.buildCnt, buffLen);
    AtAt(x.rx.buildIdx, x.rx.buildCnt, ScanOf(x, buffLen).cnt, |x.rx.desc|);
  }

  lemma ScanPlaced(x: World, buffLen: nat)
    requires Placed(x)
    ensures var scan := ScanOf(x, buffLen);
            && Layout(scan.desc, scan.idx, x.stream, x.taken + scan.cnt, x.rx.buildCnt + scan.cnt)
            && scan.idx == At(x.rx.idx, scan.cnt, |x.rx.desc|)
            && At(x.rx.buildIdx, x.rx.buildCnt + scan.cnt, |x.rx.desc|) == scan.idx
  {
    ScanKeeps(x.rx.desc, x.rx.link, x.rx.idx, x.stream, x.taken, x.rx.buildCnt, buffLen);
    ScanIndices(x, buffLen);
  }

  lemma BuildPlaced(x: World, scan: Scan, supply: seq<nat>)
    requires WellFormed(x.rx) && |scan.desc| == |x.rx.desc| && NonNull(supply)
    requires Layout(scan.desc, scan.idx, x.stream, x.taken + scan.cnt, x.rx.buildCnt + scan.cnt)
    requires At(x.rx.buildIdx, x.rx.buildCnt + scan.cnt, |x.rx.desc|) == scan.idx
    ensures var b := BuildOf(x, scan, supply);
            && |b.desc| == |x.rx.desc| && b.idx < |b.desc|
            && Layout(b.desc, scan.idx, x.stream, x.taken + scan.cnt, b.cnt)
            && At(b.idx, b.cnt, |b.desc|) == scan.idx
  {
    BuildKeeps(scan.desc, x.rx.buildIdx, x.rx.buildCnt + scan.cnt, supply, true, scan.idx, x.stream, x.taken + scan.cnt);
  }

  lemma ReadPlaced(x: World, supply: seq<nat>, buffLen: nat)
    requires Placed(x) && NonNull(supply)
    ensures Placed(Step(x, ReadCall(supply), buffLen))
  {
    StepReads(x, supply, buffLen);
    ScanPlaced(x, buffLen);
    var scan := ScanOf(x, buffLen);
    BuildPlaced(x, scan, supply);
    OutcomePlaced(x, scan, BuildOf(x, scan, supply), supply);
  }

  lemma ReadFolded(x: World, supply: seq<nat>, buffLen: nat)
    requires Placed(x) && Folded(x, buffLen)
    ensures Folded(Step(x, ReadCall(supply), buffLen), buffLen)
  {
    StepReads(x, supply, buffLen);
    assert x.delivered + [] == x.delivered;
    ScanFolds(x.rx.desc, x.rx.link, x.rx.idx, x.stream, x.taken, x.rx.buildCnt, buffLen, x.delivered);
  }

  lemma OutcomeConserved(x: World, scan: Scan, b: Build, supply: seq<nat>)
    requires Conserved(x) && |b.supply| <= |supply|
    requires InTable(Attached(scan.desc)) + multiset(BufsOf(scan.link.chain)) ==
             InTable(Attached(x.rx.desc)) + multiset(BufsOf(x.rx.link.chain))
    requires InTable(Attached(b.desc)) == InTable(Attached(scan.desc)) + multiset(Used(supply, b.supply))
    ensures Conserved(Outcome(x, scan, b, supply))
  {
    DeliverConserves(b.desc, scan.link.chain, x.delivered);
    assert x.delivered + [] == x.delivered;
    assert multiset(x.granted + Used(supply, b.supply)) == Holdings(b.desc, scan.link.chain, x.delivered);
  }

  lemma ScanConserved(x: World, buffLen: nat)
    requires Placed(x)
    ensures var scan := ScanOf(x, buffLen);
            InTable(Attached(scan.desc)) + multiset(BufsOf(scan.link.chain)) ==
            InTable(Attached(x.rx.desc)) + multiset(BufsOf(x.rx.link.chain))
  {
    ScanConserves(x.rx.desc, x.rx.link, x.rx.idx, x.stream, x.taken, x.rx.buildCnt, buffLen);
  }

  lemma BuildConserved(x: World, scan: Scan, supply: seq<nat>)
    requires WellFormed(x.rx) && |scan.desc| == |x.rx.desc| && NonNull(supply)
    ensures var b := BuildOf(x, scan, supply);
            InTable(Attached(b.desc)) == InTable(Attached(scan.desc)) + multiset(Used(supply, b.supply))
  {
    BuildConserves(scan.desc, x.rx.buildIdx, x.rx.buildCnt + scan.cnt, supply, true);
  }

  lemma ReadConserved(x: World, supply: seq<nat>, buffLen: nat)
    requires Placed(x) && Conserved(x) && NonNull(supply)
    ensures Conserved(Step(x, ReadCall(supply), buffLen))
  {
    StepReads(x, supply, buffLen);
    var scan := ScanOf(x, buffLen);
    ScanConserved(x, buffLen);
    BuildConserved(x, scan, supply);
    OutcomeConserved(x, scan, BuildOf(x, scan, supply), supply);
  }

  // ---- theorems over every run ----

  /** Ownership: over every run the build window ends at the read index and is CPU-owned, every
      descriptor outside it has a buffer, and what the DMA completed waits in ring order. */
  lemma {:induction false} RunPlaced(n: nat, first: seq<nat>, run: seq<Event>, buffLen: nat)
    requires n > 0 && LegalRun(first, run)
    ensures Placed(After(n, first, run, buffLen))
  {
    if run == [] {
      StartPlaced(n, first);
    } else {
      RunPlaced(n, first, run[..|run| - 1], buffLen);
      var x, e := After(n, first, run[..|run| - 1], buffLen), run[|run| - 1];
      match e
      case WriteBack(_, _, _, _) => WriteBackKeeps(x, e, buffLen);
      case ReadCall(supply) => ReadPlaced(x, supply, buffLen);
    }
  }

  /** The indices over every run: RxBuildDescIdx and RxBuildDescCnt meet RxDescIdx, which counts the descriptors read. */
  lemma RunIndices(n: nat, first: seq<nat>, run: seq<Event>, buffLen: nat)
    requires n > 0 && LegalRun(first, run)
    ensures var x := After(n, first, run, buffLen);
            x.rx.buildCnt <= n && (x.rx.buildIdx + x.rx.buildCnt) % n == x.rx.idx && x.taken % n == x.rx.idx
  {
    var x := After(n, first, run, buffLen);
    RunPlaced(n, first, run, buffLen);
    SlotAdd(x.rx.buildIdx, x.rx.buildCnt, n);
    SlotIsMod(x.rx.buildIdx + x.rx.buildCnt, n);
    SlotIsMod(x.taken, n);
  }

  /** Over every run the delivered packets, and the one under way, are the fold of the descriptors
      the DMA completed and the driver read, however the reads were cut into calls. */
  lemma {:induction false} RunFolded(n: nat, first: seq<nat>, run: seq<Event>, buffLen: nat)
    requires n > 0 && LegalRun(first, run)
    ensures Folded(After(n, first, run, buffLen), buffLen)
  {
    if run != [] {
      RunFolded(n, first, run[..|run| - 1], buffLen);
      RunPlaced(n, first, run[..|run| - 1], buffLen);
      var x, e := After(n, first, run[..|run| - 1], buffLen), run[|run| - 1];
      match e
      case WriteBack(_, _, _, _) => WriteBackFolded(x, e, buffLen);
      case ReadCall(supply) => ReadFolded(x, supply, buffLen);
    }
  }

  /** Over every run each buffer the allocator handed out is attached to one descriptor, linked
      into the packet under way, or delivered: none is lost and none is in two places. */
  lemma {:induction false} RunConserved(n: nat, first: seq<nat>, run: seq<Event>, buffLen: nat)
    requires n > 0 && LegalRun(first, run)
    ensures Conserved(After(n, first, run, buffLen))
  {
    if run == [] {
      StartConserved(n, first);
    } else {
      RunConserved(n, first, run[..|run| - 1], buffLen);
      RunPlaced(n, first, run[..|run| - 1], buffLen);
      var x, e := After(n, first, run[..|run| - 1], buffLen), run[|run| - 1];
      match e
      case WriteBack(_, _, _, _) => WriteBackKeeps(x, e, buffLen);
      case ReadCall(supply) => ReadConserved(x, supply, buffLen);
    }
  }

  /** A read call that delivers nothing has read every completed descriptor. */
  lemma ReadDrains(x: World, supply: seq<nat>, buffLen: nat)
    requires Placed(x)
    ensures var y := Step(x, ReadCall(supply), buffLen);
            y.delivered == x.delivered ==> y.taken == |y.stream|
  {
    StepReads(x, supply, buffLen);
    ScanKeeps(x.rx.desc, x.rx.link, x.rx.idx, x.stream, x.taken, x.rx.buildCnt, buffLen);
  }
}
