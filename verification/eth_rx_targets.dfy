/** Where the DMA writes: a descriptor that is rebuilt gets the address of a fresh buffer, but one that
    was read without belonging to a packet keeps its buffer and is handed back with the status word
    of its last completion as its address. */
module EthRxTargets {
  import opened RingIndex
  import opened EthRx
  import opened EthRxRuns
  import opened EthRxPackets

  /** The descriptor read at position `p` belonged to a packet. */
  ghost predicate LinkedAt(stream: seq<RxDesc>, p: nat, buffLen: nat)
    requires p < |stream|
  {
    Links(Fold(stream, p, buffLen).0, stream[p])
  }

  /** What position `q` of the stream points to: its slot was last read at `q - n`, a turn earlier. */
  ghost predicate Target(d: RxDesc, q: nat, n: nat, stream: seq<RxDesc>, status: seq<nat>, buffLen: nat)
    requires q < |stream| + n && |status| == |stream|
  {
    if q < n || LinkedAt(stream, q - n, buffLen) then d.addr == d.buf
    else d.addr == status[q - n] && d.buf == stream[q - n].buf
  }

  /** A descriptor that waits to be rebuilt for position `q`. */
  ghost predicate Waits(d: RxDesc, q: nat, n: nat, stream: seq<RxDesc>, status: seq<nat>, buffLen: nat)
    requires q < |stream| + n && |status| == |stream|
  {
    if q < n || LinkedAt(stream, q - n, buffLen) then d.buf == 0
    else d.addr == status[q - n] && d.buf == stream[q - n].buf
  }

  /** The slot `k` places after the read index. */
  ghost predicate Aim(d: RxDesc, k: nat, n: nat, stream: seq<RxDesc>, status: seq<nat>, taken: nat, build: nat, buffLen: nat)
    requires k < n && build <= n && taken <= |stream| <= taken + n - build && |status| == |stream|
  {
    if taken + k < |stream| then d.addr == status[taken + k]
    else if k < n - build then Target(d, taken + k, n, stream, status, buffLen)
    else Waits(d, taken + k, n, stream, status, buffLen)
  }

  ghost predicate AimAt(desc: seq<RxDesc>, idx: nat, k: nat, stream: seq<RxDesc>, status: seq<nat>, taken: nat, build: nat, buffLen: nat)
    requires idx < |desc| && k < |desc| && build <= |desc| && taken <= |stream| <= taken + |desc| - build && |status| == |stream|
  {
    Aim(desc[At(idx, k, |desc|)], k, |desc|, stream, status, taken, build, buffLen)
  }

  ghost predicate Aims(desc: seq<RxDesc>, idx: nat, stream: seq<RxDesc>, status: seq<nat>, taken: nat, build: nat, buffLen: nat)
  {
    && idx < |desc| && build <= |desc| && taken <= |stream| <= taken + |desc| - build && |status| == |stream|
    && forall k: nat {:trigger AimAt(desc, idx, k, stream, status, taken, build, buffLen)} :: k < |desc| ==>
         AimAt(desc, idx, k, stream, status, taken, build, buffLen)
  }

  /** Every completed descriptor had a buffer and was aimed as its position says. */
  ghost predicate Recorded(stream: seq<RxDesc>, status: seq<nat>, n: nat, buffLen: nat)
  {
    && |status| == |stream|
    && forall q: nat {:trigger stream[q]} :: q < |stream| ==>
         stream[q].buf != 0 && Target(stream[q], q, n, stream, status, buffLen)
  }

  ghost predicate TargetInv(x: World, buffLen: nat)
  {
    && WellFormed(x.rx)
    && Aims(x.rx.desc, x.rx.idx, x.stream, x.status, x.taken, x.rx.buildCnt, buffLen)
    && Recorded(x.stream, x.status, |x.rx.desc|, buffLen)
  }

  // ---- reading ----

  lemma AimsRead(desc: seq<RxDesc>, idx: nat, stream: seq<RxDesc>, status: seq<nat>, taken: nat, build: nat, buffLen: nat, d: RxDesc)
    requires Aims(desc, idx, stream, status, taken, build, buffLen) && taken < |stream| && build < |desc|
    requires Waits(d, taken + |desc|, |desc|, stream, status, buffLen)
    ensures Aims(desc[idx := d], Next(idx, |desc|), stream, status, taken + 1, build + 1, buffLen)
  {
    var n, next, desc', taken', build' := |desc|, Next(idx, |desc|), desc[idx := d], taken + 1, build + 1;
    forall k: nat | k < n
      ensures AimAt(desc', next, k, stream, status, taken', build', buffLen)
    {
      if k < n - 1 {
        assert AimAt(desc, idx, k + 1, stream, status, taken, build, buffLen);
        assert At(next, k, n) == At(idx, k + 1, n) != idx;
      }
    }
  }

  /** What is read waits to be rebuilt: without its buffer if it was linked, with it and the status word if not. */
  lemma ReadWaits(d: RxDesc, link: Link, stream: seq<RxDesc>, status: seq<nat>, taken: nat, n: nat, buffLen: nat)
    requires taken < |stream| == |status| && Fold(stream, taken, buffLen).0 == link
    requires Done(d, stream[taken]) && d.addr == status[taken]
    ensures Waits(Detached(link, d), taken + n, n, stream, status, buffLen)
  {
  }

  lemma AimsHead(desc: seq<RxDesc>, idx: nat, stream: seq<RxDesc>, status: seq<nat>, taken: nat, build: nat, buffLen: nat)
    requires Aims(desc, idx, stream, status, taken, build, buffLen) && taken < |stream|
    ensures desc[idx].addr == status[taken]
  {
    assert AimAt(desc, idx, 0, stream, status, taken, build, buffLen);
  }

  /** One descriptor is read. */
  lemma ReadAims(desc: seq<RxDesc>, link: Link, idx: nat, stream: seq<RxDesc>, status: seq<nat>, taken: nat, build: nat, buffLen: nat)
    requires Aims(desc, idx, stream, status, taken, build, buffLen) && taken < |stream| && build < |desc|
    requires Fold(stream, taken, buffLen).0 == link && Done(desc[idx], stream[taken])
    ensures Aims(desc[idx := Detached(link, desc[idx])], Next(idx, |desc|), stream, status, taken + 1, build + 1, buffLen)
  {
    AimsHead(desc, idx, stream, status, taken, build, buffLen);
    ReadWaits(desc[idx], link, stream, status, taken, |desc|, buffLen);
    AimsRead(desc, idx, stream, status, taken, build, buffLen, Detached(link, desc[idx]));
  }

  /** The link state follows the fold. */
  lemma FoldStep(stream: seq<RxDesc>, taken: nat, buffLen: nat, link: Link, d: RxDesc)
    requires taken < |stream| && Fold(stream, taken, buffLen).0 == link && Done(d, stream[taken]) && !Completes(link, d)
    ensures Fold(stream, taken + 1, buffLen).0 == Consume(link, d, buffLen)
  {
    FoldNext(stream, taken, buffLen, link, Fold(stream, taken, buffLen).1, d);
  }

  lemma {:induction false} ScanAims(desc: seq<RxDesc>, link: Link, idx: nat, stream: seq<RxDesc>, status: seq<nat>, taken: nat, build: nat, buffLen: nat)
    requires Layout(desc, idx, stream, taken, build) && Aims(desc, idx, stream, status, taken, build, buffLen)
    requires Fold(stream, taken, buffLen).0 == link
    ensures var r := ScanFrom(desc, link, idx, |desc| - build, buffLen);
            Aims(r.desc, r.idx, stream, status, taken + r.cnt, build + r.cnt, buffLen)
    decreases |desc| - build
  {
    LayoutHead(desc, idx, stream, taken, build);
    var d := desc[idx];
    if !d.own && build < |desc| {
      LayoutRead(desc, idx, stream, taken, build, Detached(link, d));
      ReadAims(desc, link, idx, stream, status, taken, build, buffLen);
      if !Completes(link, d) {
        FoldStep(stream, taken, buffLen, link, d);
        ScanAims(desc[idx := Detached(link, d)], Consume(link, d, buffLen), Next(idx, |desc|), stream, status, taken + 1, build + 1, buffLen);
      }
    }
  }

  // ---- rebuilding ----

  lemma AimsBuild(desc: seq<RxDesc>, idx: nat, stream: seq<RxDesc>, status: seq<nat>, taken: nat, build: nat, buffLen: nat, b: nat, d: RxDesc)
    requires Aims(desc, idx, stream, status, taken, build, buffLen) && build > 0 && b < |desc| && At(b, build, |desc|) == idx
    requires Target(d, taken + |desc| - build, |desc|, stream, status, buffLen)
    ensures Aims(desc[b := d], idx, stream, status, taken, build - 1, buffLen) && At(Next(b, |desc|), build - 1, |desc|) == idx
  {
    var n, desc', build' := |desc|, desc[b := d], build - 1;
    AtMeetsDist(idx, n - build, n);
    forall k: nat | k < n
      ensures AimAt(desc', idx, k, stream, status, taken, build', buffLen)
    {
      assert AimAt(desc, idx, k, stream, status, taken, build, buffLen);
    }
  }

  lemma {:induction false} BuildAims(desc: seq<RxDesc>, b: nat, build: nat, supply: seq<nat>, it: bool, idx: nat,
                                     stream: seq<RxDesc>, status: seq<nat>, taken: nat, buffLen: nat)
    requires Aims(desc, idx, stream, status, taken, build, buffLen) && Recorded(stream, status, |desc|, buffLen)
    requires b < |desc| && At(b, build, |desc|) == idx
    ensures var r := BuildFrom(desc, b, build, supply, it);
            Aims(r.desc, idx, stream, status, taken, r.cnt, buffLen)
    decreases build
  {
    if build > 0 && !(desc[b].buf == 0 && supply == []) {
      AtMeetsDist(idx, |desc| - build, |desc|);
      assert AimAt(desc, idx, |desc| - build, stream, status, taken, build, buffLen);
      var d := if desc[b].buf == 0 then Armed(desc[b].(buf := supply[0], addr := supply[0]), it) else Armed(desc[b], it);
      AimsBuild(desc, idx, stream, status, taken, build, buffLen, b, d);
      BuildAims(desc[b := d], Next(b, |desc|), build - 1, if desc[b].buf == 0 then supply[1..] else supply, it, idx,
                stream, status, taken, buffLen);
    }
  }

  // ---- completing ----

  lemma LinkedPrefix(stream: seq<RxDesc>, e: RxDesc, p: nat, buffLen: nat)
    requires p < |stream|
    ensures LinkedAt(stream + [e], p, buffLen) == LinkedAt(stream, p, buffLen)
  {
    FoldPrefix(stream, p, e, buffLen);
  }

  lemma TargetPrefix(d: RxDesc, q: nat, n: nat, stream: seq<RxDesc>, status: seq<nat>, buffLen: nat, e: RxDesc, st: nat)
    requires q < |stream| + n && |status| == |stream|
    ensures Target(d, q, n, stream + [e], status + [st], buffLen) == Target(d, q, n, stream, status, buffLen)
    ensures Waits(d, q, n, stream + [e], status + [st], buffLen) == Waits(d, q, n, stream, status, buffLen)
  {
    if q >= n {
      LinkedPrefix(stream, e, q - n, buffLen);
    }
  }

  lemma RecordedSnoc(stream: seq<RxDesc>, status: seq<nat>, n: nat, buffLen: nat, e: RxDesc, st: nat)
    requires n > 0 && Recorded(stream, status, n, buffLen) && e.buf != 0 && Target(e, |stream|, n, stream, status, buffLen)
    ensures Recorded(stream + [e], status + [st], n, buffLen)
  {
    forall q: nat {:trigger (stream + [e])[q]} | q < |stream| + 1
      ensures (stream + [e])[q].buf != 0 && Target((stream + [e])[q], q, n, stream + [e], status + [st], buffLen)
    {
      TargetPrefix((stream + [e])[q], q, n, stream, status, buffLen, e, st);
    }
  }

  lemma AimsWrite(desc: seq<RxDesc>, idx: nat, stream: seq<RxDesc>, status: seq<nat>, taken: nat, build: nat, buffLen: nat,
                  i: nat, e: RxDesc, d: RxDesc)
    requires Aims(desc, idx, stream, status, taken, build, buffLen) && |stream| < taken + |desc| - build
    requires i == At(idx, |stream| - taken, |desc|)
    ensures Aims(desc[i := d], idx, stream + [e], status + [d.addr], taken, build, buffLen)
  {
    var n, desc', stream', status' := |desc|, desc[i := d], stream + [e], status + [d.addr];
    AtMeetsDist(idx, |stream| - taken, n);
    forall k: nat | k < n
      ensures AimAt(desc', idx, k, stream', status', taken, build, buffLen)
    {
      assert AimAt(desc, idx, k, stream, status, taken, build, buffLen);
      if taken + k >= |stream| {
        TargetPrefix(desc[At(idx, k, n)], taken + k, n, stream, status, buffLen, e, d.addr);
      }
    }
  }

  // ---- over every run ----

  lemma OwnedTarget(x: World, k: nat, buffLen: nat)
    requires Placed(x) && TargetInv(x, buffLen) && k < |x.rx.desc| && x.rx.desc[At(x.rx.idx, k, |x.rx.desc|)].own
    ensures var d := x.rx.desc[At(x.rx.idx, k, |x.rx.desc|)];
            && |x.stream| <= x.taken + k && k < |x.rx.desc| - x.rx.buildCnt && d.buf != 0
            && Target(d, x.taken + k, |x.rx.desc|, x.stream, x.status, buffLen)
  {
    OwnedPlace(x, k);
    assert AimAt(x.rx.desc, x.rx.idx, k, x.stream, x.status, x.taken, x.rx.buildCnt, buffLen);
  }

  /** The slot the DMA completes next, seen from the read index. */
  lemma NextSlot(x: World)
    requires Placed(x)
    ensures |x.stream| - x.taken <= |x.rx.desc| - x.rx.buildCnt
    ensures Slot(|x.stream|, |x.rx.desc|) == At(x.rx.idx, |x.stream| - x.taken, |x.rx.desc|)
    ensures |x.stream| - x.taken == |x.rx.desc| ==> !x.rx.desc[Slot(|x.stream|, |x.rx.desc|)].own
  {
    SlotAdd(x.taken, |x.stream| - x.taken, |x.rx.desc|);
    LayoutHead(x.rx.desc, x.rx.idx, x.stream, x.taken, x.rx.buildCnt);
  }

  lemma CompletionTargets(x: World, k: nat, e: RxDesc, status: nat, buffLen: nat)
    requires TargetInv(x, buffLen) && |x.stream| == x.taken + k && k < |x.rx.desc| - x.rx.buildCnt
    requires var d := x.rx.desc[At(x.rx.idx, k, |x.rx.desc|)]; e.buf == d.buf != 0 && e.addr == d.addr
    requires Target(e, x.taken + k, |x.rx.desc|, x.stream, x.status, buffLen)
    ensures TargetInv(x.(rx := x.rx.(desc := x.rx.desc[At(x.rx.idx, k, |x.rx.desc|) := e.(addr := status)]),
                         stream := x.stream + [e], status := x.status + [status]), buffLen)
  {
    RecordedSnoc(x.stream, x.status, |x.rx.desc|, buffLen, e, status);
    AimsWrite(x.rx.desc, x.rx.idx, x.stream, x.status, x.taken, x.rx.buildCnt, buffLen, At(x.rx.idx, k, |x.rx.desc|), e, e.(addr := status));
  }

  lemma WriteBackTargets(x: World, e: Event, buffLen: nat)
    requires Placed(x) && TargetInv(x, buffLen) && e.WriteBack?
    ensures TargetInv(Step(x, e, buffLen), buffLen)
  {
    NextSlot(x);
    var d := x.rx.desc[Slot(|x.stream|, |x.rx.desc|)];
    if d.own {
      OwnedTarget(x, |x.stream| - x.taken, buffLen);
      CompletionTargets(x, |x.stream| - x.taken, Completed(d, e), e.status, buffLen);
    }
  }

  /** A descriptor that the DMA owns lies between the completed ones and those waiting to be rebuilt. */
  lemma OwnedPlace(x: World, k: nat)
    requires Placed(x) && k < |x.rx.desc|
    ensures var d := x.rx.desc[At(x.rx.idx, k, |x.rx.desc|)];
            && (d.own <==> |x.stream| <= x.taken + k && k < |x.rx.desc| - x.rx.buildCnt)
            && (d.own ==> d.buf != 0)
  {
  }

  lemma ScanTargets(x: World, buffLen: nat)
    requires WellFormed(x.rx) && Layout(x.rx.desc, x.rx.idx, x.stream, x.taken, x.rx.buildCnt) && x.taken <= |x.stream|
    requires Fold(x.stream, x.taken, buffLen).0 == x.rx.link
    requires Aims(x.rx.desc, x.rx.idx, x.stream, x.status, x.taken, x.rx.buildCnt, buffLen)
    ensures var scan := ScanOf(x, buffLen);
            Aims(scan.desc, scan.idx, x.stream, x.status, x.taken + scan.cnt, x.rx.buildCnt + scan.cnt, buffLen)
  {
    ScanAims(x.rx.desc, x.rx.link, x.rx.idx, x.stream, x.status, x.taken, x.rx.buildCnt, buffLen);
  }

  lemma BuildTargets(x: World, scan: Scan, supply: seq<nat>, buffLen: nat)
    requires WellFormed(x.rx) && |scan.desc| == |x.rx.desc| && Recorded(x.stream, x.status, |x.rx.desc|, buffLen)
    requires Aims(scan.desc, scan.idx, x.stream, x.status, x.taken + scan.cnt, x.rx.buildCnt + scan.cnt, buffLen)
    requires At(x.rx.buildIdx, x.rx.buildCnt + scan.cnt, |x.rx.desc|) == scan.idx
    ensures var b := BuildOf(x, scan, supply);
            |b.desc| == |x.rx.desc| && Aims(b.desc, scan.idx, x.stream, x.status, x.taken + scan.cnt, b.cnt, buffLen)
  {
    BuildAims(scan.desc, x.rx.buildIdx, x.rx.buildCnt + scan.cnt, supply, true, scan.idx,
              x.stream, x.status, x.taken + scan.cnt, buffLen);
  }

  lemma OutcomeTargets(x: World, scan: Scan, b: Build, supply: seq<nat>, buffLen: nat)
    requires |b.supply| <= |supply| && |b.desc| == |x.rx.desc| && Recorded(x.stream, x.status, |x.rx.desc|, buffLen)
    requires Aims(b.desc, scan.idx, x.stream, x.status, x.taken + scan.cnt, b.cnt, buffLen)
    requires WellFormed(Outcome(x, scan, b, supply).rx)
    ensures TargetInv(Outcome(x, scan, b, supply), buffLen)
  {
  }

  /** The build loop and the outcome of a read call, after its scan. */
  lemma FinishTargets(x: World, scan: Scan, supply: seq<nat>, buffLen: nat)
    requires WellFormed(x.rx) && |scan.desc| == |x.rx.desc| && Recorded(x.stream, x.status, |x.rx.desc|, buffLen)
    requires Aims(scan.desc, scan.idx, x.stream, x.status, x.taken + scan.cnt, x.rx.buildCnt + scan.cnt, buffLen)
    requires At(x.rx.buildIdx, x.rx.buildCnt + scan.cnt, |x.rx.desc|) == scan.idx
    requires WellFormed(Outcome(x, scan, BuildOf(x, scan, supply), supply).rx)
    ensures TargetInv(Outcome(x, scan, BuildOf(x, scan, supply), supply), buffLen)
  {
    BuildTargets(x, scan, supply, buffLen);
    OutcomeTargets(x, scan, BuildOf(x, scan, supply), supply, buffLen);
  }

  lemma ReadTargets(x: World, supply: seq<nat>, buffLen: nat)
    requires Placed(x) && Folded(x, buffLen) && TargetInv(x, buffLen)
    ensures TargetInv(Step(x, ReadCall(supply), buffLen), buffLen)
  {
    var scan := ScanOf(x, buffLen);
    assert Aims(scan.desc, scan.idx, x.stream, x.status, x.taken + scan.cnt, x.rx.buildCnt + scan.cnt, buffLen) by {
      ScanTargets(x, buffLen);
    }
    assert At(x.rx.buildIdx, x.rx.buildCnt + scan.cnt, |x.rx.desc|) == scan.idx by {
      ScanIndices(x, buffLen);
    }
    StepReads(x, supply, buffLen);
    FinishTargets(x, scan, supply, buffLen);
  }

  lemma StartTargets(n: nat, first: seq<nat>, buffLen: nat)
    requires n > 0
    ensures TargetInv(Start(n, first), buffLen)
  {
    BuildAims(Blank(n).desc, 0, n, first, true, 0, [], [], 0, buffLen);
  }

  lemma {:induction false} RunTargets(n: nat, first: seq<nat>, run: seq<Event>, buffLen: nat)
    requires n > 0 && LegalRun(first, run)
    ensures TargetInv(After(n, first, run, buffLen), buffLen)
  {
    if run == [] {
      StartTargets(n, first, buffLen);
    } else {
      var before := run[..|run| - 1];
      var x, e := After(n, first, before, buffLen), run[|run| - 1];
      RunTargets(n, first, before, buffLen);
      RunPlaced(n, first, before, buffLen);
      RunFolded(n, first, before, buffLen);
      match e
      case WriteBack(_, _, _, _) => WriteBackTargets(x, e, buffLen);
      case ReadCall(supply) => ReadTargets(x, supply, buffLen);
    }
  }

  // ---- the exact condition ----

  /** Everything the DMA wrote went into the buffer that the driver then links, and everything it owns
      points to its attached buffer. */
  ghost predicate Aimed(x: World)
  {
    && (forall i {:trigger x.rx.desc[i]} :: 0 <= i < |x.rx.desc| && x.rx.desc[i].own ==> x.rx.desc[i].addr == x.rx.desc[i].buf)
    && (forall q {:trigger x.stream[q]} :: 0 <= q < |x.stream| ==> x.stream[q].addr == x.stream[q].buf)
  }

  /** The descriptor read at position `p` and handed back got a right address: it was linked, or its
      status word happened to be the address of its buffer. */
  ghost predicate Restored(x: World, p: nat, buffLen: nat)
    requires p < |x.stream| == |x.status|
  {
    LinkedAt(x.stream, p, buffLen) || x.status[p] == x.stream[p].buf
  }

  ghost predicate AllRestored(x: World, buffLen: nat)
    requires |x.stream| == |x.status|
  {
    forall p: nat {:trigger Restored(x, p, buffLen)} :: p < |x.stream| && p + x.rx.buildCnt < x.taken ==> Restored(x, p, buffLen)
  }

  lemma RestoredAims(x: World, buffLen: nat)
    requires Placed(x) && TargetInv(x, buffLen) && AllRestored(x, buffLen)
    ensures Aimed(x)
  {
    var s, n := x.rx, |x.rx.desc|;
    forall i {:trigger s.desc[i]} | 0 <= i < n && s.desc[i].own ensures s.desc[i].addr == s.desc[i].buf {
      var k := Dist(s.idx, i, n);
      AtDist(s.idx, i, n);
      OwnedTarget(x, k, buffLen);
      assert x.taken + k >= n ==> Restored(x, x.taken + k - n, buffLen);
    }
    forall q {:trigger x.stream[q]} | 0 <= q < |x.stream| ensures x.stream[q].addr == x.stream[q].buf {
      assert Target(x.stream[q], q, n, x.stream, x.status, buffLen);
      assert q >= n ==> Restored(x, q - n, buffLen);
    }
  }

  lemma AimedRestores(x: World, buffLen: nat, p: nat)
    requires Placed(x) && TargetInv(x, buffLen) && Aimed(x) && p < |x.stream| && p + x.rx.buildCnt < x.taken
    ensures Restored(x, p, buffLen)
  {
    var s, n := x.rx, |x.rx.desc|;
    var q := p + n;
    if q < |x.stream| {
      assert Target(x.stream[q], q, n, x.stream, x.status, buffLen);
    } else {
      var k := q - x.taken;
      OwnedPlace(x, k);
      OwnedTarget(x, k, buffLen);
    }
  }

  /** Over every run, all writes of the DMA go where the driver expects if and only if every descriptor
      that was read and handed back was linked or had its buffer's address for a status word. */
  lemma RunAimedIff(n: nat, first: seq<nat>, run: seq<Event>, buffLen: nat)
    requires n > 0 && LegalRun(first, run)
    ensures var x := After(n, first, run, buffLen);
            |x.stream| == |x.status| && (Aimed(x) <==> AllRestored(x, buffLen))
  {
    var x := After(n, first, run, buffLen);
    RunPlaced(n, first, run, buffLen);
    RunTargets(n, first, run, buffLen);
    if Aimed(x) {
      forall p: nat {:trigger Restored(x, p, buffLen)} | p < |x.stream| && p + x.rx.buildCnt < x.taken
        ensures Restored(x, p, buffLen)
      {
        AimedRestores(x, buffLen, p);
      }
    }
    if AllRestored(x, buffLen) {
      RestoredAims(x, buffLen);
    }
  }

  /** On a framed stream every descriptor that is read belongs to a packet. */
  lemma {:induction false} FoldDepth(stream: seq<RxDesc>, taken: nat, buffLen: nat)
    requires taken <= |stream| && Framed(stream)
    ensures |Fold(stream, taken, buffLen).0.chain| == Depth(stream, taken)
    decreases taken
  {
    if taken > 0 {
      FoldDepth(stream, taken - 1, buffLen);
      assert FramedAt(stream, taken - 1);
    }
  }

  /** Over every run with a framed stream, the DMA wrote each packet into the very buffer the driver links. */
  lemma RunFramedAimed(n: nat, first: seq<nat>, run: seq<Event>, buffLen: nat)
    requires n > 0 && LegalRun(first, run) && Framed(After(n, first, run, buffLen).stream)
    ensures Aimed(After(n, first, run, buffLen))
  {
    var x := After(n, first, run, buffLen);
    RunAimedIff(n, first, run, buffLen);
    forall p: nat {:trigger Restored(x, p, buffLen)} | p < |x.stream| && p + x.rx.buildCnt < x.taken
      ensures Restored(x, p, buffLen)
    {
      FoldDepth(x.stream, p, buffLen);
      assert FramedAt(x.stream, p);
    }
  }

  /** The failure is reachable: a descriptor completed without a first mark while no packet is under way
      is handed back with the status word as its address. */
  lemma OrphanKeepsStatusAddress(status: nat, buffLen: nat)
    ensures var x := Start(1, [7]);
            var y := Step(Step(x, WriteBack(false, true, 0, status), buffLen), ReadCall([]), buffLen);
            y.rx.desc[0].own && y.rx.desc[0].buf == 7 && y.rx.desc[0].addr == status
  {
    var x := Start(1, [7]);
    var d := Armed(BLANK.(buf := 7, addr := 7), true);
    assert Blank(1).desc == [BLANK];
    assert x.rx == RxState([d], 0, 0, 0, EMPTY_LINK);
    var y := Step(x, WriteBack(false, true, 0, status), buffLen);
    var d1 := d.(own := false, ld := true, addr := status);
    assert y.rx == RxState([d1], 0, 0, 0, EMPTY_LINK);
    assert ScanFrom([d1], EMPTY_LINK, 0, 1, buffLen) == Scan([d1], EMPTY_LINK, 0, 1, false);
  }
}
