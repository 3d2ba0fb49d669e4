/** What the DMA is given: every descriptor it owns is ready to receive and asks for an interrupt, and the
    rebuild gets as far as the allocator lets it. */
module EthRxArmed {
  import opened RingIndex
  import opened EthRx
  import opened EthRxRuns

  /** The word DESC3 of a descriptor is as the DMA expects it. */
  predicate Ready(d: RxDesc, itMode: bool)
  {
    d.own && d.buf1v && d.ioc == itMode && !d.fd && !d.ld && d.pl == 0
  }

  /** A new ring: every descriptor is zero, no packet is under way and the indices are zero. */
  lemma BlankIsZero(n: nat, i: nat)
    requires i < n
    ensures var s := Blank(n);
            && |s.desc| == n && (s.idx, s.buildIdx, s.buildCnt) == (0, 0, 0) && s.link == Link([], 0, 0)
            && s.desc[i] == RxDesc(0, 0, false, false, false, false, false, 0)
  {
  }

  /** How many of the `k` descriptors from slot `idx` on have no buffer. */
  function Missing(desc: seq<RxDesc>, idx: nat, k: nat): (m: nat)
    requires idx < |desc|
    ensures m <= k
    decreases k
  {
    if k == 0 then 0 else (if desc[idx].buf == 0 then 1 else 0) + Missing(desc, Next(idx, |desc|), k - 1)
  }

  lemma {:induction false} MissingFrame(desc: seq<RxDesc>, b: nat, d: RxDesc, idx: nat, k: nat)
    requires b < |desc| && idx < |desc| && k <= Dist(idx, b, |desc|)
    ensures Missing(desc[b := d], idx, k) == Missing(desc, idx, k)
    decreases k
  {
    if k > 0 {
      MissingFrame(desc, b, d, Next(idx, |desc|), k - 1);
    }
  }

  /** The descriptor in slot `i`, `k` slots after the first one rebuilt, once the rebuild has handed it over. */
  ghost predicate HandedOver(desc: seq<RxDesc>, idx: nat, k: nat, supply: seq<nat>, itMode: bool, d: RxDesc)
    requires idx < |desc| && k < |desc|
  {
    var was := desc[At(idx, k, |desc|)];
    && Ready(d, itMode)
    && (was.buf != 0 ==> (d.buf, d.addr) == (was.buf, was.addr))
    && (was.buf == 0 ==> Missing(desc, idx, k) < |supply| && d.buf == d.addr == supply[Missing(desc, idx, k)])
  }

  /** The rebuild goes on until nothing is left to build, or the next descriptor has no buffer and the
      allocator has none to give. */
  lemma {:induction false} BuildStops(desc: seq<RxDesc>, idx: nat, cnt: nat, supply: seq<nat>, itMode: bool)
    requires idx < |desc|
    ensures var r := BuildFrom(desc, idx, cnt, supply, itMode);
            r.cnt == 0 || (r.desc[r.idx].buf == 0 && r.supply == [])
    decreases cnt
  {
    if cnt > 0 && !(desc[idx].buf == 0 && supply == []) {
      var d := if desc[idx].buf == 0 then desc[idx].(buf := supply[0], addr := supply[0]) else desc[idx];
      BuildStops(desc[idx := Armed(d, itMode)], Next(idx, |desc|), cnt - 1,
                 if desc[idx].buf == 0 then supply[1..] else supply, itMode);
    }
  }

  lemma {:induction false} BuildIndex(desc: seq<RxDesc>, idx: nat, cnt: nat, supply: seq<nat>, itMode: bool)
    requires idx < |desc| && cnt <= |desc|
    ensures var r := BuildFrom(desc, idx, cnt, supply, itMode); r.idx == At(idx, cnt - r.cnt, |desc|)
    decreases cnt
  {
    if cnt > 0 && !(desc[idx].buf == 0 && supply == []) {
      var d := if desc[idx].buf == 0 then desc[idx].(buf := supply[0], addr := supply[0]) else desc[idx];
      BuildIndex(desc[idx := Armed(d, itMode)], Next(idx, |desc|), cnt - 1,
                 if desc[idx].buf == 0 then supply[1..] else supply, itMode);
    }
  }

  /** Counting on from the second descriptor, whatever the first has become. */
  lemma MissingRest(desc: seq<RxDesc>, idx: nat, d: RxDesc, k: nat)
    requires idx < |desc| && 0 < k <= |desc|
    ensures Missing(desc, idx, k) ==
            (if desc[idx].buf == 0 then 1 else 0) + Missing(desc[idx := d], Next(idx, |desc|), k - 1)
  {
    MissingFrame(desc, idx, d, Next(idx, |desc|), k - 1);
  }

  /** Buffers are given out in the order of the descriptors that lack one, and none is skipped. */
  lemma {:induction false} BuildUses(desc: seq<RxDesc>, idx: nat, cnt: nat, supply: seq<nat>, itMode: bool)
    requires idx < |desc| && cnt <= |desc|
    ensures var r := BuildFrom(desc, idx, cnt, supply, itMode);
            var m := Missing(desc, idx, cnt - r.cnt);
            m <= |supply| && r.supply == supply[m..]
    decreases cnt
  {
    if cnt > 0 && !(desc[idx].buf == 0 && supply == []) {
      var none := desc[idx].buf == 0;
      var d := Armed(if none then desc[idx].(buf := supply[0], addr := supply[0]) else desc[idx], itMode);
      var rest := if none then supply[1..] else supply;
      var r := BuildFrom(desc[idx := d], Next(idx, |desc|), cnt - 1, rest, itMode);
      assert r == BuildFrom(desc, idx, cnt, supply, itMode);
      BuildUses(desc[idx := d], Next(idx, |desc|), cnt - 1, rest, itMode);
      MissingRest(desc, idx, d, cnt - r.cnt);
    }
  }

  /** Slot by slot: what the rebuild reaches is handed over, and nothing else is touched. */
  lemma {:induction false} BuildArms(desc: seq<RxDesc>, idx: nat, cnt: nat, supply: seq<nat>, itMode: bool, k: nat)
    requires idx < |desc| && cnt <= |desc| && k < |desc|
    ensures var r := BuildFrom(desc, idx, cnt, supply, itMode);
            var i := At(idx, k, |desc|);
            if k < cnt - r.cnt then HandedOver(desc, idx, k, supply, itMode, r.desc[i]) else r.desc[i] == desc[i]
    decreases cnt
  {
    if cnt > 0 && !(desc[idx].buf == 0 && supply == []) {
      var n := |desc|;
      var d := if desc[idx].buf == 0 then desc[idx].(buf := supply[0], addr := supply[0]) else desc[idx];
      var rest := if desc[idx].buf == 0 then supply[1..] else supply;
      var desc1, next := desc[idx := Armed(d, itMode)], Next(idx, n);
      if k == 0 {
        assert At(next, n - 1, n) == idx;
        BuildArms(desc1, next, cnt - 1, rest, itMode, n - 1);
      } else {
        assert At(next, k - 1, n) == At(idx, k, n) != idx;
        BuildArms(desc1, next, cnt - 1, rest, itMode, k - 1);
        MissingFrame(desc, idx, Armed(d, itMode), next, k - 1);
      }
    }
  }

  /** One rebuild, in either mode: the descriptors it reaches are handed over in ring order, the others stay, and
      it stops only where it has to. */
  lemma UpdateArms(s: RxState, supply: seq<nat>, itMode: bool, k: nat)
    requires WellFormed(s) && k < |s.desc|
    ensures var (t, rest) := Update(s, supply, itMode);
            var i := At(s.buildIdx, k, |s.desc|);
            && t.buildCnt <= s.buildCnt && t.buildIdx == At(s.buildIdx, s.buildCnt - t.buildCnt, |s.desc|)
            && (k < s.buildCnt - t.buildCnt ==> HandedOver(s.desc, s.buildIdx, k, supply, itMode, t.desc[i]))
            && (k >= s.buildCnt - t.buildCnt ==> t.desc[i] == s.desc[i])
            && (t.buildCnt == 0 || (t.desc[t.buildIdx].buf == 0 && rest == []))
            && var m := Missing(s.desc, s.buildIdx, s.buildCnt - t.buildCnt); m <= |supply| && rest == supply[m..]
  {
    BuildArms(s.desc, s.buildIdx, s.buildCnt, supply, itMode, k);
    BuildIndex(s.desc, s.buildIdx, s.buildCnt, supply, itMode);
    BuildUses(s.desc, s.buildIdx, s.buildCnt, supply, itMode);
    BuildStops(s.desc, s.buildIdx, s.buildCnt, supply, itMode);
  }

  // ---- over every run ----

  ghost predicate AllReady(desc: seq<RxDesc>)
  {
    forall i {:trigger desc[i]} :: 0 <= i < |desc| && desc[i].own ==> Ready(desc[i], true)
  }

  lemma {:induction false} BuildReady(desc: seq<RxDesc>, idx: nat, cnt: nat, supply: seq<nat>)
    requires idx < |desc| && AllReady(desc)
    ensures AllReady(BuildFrom(desc, idx, cnt, supply, true).desc)
    decreases cnt
  {
    if cnt > 0 && !(desc[idx].buf == 0 && supply == []) {
      var d := if desc[idx].buf == 0 then desc[idx].(buf := supply[0], addr := supply[0]) else desc[idx];
      BuildReady(desc[idx := Armed(d, true)], Next(idx, |desc|), cnt - 1,
                 if desc[idx].buf == 0 then supply[1..] else supply);
    }
  }

  lemma {:induction false} ScanReady(desc: seq<RxDesc>, link: Link, idx: nat, left: nat, buffLen: nat)
    requires idx < |desc| && AllReady(desc)
    ensures AllReady(ScanFrom(desc, link, idx, left, buffLen).desc)
    decreases left
  {
    var d := desc[idx];
    if !d.own && left > 0 {
      assert AllReady(desc[idx := Detached(link, d)]);
      if !Completes(link, d) {
        ScanReady(desc[idx := Detached(link, d)], Consume(link, d, buffLen), Next(idx, |desc|), left - 1, buffLen);
      }
    }
  }

  lemma StepReady(x: World, e: Event, buffLen: nat)
    requires WellFormed(x.rx) && AllReady(x.rx.desc)
    ensures AllReady(Step(x, e, buffLen).rx.desc)
  {
    match e
    case WriteBack(_, _, _, _) =>
    case ReadCall(supply) =>
      var scan := ScanOf(x, buffLen);
      StepReads(x, supply, buffLen);
      ScanReady(x.rx.desc, x.rx.link, x.rx.idx, |x.rx.desc| - x.rx.buildCnt, buffLen);
      BuildReady(scan.desc, x.rx.buildIdx, x.rx.buildCnt + scan.cnt, supply);
  }

  /** Over every run in interrupt mode, a descriptor that the DMA owns has its buffer and interrupt bits and none
      of what a completed one has. */
  lemma {:induction false} RunReady(n: nat, first: seq<nat>, run: seq<Event>, buffLen: nat)
    requires n > 0
    ensures AllReady(After(n, first, run, buffLen).rx.desc)
  {
    if run == [] {
      BuildReady(Blank(n).desc, 0, n, first);
    } else {
      RunReady(n, first, run[..|run| - 1], buffLen);
      StepReady(After(n, first, run[..|run| - 1], buffLen), run[|run| - 1], buffLen);
    }
  }

  /** After every read call nothing is left to build, or the next descriptor has no buffer and the call has used
      up what the allocator had. */
  lemma ReadRebuilds(x: World, supply: seq<nat>, buffLen: nat)
    requires WellFormed(x.rx)
    ensures var y := Step(x, ReadCall(supply), buffLen);
            y.rx.buildCnt == 0 || (y.rx.desc[y.rx.buildIdx].buf == 0 && y.granted == x.granted + supply)
  {
    var scan := ScanOf(x, buffLen);
    StepReads(x, supply, buffLen);
    BuildStops(scan.desc, x.rx.buildIdx, x.rx.buildCnt + scan.cnt, supply, true);
    assert Used(supply, []) == supply;
  }
}
