/** The transmit descriptor ring of the Ethernet driver: filling descriptors from a
    buffer chain, handing them to the DMA, and releasing sent packets. */
module EthTx {
  import opened Common
  import opened RingIndex

  /** A transmit descriptor with the words DESC2 and DESC3 unpacked into their fields. */
  datatype TxDesc = TxDesc(desc0: nat, desc1: nat, len1: nat, len2: nat, ioc: bool,
                           own: bool, ctxt: bool, fd: bool, ld: bool,
                           cpc: nat, saic: nat, cic: nat, fl: nat)

  datatype Buffer = Buffer(addr: nat, len: nat)

  /** ETH_TxPacketConfig; `buffers` is the chain that starts at TxBuffer and `pData`
      is the packet pointer, 0 standing for NULL. */
  datatype TxConfig = TxConfig(buffers: seq<Buffer>, length: nat, csum: bool, crcPad: bool, srcAddr: bool,
                               checksumCtrl: nat, crcPadCtrl: nat, srcAddrCtrl: nat, pData: nat)

  /** ErrorCode bits. */
  datatype EthError = ErrorParam | ErrorBusy

  /** ETH_TxDescListTypeDef together with the descriptors it points to. */
  datatype TxState = TxState(desc: seq<TxDesc>, pkt: seq<nat>, cur: nat, inUse: nat, rel: nat)

  /** The driver dereferences the head of the chain, and every length has to fit
      its descriptor field. */
  ghost predicate Fits(cfg: TxConfig)
  {
    && |cfg.buffers| > 0
    && cfg.length < 0x8000
    && forall i :: 0 <= i < |cfg.buffers| ==> cfg.buffers[i].len < 0x4000
  }

  predicate WellFormed(s: TxState)
  {
    && |s.desc| == |s.pkt| > 0
    && s.cur < |s.desc|
    && s.rel < |s.desc|
  }

  // ---- specification of ETH_Prepare_Tx_Descriptors ----

  function Needed(cfg: TxConfig): nat
  {
    (|cfg.buffers| + 1) / 2
  }

  /** The descriptor `k` places after the current one cannot be used. */
  predicate Busy(s: TxState, k: nat)
    requires WellFormed(s) && k < |s.desc|
  {
    var i := At(s.cur, k, |s.desc|);
    s.desc[i].own || s.pkt[i] != 0
  }

  /** How many usable descriptors in a row start at the current one. */
  function FreeRun(s: TxState, from: nat := 0): (k: nat)
    requires WellFormed(s) && from <= |s.desc|
    ensures from <= k <= |s.desc|
    ensures forall j {:trigger Busy(s, j)} :: from <= j < k ==> !Busy(s, j)
    ensures k < |s.desc| ==> Busy(s, k)
    decreases |s.desc| - from
  {
    if from == |s.desc| || Busy(s, from) then from else FreeRun(s, from + 1)
  }

  function Second(cfg: TxConfig, k: nat): Buffer
  {
    if 2 * k + 1 < |cfg.buffers| then cfg.buffers[2 * k + 1] else Buffer(0, 0)
  }

  /** Descriptor number `k` of a packet, before LD and IOC are settled. */
  function Fill(d: TxDesc, cfg: TxConfig, k: nat): TxDesc
    requires 2 * k < |cfg.buffers|
  {
    var b1, b2 := cfg.buffers[2 * k], Second(cfg, k);
    d.(desc0 := b1.addr, len1 := b1.len, desc1 := b2.addr, len2 := b2.len,
    fl := cfg.length,
    cic := if cfg.csum then cfg.checksumCtrl else d.cic,
    cpc := if k == 0 && cfg.crcPad then cfg.crcPadCtrl else d.cpc,
    saic := if k == 0 && cfg.srcAddr then cfg.srcAddrCtrl else d.saic,
    fd := k == 0, ctxt := false, own := true)
  }

  /** Slot `i` once the first `m` descriptors are filled and the last of them still has its old LD. */
  function Partial(d: TxDesc, cfg: TxConfig, k: nat, m: nat): TxDesc
    requires m <= Needed(cfg)
  {
    if k < m then Fill(d, cfg, k).(ld := k == m - 1 && d.ld) else d
  }

  /** Slot contents after a packet was accepted. */
  function Accepted(d: TxDesc, cfg: TxConfig, it: bool, k: nat): TxDesc
  {
    var need := Needed(cfg);
    if k < need then Fill(d, cfg, k).(ld := k == need - 1, ioc := if k == need - 1 then it else d.ioc) else d
  }

  /** Slot contents after a packet was turned away because only `m` descriptors were free:
      what was filled is handed back, and the descriptor that stopped the fill has lost FD. */
  function Rejected(d: TxDesc, cfg: TxConfig, k: nat, m: nat, n: nat): TxDesc
    requires m < Needed(cfg)
  {
    var d1 := if k < m then Fill(d, cfg, k).(ld := false, own := false) else d;
    if m > 0 && (k == m || (m == n && k == 0)) then d1.(fd := false) else d1
  }

  function RejectedRing(d: seq<TxDesc>, first: nat, cfg: TxConfig, m: nat): seq<TxDesc>
    requires first < |d| && m < Needed(cfg)
  {
    seq(|d|, i requires 0 <= i < |d| => Rejected(d[i], cfg, Dist(first, i, |d|), m, |d|))
  }

  function AcceptedRing(d: seq<TxDesc>, first: nat, cfg: TxConfig, it: bool): seq<TxDesc>
    requires first < |d|
  {
    seq(|d|, i requires 0 <= i < |d| => Accepted(d[i], cfg, it, Dist(first, i, |d|)))
  }

  /** What looking at the descriptor after `idx` does to the ring: LD is cleared on `idx`
      and FD on the one after it, before that one is found to be in use. */
  function Peeked(d: seq<TxDesc>, idx: nat): seq<TxDesc>
    requires idx < |d|
  {
    var d1, next := d[idx := d[idx].(ld := false)], Next(idx, |d|);
    d1[next := d1[next].(fd := false)]
  }

  lemma PeekedAt(d: seq<TxDesc>, idx: nat, i: nat)
    requires idx < |d| && i < |d|
    ensures Peeked(d, idx)[i] ==
            (var d1 := if i == idx then d[i].(ld := false) else d[i]; if i == Next(idx, |d|) then d1.(fd := false) else d1)
  {
  }

  /** OWN taken back from the `count` descriptors that start at `first`. */
  function Undone(d: seq<TxDesc>, first: nat, count: nat): seq<TxDesc>
    requires first < |d|
  {
    seq(|d|, i requires 0 <= i < |d| => if Dist(first, i, |d|) < count then d[i].(own := false) else d[i])
  }

  /** The ring `d` while a packet is being laid out over `d0` from slot `first` on. */
  ghost predicate Filling(d0: seq<TxDesc>, d: seq<TxDesc>, first: nat, cfg: TxConfig, m: nat)
    requires first < |d0| && m <= Needed(cfg)
  {
    && |d| == |d0|
    && forall i {:trigger d[i]} :: 0 <= i < |d0| ==> d[i] == Partial(d0[i], cfg, Dist(first, i, |d0|), m)
  }

  lemma FillingStart(d0: seq<TxDesc>, first: nat, cfg: TxConfig)
    requires first < |d0| && |cfg.buffers| > 0
    ensures Filling(d0, d0[first := Fill(d0[first], cfg, 0)], first, cfg, 1)
  {
  }

  /** The step that extends the layout by one descriptor. */
  lemma FillingStep(d0: seq<TxDesc>, d: seq<TxDesc>, first: nat, cfg: TxConfig, m: nat)
    requires first < |d0| && 0 < m < Needed(cfg) && m < |d0| && Filling(d0, d, first, cfg, m)
    ensures var d1, next := Peeked(d, At(first, m - 1, |d0|)), At(first, m, |d0|);
            && d1[next] == d0[next].(fd := false)
            && Filling(d0, d1[next := Fill(d1[next], cfg, m)], first, cfg, m + 1)
  {
    AtMeetsDist(first, m - 1, |d0|);
    AtMeetsDist(first, m, |d0|);
    var prev, next := At(first, m - 1, |d0|), At(first, m, |d0|);
    PeekedAt(d, prev, next);
    var d1 := Peeked(d, prev);
    var e := d1[next := Fill(d1[next], cfg, m)];
    forall i {:trigger e[i]} | 0 <= i < |d0|
      ensures e[i] == Partial(d0[i], cfg, Dist(first, i, |d0|), m + 1)
    {
      PeekedAt(d, prev, i);
    }
  }

  /** The test on the next descriptor finds the end of the free run; after a whole turn
      it meets the packet's own first descriptor. */
  lemma NextIsBusy(s: TxState, d: seq<TxDesc>, cfg: TxConfig, m: nat)
    requires WellFormed(s) && 0 < m < Needed(cfg) && m <= FreeRun(s) && Filling(s.desc, d, s.cur, cfg, m)
    ensures var prev, next := At(s.cur, m - 1, |d|), At(s.cur, m, |d|);
            && next == Next(prev, |d|)
            && (Peeked(d, prev)[next].own || s.pkt[next] != 0 <==> m == FreeRun(s))
  {
    AtMeetsDist(s.cur, m - 1, |d|);
    AtMeetsDist(s.cur, m, |d|);
    if m < |d| {
      assert Busy(s, m) <==> m == FreeRun(s);
    }
  }

  lemma UndoneSlot(d0: TxDesc, cfg: TxConfig, k: nat, m: nat, n: nat)
    requires 0 < m < Needed(cfg) && m <= n && k < n
    ensures var p := Partial(d0, cfg, k, m);
            var q := if k == m - 1 then p.(ld := false) else p;
            var r := if k == m || (m == n && k == 0) then q.(fd := false) else q;
            (if k < m then r.(own := false) else r) == Rejected(d0, cfg, k, m, n)
  {
  }

  /** Handing the filled descriptors back gives the rejected ring. */
  lemma FillingUndone(d0: seq<TxDesc>, d: seq<TxDesc>, first: nat, cfg: TxConfig, m: nat)
    requires first < |d0| && 0 < m < Needed(cfg) && m <= |d0| && Filling(d0, d, first, cfg, m)
    ensures Undone(Peeked(d, At(first, m - 1, |d0|)), first, m) == RejectedRing(d0, first, cfg, m)
  {
    var n, prev := |d0|, At(first, m - 1, |d0|);
    var e := Undone(Peeked(d, prev), first, m);
    forall i {:trigger e[i]} | 0 <= i < n
      ensures e[i] == Rejected(d0[i], cfg, Dist(first, i, n), m, n)
    {
      assert i == prev <==> Dist(first, i, n) == m - 1;
      assert i == Next(prev, n) <==> Dist(first, i, n) == m || (m == n && Dist(first, i, n) == 0);
      PeekedAt(d, prev, i);
      UndoneSlot(d0[i], cfg, Dist(first, i, n), m, n);
    }
  }

  /** Marking the last descriptor gives the accepted ring. */
  lemma FillingDone(d0: seq<TxDesc>, d: seq<TxDesc>, first: nat, cfg: TxConfig, it: bool)
    requires first < |d0| && 0 < Needed(cfg) <= |d0| && Filling(d0, d, first, cfg, Needed(cfg))
    ensures var last := At(first, Needed(cfg) - 1, |d0|);
            d[last := d[last].(ioc := it, ld := true)] == AcceptedRing(d0, first, cfg, it)
  {
    AtMeetsDist(first, Needed(cfg) - 1, |d0|);
    var last := At(first, Needed(cfg) - 1, |d0|);
    var e := d[last := d[last].(ioc := it, ld := true)];
    forall i {:trigger e[i]} | 0 <= i < |d0|
      ensures e[i] == Accepted(d0[i], cfg, it, Dist(first, i, |d0|))
    {
      assert d[i] == Partial(d0[i], cfg, Dist(first, i, |d0|), Needed(cfg));
    }
  }

  /** The ring after ETH_Prepare_Tx_Descriptors and the increment of CurTxDesc. */
  function Transmit(s: TxState, cfg: TxConfig, it: bool): (t: TxState)
    requires WellFormed(s) && |cfg.buffers| > 0
    ensures WellFormed(t) && |t.desc| == |s.desc|
  {
    var n, need, m := |s.desc|, Needed(cfg), FreeRun(s);
    if need <= m then
      TxState(AcceptedRing(s.desc, s.cur, cfg, it),
              s.pkt[At(s.cur, need - 1, n) := cfg.pData],
              At(s.cur, need, n), s.inUse + need, s.rel)
    else
      s.(desc := RejectedRing(s.desc, s.cur, cfg, m))
  }

  lemma TransmitBlocked(s: TxState, cfg: TxConfig, it: bool)
    requires WellFormed(s) && |cfg.buffers| > 0 && Busy(s, 0)
    ensures Transmit(s, cfg, it) == s && FreeRun(s) == 0
  {
    assert Transmit(s, cfg, it).desc == s.desc;
  }

  // ---- specification of HAL_ETH_ReleaseTxPacket ----

  /** The release loop with `left` buffers still to look at, `idx` the slot it looks at next. */
  function ReleaseFrom(s: TxState, idx: nat, left: nat): (r: (TxState, seq<nat>))
    requires WellFormed(s) && idx < |s.desc|
    ensures WellFormed(r.0) && r.0.desc == s.desc && r.0.cur == s.cur
    decreases left
  {
    if left == 0 then (s, [])
    else if s.pkt[idx] == 0 then
      ReleaseFrom(s, Next(idx, |s.desc|), left - 1)
    else if !s.desc[idx].own then
      var next := Next(idx, |s.desc|);
      var r := ReleaseFrom(s.(pkt := s.pkt[idx := 0], inUse := left - 1, rel := next), next, left - 1);
      (r.0, [s.pkt[idx]] + r.1)
    else (s, [])
  }

  /** The loop as it is written, with the bit mask for the step to the next slot. */
  function ReleaseMasked(s: TxState, idx: nat, left: nat): (r: (TxState, seq<nat>))
    requires WellFormed(s) && idx < |s.desc|
    ensures WellFormed(r.0) && r.0.desc == s.desc && r.0.cur == s.cur
    decreases left
  {
    if left == 0 then (s, [])
    else if s.pkt[idx] == 0 then
      ReleaseMasked(s, MaskNext(idx, |s.desc|), left - 1)
    else if !s.desc[idx].own then
      var next := MaskNext(idx, |s.desc|);
      var r := ReleaseMasked(s.(pkt := s.pkt[idx := 0], inUse := left - 1, rel := next), next, left - 1);
      (r.0, [s.pkt[idx]] + r.1)
    else (s, [])
  }

  lemma {:induction false} MaskedIsRelease(s: TxState, idx: nat, left: nat)
    requires WellFormed(s) && idx < |s.desc| && PowerOfTwo(|s.desc|)
    ensures ReleaseMasked(s, idx, left) == ReleaseFrom(s, idx, left)
    decreases left
  {
    if left > 0 {
      MaskIsNextIff(|s.desc|);
      var next := MaskNext(idx, |s.desc|);
      assert next == Next(idx, |s.desc|);
      if s.pkt[idx] == 0 {
        MaskedIsRelease(s, next, left - 1);
      } else if !s.desc[idx].own {
        MaskedIsRelease(s.(pkt := s.pkt[idx := 0], inUse := left - 1, rel := next), next, left - 1);
      }
    }
  }

  /** In a ring whose size is no power of two, releasing the last slot leads the mask astray. */
  lemma MaskAstray(n: nat) returns (s: TxState)
    requires n > 0 && !PowerOfTwo(n)
    ensures WellFormed(s) && |s.desc| == n && ReleaseMasked(s, s.rel, s.inUse) != Release(s)
  {
    AndPredecessor(n);
    s := Blank(n).(pkt := Blank(n).pkt[n - 1 := 1], rel := n - 1, inUse := 1);
    assert ReleaseMasked(s, n - 1, 1).0.rel == MaskNext(n - 1, n) != 0;
    assert ReleaseFrom(s, n - 1, 1).0.rel == 0;
  }

  /** The masked loop goes around the ring slot by slot, for every state, exactly when the size is a power of two. */
  lemma MaskedReleaseIff(n: nat)
    requires n > 0
    ensures (forall s: TxState :: WellFormed(s) && |s.desc| == n ==> ReleaseMasked(s, s.rel, s.inUse) == Release(s))
            <==> PowerOfTwo(n)
  {
    if PowerOfTwo(n) {
      forall s: TxState | WellFormed(s) && |s.desc| == n
        ensures ReleaseMasked(s, s.rel, s.inUse) == Release(s)
      {
        MaskedIsRelease(s, s.rel, s.inUse);
      }
    } else {
      var s := MaskAstray(n);
    }
  }

  /** The ring after a release call, and the packets it gave to the free callback, in order. */
  function Release(s: TxState): (r: (TxState, seq<nat>))
    requires WellFormed(s)
    ensures WellFormed(r.0) && r.0.desc == s.desc && r.0.cur == s.cur
  {
    ReleaseFrom(s, s.rel, s.inUse)
  }

  // ---- specification of ETH_DMATxDescListReInit ----

  const BLANK: TxDesc := TxDesc(0, 0, 0, 0, false, false, false, false, false, 0, 0, 0, 0)

  /** The non-NULL packet pointers of the table, in slot order. */
  function Held(pkt: seq<nat>): seq<nat>
  {
    if pkt == [] then [] else Held(pkt[..|pkt| - 1]) + (if pkt[|pkt| - 1] != 0 then [pkt[|pkt| - 1]] else [])
  }

  function Blank(n: nat): TxState
  {
    TxState(seq(n, i => BLANK), seq(n, i => 0), 0, 0, 0)
  }

  // ---- the driver ----

  class TxRing {
    const n: nat
    const desc: array<TxDesc>
    const pkt: array<nat>
    var cur: nat
    var inUse: nat
    var rel: nat
    var currentPacket: nat
    var started: bool
    var errors: set<EthError>
    /** Every packet given to HAL_ETH_TxFreeCallback, oldest first. */
    var freed: seq<nat>

    ghost predicate Valid()
      reads this
    {
      desc.Length == pkt.Length == n > 0 && cur < n && rel < n
    }

    ghost function State(): (s: TxState)
      reads this, desc, pkt
      requires Valid()
      ensures WellFormed(s) && |s.desc| == n
    {
      TxState(desc[..], pkt[..], cur, inUse, rel)
    }

    constructor (n: nat)
      requires n > 0
      ensures Valid() && fresh(desc) && fresh(pkt) && this.n == n
      ensures State() == Blank(n) && freed == [] && !started && errors == {}
    {
      this.n := n;
      desc := new TxDesc[n](i => BLANK);
      pkt := new nat[n](i => 0);
      cur, inUse, rel, currentPacket, started, errors, freed := 0, 0, 0, 0, false, {}, [];
    }

    /** Fills the first descriptor of a packet and hands it to the DMA; `b` is the
        last buffer of the chain it took. */
    method FillHead(cfg: TxConfig, idx: nat) returns (b: nat)
      requires Valid() && Fits(cfg) && idx < n
      modifies desc
      ensures b == if 1 < |cfg.buffers| then 1 else 0
      ensures desc[..] == old(desc[..])[idx := Fill(old(desc[idx]), cfg, 0)]
    {
      b := 0;
      var d := desc[idx].(desc0 := cfg.buffers[b].addr, len1 := cfg.buffers[b].len);
      if b + 1 < |cfg.buffers| {
        b := b + 1;
        d := d.(desc1 := cfg.buffers[b].addr, len2 := cfg.buffers[b].len);
      } else {
        d := d.(desc1 := 0, len2 := 0);
      }
      d := d.(fl := cfg.length);
      if cfg.csum {
        d := d.(cic := cfg.checksumCtrl);
      }
      if cfg.crcPad {
        d := d.(cpc := cfg.crcPadCtrl);
      }
      d := d.(fd := true).(ctxt := false).(own := true);
      if cfg.srcAddr {
        d := d.(saic := cfg.srcAddrCtrl);
      }
      desc[idx] := d;
    }

    /** Fills descriptor `k` of a packet that continues after buffer `b0`. */
    method FillFollowing(cfg: TxConfig, idx: nat, b0: nat, ghost k: nat) returns (b: nat)
      requires Valid() && Fits(cfg) && idx < n
      requires k > 0 && b0 == 2 * k - 1 && 2 * k < |cfg.buffers| && !desc[idx].fd
      modifies desc
      ensures b == if 2 * k + 1 < |cfg.buffers| then 2 * k + 1 else 2 * k
      ensures desc[..] == old(desc[..])[idx := Fill(old(desc[idx]), cfg, k)]
    {
      b := b0 + 1;
      var d := desc[idx].(desc0 := cfg.buffers[b].addr, len1 := cfg.buffers[b].len);
      if b + 1 < |cfg.buffers| {
        b := b + 1;
        d := d.(desc1 := cfg.buffers[b].addr, len2 := cfg.buffers[b].len);
      } else {
        d := d.(desc1 := 0, len2 := 0);
      }
      d := d.(fl := cfg.length);
      if cfg.csum {
        d := d.(cic := cfg.checksumCtrl);
      }
      d := d.(own := true).(ctxt := false);
      desc[idx] := d;
    }

    /** Takes the OWN bit back from the `count` descriptors that start at `first`. */
    method Rollback(first: nat, count: nat)
      requires Valid() && first < n && count <= n
      modifies desc
      ensures desc[..] == Undone(old(desc[..]), first, count)
    {
      var descIdx := first;
      for idx := 0 to count
        invariant descIdx == At(first, idx, n)
        invariant forall i {:trigger desc[i]} :: 0 <= i < n ==>
                    desc[i] == if Dist(first, i, n) < idx then old(desc[i]).(own := false) else old(desc[i])
      {
        AtMeetsDist(first, idx, n);
        desc[descIdx] := desc[descIdx].(own := false);
        descIdx := Next(descIdx, n);
      }
      assert desc[..] == Undone(old(desc[..]), first, count);
    }

    /** Looks at the descriptor after `idx`; FD is lost before the test. */
    method NextBusy(idx: nat) returns (busy: bool)
      requires Valid() && idx < n
      modifies desc
      ensures desc[..] == Peeked(old(desc[..]), idx)
      ensures var next := Next(idx, n);
              busy <==> desc[next].own || pkt[next] != 0
    {
      desc[idx] := desc[idx].(ld := false);
      var next := Next(idx, n);
      desc[next] := desc[next].(fd := false);
      busy := desc[next].own || pkt[next] != 0;
      assert desc[..] == Peeked(old(desc[..]), idx);
    }

    /** One turn of the loop over a chain that needs more descriptors: either the layout
        grows by one, or everything filled so far is handed back. */
    method Extend(cfg: TxConfig, descIdx: nat, b0: nat, descNbr: nat, ghost s: TxState) returns (busy: bool, b: nat)
      requires Valid() && Fits(cfg) && WellFormed(s) && |s.desc| == n && s.cur == cur && pkt[..] == s.pkt
      requires 0 < descNbr < Needed(cfg) && descNbr <= FreeRun(s)
      requires descIdx == At(cur, descNbr - 1, n) && b0 == 2 * descNbr - 1
      requires Filling(s.desc, desc[..], cur, cfg, descNbr)
      modifies desc
      ensures busy <==> descNbr == FreeRun(s)
      ensures !busy ==> Filling(s.desc, desc[..], cur, cfg, descNbr + 1)
      ensures !busy ==> b == if 2 * descNbr + 1 < |cfg.buffers| then 2 * descNbr + 1 else 2 * descNbr
      ensures busy ==> desc[..] == RejectedRing(s.desc, cur, cfg, descNbr)
    {
      ghost var before := desc[..];
      NextIsBusy(s, before, cfg, descNbr);
      busy := NextBusy(descIdx);
      var next := Next(descIdx, n);
      if busy {
        Rollback(cur, descNbr);
        FillingUndone(s.desc, before, cur, cfg, descNbr);
        b := b0;
      } else {
        FillingStep(s.desc, before, cur, cfg, descNbr);
        b := FillFollowing(cfg, next, b0, descNbr);
      }
    }

    /** Lays the packet out from CurTxDesc on, or hands everything back when it meets a
        descriptor in use. */
    method LayOut(cfg: TxConfig) returns (ok: bool, descIdx: nat, bdCount: nat)
      requires Valid() && Fits(cfg) && !Busy(State(), 0)
      modifies desc
      ensures ok <==> Needed(cfg) <= FreeRun(old(State()))
      ensures ok ==> Filling(old(desc[..]), desc[..], cur, cfg, Needed(cfg))
      ensures ok ==> bdCount == Needed(cfg) - 1 && descIdx == At(cur, bdCount, n)
      ensures !ok ==> desc[..] == RejectedRing(old(desc[..]), cur, cfg, FreeRun(old(State())))
    {
      ghost var s := State();
      var descNbr := 1;
      descIdx, bdCount := cur, 0;
      var b := FillHead(cfg, descIdx);
      FillingStart(s.desc, cur, cfg);
      while b + 1 < |cfg.buffers|
        invariant 1 <= descNbr <= FreeRun(s) && descNbr <= Needed(cfg)
        invariant bdCount == descNbr - 1 && descIdx == At(cur, bdCount, n)
        invariant b == if 2 * descNbr - 1 < |cfg.buffers| then 2 * descNbr - 1 else |cfg.buffers| - 1
        invariant Filling(s.desc, desc[..], cur, cfg, descNbr)
        decreases |cfg.buffers| - b
      {
        var busy;
        busy, b := Extend(cfg, descIdx, b, descNbr, s);
        if busy {
          ok := false;
          return;
        }
        descIdx := Next(descIdx, n);
        descNbr := descNbr + 1;
        bdCount := bdCount + 1;
      }
      ok := true;
    }

    /** ETH_Prepare_Tx_Descriptors: on success CurTxDesc is left on the last descriptor
        of the packet and the caller moves it one further. */
    method Prepare(cfg: TxConfig, itMode: bool) returns (ok: bool)
      requires Valid() && Fits(cfg) && currentPacket == cfg.pData
      modifies this`cur, this`inUse, desc, pkt
      ensures Valid()
      ensures ok <==> Needed(cfg) <= FreeRun(old(State()))
      ensures !ok ==> State() == Transmit(old(State()), cfg, itMode)
      ensures ok ==> State().(cur := Next(cur, n)) == Transmit(old(State()), cfg, itMode)
    {
      ghost var s := State();
      assert Busy(s, 0) <==> desc[cur].own || pkt[cur] != 0;
      if desc[cur].own || pkt[cur] != 0 {
        TransmitBlocked(s, cfg, itMode);
        return false;
      }
      var descIdx, bdCount;
      ok, descIdx, bdCount := LayOut(cfg);
      if !ok {
        return;
      }
      FillingDone(s.desc, desc[..], cur, cfg, itMode);
      Commit(descIdx, bdCount, itMode);
    }

    /** Marks the last descriptor and enters the packet in the table. */
    method Commit(descIdx: nat, bdCount: nat, itMode: bool)
      requires Valid() && descIdx < n
      modifies this`cur, this`inUse, desc, pkt
      ensures Valid()
      ensures desc[..] == old(desc[..])[descIdx := old(desc[descIdx]).(ioc := itMode, ld := true)]
      ensures pkt[..] == old(pkt[..])[descIdx := currentPacket]
      ensures cur == descIdx && inUse == old(inUse) + bdCount + 1
    {
      desc[descIdx] := desc[descIdx].(ioc := itMode);
      desc[descIdx] := desc[descIdx].(ld := true);
      pkt[descIdx] := currentPacket;
      cur := descIdx;
      inUse := inUse + bdCount + 1;
    }

    /** HAL_ETH_Transmit_IT; `None` is a NULL configuration. */
    method TransmitIT(config: Option<TxConfig>) returns (r: Status)
      requires Valid() && (config.Some? ==> Fits(config.value))
      modifies this`cur, this`inUse, this`currentPacket, this`errors, desc, pkt
      ensures Valid()
      ensures config.None? ==> r == HalError && State() == old(State()) && errors == old(errors) + {ErrorParam}
      ensures config.Some? && !started ==> r == HalError && State() == old(State()) && errors == old(errors)
      ensures config.Some? && started ==>
                && State() == Transmit(old(State()), config.value, true)
                && (r == HalOk <==> Needed(config.value) <= FreeRun(old(State())))
                && errors == old(errors) + (if r == HalOk then {} else {ErrorBusy})
    {
      if config.None? {
        errors := errors + {ErrorParam};
        return HalError;
      }
      if !started {
        return HalError;
      }
      currentPacket := config.value.pData;
      var ok := Prepare(config.value, true);
      if !ok {
        errors := errors + {ErrorBusy};
        return HalError;
      }
      cur := Next(cur, n);
      return HalOk;
    }

    /** One turn of the release loop that finds a sent packet. */
    method FreeSlot(idx: nat, numOfBuf: nat)
      requires Valid() && idx < n
      modifies this`inUse, this`rel, this`freed, pkt
      ensures Valid() && freed == old(freed + [pkt[idx]])
      ensures State() == old(State()).(pkt := old(pkt[..])[idx := 0], inUse := numOfBuf, rel := MaskNext(idx, n))
    {
      freed := freed + [pkt[idx]];
      pkt[idx] := 0;
      inUse := numOfBuf;
      rel := MaskNext(idx, n);
    }

    /** HAL_ETH_ReleaseTxPacket, in a ring of any size. */
    method ReleaseTxPacket()
      requires Valid()
      modifies this`inUse, this`rel, this`freed, pkt
      ensures Valid()
      ensures var s := old(State());
              var r := ReleaseMasked(s, s.rel, s.inUse);
              (State(), freed) == (r.0, old(freed) + r.1)
      ensures var s := old(State()); PowerOfTwo(n) ==> (State(), freed) == (Release(s).0, old(freed) + Release(s).1)
    {
      ghost var s := State();
      ghost var done := ReleaseMasked(s, s.rel, s.inUse);
      if PowerOfTwo(n) {
        MaskedIsRelease(s, s.rel, s.inUse);
      }
      assert forall l: seq<nat> :: l + [] == l;
      var numOfBuf: nat, idx: nat, pktTxStatus := inUse, rel, true;
      while numOfBuf != 0 && pktTxStatus
        invariant Valid() && idx < n
        invariant pktTxStatus ==>
                    var r := ReleaseMasked(State(), idx, numOfBuf);
                    (r.0, freed + r.1) == (done.0, old(freed) + done.1)
        invariant !pktTxStatus ==> (State(), freed) == (done.0, old(freed) + done.1)
        decreases numOfBuf, pktTxStatus
      {
        ghost var st, log := State(), freed;
        var pktInUse := true;
        numOfBuf := numOfBuf - 1;
        if pkt[idx] == 0 {
          idx := MaskNext(idx, n);
          pktInUse := false;
        }
        if pktInUse {
          if !desc[idx].own {
            FreeSlot(idx, numOfBuf);
            ghost var r := ReleaseMasked(State(), MaskNext(idx, n), numOfBuf);
            assert log + ([st.pkt[idx]] + r.1) == freed + r.1;
            idx := MaskNext(idx, n);
          } else {
            pktTxStatus := false;
            assert freed + [] == freed;
          }
        }
      }
    }

    method BlankDescriptors()
      requires Valid()
      modifies desc
      ensures desc[..] == Blank(n).desc
    {
      for i := 0 to n
        invariant forall j :: 0 <= j < i ==> desc[j] == BLANK
      {
        desc[i] := BLANK;
      }
    }

    /** Gives every packet of the table to the free callback. */
    method FreeTable()
      requires Valid()
      modifies this`freed, pkt
      ensures pkt[..] == Blank(n).pkt
      ensures freed == old(freed) + Held(old(pkt[..]))
    {
      ghost var table := pkt[..];
      for i := 0 to n
        invariant forall j :: 0 <= j < i ==> pkt[j] == 0
        invariant forall j :: i <= j < n ==> pkt[j] == table[j]
        invariant freed == old(freed) + Held(table[..i])
      {
        assert table[..i + 1][..i] == table[..i];
        if pkt[i] != 0 {
          freed := freed + [pkt[i]];
          pkt[i] := 0;
        }
      }
      assert table[..n] == table;
    }

    /** ETH_DMATxDescListReInit. */
    method ReInit()
      requires Valid()
      modifies this`cur, this`inUse, this`rel, this`freed, desc, pkt
      ensures Valid()
      ensures State() == Blank(n)
      ensures freed == old(freed) + Held(old(pkt[..]))
    {
      BlankDescriptors();
      FreeTable();
      cur := 0;
      inUse := 0;
      rel := 0;
    }
  }
}
