/** What a single transmit call promises: when it accepts, what the DMA then reads,
    and what a refusal leaves behind. */
module EthTxLaws {
  import opened RingIndex
  import opened EthTx

  /** Enough usable descriptors in a row start at CurTxDesc. */
  ghost predicate CanSend(s: TxState, cfg: TxConfig)
    requires WellFormed(s)
  {
    Needed(cfg) <= |s.desc| && forall k {:trigger Busy(s, k)} :: 0 <= k < Needed(cfg) ==> !Busy(s, k)
  }

  lemma CanSendIff(s: TxState, cfg: TxConfig)
    requires WellFormed(s)
    ensures CanSend(s, cfg) <==> Needed(cfg) <= FreeRun(s)
  {
    if FreeRun(s) < Needed(cfg) <= |s.desc| {
      assert Busy(s, FreeRun(s));
    }
  }

  /** A new ring: every word of every descriptor is zero, the table is empty and the indices are zero. */
  lemma BlankIsZero(n: nat, i: nat)
    requires i < n
    ensures var s := Blank(n);
            && |s.desc| == |s.pkt| == n && (s.cur, s.inUse, s.rel) == (0, 0, 0) && s.pkt[i] == 0
            && s.desc[i] == TxDesc(0, 0, 0, 0, false, false, false, false, false, 0, 0, 0, 0)
  {
  }

  // ---- what the DMA reads ----

  /** The gather list of one descriptor; an absent second buffer has address and length zero. */
  function Gather(d: TxDesc): seq<Buffer>
  {
    [Buffer(d.desc0, d.len1)] + (if d.desc1 == 0 && d.len2 == 0 then [] else [Buffer(d.desc1, d.len2)])
  }

  /** The gather list of `count` descriptors from slot `from` on. */
  function Gathered(d: seq<TxDesc>, from: nat, count: nat): seq<Buffer>
    requires from < |d| && count <= |d|
  {
    if count == 0 then [] else Gathered(d, from, count - 1) + Gather(d[At(from, count - 1, |d|)])
  }

  /** No buffer in second position is the null buffer. */
  ghost predicate SecondsPresent(cfg: TxConfig, count: nat)
  {
    forall k {:trigger Second(cfg, k)} :: 0 <= k < count && 2 * k + 1 < |cfg.buffers| ==> Second(cfg, k) != Buffer(0, 0)
  }

  /** Descriptor `k` of an accepted packet carries buffers `2k` and `2k + 1` of the chain. */
  lemma GatherOfSlot(d: seq<TxDesc>, from: nat, cfg: TxConfig, it: bool, k: nat)
    requires from < |d| && k < Needed(cfg) <= |d|
    ensures Gather(AcceptedRing(d, from, cfg, it)[At(from, k, |d|)]) ==
            [cfg.buffers[2 * k]] + (if Second(cfg, k) == Buffer(0, 0) then [] else [Second(cfg, k)])
  {
    assert AcceptedRing(d, from, cfg, it)[At(from, k, |d|)] == Accepted(d[At(from, k, |d|)], cfg, it, k);
  }

  /** How much of the chain the first `count` descriptors hold. */
  function Covered(cfg: TxConfig, count: nat): nat
  {
    if 2 * count <= |cfg.buffers| then 2 * count else |cfg.buffers|
  }

  lemma CoveredStep(cfg: TxConfig, k: nat)
    requires k < Needed(cfg)
    ensures cfg.buffers[..Covered(cfg, k + 1)] == cfg.buffers[..Covered(cfg, k)] +
            ([cfg.buffers[2 * k]] + (if 2 * k + 1 < |cfg.buffers| then [Second(cfg, k)] else []))
  {
  }

  lemma {:induction false} GatheredPrefix(d: seq<TxDesc>, from: nat, cfg: TxConfig, it: bool, count: nat)
    requires from < |d| && count <= Needed(cfg) <= |d| && SecondsPresent(cfg, count)
    ensures Gathered(AcceptedRing(d, from, cfg, it), from, count) == cfg.buffers[..Covered(cfg, count)]
  {
    if count > 0 {
      var k := count - 1;
      GatheredPrefix(d, from, cfg, it, k);
      GatherOfSlot(d, from, cfg, it, k);
      CoveredStep(cfg, k);
      assert SecondsPresent(cfg, k);
    }
  }

  lemma {:induction false} GatheredLength(d: seq<TxDesc>, from: nat, cfg: TxConfig, it: bool, count: nat)
    requires from < |d| && count <= Needed(cfg) <= |d|
    ensures var l := |Gathered(AcceptedRing(d, from, cfg, it), from, count)|;
            l <= Covered(cfg, count) && (l == Covered(cfg, count) ==> SecondsPresent(cfg, count))
  {
    if count > 0 {
      GatheredLength(d, from, cfg, it, count - 1);
      GatherOfSlot(d, from, cfg, it, count - 1);
    }
  }

  /** Decoding the descriptors of an accepted packet gives its buffer chain back, in order,
      exactly when no buffer in second position is null. */
  lemma DecodeAccepted(s: TxState, cfg: TxConfig)
    requires WellFormed(s) && |cfg.buffers| > 0 && CanSend(s, cfg)
    ensures Gathered(Transmit(s, cfg, true).desc, s.cur, Needed(cfg)) == cfg.buffers <==> SecondsPresent(cfg, Needed(cfg))
  {
    CanSendIff(s, cfg);
    if SecondsPresent(cfg, Needed(cfg)) {
      GatheredPrefix(s.desc, s.cur, cfg, true, Needed(cfg));
    }
    GatheredLength(s.desc, s.cur, cfg, true, Needed(cfg));
    assert cfg.buffers[..|cfg.buffers|] == cfg.buffers;
  }

  /** An accepted packet owns its descriptors, is marked first only on the first and last only
      on the last, asks for an interrupt on the last, and every other descriptor is untouched. */
  lemma AcceptedMarks(s: TxState, cfg: TxConfig, k: nat)
    requires WellFormed(s) && |cfg.buffers| > 0 && CanSend(s, cfg) && k < |s.desc|
    ensures var t, i := Transmit(s, cfg, true), At(s.cur, k, |s.desc|);
            if k < Needed(cfg) then
              && t.desc[i].own && !t.desc[i].ctxt
              && (t.desc[i].fd <==> k == 0)
              && (t.desc[i].ld <==> k == Needed(cfg) - 1)
              && (k == Needed(cfg) - 1 ==> t.desc[i].ioc && t.pkt[i] == cfg.pData)
            else t.desc[i] == s.desc[i] && t.pkt[i] == s.pkt[i]
    ensures var t := Transmit(s, cfg, true);
            t.cur == At(s.cur, Needed(cfg), |s.desc|) && t.inUse == s.inUse + Needed(cfg) && t.rel == s.rel
  {
    CanSendIff(s, cfg);
    AtMeetsDist(s.cur, k, |s.desc|);
  }

  /** Every descriptor of an accepted packet carries its two buffers, the packet length and the checksum
      control; the first one also the CRC and source address control. What the packet does not ask for stays. */
  lemma AcceptedFields(s: TxState, cfg: TxConfig, k: nat)
    requires WellFormed(s) && CanSend(s, cfg) && k < Needed(cfg)
    ensures var i := At(s.cur, k, |s.desc|);
            var d, was := Transmit(s, cfg, true).desc[i], s.desc[i];
            && (d.desc0, d.len1) == (cfg.buffers[2 * k].addr, cfg.buffers[2 * k].len)
            && (2 * k + 1 < |cfg.buffers| ==> (d.desc1, d.len2) == (cfg.buffers[2 * k + 1].addr, cfg.buffers[2 * k + 1].len))
            && (2 * k + 1 == |cfg.buffers| ==> (d.desc1, d.len2) == (0, 0))
            && d.fl == cfg.length
            && d.cic == (if cfg.csum then cfg.checksumCtrl else was.cic)
            && d.cpc == (if cfg.crcPad && k == 0 then cfg.crcPadCtrl else was.cpc)
            && d.saic == (if cfg.srcAddr && k == 0 then cfg.srcAddrCtrl else was.saic)
            && d.ioc == (k == Needed(cfg) - 1 || was.ioc)
  {
    CanSendIff(s, cfg);
    AtMeetsDist(s.cur, k, |s.desc|);
  }

  // ---- what a refusal leaves behind ----

  /** A refused packet changes no OWN bit, no packet slot and no index. */
  lemma RefusalKeepsOwnership(s: TxState, cfg: TxConfig)
    requires WellFormed(s) && |cfg.buffers| > 0 && !CanSend(s, cfg)
    ensures var t := Transmit(s, cfg, true);
            && (t.pkt, t.cur, t.inUse, t.rel) == (s.pkt, s.cur, s.inUse, s.rel)
            && forall i {:trigger t.desc[i]} :: 0 <= i < |s.desc| ==> t.desc[i].own == s.desc[i].own
  {
    CanSendIff(s, cfg);
    var t := Transmit(s, cfg, true);
    forall i {:trigger t.desc[i]} | 0 <= i < |s.desc|
      ensures t.desc[i].own == s.desc[i].own
    {
      var k := Dist(s.cur, i, |s.desc|);
      AtDist(s.cur, i, |s.desc|);
      if k < FreeRun(s) {
        assert !Busy(s, k);
      }
    }
  }

  /** A refusal leaves every descriptor that the DMA owns as it was, except that it takes the FD mark
      from the first descriptor of a packet in flight when that is the one that stopped the fill. */
  lemma RefusalHarmsInFlightIff(s: TxState, cfg: TxConfig)
    requires WellFormed(s) && |cfg.buffers| > 0 && !CanSend(s, cfg)
    ensures var t, m, n := Transmit(s, cfg, true), FreeRun(s), |s.desc|;
            (forall i {:trigger t.desc[i]} :: 0 <= i < n && s.desc[i].own ==> t.desc[i] == s.desc[i])
            <==> !(0 < m < n && s.desc[At(s.cur, m, n)].own && s.desc[At(s.cur, m, n)].fd)
  {
    CanSendIff(s, cfg);
    var t, m, n := Transmit(s, cfg, true), FreeRun(s), |s.desc|;
    forall i {:trigger t.desc[i]} | 0 <= i < n && s.desc[i].own
      ensures t.desc[i] == if 0 < m && i == At(s.cur, m, n) then s.desc[i].(fd := false) else s.desc[i]
    {
      var k := Dist(s.cur, i, n);
      AtDist(s.cur, i, n);
      AtMeetsDist(s.cur, m, n);
      assert Busy(s, k);
    }
    if 0 < m < n {
      var stop := At(s.cur, m, n);
      assert s.desc[stop].own ==> t.desc[stop] == s.desc[stop].(fd := false);
    }
    if m == n {
      forall k | 0 <= k < n
        ensures !s.desc[At(s.cur, k, n)].own
      {
        assert !Busy(s, k);
      }
      forall i | 0 <= i < n
        ensures !s.desc[i].own
      {
        AtDist(s.cur, i, n);
      }
    }
  }

  /** The harm is reachable: in a ring of two, a packet is in flight and a second one
      that needs both descriptors is refused; the first has then lost its FD mark. */
  lemma RefusalHarmsInFlightWitness(one: TxConfig, two: TxConfig)
    requires |one.buffers| == 1 && |two.buffers| == 3
    ensures var s := Transmit(Blank(2), one, true);
            var t := Transmit(s, two, true);
            && s.desc[0].own && s.desc[0].fd
            && !CanSend(s, two)
            && t.desc[0] == s.desc[0].(fd := false)
  {
    var b := Blank(2);
    assert !Busy(b, 0);
    var s := Transmit(b, one, true);
    assert !Busy(s, 0) && Busy(s, 1);
    assert FreeRun(s) == 1;
    CanSendIff(s, two);
  }
}
