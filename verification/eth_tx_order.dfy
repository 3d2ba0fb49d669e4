/** The order in which packets are given back. It is first in, first out exactly as long as no packet
    is laid out in front of waiting ones and no restart finds waiting packets on both sides of the
    table's end. */
module EthTxOrder {
  import opened RingIndex
  import opened EthTx
  import opened EthTxLedger
  import Laws = EthTxLaws

  /** The packets of `count` slots from slot `from` on, in slot order. */
  function InOrder(pkt: seq<nat>, from: nat, count: nat): seq<nat>
    requires from < |pkt|
    decreases count
  {
    if count == 0 then []
    else (if pkt[from] != 0 then [pkt[from]] else []) + InOrder(pkt, Next(from, |pkt|), count - 1)
  }

  /** The packets in the table in the order in which the release loop meets them. */
  function Waiting(s: TxState): seq<nat>
    requires WellFormed(s)
  {
    InOrder(s.pkt, s.rel, |s.pkt|)
  }

  lemma {:induction false} InOrderSplit(pkt: seq<nat>, from: nat, a: nat, b: nat)
    requires from < |pkt| && a + b <= |pkt|
    ensures InOrder(pkt, from, a + b) == InOrder(pkt, from, a) + InOrder(pkt, At(from, a, |pkt|), b)
    decreases a
  {
    if a > 0 {
      InOrderSplit(pkt, Next(from, |pkt|), a - 1, b);
    }
  }

  /** The scan depends only on the slots it passes. */
  lemma {:induction false} InOrderFrame(pkt: seq<nat>, pkt': seq<nat>, from: nat, count: nat)
    requires from < |pkt| == |pkt'| && count <= |pkt|
    requires forall k {:trigger At(from, k, |pkt|)} :: 0 <= k < count ==> pkt[At(from, k, |pkt|)] == pkt'[At(from, k, |pkt|)]
    ensures InOrder(pkt, from, count) == InOrder(pkt', from, count)
    decreases count
  {
    if count > 0 {
      assert pkt[At(from, 0, |pkt|)] == pkt'[At(from, 0, |pkt|)];
      var next := Next(from, |pkt|);
      forall k {:trigger At(next, k, |pkt|)} | 0 <= k < count - 1
        ensures pkt[At(next, k, |pkt|)] == pkt'[At(next, k, |pkt|)]
      {
        assert At(next, k, |pkt|) == At(from, k + 1, |pkt|);
      }
      InOrderFrame(pkt, pkt', next, count - 1);
    }
  }

  lemma {:induction false} InOrderNull(pkt: seq<nat>, from: nat, count: nat)
    requires from < |pkt| && count <= |pkt|
    requires forall k {:trigger At(from, k, |pkt|)} :: 0 <= k < count ==> pkt[At(from, k, |pkt|)] == 0
    ensures InOrder(pkt, from, count) == []
    decreases count
  {
    if count > 0 {
      assert pkt[At(from, 0, |pkt|)] == 0;
      var next := Next(from, |pkt|);
      forall k {:trigger At(next, k, |pkt|)} | 0 <= k < count - 1
        ensures pkt[At(next, k, |pkt|)] == 0
      {
        assert At(next, k, |pkt|) == At(from, k + 1, |pkt|);
      }
      InOrderNull(pkt, next, count - 1);
    }
  }

  /** A scan over the whole ring may start one slot later when the slot skipped is empty. */
  lemma InOrderRotate(pkt: seq<nat>, from: nat)
    requires from < |pkt| && pkt[from] == 0
    ensures InOrder(pkt, Next(from, |pkt|), |pkt|) == InOrder(pkt, from, |pkt|)
  {
    var n, next := |pkt|, Next(from, |pkt|);
    InOrderSplit(pkt, next, n - 1, 1);
    assert At(next, n - 1, n) == from;
    assert InOrder(pkt, from, 1) == [];
  }

  /** The scan over the whole ring, taken apart at the slot it meets after `k` others. */
  lemma InOrderAround(pkt: seq<nat>, from: nat, k: nat)
    requires from < |pkt| && k < |pkt|
    ensures var mid := At(from, k, |pkt|);
            InOrder(pkt, from, |pkt|) == InOrder(pkt, from, k) +
            ((if pkt[mid] != 0 then [pkt[mid]] else []) + InOrder(pkt, At(from, k + 1, |pkt|), |pkt| - k - 1))
  {
    InOrderSplit(pkt, from, k, |pkt| - k);
    assert Next(At(from, k, |pkt|), |pkt|) == At(from, k + 1, |pkt|);
  }

  /** One slot of the packet table is written; the scan from `from` meets it after `k` others. */
  lemma InOrderInsert(pkt: seq<nat>, from: nat, k: nat, p: nat)
    requires from < |pkt| && k < |pkt| && p != 0 && pkt[At(from, k, |pkt|)] == 0
    ensures InOrder(pkt[At(from, k, |pkt|) := p], from, |pkt|) ==
            InOrder(pkt, from, k) + ([p] + InOrder(pkt, At(from, k + 1, |pkt|), |pkt| - k - 1))
  {
    var n, pkt' := |pkt|, pkt[At(from, k, |pkt|) := p];
    InOrderAround(pkt', from, k);
    InOrderFrame(pkt, pkt', from, k);
    InOrderFrame(pkt, pkt', At(from, k + 1, n), n - k - 1);
  }

  lemma Regroup(a: seq<nat>, p: nat, b: seq<nat>)
    ensures a + [p] + b == a + ([p] + b) && a + ([] + b) == a + b && a + [] + b == a + b
  {
    assert [] + b == b && a + [] == a;
  }

  /** The scan before and after an empty slot is written. */
  lemma InsertAround(pkt: seq<nat>, from: nat, k: nat, p: nat)
    requires from < |pkt| && k < |pkt| && pkt[At(from, k, |pkt|)] == 0
    ensures var a, b := InOrder(pkt, from, k), InOrder(pkt, At(from, k + 1, |pkt|), |pkt| - k - 1);
            && InOrder(pkt, from, |pkt|) == a + b
            && InOrder(pkt[At(from, k, |pkt|) := p], from, |pkt|) == a + (if p != 0 then [p] else []) + b
  {
    var a, b := InOrder(pkt, from, k), InOrder(pkt, At(from, k + 1, |pkt|), |pkt| - k - 1);
    InOrderAround(pkt, from, k);
    Regroup(a, p, b);
    if p != 0 {
      InOrderInsert(pkt, from, k, p);
    } else {
      assert pkt[At(from, k, |pkt|) := 0] == pkt;
    }
  }

  // ---- where an accepted packet goes ----

  /** The distance from the release index to the slot that takes the packet. */
  function Offset(s: TxState, cfg: TxConfig): (o: nat)
    requires WellFormed(s) && 0 < Needed(cfg) <= |s.desc|
    ensures o < |s.desc|
  {
    Dist(s.rel, At(s.cur, Needed(cfg) - 1, |s.desc|), |s.desc|)
  }

  /** The waiting packets that the release loop meets before the slot that takes the packet. */
  function Ahead(s: TxState, cfg: TxConfig): seq<nat>
    requires WellFormed(s) && 0 < Needed(cfg) <= |s.desc|
  {
    InOrder(s.pkt, s.rel, Offset(s, cfg))
  }

  /** The waiting packets that the release loop meets after it. */
  function Behind(s: TxState, cfg: TxConfig): seq<nat>
    requires WellFormed(s) && 0 < Needed(cfg) <= |s.desc|
  {
    InOrder(s.pkt, At(s.rel, Offset(s, cfg) + 1, |s.desc|), |s.desc| - Offset(s, cfg) - 1)
  }

  /** The slot that takes an accepted packet. */
  lemma SendSlot(s: TxState, cfg: TxConfig)
    requires WellFormed(s) && Fits(cfg) && Laws.CanSend(s, cfg)
    ensures 0 < Needed(cfg) <= |s.desc|
    ensures var last, t := At(s.cur, Needed(cfg) - 1, |s.desc|), Transmit(s, cfg, true);
            && s.pkt[last] == 0 && last == At(s.rel, Offset(s, cfg), |s.desc|)
            && t.pkt == s.pkt[last := cfg.pData] && t.rel == s.rel && t.inUse == s.inUse + Needed(cfg)
  {
    Laws.CanSendIff(s, cfg);
    assert !Busy(s, Needed(cfg) - 1);
    AtDist(s.rel, At(s.cur, Needed(cfg) - 1, |s.desc|), |s.desc|);
  }

  /** In every state, an accepted packet is inserted between those ahead of its slot and those behind it. */
  lemma SendPlace(s: TxState, cfg: TxConfig)
    requires WellFormed(s) && Fits(cfg) && Laws.CanSend(s, cfg)
    ensures 0 < Needed(cfg) <= |s.desc| && Waiting(s) == Ahead(s, cfg) + Behind(s, cfg)
    ensures var p := if cfg.pData != 0 then [cfg.pData] else [];
            Waiting(Transmit(s, cfg, true)) == Ahead(s, cfg) + p + Behind(s, cfg)
  {
    SendSlot(s, cfg);
    InsertAround(s.pkt, s.rel, Offset(s, cfg), cfg.pData);
  }

  lemma InsertedLastIff(a: seq<nat>, p: nat, b: seq<nat>)
    requires p !in b
    ensures a + [p] + b == a + b + [p] <==> b == []
  {
    if b != [] {
      assert (a + [p] + b)[|a|] == p && (a + b + [p])[|a|] == b[0];
    }
  }

  /** A packet that is not already waiting goes behind all others exactly when none waits behind its slot. */
  lemma SendLastIff(s: TxState, cfg: TxConfig)
    requires WellFormed(s) && Fits(cfg) && Laws.CanSend(s, cfg) && cfg.pData != 0 && cfg.pData !in Waiting(s)
    ensures 0 < Needed(cfg) <= |s.desc|
    ensures Waiting(Transmit(s, cfg, true)) == Waiting(s) + [cfg.pData] <==> Behind(s, cfg) == []
  {
    SendPlace(s, cfg);
    InsertedLastIff(Ahead(s, cfg), cfg.pData, Behind(s, cfg));
  }

  /** The window seen from the release index. */
  lemma WindowOffset(s: TxState, cfg: TxConfig)
    requires WellFormed(s) && Window(s, s.rel, s.inUse) && s.inUse <= |s.desc| && 0 < Needed(cfg) <= |s.desc|
    ensures Offset(s, cfg) ==
            if s.inUse + Needed(cfg) <= |s.desc| then s.inUse + Needed(cfg) - 1 else s.inUse + Needed(cfg) - 1 - |s.desc|
  {
    SlotAdd(s.rel, s.inUse, |s.desc|);
  }

  /** While the window still fits the ring, no packet waits behind the slot. */
  lemma GuardSuffices(s: TxState, cfg: TxConfig)
    requires WellFormed(s) && Window(s, s.rel, s.inUse) && 0 < Needed(cfg) && s.inUse + Needed(cfg) <= |s.desc|
    ensures Behind(s, cfg) == []
  {
    var n, offset := |s.desc|, Offset(s, cfg);
    WindowOffset(s, cfg);
    var from := At(s.rel, offset + 1, n);
    forall k {:trigger At(from, k, n)} | 0 <= k < n - offset - 1
      ensures s.pkt[At(from, k, n)] == 0
    {
      assert At(from, k, n) == At(s.rel, offset + 1 + k, n);
    }
    InOrderNull(s.pkt, from, n - offset - 1);
  }

  /** When the window grows past the ring, no packet waits ahead of the slot. */
  lemma WrappedAhead(s: TxState, cfg: TxConfig)
    requires WellFormed(s) && Fits(cfg) && Laws.CanSend(s, cfg)
    requires Window(s, s.rel, s.inUse) && s.inUse <= |s.desc| < s.inUse + Needed(cfg)
    ensures Needed(cfg) <= |s.desc| && Ahead(s, cfg) == []
  {
    Laws.CanSendIff(s, cfg);
    var n, offset := |s.desc|, Offset(s, cfg);
    WindowOffset(s, cfg);
    SlotAdd(s.rel, s.inUse, n);
    forall k {:trigger At(s.rel, k, n)} | 0 <= k < offset
      ensures s.pkt[At(s.rel, k, n)] == 0
    {
      assert !Busy(s, n - s.inUse + k);
      assert At(s.cur, n - s.inUse + k, n) == At(s.rel, k, n);
    }
    InOrderNull(s.pkt, s.rel, offset);
  }

  /** While the buffers in use fit the ring and some packet waits, a new one goes behind all others if and only
      if they fit the ring with it; otherwise it goes in front of all others. */
  lemma SendOrderIff(s: TxState, cfg: TxConfig)
    requires WellFormed(s) && Fits(cfg) && Laws.CanSend(s, cfg) && cfg.pData != 0 && cfg.pData !in Waiting(s)
    requires Window(s, s.rel, s.inUse) && s.inUse <= |s.desc| && Waiting(s) != []
    ensures Waiting(Transmit(s, cfg, true)) == Waiting(s) + [cfg.pData] <==> s.inUse + Needed(cfg) <= |s.desc|
    ensures s.inUse + Needed(cfg) > |s.desc| ==> Waiting(Transmit(s, cfg, true)) == [cfg.pData] + Waiting(s)
  {
    SendPlace(s, cfg);
    SendLastIff(s, cfg);
    if s.inUse + Needed(cfg) <= |s.desc| {
      GuardSuffices(s, cfg);
    } else {
      WrappedAhead(s, cfg);
    }
  }

  // ---- what a release call frees ----

  /** One turn after another: what the scan frees comes off the front of the packets it has before it. */
  lemma {:induction false} ReleaseOrder(s: TxState, idx: nat, left: nat)
    requires WellFormed(s) && idx < |s.desc| && Window(s, idx, left)
    requires Waiting(s) == InOrder(s.pkt, idx, |s.pkt|)
    ensures var (t, out) := ReleaseFrom(s, idx, left); InOrder(s.pkt, idx, |s.pkt|) == out + Waiting(t)
    decreases left
  {
    if left > 0 {
      var n, next := |s.desc|, Next(idx, |s.desc|);
      WindowTail(s, idx, left);
      if s.pkt[idx] == 0 {
        InOrderRotate(s.pkt, idx);
        ReleaseOrder(s, next, left - 1);
      } else if !s.desc[idx].own {
        var s1 := s.(pkt := s.pkt[idx := 0], inUse := left - 1, rel := next);
        InOrderFrame(s.pkt, s1.pkt, next, n - 1);
        InOrderRotate(s1.pkt, idx);
        assert InOrder(s1.pkt, next, n) == InOrder(s.pkt, next, n - 1);
        ReleaseOrder(s1, next, left - 1);
      }
    }
  }

  /** A release call takes its packets off the front of the release order. */
  lemma ReleaseFront(s: TxState)
    requires WellFormed(s) && Window(s, s.rel, s.inUse)
    ensures var (t, out) := Release(s); Waiting(s) == out + Waiting(t)
  {
    ReleaseOrder(s, s.rel, s.inUse);
  }

  // ---- what a restart frees ----

  /** The waiting packets from the release index to the end of the table, and those before the release index. */
  function High(s: TxState): seq<nat>
    requires WellFormed(s)
  {
    InOrder(s.pkt, s.rel, |s.pkt| - s.rel)
  }

  function Low(s: TxState): seq<nat>
    requires WellFormed(s)
  {
    InOrder(s.pkt, 0, s.rel)
  }

  lemma {:induction false} HeldPrefix(pkt: seq<nat>, k: nat)
    requires k <= |pkt| && pkt != []
    ensures Held(pkt[..k]) == InOrder(pkt, 0, k)
    decreases k
  {
    if k > 0 {
      HeldPrefix(pkt, k - 1);
      InOrderSplit(pkt, 0, k - 1, 1);
      assert pkt[..k][..k - 1] == pkt[..k - 1];
      assert At(0, k - 1, |pkt|) == k - 1;
    }
  }

  /** A restart frees the table in slot order, the release index notwithstanding. */
  lemma RestartOrder(s: TxState)
    requires WellFormed(s)
    ensures Waiting(s) == High(s) + Low(s) && Held(s.pkt) == Low(s) + High(s)
  {
    var n := |s.pkt|;
    InOrderSplit(s.pkt, s.rel, n - s.rel, s.rel);
    HeldPrefix(s.pkt, n);
    InOrderSplit(s.pkt, 0, s.rel, n - s.rel);
    assert s.pkt[..n] == s.pkt;
  }

  ghost predicate Distinct(xs: seq<nat>)
  {
    forall i, j :: 0 <= i < j < |xs| ==> xs[i] != xs[j]
  }

  lemma RotationIff(a: seq<nat>, b: seq<nat>)
    requires Distinct(a + b)
    ensures a + b == b + a <==> a == [] || b == []
  {
    if a != [] && b != [] {
      assert (a + b)[0] == a[0] && (a + b)[|a|] == b[0] && (b + a)[0] == b[0];
    } else if a == [] {
      assert a + b == b && b + a == b;
    } else {
      assert a + b == a && b + a == a;
    }
  }

  /** A restart frees the packets in release order exactly when they do not wait on both sides of the table's end. */
  lemma RestartOrderIff(s: TxState)
    requires WellFormed(s) && Distinct(Waiting(s))
    ensures Held(s.pkt) == Waiting(s) <==> High(s) == [] || Low(s) == []
  {
    RestartOrder(s);
    RotationIff(High(s), Low(s));
  }

  // ---- the order over whole runs ----

  /** Those freed, followed by those waiting, are those accepted. */
  ghost predicate Fifo(l: Ledger)
    requires WellFormed(l.ring)
  {
    l.accepted == l.freed + Waiting(l.ring)
  }

  ghost predicate AlwaysFifo(n: nat, run: seq<Event>)
    requires n > 0 && LegalRun(run)
  {
    Fifo(After(n, run)) && (run != [] ==> AlwaysFifo(n, run[..|run| - 1]))
  }

  /** The event does not disturb the order: a packet is refused, is NULL, or goes behind all others, and a
      restart finds the waiting packets on one side of the table's end. */
  ghost predicate Orderly(s: TxState, e: Event)
    requires WellFormed(s) && Legal(e)
  {
    match e
    case Send(cfg) =>
      Laws.CanSend(s, cfg) && cfg.pData != 0 ==> 0 < Needed(cfg) <= |s.desc| && Behind(s, cfg) == []
    case Restart => High(s) == [] || Low(s) == []
    case _ => true
  }

  ghost predicate AlwaysOrderly(n: nat, run: seq<Event>)
    requires n > 0 && LegalRun(run)
  {
    run != [] ==>
      Orderly(After(n, run[..|run| - 1]).ring, run[|run| - 1]) && AlwaysOrderly(n, run[..|run| - 1])
  }

  /** No packet is sent again while it is still waiting to be released. */
  ghost predicate NoResend(n: nat, run: seq<Event>)
    requires n > 0 && LegalRun(run)
  {
    run != [] ==>
      && NoResend(n, run[..|run| - 1])
      && (run[|run| - 1].Send? ==> run[|run| - 1].cfg.pData !in Waiting(After(n, run[..|run| - 1]).ring))
  }

  lemma AppendKeepsEqual(freed: seq<nat>, w: seq<nat>, w': seq<nat>, p: nat)
    ensures freed + w + [p] == freed + w' <==> w + [p] == w'
  {
    assert freed + w + [p] == freed + (w + [p]);
    if freed + w + [p] == freed + w' {
      assert (freed + (w + [p]))[|freed|..] == w + [p] && (freed + w')[|freed|..] == w';
    }
  }

  lemma SendFifoIff(l: Ledger, cfg: TxConfig)
    requires Inv(l) && Fifo(l) && Fits(cfg) && cfg.pData !in Waiting(l.ring)
    ensures Fifo(Step(l, Send(cfg))) <==> Orderly(l.ring, Send(cfg))
  {
    var s, t := l.ring, Transmit(l.ring, cfg, true);
    if !Laws.CanSend(s, cfg) {
      Laws.CanSendIff(s, cfg);
      Laws.RefusalKeepsOwnership(s, cfg);
      assert l.accepted + [] == l.accepted;
    } else if cfg.pData == 0 {
      SendPlace(s, cfg);
      assert l.accepted + [] == l.accepted;
      assert Ahead(s, cfg) + [] == Ahead(s, cfg);
    } else {
      SendLastIff(s, cfg);
      AppendKeepsEqual(l.freed, Waiting(s), Waiting(t), cfg.pData);
    }
  }

  lemma ReleaseFifo(l: Ledger)
    requires Inv(l) && Fifo(l)
    ensures Fifo(Step(l, ReleaseCall))
  {
    ReleaseFront(l.ring);
    var (t, out) := Release(l.ring);
    assert l.freed + (out + Waiting(t)) == (l.freed + out) + Waiting(t);
  }

  lemma BlankWaiting(n: nat)
    requires n > 0
    ensures Waiting(Blank(n)) == []
  {
    InOrderNull(Blank(n).pkt, 0, n);
  }

  lemma RestartFifoIff(l: Ledger)
    requires Inv(l) && Fifo(l) && Distinct(Waiting(l.ring))
    ensures Fifo(Step(l, Restart)) <==> Orderly(l.ring, Restart)
  {
    var s := l.ring;
    BlankWaiting(|s.desc|);
    RestartOrderIff(s);
    var held := Held(s.pkt);
    assert l.freed + held + [] == l.freed + held;
    assert (l.freed + held)[|l.freed|..] == held && (l.freed + Waiting(s))[|l.freed|..] == Waiting(s);
  }

  lemma StepFifoIff(l: Ledger, e: Event)
    requires Inv(l) && Fifo(l) && Legal(e) && Distinct(Waiting(l.ring))
    requires e.Send? ==> e.cfg.pData !in Waiting(l.ring)
    ensures Fifo(Step(l, e)) <==> Orderly(l.ring, e)
  {
    match e
    case Send(cfg) => SendFifoIff(l, cfg);
    case Dma(i, d) =>
    case ReleaseCall => ReleaseFifo(l);
    case Restart => RestartFifoIff(l);
  }

  lemma DistinctInsert(a: seq<nat>, p: nat, b: seq<nat>)
    requires Distinct(a + b) && p !in a + b
    ensures Distinct(a + [p] + b)
  {
    var xs, ys := a + b, a + [p] + b;
    forall i, j | 0 <= i < j < |ys| ensures ys[i] != ys[j] {
      assert i < |a| ==> ys[i] == xs[i];
      assert i > |a| ==> ys[i] == xs[i - 1];
      assert j < |a| ==> ys[j] == xs[j];
      assert j > |a| ==> ys[j] == xs[j - 1];
    }
  }

  lemma StepDistinct(l: Ledger, e: Event)
    requires Inv(l) && Legal(e) && Distinct(Waiting(l.ring))
    requires e.Send? ==> e.cfg.pData !in Waiting(l.ring)
    ensures Distinct(Waiting(Step(l, e).ring))
  {
    match e
    case Send(cfg) =>
      if Laws.CanSend(l.ring, cfg) {
        SendPlace(l.ring, cfg);
        DistinctInsert(Ahead(l.ring, cfg), cfg.pData, Behind(l.ring, cfg));
        assert Ahead(l.ring, cfg) + [] == Ahead(l.ring, cfg);
      } else {
        Laws.CanSendIff(l.ring, cfg);
        Laws.RefusalKeepsOwnership(l.ring, cfg);
      }
    case Dma(i, d) =>
    case ReleaseCall =>
      ReleaseFront(l.ring);
      var (t, out) := Release(l.ring);
      assert Waiting(t) == Waiting(l.ring)[|out|..];
    case Restart => BlankWaiting(|l.ring.desc|);
  }

  lemma {:induction false} RunDistinct(n: nat, run: seq<Event>)
    requires n > 0 && LegalRun(run) && NoResend(n, run)
    ensures Distinct(Waiting(After(n, run).ring))
  {
    if run == [] {
      BlankWaiting(n);
    } else {
      RunDistinct(n, run[..|run| - 1]);
      RunInv(n, run[..|run| - 1]);
      StepDistinct(After(n, run[..|run| - 1]), run[|run| - 1]);
    }
  }

  /** Over every run of transmits, completions, releases and restarts in which no waiting packet is sent again:
      packets are freed in the order in which they were accepted, at every moment, if and only if every event
      was orderly. */
  lemma {:induction false} RunFifoIff(n: nat, run: seq<Event>)
    requires n > 0 && LegalRun(run) && NoResend(n, run)
    ensures AlwaysFifo(n, run) <==> AlwaysOrderly(n, run)
  {
    if run == [] {
      BlankWaiting(n);
    } else {
      var before := run[..|run| - 1];
      RunFifoIff(n, before);
      RunInv(n, before);
      RunDistinct(n, before);
      if AlwaysFifo(n, before) {
        AlwaysFifoNow(n, before);
        StepFifoIff(After(n, before), run[|run| - 1]);
      }
    }
  }

  lemma AlwaysFifoNow(n: nat, run: seq<Event>)
    requires n > 0 && LegalRun(run) && AlwaysFifo(n, run)
    ensures Fifo(After(n, run))
  {
  }

  lemma AfterSnoc(n: nat, run: seq<Event>, e: Event)
    requires n > 0 && LegalRun(run) && Legal(e)
    ensures LegalRun(run + [e]) && After(n, run + [e]) == Step(After(n, run), e)
  {
    assert (run + [e])[..|run|] == run;
  }

  /** A packet on both descriptors of a ring of two. */
  lemma SentPair(a: TxConfig)
    requires Fits(a) && |a.buffers| == 3 && a.pData != 0
    ensures var s := Transmit(Blank(2), a, true);
            && Laws.CanSend(Blank(2), a)
            && s.desc[0].own && s.desc[1].own
            && s.pkt == [0, a.pData] && (s.cur, s.inUse, s.rel) == (0, 2, 0)
  {
    var s0 := Blank(2);
    assert !Busy(s0, 0) && !Busy(s0, 1);
    Laws.AcceptedMarks(s0, a, 0);
    Laws.AcceptedMarks(s0, a, 1);
  }

  /** The packet is completed but not released. */
  lemma CompletedPair(a: TxConfig, done: TxDesc) returns (s: TxState)
    requires Fits(a) && |a.buffers| == 3 && a.pData != 0
    ensures WellFormed(s) && s.desc == [done.(own := false), done.(own := false)]
    ensures s.pkt == [0, a.pData] && (s.cur, s.inUse, s.rel) == (0, 2, 0)
    ensures Step(Step(Step(Start(2), Send(a)), Dma(0, done)), Dma(1, done)) == Ledger(s, [a.pData], [])
  {
    SentPair(a);
    var s1, d := Transmit(Blank(2), a, true), done.(own := false);
    s := s1.(desc := s1.desc[0 := d][1 := d]);
  }

  /** A second packet takes the first descriptor and goes in front. */
  lemma OvertakingPair(s: TxState, a: nat, b: TxConfig, d: TxDesc)
    requires WellFormed(s) && s.desc == [d, d] && !d.own && s.pkt == [0, a] && (s.cur, s.inUse, s.rel) == (0, 2, 0)
    requires Fits(b) && |b.buffers| == 1 && b.pData != 0 && a != 0
    ensures var t := Transmit(s, b, true);
            Laws.CanSend(s, b) && t.pkt == [b.pData, a] && t.rel == 0 && t.desc[1] == d && |t.desc| == 2
  {
    assert !Busy(s, 0);
    SendSlot(s, b);
    Laws.AcceptedMarks(s, b, 1);
  }

  /** Once the DMA owns nothing, a release call frees exactly the waiting packets, in their order. */
  lemma DrainsInOrder(l: Ledger)
    requires Inv(l) && NoneOwned(l.ring)
    ensures Release(l.ring).1 == Waiting(l.ring)
  {
    ReleaseFront(l.ring);
    ReleaseDrains(l);
    var t := Release(l.ring).0;
    InOrderNull(t.pkt, t.rel, |t.pkt|);
  }

  /** The run of the example, up to its last completion. */
  function Overtaking(a: TxConfig, b: TxConfig, done: TxDesc): seq<Event>
  {
    [] + [Send(a)] + [Dma(0, done)] + [Dma(1, done)] + [Send(b)] + [Dma(0, done)]
  }

  lemma OvertakingSteps(a: TxConfig, b: TxConfig, done: TxDesc)
    requires Fits(a) && Fits(b)
    ensures LegalRun(Overtaking(a, b, done))
    ensures After(2, Overtaking(a, b, done)) ==
            Step(Step(Step(Step(Step(Start(2), Send(a)), Dma(0, done)), Dma(1, done)), Send(b)), Dma(0, done))
  {
    AfterSnoc(2, [], Send(a));
    AfterSnoc(2, [] + [Send(a)], Dma(0, done));
    AfterSnoc(2, [] + [Send(a)] + [Dma(0, done)], Dma(1, done));
    AfterSnoc(2, [] + [Send(a)] + [Dma(0, done)] + [Dma(1, done)], Send(b));
    AfterSnoc(2, [] + [Send(a)] + [Dma(0, done)] + [Dma(1, done)] + [Send(b)], Dma(0, done));
  }

  lemma OvertakingEnds(a: TxConfig, b: TxConfig, done: TxDesc)
    requires Fits(a) && Fits(b) && |a.buffers| == 3 && |b.buffers| == 1 && a.pData != 0 && b.pData != 0
    ensures LegalRun(Overtaking(a, b, done))
    ensures var l := After(2, Overtaking(a, b, done));
            && l.ring.pkt == [b.pData, a.pData] && l.ring.rel == 0 && NoneOwned(l.ring)
            && l.accepted == [a.pData, b.pData] && l.freed == []
  {
    OvertakingSteps(a, b, done);
    var s := CompletedPair(a, done);
    OvertakingPair(s, a.pData, b, done.(own := false));
    var t := Transmit(s, b, true);
    assert Step(Ledger(s, [a.pData], []), Send(b)) == Ledger(t, [a.pData] + [b.pData], []);
  }

  lemma InOrderPair(p: nat, q: nat)
    requires p != 0 && q != 0
    ensures InOrder([p, q], 0, 2) == [p, q]
  {
    assert InOrder([p, q], 1, 1) == [q];
  }

  /** Without the guard the order is lost: in a ring of two, a packet on both descriptors is sent and completed
      but not yet released, a second packet goes in front of it, and the next release frees the second first. */
  lemma UnguardedReorders(a: TxConfig, b: TxConfig, done: TxDesc)
    requires Fits(a) && Fits(b) && |a.buffers| == 3 && |b.buffers| == 1 && a.pData != 0 && b.pData != 0
    ensures LegalRun(Overtaking(a, b, done) + [ReleaseCall])
    ensures var l := After(2, Overtaking(a, b, done) + [ReleaseCall]);
            l.accepted == [a.pData, b.pData] && l.freed == [b.pData, a.pData]
  {
    var run := Overtaking(a, b, done);
    OvertakingEnds(a, b, done);
    AfterSnoc(2, run, ReleaseCall);
    RunInv(2, run);
    DrainsInOrder(After(2, run));
    InOrderPair(b.pData, a.pData);
  }
}
