/** The life of transmit packets over whole runs: every mix of transmit calls, DMA
    completions, release calls and re-initialisations of the transmit ring. */
module EthTxLedger {
  import opened RingIndex
  import opened EthTx
  import opened PointerTable
  import Laws = EthTxLaws

  /** The ring, the packet pointers accepted so far and those given back so far. */
  datatype Ledger = Ledger(ring: TxState, accepted: seq<nat>, freed: seq<nat>)

  /** `Dma(i, d)` is the DMA finishing with descriptor `i` and writing `d` back to it;
      it may only touch a descriptor that it owns, and clears OWN. */
  datatype Event = Send(cfg: TxConfig) | Dma(i: nat, writeBack: TxDesc) | ReleaseCall | Restart

  ghost predicate Legal(e: Event)
  {
    e.Send? ==> Fits(e.cfg)
  }

  function Start(n: nat): Ledger
  {
    Ledger(Blank(n), [], [])
  }

  ghost function Step(l: Ledger, e: Event): Ledger
    requires WellFormed(l.ring) && Legal(e)
  {
    var s := l.ring;
    match e
    case Send(cfg) =>
      Ledger(Transmit(s, cfg, true),
             l.accepted + (if Laws.CanSend(s, cfg) && cfg.pData != 0 then [cfg.pData] else []), l.freed)
    case Dma(i, d) =>
      if i < |s.desc| && s.desc[i].own then l.(ring := s.(desc := s.desc[i := d.(own := false)])) else l
    case ReleaseCall =>
      l.(ring := Release(s).0, freed := l.freed + Release(s).1)
    case Restart =>
      l.(ring := Blank(|s.desc|), freed := l.freed + Held(s.pkt))
  }

  ghost predicate LegalRun(run: seq<Event>)
  {
    forall i {:trigger run[i]} :: 0 <= i < |run| ==> Legal(run[i])
  }

  /** The state after the events of `run`, first to last. */
  ghost function After(n: nat, run: seq<Event>): (l: Ledger)
    requires n > 0 && LegalRun(run)
    ensures WellFormed(l.ring) && |l.ring.desc| == n
  {
    if run == [] then Start(n) else Step(After(n, run[..|run| - 1]), run[|run| - 1])
  }

  // ---- the invariant ----

  /** `left` slots from `idx` on reach CurTxDesc and cover every packet in the table. */
  ghost predicate Window(s: TxState, idx: nat, left: nat)
    requires WellFormed(s) && idx < |s.desc|
  {
    && Slot(idx + left, |s.desc|) == s.cur
    && forall i {:trigger s.pkt[i]} :: 0 <= i < |s.pkt| && s.pkt[i] != 0 ==> Dist(idx, i, |s.desc|) < left
  }

  /** A packet whose slot the DMA still owns sits on its last descriptor. */
  ghost predicate OnLast(s: TxState)
    requires WellFormed(s)
  {
    forall i {:trigger s.desc[i]} :: 0 <= i < |s.desc| && s.desc[i].own && s.pkt[i] != 0 ==> s.desc[i].ld
  }

  ghost predicate NoneOwned(s: TxState)
  {
    forall i {:trigger s.desc[i]} :: 0 <= i < |s.desc| ==> !s.desc[i].own
  }

  ghost predicate NoPackets(s: TxState)
  {
    forall i {:trigger s.pkt[i]} :: 0 <= i < |s.pkt| ==> s.pkt[i] == 0
  }

  ghost predicate Inv(l: Ledger)
  {
    && WellFormed(l.ring)
    && Window(l.ring, l.ring.rel, l.ring.inUse)
    && OnLast(l.ring)
    && multiset(l.accepted) == multiset(l.freed) + InTable(l.ring.pkt)
    && 0 !in l.accepted
  }

  // ---- table bookkeeping ----

  lemma {:induction false} HeldIsTable(pkt: seq<nat>)
    ensures multiset(Held(pkt)) == InTable(pkt) && 0 !in Held(pkt)
  {
    if pkt != [] {
      var m := |pkt| - 1;
      HeldIsTable(pkt[..m]);
      assert pkt == pkt[..m] + [pkt[m]];
    }
  }

  lemma BlankTable(n: nat)
    ensures InTable(Blank(n).pkt) == multiset{}
  {
    assert forall x :: x in Blank(n).pkt ==> x == 0;
  }

  // ---- every step keeps the invariant ----

  lemma StartInv(n: nat)
    requires n > 0
    ensures Inv(Start(n))
  {
    BlankTable(n);
  }

  lemma SendInv(l: Ledger, cfg: TxConfig)
    requires Inv(l) && Fits(cfg)
    ensures Inv(Step(l, Send(cfg)))
  {
    var s, n := l.ring, |l.ring.desc|;
    var t := Transmit(s, cfg, true);
    if Laws.CanSend(s, cfg) {
      SendWindow(s, cfg);
      Laws.CanSendIff(s, cfg);
      var last := At(s.cur, Needed(cfg) - 1, n);
      assert !Busy(s, Needed(cfg) - 1);
      InTableUpdate(s.pkt, last, cfg.pData);
      forall i {:trigger t.desc[i]} | 0 <= i < n && t.desc[i].own && t.pkt[i] != 0
        ensures t.desc[i].ld
      {
        AtDist(s.cur, i, n);
        Laws.AcceptedMarks(s, cfg, Dist(s.cur, i, n));
        assert Dist(s.cur, i, n) < Needed(cfg) ==> !Busy(s, Dist(s.cur, i, n));
      }
    } else {
      Laws.RefusalKeepsOwnership(s, cfg);
      RefusalKeepsLast(s, cfg);
    }
  }

  lemma SendWindow(s: TxState, cfg: TxConfig)
    requires WellFormed(s) && Fits(cfg) && Laws.CanSend(s, cfg) && Window(s, s.rel, s.inUse)
    ensures var t := Transmit(s, cfg, true); Window(t, t.rel, t.inUse)
  {
    Laws.CanSendIff(s, cfg);
    var n, need := |s.desc|, Needed(cfg);
    SlotAdd(s.rel + s.inUse, need, n);
    LastInWindow(s, need);
  }

  /** The slot of an accepted packet lies in the window the packet extends. */
  lemma LastInWindow(s: TxState, need: nat)
    requires WellFormed(s) && 0 < need <= |s.desc| && Slot(s.rel + s.inUse, |s.desc|) == s.cur
    ensures Dist(s.rel, At(s.cur, need - 1, |s.desc|), |s.desc|) < s.inUse + need
  {
    var n, offset := |s.desc|, s.inUse + need - 1;
    if offset < n {
      SlotAdd(s.rel + s.inUse, need - 1, n);
      SlotAdd(s.rel, offset, n);
    }
  }

  lemma RefusalKeepsLast(s: TxState, cfg: TxConfig)
    requires WellFormed(s) && Fits(cfg) && !Laws.CanSend(s, cfg) && OnLast(s)
    ensures OnLast(Transmit(s, cfg, true))
  {
    Laws.CanSendIff(s, cfg);
    Laws.RefusalKeepsOwnership(s, cfg);
    var t, n := Transmit(s, cfg, true), |s.desc|;
    forall i {:trigger t.desc[i]} | 0 <= i < n && t.desc[i].own && t.pkt[i] != 0
      ensures t.desc[i].ld
    {
      AtDist(s.cur, i, n);
      assert Busy(s, Dist(s.cur, i, n));
    }
  }

  /** Both the old window and the rest of the release scan stay windows. */
  lemma {:induction false} ReleaseWindow(s: TxState, idx: nat, left: nat)
    requires WellFormed(s) && idx < |s.desc| && Window(s, s.rel, s.inUse) && Window(s, idx, left)
    ensures var t := ReleaseFrom(s, idx, left).0; Window(t, t.rel, t.inUse)
    decreases left
  {
    if left > 0 {
      var next := Next(idx, |s.desc|);
      WindowTail(s, idx, left);
      if s.pkt[idx] == 0 {
        ReleaseWindow(s, next, left - 1);
      } else if !s.desc[idx].own {
        ReleaseWindow(s.(pkt := s.pkt[idx := 0], inUse := left - 1, rel := next), next, left - 1);
      }
    }
  }

  /** What the release scan frees leaves the table, pointer by pointer. */
  lemma {:induction false} ReleaseCount(s: TxState, idx: nat, left: nat, p: nat)
    requires WellFormed(s) && idx < |s.desc| && p != 0
    ensures var (t, out) := ReleaseFrom(s, idx, left);
            Count(s.pkt, p) == Count(out, p) + Count(t.pkt, p)
    decreases left
  {
    if left > 0 {
      var next := Next(idx, |s.desc|);
      if s.pkt[idx] == 0 {
        ReleaseCount(s, next, left - 1, p);
      } else if !s.desc[idx].own {
        var s1 := s.(pkt := s.pkt[idx := 0], inUse := left - 1, rel := next);
        ReleaseCount(s1, next, left - 1, p);
        CountClear(s.pkt, idx, p);
        CountCons(s.pkt[idx], ReleaseFrom(s1, next, left - 1).1, p);
      }
    }
  }

  lemma ReleaseTable(s: TxState)
    requires WellFormed(s)
    ensures InTable(s.pkt) == multiset(Release(s).1)[0 := 0] + InTable(Release(s).0.pkt)
  {
    forall p | p != 0
      ensures InTable(s.pkt)[p] == multiset(Release(s).1)[p] + InTable(Release(s).0.pkt)[p]
    {
      ReleaseCount(s, s.rel, s.inUse, p);
      CountIsMultiset(s.pkt, p);
      CountIsMultiset(Release(s).1, p);
      CountIsMultiset(Release(s).0.pkt, p);
    }
  }

  lemma {:induction false} ReleaseNonNull(s: TxState, idx: nat, left: nat)
    requires WellFormed(s) && idx < |s.desc|
    ensures 0 !in ReleaseFrom(s, idx, left).1
    decreases left
  {
    if left > 0 {
      var next := Next(idx, |s.desc|);
      if s.pkt[idx] == 0 {
        ReleaseNonNull(s, next, left - 1);
      } else if !s.desc[idx].own {
        ReleaseNonNull(s.(pkt := s.pkt[idx := 0], inUse := left - 1, rel := next), next, left - 1);
      }
    }
  }

  /** The scan empties slots and nothing else, and spares those the DMA owns. */
  lemma {:induction false} ReleaseSpares(s: TxState, idx: nat, left: nat, i: nat)
    requires WellFormed(s) && idx < |s.desc| && i < |s.desc|
    ensures var t := ReleaseFrom(s, idx, left).0;
            t.pkt[i] == s.pkt[i] || (t.pkt[i] == 0 && !s.desc[i].own)
    decreases left
  {
    if left > 0 {
      var next := Next(idx, |s.desc|);
      if s.pkt[idx] == 0 {
        ReleaseSpares(s, next, left - 1, i);
      } else if !s.desc[idx].own {
        ReleaseSpares(s.(pkt := s.pkt[idx := 0], inUse := left - 1, rel := next), next, left - 1, i);
      }
    }
  }

  /** A window without its first slot, once that slot is empty. */
  lemma WindowTail(s: TxState, idx: nat, left: nat)
    requires WellFormed(s) && idx < |s.desc| && left > 0 && Window(s, idx, left)
    ensures var next := Next(idx, |s.desc|);
            && (s.pkt[idx] == 0 ==> Window(s, next, left - 1))
            && Window(s.(pkt := s.pkt[idx := 0], inUse := left - 1, rel := next), next, left - 1)
  {
    if idx + 1 == |s.desc| {
      SlotAdd(left - 1, |s.desc|, |s.desc|);
    }
  }

  /** When nothing is owned by the DMA the scan reaches the end and leaves no packet. */
  lemma {:induction false} ReleaseAll(s: TxState, idx: nat, left: nat)
    requires WellFormed(s) && idx < |s.desc| && Window(s, idx, left)
    requires NoneOwned(s)
    ensures NoPackets(ReleaseFrom(s, idx, left).0)
    decreases left
  {
    if left > 0 {
      var next := Next(idx, |s.desc|);
      WindowTail(s, idx, left);
      if s.pkt[idx] == 0 {
        ReleaseAll(s, next, left - 1);
      } else {
        ReleaseAll(s.(pkt := s.pkt[idx := 0], inUse := left - 1, rel := next), next, left - 1);
      }
    }
  }

  lemma ReleaseInv(l: Ledger)
    requires Inv(l)
    ensures Inv(Step(l, ReleaseCall))
  {
    var s := l.ring;
    ReleaseWindow(s, s.rel, s.inUse);
    ReleaseTable(s);
    ReleaseNonNull(s, s.rel, s.inUse);
    forall i | 0 <= i < |s.desc|
      ensures Release(s).0.pkt[i] == s.pkt[i] || Release(s).0.pkt[i] == 0
    {
      ReleaseSpares(s, s.rel, s.inUse, i);
    }
  }

  lemma DmaInv(l: Ledger, i: nat, d: TxDesc)
    requires Inv(l)
    ensures Inv(Step(l, Dma(i, d)))
  {
  }

  lemma RestartInv(l: Ledger)
    requires Inv(l)
    ensures Inv(Step(l, Restart))
  {
    HeldIsTable(l.ring.pkt);
    BlankTable(|l.ring.desc|);
  }

  lemma StepInv(l: Ledger, e: Event)
    requires Inv(l) && Legal(e)
    ensures Inv(Step(l, e))
  {
    match e
    case Send(cfg) => SendInv(l, cfg);
    case Dma(i, d) => DmaInv(l, i, d);
    case ReleaseCall => ReleaseInv(l);
    case Restart => RestartInv(l);
  }

  // ---- theorems over every run ----

  lemma {:induction false} RunInv(n: nat, run: seq<Event>)
    requires n > 0 && LegalRun(run)
    ensures Inv(After(n, run))
  {
    if run == [] {
      StartInv(n);
    } else {
      RunInv(n, run[..|run| - 1]);
      StepInv(After(n, run[..|run| - 1]), run[|run| - 1]);
    }
  }

  /** Every packet in the table lies in the window that releaseIndex, BuffersInUse and CurTxDesc span. */
  lemma RunWindow(n: nat, run: seq<Event>)
    requires n > 0 && LegalRun(run)
    ensures var s := After(n, run).ring; Window(s, s.rel, s.inUse)
  {
    RunInv(n, run);
  }

  lemma SpanEnds(n: nat, run: seq<Event>)
    requires n > 0 && LegalRun(run)
    ensures var s := After(n, run).ring; Slot(s.rel + s.inUse, n) == s.cur
  {
    RunWindow(n, run);
    WindowEnds(After(n, run).ring, n);
  }

  lemma WindowEnds(s: TxState, n: nat)
    requires WellFormed(s) && |s.desc| == n && Window(s, s.rel, s.inUse)
    ensures Slot(s.rel + s.inUse, n) == s.cur
  {
  }

  /** releaseIndex plus BuffersInUse is CurTxDesc, modulo the ring size. */
  lemma RunIndices(n: nat, run: seq<Event>)
    requires n > 0 && LegalRun(run)
    ensures var s := After(n, run).ring; (s.rel + s.inUse) % n == s.cur
  {
    SpanEnds(n, run);
    SlotIsMod(After(n, run).ring.rel + After(n, run).ring.inUse, n);
  }

  /** Nothing lost and nothing freed twice: at every moment each pointer was accepted exactly
      as often as it was freed plus the number of slots it sits in. */
  lemma RunConserves(n: nat, run: seq<Event>, p: nat)
    requires n > 0 && LegalRun(run) && p != 0
    ensures var l := After(n, run);
            multiset(l.accepted)[p] == multiset(l.freed)[p] + multiset(l.ring.pkt)[p]
  {
    RunInv(n, run);
  }

  /** A release call frees no packet whose last descriptor the DMA still owns. */
  lemma RunReleaseSparesOwned(n: nat, run: seq<Event>, i: nat)
    requires n > 0 && LegalRun(run) && i < n
    ensures var s := After(n, run).ring;
            s.pkt[i] != 0 && s.desc[i].own ==> s.desc[i].ld && Release(s).0.pkt[i] == s.pkt[i]
  {
    RunInv(n, run);
    var s := After(n, run).ring;
    ReleaseSpares(s, s.rel, s.inUse, i);
  }

  lemma NoPacketsTable(s: TxState)
    requires NoPackets(s)
    ensures InTable(s.pkt) == multiset{}
  {
    forall x | x in s.pkt
      ensures x == 0
    {
      var i :| 0 <= i < |s.pkt| && s.pkt[i] == x;
    }
  }

  lemma ReleaseDrains(l: Ledger)
    requires Inv(l) && NoneOwned(l.ring)
    ensures var l' := Step(l, ReleaseCall); NoPackets(l'.ring) && multiset(l'.freed) == multiset(l'.accepted)
  {
    ReleaseAll(l.ring, l.ring.rel, l.ring.inUse);
    StepInv(l, ReleaseCall);
    NoPacketsTable(Step(l, ReleaseCall).ring);
  }

  /** Once the DMA owns nothing, one release call gives back everything ever accepted. */
  lemma RunReleaseDrains(n: nat, run: seq<Event>)
    requires n > 0 && LegalRun(run) && NoneOwned(After(n, run).ring)
    ensures var l := Step(After(n, run), ReleaseCall);
            NoPackets(l.ring) && multiset(l.freed) == multiset(l.accepted)
  {
    RunInv(n, run);
    ReleaseDrains(After(n, run));
  }
}
