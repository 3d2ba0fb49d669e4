/** Nothing is used after it is freed: as long as the DMA finishes descriptors in ring order, every
    descriptor it owns carries buffers of a packet that is still in the table. */
module EthTxUse {
  import opened RingIndex
  import opened EthTx
  import opened EthTxLedger
  import Laws = EthTxLaws

  /** Which accepted packet a descriptor was last filled for, counted from 1, as which part of it, and the
      slot of the packet's last descriptor. */
  datatype Note = Note(packet: nat, part: nat, last: nat)

  /** One note per slot, and every packet accepted so far. */
  datatype Trace = Trace(notes: seq<Note>, log: seq<TxConfig>)

  ghost function Noted(s: TxState, tr: Trace, e: Event): Trace
    requires WellFormed(s) && |tr.notes| == |s.desc|
  {
    var n := |s.desc|;
    if e.Send? && 0 < Needed(e.cfg) && Laws.CanSend(s, e.cfg) then
      Trace(seq(n, i requires 0 <= i < n =>
                  var k := Dist(s.cur, i, n);
                  if k < Needed(e.cfg) then Note(|tr.log| + 1, k, At(s.cur, Needed(e.cfg) - 1, n)) else tr.notes[i]),
            tr.log + [e.cfg])
    else tr
  }

  ghost function Traced(n: nat, run: seq<Event>): (tr: Trace)
    requires n > 0 && LegalRun(run)
    ensures |tr.notes| == n
  {
    if run == [] then Trace(seq(n, i => Note(0, 0, 0)), [])
    else Noted(After(n, run[..|run| - 1]).ring, Traced(n, run[..|run| - 1]), run[|run| - 1])
  }

  /** No descriptor that the DMA owns was filled before descriptor `i`. */
  ghost predicate Oldest(s: TxState, i: nat)
    requires WellFormed(s) && i < |s.desc|
  {
    forall j {:trigger s.desc[j]} :: 0 <= j < |s.desc| && s.desc[j].own ==> Dist(s.cur, i, |s.desc|) <= Dist(s.cur, j, |s.desc|)
  }

  /** The DMA finishes the descriptors it owns one after the other around the ring. */
  ghost predicate RingOrder(n: nat, run: seq<Event>)
    requires n > 0 && LegalRun(run)
  {
    run == [] ||
    var before, e := run[..|run| - 1], run[|run| - 1];
    RingOrder(n, before) && (e.Dma? && e.i < n ==> Oldest(After(n, before).ring, e.i))
  }

  // ---- the invariant ----

  /** Descriptor `d` holds the buffers of part `k` of a packet, the packet's length and the controls it asks for. */
  predicate Carries(d: TxDesc, cfg: TxConfig, k: nat)
  {
    && k < Needed(cfg)
    && Buffer(d.desc0, d.len1) == cfg.buffers[2 * k]
    && Buffer(d.desc1, d.len2) == Second(cfg, k)
    && d.fl == cfg.length
    && (cfg.csum ==> d.cic == cfg.checksumCtrl)
    && (k == 0 && cfg.crcPad ==> d.cpc == cfg.crcPadCtrl)
    && (k == 0 && cfg.srcAddr ==> d.saic == cfg.srcAddrCtrl)
    && (d.ld <==> k == Needed(cfg) - 1)
    && (d.ld ==> d.ioc)
  }

  /** What the note of slot `j` says is true, and the packet it names is still in the table. */
  ghost predicate InUse(s: TxState, tr: Trace, j: nat)
    requires WellFormed(s) && |tr.notes| == |s.desc| && j < |s.desc|
  {
    var note := tr.notes[j];
    && 0 < note.packet <= |tr.log| && note.last < |s.desc|
    && Carries(s.desc[j], tr.log[note.packet - 1], note.part)
    && s.pkt[note.last] == tr.log[note.packet - 1].pData
    && Dist(s.cur, j, |s.desc|) <= Dist(s.cur, note.last, |s.desc|)
  }

  /** A packet in the table sits on its last descriptor. */
  ghost predicate Sits(s: TxState, tr: Trace, i: nat)
    requires WellFormed(s) && |tr.notes| == |s.desc| && i < |s.desc|
  {
    var note := tr.notes[i];
    0 < note.packet <= |tr.log| && note.last == i && tr.log[note.packet - 1].pData == s.pkt[i]
  }

  /** Descriptors of one packet agree on its last one. */
  ghost predicate Agree(tr: Trace)
  {
    && (forall i {:trigger tr.notes[i]} :: 0 <= i < |tr.notes| ==> tr.notes[i].packet <= |tr.log|)
    && (forall i, j {:trigger tr.notes[i], tr.notes[j]} :: 0 <= i < |tr.notes| && 0 <= j < |tr.notes| ==>
          (tr.notes[i].packet == tr.notes[j].packet != 0 ==> tr.notes[i].last == tr.notes[j].last))
  }

  /** The DMA owns the descriptors filled last. */
  ghost predicate OwnsNewest(s: TxState)
    requires WellFormed(s)
  {
    forall i, j {:trigger s.desc[i], s.desc[j]} :: 0 <= i < |s.desc| && 0 <= j < |s.desc| ==>
      (s.desc[i].own && Dist(s.cur, i, |s.desc|) <= Dist(s.cur, j, |s.desc|) ==> s.desc[j].own)
  }

  ghost predicate Tracks(s: TxState, tr: Trace)
  {
    && WellFormed(s) && |tr.notes| == |s.desc|
    && OwnsNewest(s) && Agree(tr)
    && (forall j {:trigger s.desc[j]} :: 0 <= j < |s.desc| && s.desc[j].own ==> InUse(s, tr, j))
    && (forall i {:trigger s.pkt[i]} :: 0 <= i < |s.desc| && s.pkt[i] != 0 ==> Sits(s, tr, i))
  }

  // ---- every step keeps it ----

  /** Moving CurTxDesc past `need` slots makes those the newest. */
  lemma DistMoves(cur: nat, need: nat, i: nat, n: nat)
    requires cur < n && i < n && 0 < need <= n
    ensures var k := Dist(cur, i, n);
            Dist(At(cur, need, n), i, n) == if k < need then k + n - need else k - need
  {
  }

  /** The descriptors of an accepted packet carry it. */
  lemma SendFills(s: TxState, tr: Trace, cfg: TxConfig, j: nat)
    requires WellFormed(s) && |tr.notes| == |s.desc| && Fits(cfg) && Laws.CanSend(s, cfg)
    requires j < |s.desc| && Dist(s.cur, j, |s.desc|) < Needed(cfg)
    ensures InUse(Transmit(s, cfg, true), Noted(s, tr, Send(cfg)), j)
  {
    var n, need := |s.desc|, Needed(cfg);
    Laws.CanSendIff(s, cfg);
    DistMoves(s.cur, need, j, n);
    DistMoves(s.cur, need, At(s.cur, need - 1, n), n);
  }

  /** A descriptor further on goes on carrying its packet, whose last slot is taken as well. */
  lemma SendKeeps(s: TxState, tr: Trace, cfg: TxConfig, j: nat)
    requires WellFormed(s) && |tr.notes| == |s.desc| && Fits(cfg) && Laws.CanSend(s, cfg)
    requires j < |s.desc| && Dist(s.cur, j, |s.desc|) >= Needed(cfg) && InUse(s, tr, j)
    ensures InUse(Transmit(s, cfg, true), Noted(s, tr, Send(cfg)), j)
  {
    var n, need := |s.desc|, Needed(cfg);
    Laws.CanSendIff(s, cfg);
    DistMoves(s.cur, need, j, n);
    DistMoves(s.cur, need, tr.notes[j].last, n);
    var packet := tr.notes[j].packet;
    assert Noted(s, tr, Send(cfg)).log[packet - 1] == tr.log[packet - 1];
  }

  lemma SendSlot(s: TxState, tr: Trace, cfg: TxConfig, j: nat)
    requires Tracks(s, tr) && Fits(cfg) && Laws.CanSend(s, cfg) && j < |s.desc|
    ensures var t, tr' := Transmit(s, cfg, true), Noted(s, tr, Send(cfg));
            |t.desc| == |s.desc| && (t.desc[j].own ==> InUse(t, tr', j))
  {
    if Dist(s.cur, j, |s.desc|) < Needed(cfg) {
      SendFills(s, tr, cfg, j);
    } else if s.desc[j].own {
      assert InUse(s, tr, j);
      SendKeeps(s, tr, cfg, j);
    } else {
      AtDist(s.cur, j, |s.desc|);
      Laws.AcceptedMarks(s, cfg, Dist(s.cur, j, |s.desc|));
    }
  }

  lemma SendSits(s: TxState, tr: Trace, cfg: TxConfig, i: nat)
    requires Tracks(s, tr) && Fits(cfg) && Laws.CanSend(s, cfg) && i < |s.desc|
    ensures var t := Transmit(s, cfg, true); t.pkt[i] != 0 ==> Sits(t, Noted(s, tr, Send(cfg)), i)
  {
    var n, need := |s.desc|, Needed(cfg);
    Laws.CanSendIff(s, cfg);
    AtDist(s.cur, i, n);
    if Dist(s.cur, i, n) < need {
      assert !Busy(s, Dist(s.cur, i, n));
    } else if s.pkt[i] != 0 {
      assert Sits(s, tr, i);
    }
  }

  lemma SendAgrees(s: TxState, tr: Trace, cfg: TxConfig)
    requires Tracks(s, tr) && Fits(cfg) && Laws.CanSend(s, cfg)
    ensures Agree(Noted(s, tr, Send(cfg)))
  {
  }

  lemma SendNewest(s: TxState, cfg: TxConfig)
    requires WellFormed(s) && OwnsNewest(s) && Fits(cfg) && Laws.CanSend(s, cfg)
    ensures OwnsNewest(Transmit(s, cfg, true))
  {
    var n, need, t := |s.desc|, Needed(cfg), Transmit(s, cfg, true);
    Laws.CanSendIff(s, cfg);
    forall i, j {:trigger t.desc[i], t.desc[j]} | 0 <= i < n && 0 <= j < n && t.desc[i].own && Dist(t.cur, i, n) <= Dist(t.cur, j, n)
      ensures t.desc[j].own
    {
      DistMoves(s.cur, need, i, n);
      DistMoves(s.cur, need, j, n);
    }
  }

  lemma SendTracks(s: TxState, tr: Trace, cfg: TxConfig)
    requires Tracks(s, tr) && Fits(cfg)
    ensures Tracks(Transmit(s, cfg, true), Noted(s, tr, Send(cfg)))
  {
    if Laws.CanSend(s, cfg) {
      SendNewest(s, cfg);
      SendAgrees(s, tr, cfg);
      forall j | 0 <= j < |s.desc|
        ensures var t, tr' := Transmit(s, cfg, true), Noted(s, tr, Send(cfg));
                (t.desc[j].own ==> InUse(t, tr', j)) && (t.pkt[j] != 0 ==> Sits(t, tr', j))
      {
        SendSlot(s, tr, cfg, j);
        SendSits(s, tr, cfg, j);
      }
    } else {
      RefusalTracks(s, tr, cfg);
    }
  }

  lemma RefusalTracks(s: TxState, tr: Trace, cfg: TxConfig)
    requires Tracks(s, tr) && Fits(cfg) && !Laws.CanSend(s, cfg)
    ensures Tracks(Transmit(s, cfg, true), tr)
  {
    var t, n := Transmit(s, cfg, true), |s.desc|;
    Laws.CanSendIff(s, cfg);
    Laws.RefusalKeepsOwnership(s, cfg);
    forall j {:trigger t.desc[j]} | 0 <= j < n && t.desc[j].own
      ensures InUse(t, tr, j)
    {
      assert InUse(s, tr, j);
      AtDist(s.cur, j, n);
      assert Busy(s, Dist(s.cur, j, n));
    }
    forall i, j {:trigger t.desc[i], t.desc[j]} | 0 <= i < n && 0 <= j < n && t.desc[i].own && Dist(t.cur, i, n) <= Dist(t.cur, j, n)
      ensures t.desc[j].own
    {
      assert s.desc[i].own == t.desc[i].own && s.desc[j].own == t.desc[j].own;
    }
  }

  lemma DmaTracks(s: TxState, tr: Trace, i: nat, d: TxDesc)
    requires Tracks(s, tr) && i < |s.desc| && s.desc[i].own && Oldest(s, i)
    ensures Tracks(s.(desc := s.desc[i := d.(own := false)]), tr)
  {
    var t := s.(desc := s.desc[i := d.(own := false)]);
    forall j {:trigger t.desc[j]} | 0 <= j < |s.desc| && t.desc[j].own
      ensures InUse(t, tr, j)
    {
      assert InUse(s, tr, j);
    }
  }

  /** A release call keeps the packet of every descriptor that the DMA owns, because it owns the last one too. */
  lemma ReleaseTracks(s: TxState, tr: Trace)
    requires Tracks(s, tr)
    ensures Tracks(Release(s).0, tr)
  {
    var t := Release(s).0;
    forall j {:trigger t.desc[j]} | 0 <= j < |s.desc| && t.desc[j].own
      ensures InUse(t, tr, j)
    {
      assert InUse(s, tr, j);
      var last := tr.notes[j].last;
      assert s.desc[last].own;
      ReleaseSpares(s, s.rel, s.inUse, last);
    }
    forall i {:trigger t.pkt[i]} | 0 <= i < |s.desc| && t.pkt[i] != 0
      ensures Sits(t, tr, i)
    {
      ReleaseSpares(s, s.rel, s.inUse, i);
      assert Sits(s, tr, i);
    }
  }

  lemma StepTracks(l: Ledger, tr: Trace, e: Event)
    requires Tracks(l.ring, tr) && Legal(e)
    requires e.Dma? && e.i < |l.ring.desc| ==> Oldest(l.ring, e.i)
    ensures Tracks(Step(l, e).ring, Noted(l.ring, tr, e))
  {
    match e
    case Send(cfg) => SendTracks(l.ring, tr, cfg);
    case Dma(i, d) =>
      if i < |l.ring.desc| && l.ring.desc[i].own {
        DmaTracks(l.ring, tr, i, d);
      }
    case ReleaseCall => ReleaseTracks(l.ring, tr);
    case Restart =>
  }

  lemma {:induction false} RunTracks(n: nat, run: seq<Event>)
    requires n > 0 && LegalRun(run) && RingOrder(n, run)
    ensures Tracks(After(n, run).ring, Traced(n, run))
  {
    if run != [] {
      var before := run[..|run| - 1];
      RunTracks(n, before);
      StepTracks(After(n, before), Traced(n, before), run[|run| - 1]);
    }
  }

  // ---- no use after free ----

  /** After every run in ring order, a descriptor that the DMA owns carries buffers of an accepted packet whose
      pointer is still in the table. */
  lemma RunOwnedInTable(n: nat, run: seq<Event>, j: nat)
    requires n > 0 && LegalRun(run) && RingOrder(n, run) && j < n
    ensures var s, tr := After(n, run).ring, Traced(n, run);
            s.desc[j].own ==> InUse(s, tr, j) && s.desc[tr.notes[j].last].own
  {
    RunTracks(n, run);
    var s := After(n, run).ring;
    assert s.desc[j].own ==> InUse(s, Traced(n, run), j);
  }

  /** When a release call frees the packet in slot `i`, no descriptor that the DMA owns was filled for it. */
  lemma RunNoUseAfterFree(n: nat, run: seq<Event>, i: nat, j: nat)
    requires n > 0 && LegalRun(run) && RingOrder(n, run) && i < n && j < n
    ensures var s, tr := After(n, run).ring, Traced(n, run);
            s.pkt[i] != 0 && Release(s).0.pkt[i] == 0 ==>
              Sits(s, tr, i) && (s.desc[j].own ==> tr.notes[j].packet != tr.notes[i].packet)
  {
    RunTracks(n, run);
    RunOwnedInTable(n, run, j);
    var s := After(n, run).ring;
    ReleaseSpares(s, s.rel, s.inUse, i);
  }

  /** The order matters: in a ring of two, the DMA finishes the second descriptor of a packet first; the packet
      is freed while the first descriptor still belongs to the DMA and carries its buffers. */
  lemma OutOfOrderWitness(cfg: TxConfig, d: TxDesc)
    requires Fits(cfg) && |cfg.buffers| == 3 && cfg.pData != 0
    ensures var run := [Send(cfg), Dma(1, d), ReleaseCall];
            LegalRun(run) && After(2, run).freed == [cfg.pData] &&
            var s := After(2, run).ring; s.desc[0].own && Carries(s.desc[0], cfg, 0)
  {
    var l1 := SentTwo(cfg);
    var l2 := Step(l1, Dma(1, d));
    assert [Send(cfg), Dma(1, d), ReleaseCall][..2] == [Send(cfg), Dma(1, d)];
    assert [Send(cfg), Dma(1, d)][..1] == [Send(cfg)];
    var s1 := l2.ring.(pkt := l2.ring.pkt[1 := 0], inUse := 0, rel := 0);
    assert ReleaseFrom(s1, 0, 0) == (s1, []);
    assert [cfg.pData] + [] == [cfg.pData] && !l2.ring.desc[1].own;
    assert ReleaseFrom(l2.ring, 1, 1) == (s1, [cfg.pData]);
    assert Release(l2.ring) == (s1, [cfg.pData]);
  }

  lemma SentTwo(cfg: TxConfig) returns (l: Ledger)
    requires Fits(cfg) && |cfg.buffers| == 3
    ensures LegalRun([Send(cfg)]) && l == After(2, [Send(cfg)])
    ensures var s := l.ring;
            && s.pkt == [0, cfg.pData] && s.inUse == 2 && s.rel == 0 && l.freed == []
            && |s.desc| == 2 && s.desc[0].own && s.desc[1].own && Carries(s.desc[0], cfg, 0)
  {
    var b := Blank(2);
    assert !Busy(b, 0) && !Busy(b, 1);
    Laws.CanSendIff(b, cfg);
    assert [Send(cfg)][..0] == [];
    assert After(2, []) == Start(2);
    l := Step(Start(2), Send(cfg));
  }
}
