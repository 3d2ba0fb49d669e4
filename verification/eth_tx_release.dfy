/** How far a release call gets: it frees every packet up to the first one that the DMA still owns, and the
    release index moves just past the last one freed. */
module EthTxRelease {
  import opened RingIndex
  import opened EthTx
  import opened EthTxLedger

  /** Slot number `k` from the release index on is the first that holds a packet, and the DMA owns it. */
  ghost predicate FirstIsOwned(s: TxState, k: nat)
    requires WellFormed(s)
  {
    && k < |s.desc|
    && (forall j {:trigger At(s.rel, j, |s.desc|)} :: 0 <= j < k ==> s.pkt[At(s.rel, j, |s.desc|)] == 0)
    && s.pkt[At(s.rel, k, |s.desc|)] != 0 && s.desc[At(s.rel, k, |s.desc|)].own
  }

  /** Nothing is left that could be released. */
  ghost predicate Exhausted(s: TxState)
    requires WellFormed(s)
  {
    NoPackets(s) || exists k :: FirstIsOwned(s, k)
  }

  /** The `d` slots from the release index on are empty. */
  ghost predicate Skipped(s: TxState, d: nat)
    requires WellFormed(s) && d <= |s.desc|
  {
    forall j {:trigger At(s.rel, j, |s.desc|)} :: 0 <= j < d ==> s.pkt[At(s.rel, j, |s.desc|)] == 0
  }

  lemma AllSkipped(s: TxState)
    requires WellFormed(s) && Skipped(s, |s.desc|)
    ensures NoPackets(s)
  {
    forall i {:trigger s.pkt[i]} | 0 <= i < |s.pkt|
      ensures s.pkt[i] == 0
    {
      AtDist(s.rel, i, |s.desc|);
    }
  }

  lemma {:induction false} NothingToRelease(s: TxState, idx: nat, left: nat)
    requires WellFormed(s) && idx < |s.desc| && NoPackets(s)
    ensures ReleaseFrom(s, idx, left) == (s, [])
    decreases left
  {
    if left > 0 {
      NothingToRelease(s, Next(idx, |s.desc|), left - 1);
    }
  }

  /** A window without a slot in it covers no packet. */
  lemma EmptyWindow(s: TxState, idx: nat)
    requires WellFormed(s) && idx < |s.desc| && Window(s, idx, 0)
    ensures NoPackets(s)
  {
  }

  /** The scan stands `d` slots after the release index and has found those empty. */
  lemma {:induction false} ScanExhausts(s: TxState, idx: nat, left: nat, d: nat)
    requires WellFormed(s) && idx < |s.desc| && Window(s, idx, left)
    requires d <= |s.desc| && idx == At(s.rel, d, |s.desc|) && Skipped(s, d)
    ensures Exhausted(ReleaseFrom(s, idx, left).0)
    decreases left
  {
    var n := |s.desc|;
    if left == 0 {
      EmptyWindow(s, idx);
    } else if d == n {
      AllSkipped(s);
      NothingToRelease(s, idx, left);
    } else {
      var next := Next(idx, n);
      WindowTail(s, idx, left);
      if s.pkt[idx] == 0 {
        assert next == At(s.rel, d + 1, n);
        ScanExhausts(s, next, left - 1, d + 1);
      } else if !s.desc[idx].own {
        ScanExhausts(s.(pkt := s.pkt[idx := 0], inUse := left - 1, rel := next), next, left - 1, 0);
      } else {
        assert FirstIsOwned(s, d);
      }
    }
  }

  /** After a release call no packet is left, or the first one left is still owned by the DMA. */
  lemma ReleaseExhausts(s: TxState)
    requires WellFormed(s) && Window(s, s.rel, s.inUse)
    ensures Exhausted(Release(s).0)
  {
    ScanExhausts(s, s.rel, s.inUse, 0);
  }

  /** Over every run, a release call frees everything that can be freed in order. */
  lemma RunReleaseExhausts(n: nat, run: seq<Event>)
    requires n > 0 && LegalRun(run)
    ensures Exhausted(Step(After(n, run), ReleaseCall).ring)
  {
    RunInv(n, run);
    ReleaseExhausts(After(n, run).ring);
  }

  // ---- the indices ----

  /** `t` is `s` with the release index moved `d` slots, just past a slot that was emptied. */
  ghost predicate Moved(s: TxState, t: TxState, d: nat)
    requires WellFormed(s) && WellFormed(t) && |t.desc| == |s.desc|
  {
    && d <= s.inUse && t.inUse == s.inUse - d && t.rel == Slot(s.rel + d, |s.desc|)
    && (d > 0 ==> var last := Slot(s.rel + d - 1, |s.desc|); s.pkt[last] != 0 && t.pkt[last] == 0)
  }

  /** Moves add up: past the slot `passed` slots on, which is emptied, and `more` slots from there. */
  lemma MovesAdd(s: TxState, s1: TxState, t: TxState, passed: nat, more: nat)
    requires WellFormed(s) && WellFormed(s1) && WellFormed(t) && |t.desc| == |s1.desc| == |s.desc| && passed < s.inUse
    requires var idx := Slot(s.rel + passed, |s.desc|);
             && s.pkt[idx] != 0 && t.pkt[idx] == 0
             && s1 == s.(pkt := s.pkt[idx := 0], inUse := s.inUse - passed - 1, rel := Slot(s.rel + passed + 1, |s.desc|))
    requires Moved(s1, t, more)
    ensures Moved(s, t, passed + 1 + more)
  {
    var n := |s.desc|;
    SlotShift(s.rel + passed + 1, more, n);
    if more > 0 {
      SlotShift(s.rel + passed + 1, more - 1, n);
    }
  }

  /** A scan that has passed some slots since the release index. */
  lemma {:induction false} ScanMoves(s: TxState, idx: nat, left: nat) returns (d: nat)
    requires WellFormed(s) && idx < |s.desc| && left <= s.inUse && idx == Slot(s.rel + s.inUse - left, |s.desc|)
    ensures Moved(s, ReleaseFrom(s, idx, left).0, d) && (d == 0 <==> ReleaseFrom(s, idx, left).1 == [])
    decreases left
  {
    var n := |s.desc|;
    d := 0;
    if left > 0 {
      var next, passed := Next(idx, n), s.inUse - left;
      assert next == Slot(s.rel + passed + 1, n) by {
        SlotAdd(s.rel + passed, 1, n);
      }
      if s.pkt[idx] == 0 {
        d := ScanMoves(s, next, left - 1);
      } else if !s.desc[idx].own {
        var s1 := s.(pkt := s.pkt[idx := 0], inUse := left - 1, rel := next);
        var more := ScanMoves(s1, next, left - 1);
        var t := ReleaseFrom(s1, next, left - 1).0;
        assert t.pkt[idx] == 0 by {
          ScanKeepsEmpty(s1, next, left - 1, idx);
        }
        d := passed + 1 + more;
        MovesAdd(s, s1, t, passed, more);
      }
    }
  }

  lemma {:induction false} SlotShift(t: nat, k: nat, n: nat)
    requires n > 0
    ensures Slot(Slot(t, n) + k, n) == Slot(t + k, n)
    decreases t
  {
    if t >= n {
      SlotShift(t - n, k, n);
      assert Slot(t + k, n) == Slot(t + k - n, n);
    }
  }

  lemma ScanKeepsEmpty(s: TxState, idx: nat, left: nat, i: nat)
    requires WellFormed(s) && idx < |s.desc| && i < |s.desc| && s.pkt[i] == 0
    ensures ReleaseFrom(s, idx, left).0.pkt[i] == 0
  {
    ReleaseSpares(s, idx, left, i);
  }

  /** A release call that frees nothing leaves the indices; any other moves the release index just past the last
      slot it empties and takes the slots passed out of BuffersInUse. */
  lemma ReleaseMoves(s: TxState) returns (d: nat)
    requires WellFormed(s)
    ensures Moved(s, Release(s).0, d) && (d == 0 <==> Release(s).1 == [])
  {
    d := ScanMoves(s, s.rel, s.inUse);
  }
}
