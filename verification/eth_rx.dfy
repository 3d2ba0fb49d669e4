/** The receive descriptor ring of the Ethernet driver: linking completed descriptors
    into packets and rebuilding descriptors while allocation may fail. */
module EthRx {
  import opened Common
  import opened RingIndex

  /** A receive descriptor. `addr` is DESC0, `buf` is BackupAddr0 with 0 for none, and the
      rest is DESC3: ownership, the buffer and interrupt bits of a descriptor given to the DMA, and the first
      and last marks and packet length of one it has completed. */
  datatype RxDesc = RxDesc(addr: nat, buf: nat, own: bool, buf1v: bool, ioc: bool, fd: bool, ld: bool, pl: nat)

  /** One buffer of a received packet with the number of bytes it holds. */
  datatype Segment = Segment(buf: nat, len: nat)

  /** The packet being put together: pRxStart .. pRxEnd, RxDataLength and RxDescCnt. */
  datatype Link = Link(chain: seq<Segment>, dataLen: nat, descCnt: nat)

  datatype RxState = RxState(desc: seq<RxDesc>, idx: nat, buildIdx: nat, buildCnt: nat, link: Link)

  const BLANK: RxDesc := RxDesc(0, 0, false, false, false, false, false, 0)

  const EMPTY_LINK: Link := Link([], 0, 0)

  /** Truncation to uint32_t. */
  function U32(x: int): nat
  {
    x % 0x1_0000_0000
  }

  /** Truncation to the uint16_t of the link callback. */
  function U16(x: nat): nat
  {
    x % 0x1_0000
  }

  predicate WellFormed(s: RxState)
  {
    |s.desc| > 0 && s.idx < |s.desc| && s.buildIdx < |s.desc| && s.buildCnt <= |s.desc|
  }

  // ---- specification of the link loop ----

  /** The descriptor belongs to a packet: it starts one or one is under way. */
  predicate Links(k: Link, d: RxDesc)
  {
    d.fd || k.chain != []
  }

  predicate Completes(k: Link, d: RxDesc)
  {
    Links(k, d) && d.ld
  }

  /** The link state after one completed descriptor; a last descriptor holds what is left of
      the packet length, any other one a whole buffer. */
  function Consume(k: Link, d: RxDesc, buffLen: nat): Link
  {
    if Links(k, d) then
      var base := if d.fd then 0 else k.dataLen;
      var len := if d.ld then U32(d.pl - base) else buffLen;
      Link(k.chain + [Segment(d.buf, U16(len))], U32(base + len), (if d.fd then 0 else k.descCnt) + 1)
    else k
  }

  /** A descriptor after it was read: its buffer went with the packet. */
  function Detached(k: Link, d: RxDesc): RxDesc
  {
    if Links(k, d) then d.(buf := 0) else d
  }

  datatype Scan = Scan(desc: seq<RxDesc>, link: Link, idx: nat, cnt: nat, ready: bool)

  /** A scan that follows `k` descriptors already taken. */
  function More(r: Scan, k: nat): Scan
  {
    r.(cnt := r.cnt + k)
  }

  /** The read loop, `left` being how many more descriptors it may take. */
  function ScanFrom(desc: seq<RxDesc>, link: Link, idx: nat, left: nat, buffLen: nat): (r: Scan)
    requires idx < |desc|
    ensures |r.desc| == |desc| && r.idx < |desc| && r.cnt <= left
    decreases left
  {
    if desc[idx].own || left == 0 then Scan(desc, link, idx, 0, false)
    else
      var desc1 := desc[idx := Detached(link, desc[idx])];
      var link1, next := Consume(link, desc[idx], buffLen), Next(idx, |desc|);
      if Completes(link, desc[idx]) then Scan(desc1, link1, next, 1, true)
      else
        var r := ScanFrom(desc1, link1, next, left - 1, buffLen);
        r.(cnt := r.cnt + 1)
  }

  // ---- specification of ETH_UpdateDescriptor ----

  datatype Build = Build(desc: seq<RxDesc>, idx: nat, cnt: nat, supply: seq<nat>)

  /** A descriptor given back to the DMA. */
  function Armed(d: RxDesc, itMode: bool): RxDesc
  {
    d.(own := true, buf1v := true, ioc := itMode, fd := false, ld := false, pl := 0)
  }

  /** The build loop; `supply` are the buffers the allocator still has, after which it fails. */
  function BuildFrom(desc: seq<RxDesc>, idx: nat, cnt: nat, supply: seq<nat>, itMode: bool): (r: Build)
    requires idx < |desc|
    ensures |r.desc| == |desc| && r.idx < |desc| && r.cnt <= cnt && |r.supply| <= |supply|
    decreases cnt
  {
    if cnt == 0 || (desc[idx].buf == 0 && supply == []) then Build(desc, idx, cnt, supply)
    else if desc[idx].buf == 0 then
      BuildFrom(desc[idx := Armed(desc[idx].(buf := supply[0], addr := supply[0]), itMode)],
                Next(idx, |desc|), cnt - 1, supply[1..], itMode)
    else
      BuildFrom(desc[idx := Armed(desc[idx], itMode)], Next(idx, |desc|), cnt - 1, supply, itMode)
  }

  function Update(s: RxState, supply: seq<nat>, itMode: bool): (r: (RxState, seq<nat>))
    requires WellFormed(s)
    ensures WellFormed(r.0) && |r.0.desc| == |s.desc|
  {
    var b := BuildFrom(s.desc, s.buildIdx, s.buildCnt, supply, itMode);
    (s.(desc := b.desc, buildIdx := b.idx, buildCnt := b.cnt), b.supply)
  }

  lemma UpdateNothing(s: RxState, supply: seq<nat>, itMode: bool)
    requires WellFormed(s) && s.buildCnt == 0
    ensures Update(s, supply, itMode) == (s, supply)
  {
  }

  // ---- specification of HAL_ETH_ReadData ----

  /** The ring between the read loop and the build loop. */
  function Linked(s: RxState, scan: Scan): RxState
  {
    s.(desc := scan.desc, link := scan.link, buildCnt := s.buildCnt + scan.cnt)
  }

  datatype Reading = Reading(state: RxState, packet: Option<seq<Segment>>, supply: seq<nat>)

  function Read(s: RxState, supply: seq<nat>, itMode: bool, buffLen: nat): (r: Reading)
    requires WellFormed(s)
    ensures WellFormed(r.state) && |r.state.desc| == |s.desc|
  {
    var n := |s.desc|;
    var scan := ScanFrom(s.desc, s.link, s.idx, n - s.buildCnt, buffLen);
    var (t, rest) := Update(Linked(s, scan), supply, itMode);
    if scan.ready then Reading(t.(idx := scan.idx, link := t.link.(chain := [])), Some(t.link.chain), rest)
    else Reading(t.(idx := scan.idx), None, rest)
  }

  function Blank(n: nat): RxState
  {
    RxState(seq(n, i => BLANK), 0, 0, 0, EMPTY_LINK)
  }

  // ---- the driver ----

  class RxRing {
    const n: nat
    const buffLen: nat
    const desc: array<RxDesc>
    var idx: nat
    var buildIdx: nat
    var buildCnt: nat
    var itMode: bool
    var link: Link
    var started: bool
    var paramError: bool
    /** The buffers the allocate callback will hand out before it fails. */
    var pool: seq<nat>

    ghost predicate Valid()
      reads this
    {
      desc.Length == n > 0 && idx < n && buildIdx < n && buildCnt <= n && forall i :: 0 <= i < |pool| ==> pool[i] != 0
    }

    ghost function State(): (s: RxState)
      reads this, desc
      requires Valid()
      ensures WellFormed(s) && |s.desc| == n
    {
      RxState(desc[..], idx, buildIdx, buildCnt, link)
    }

    constructor (n: nat, buffLen: nat)
      requires n > 0 && buffLen < 0x1_0000_0000
      ensures Valid() && fresh(desc) && this.n == n && this.buffLen == buffLen
      ensures State() == Blank(n) && !started && !itMode && pool == []
    {
      this.n, this.buffLen := n, buffLen;
      desc := new RxDesc[n](i => BLANK);
      idx, buildIdx, buildCnt, itMode, link := 0, 0, 0, false, EMPTY_LINK;
      started, paramError, pool := false, false, [];
    }

    /** ETH_UpdateDescriptor. */
    method UpdateDescriptor()
      requires Valid()
      modifies this`buildIdx, this`buildCnt, this`pool, desc
      ensures Valid()
      ensures (State(), pool) == Update(old(State()), old(pool), itMode)
    {
      var descIdx: nat, descCount: nat, allocStatus := buildIdx, buildCnt, true;
      ghost var goal := BuildFrom(desc[..], buildIdx, buildCnt, pool, itMode);
      while descCount > 0 && allocStatus
        invariant Valid() && descIdx < n && descCount <= buildCnt == old(buildCnt) && buildIdx == old(buildIdx)
        invariant descCount == buildCnt ==> descIdx == buildIdx
        invariant allocStatus ==> BuildFrom(desc[..], descIdx, descCount, pool, itMode) == goal
        invariant !allocStatus ==> Build(desc[..], descIdx, descCount, pool) == goal
        decreases descCount, allocStatus
      {
        ghost var before := desc[..];
        if desc[descIdx].buf == 0 {
          if pool == [] {
            allocStatus := false;
          } else {
            desc[descIdx] := desc[descIdx].(buf := pool[0], addr := pool[0]);
            pool := pool[1..];
          }
        }
        if allocStatus {
          desc[descIdx] := Armed(desc[descIdx], itMode);
          assert desc[..] == before[descIdx := desc[descIdx]];
          descIdx := Next(descIdx, n);
          descCount := descCount - 1;
        }
      }
      if buildCnt != descCount {
        buildIdx := descIdx;
        buildCnt := descCount;
      }
    }

    /** HAL_ETH_Start_IT, as far as the receive ring goes. */
    method StartIT() returns (r: Status)
      requires Valid()
      modifies this`buildIdx, this`buildCnt, this`pool, this`itMode, this`started, desc
      ensures Valid()
      ensures old(started) ==> r == HalError && (State(), pool, itMode, started) == old((State(), pool, itMode, started))
      ensures !old(started) ==>
                && r == HalOk && started && itMode
                && (State(), pool) == Update(old(State()).(buildCnt := n), old(pool), true)
    {
      if started {
        return HalError;
      }
      itMode := true;
      buildCnt := n;
      UpdateDescriptor();
      started := true;
      return HalOk;
    }

    /** HAL_ETH_ReadData; `want` is whether the caller passed somewhere to put the packet. */
    method ReadData(want: bool) returns (r: Status, packet: seq<Segment>)
      requires Valid()
      modifies this`idx, this`buildIdx, this`buildCnt, this`link, this`pool, this`paramError, desc
      ensures Valid()
      ensures !want || !started ==> r == HalError && State() == old(State()) && pool == old(pool)
      ensures paramError == (old(paramError) || !want)
      ensures want && started ==>
                var reading := Read(old(State()), old(pool), itMode, buffLen);
                && State() == reading.state && pool == reading.supply
                && (r == HalOk <==> reading.packet.Some?)
                && (r == HalOk ==> packet == reading.packet.value)
    {
      packet := [];
      if !want {
        paramError := true;
        return HalError, packet;
      }
      if !started {
        return HalError, packet;
      }
      r, packet := ReadStarted();
    }

    /** HAL_ETH_ReadData past its argument and state checks. */
    method ReadStarted() returns (r: Status, packet: seq<Segment>)
      requires Valid()
      modifies this`idx, this`buildIdx, this`buildCnt, this`link, this`pool, desc
      ensures Valid()
      ensures var reading := Read(old(State()), old(pool), itMode, buffLen);
              && State() == reading.state && pool == reading.supply
              && (r == HalOk <==> reading.packet.Some?)
              && (r == HalOk ==> packet == reading.packet.value)
    {
      packet := [];
      ghost var s := State();
      var descIdx, descCnt, ready := LinkLoop();
      buildCnt := buildCnt + descCnt;
      ghost var mid := State();
      assert mid == Linked(s, Scan(desc[..], link, descIdx, descCnt, ready));
      if buildCnt != 0 {
        UpdateDescriptor();
      } else {
        UpdateNothing(mid, pool, itMode);
      }
      assert (State(), pool) == Update(mid, old(pool), itMode);
      idx := descIdx;
      if ready {
        packet := link.chain;
        link := link.(chain := []);
        return HalOk, packet;
      }
      return HalError, packet;
    }

    /** The body of the read loop on descriptor `i`. */
    method LinkOne(i: nat) returns (ready: bool)
      requires Valid() && i < n
      modifies this`link, desc
      ensures Valid()
      ensures link == Consume(old(link), old(desc[i]), buffLen)
      ensures ready == Completes(old(link), old(desc[i]))
      ensures desc[..] == old(desc[..])[i := Detached(old(link), old(desc[i]))]
    {
      ready := false;
      var d := desc[i];
      if d.fd || link.chain != [] {
        if d.fd {
          link := link.(descCnt := 0, dataLen := 0);
        }
        var bufferLength := buffLen;
        if d.ld {
          bufferLength := U32(d.pl - link.dataLen);
          ready := true;
        }
        link := Link(link.chain + [Segment(d.buf, U16(bufferLength))], U32(link.dataLen + bufferLength), link.descCnt + 1);
        desc[i] := desc[i].(buf := 0);
      }
    }

    /** The loop of HAL_ETH_ReadData over completed descriptors. */
    method LinkLoop() returns (descIdx: nat, descCnt: nat, ready: bool)
      requires Valid()
      modifies this`link, desc
      ensures Valid() && descIdx < n
      ensures Scan(desc[..], link, descIdx, descCnt, ready) ==
              ScanFrom(old(desc[..]), old(link), idx, n - buildCnt, buffLen)
    {
      var descCntMax := n - buildCnt;
      descIdx, descCnt, ready := idx, 0, false;
      ghost var goal := ScanFrom(desc[..], link, idx, descCntMax, buffLen);
      while !desc[descIdx].own && descCnt < descCntMax && !ready
        invariant Valid() && descIdx < n && descCnt <= descCntMax
        invariant !ready ==> More(ScanFrom(desc[..], link, descIdx, descCntMax - descCnt, buffLen), descCnt) == goal
        invariant ready ==> Scan(desc[..], link, descIdx, descCnt, true) == goal
        decreases descCntMax - descCnt
      {
        ready := LinkOne(descIdx);
        descIdx := Next(descIdx, n);
        descCnt := descCnt + 1;
      }
    }
  }
}
