/** The append-only log of MAC records at the end of the RF flash partition. */
module MacLog {
  import opened Common
  import opened MacRecord

  const COUNT: nat := 51

  type Log = l: seq<Record> | |l| == 51 witness seq(51, i => ERASED)

  /** The first erased slot from `i` on. The scan stops short of the last slot, which is never offered. */
  function FreeFrom(log: Log, i: nat): (f: int)
    requires i <= 50
    ensures f == -1 || i <= f < 50
    ensures f >= 0 ==> log[f] == ERASED && forall k :: i <= k < f ==> log[k] != ERASED
    ensures f < 0 ==> forall k :: i <= k < 50 ==> log[k] != ERASED
    decreases 50 - i
  {
    if i == 50 then -1 else if log[i] == ERASED then i else FreeFrom(log, i + 1)
  }

  function FreeIndex(log: Log): int
  {
    FreeFrom(log, 0)
  }

  /** The last valid record at or before slot `i`. */
  function ValidFrom(log: Log, i: int): (v: int)
    requires -1 <= i < 51
    ensures -1 <= v <= i
    ensures v >= 0 ==> Valid(log[v])
    ensures forall k :: v < k <= i ==> !Valid(log[k])
    decreases i
  {
    if i < 0 then -1 else if Valid(log[i]) then i else ValidFrom(log, i - 1)
  }

  /** The search starts below the first free slot, or at the end of a full log. */
  function LatestIndex(log: Log): int
  {
    var f := FreeIndex(log);
    if f == 0 then -1 else if f > 0 then ValidFrom(log, f - 1) else ValidFrom(log, 50)
  }

  function ReadBack(log: Log): Option<Mac>
  {
    var v := LatestIndex(log);
    if v < 0 then None else Some(Address(log[v]))
  }

  /** The log after a write has left `stored` in the slot that was free. */
  function Appended(log: Log, stored: Record): Log
  {
    var f := FreeIndex(log);
    if f < 0 then log else log[f := stored]
  }

  predicate ValidAddress(mac: Mac)
  {
    mac != [0xff, 0xff, 0xff, 0xff, 0xff, 0xff] && mac != [0, 0, 0, 0, 0, 0]
  }

  /** An address is rejected exactly when all its bytes are 0xff or all are 0. */
  lemma RejectedIff(mac: Mac)
    ensures !ValidAddress(mac) <==> (forall i :: 0 <= i < 6 ==> mac[i] == 0xff) || (forall i :: 0 <= i < 6 ==> mac[i] == 0)
  {
    if forall i :: 0 <= i < 6 ==> mac[i] == 0xff {
      assert mac == [0xff, 0xff, 0xff, 0xff, 0xff, 0xff];
    }
    if forall i :: 0 <= i < 6 ==> mac[i] == 0 {
      assert mac == [0, 0, 0, 0, 0, 0];
    }
  }

  // ---- the shape of the log ----

  /** Used slots come first, and the last slot is erased. */
  ghost predicate Shaped(log: Log)
  {
    log[50] == ERASED && forall i, k :: 0 <= i < k < 51 && log[i] == ERASED ==> log[k] == ERASED
  }

  lemma ErasedInvalid()
    ensures !Valid(ERASED)
  {
    assert ERASED[0] != TAG_LOW;
  }

  lemma AppendShaped(log: Log, stored: Record)
    requires Shaped(log)
    ensures Shaped(Appended(log, stored))
  {
  }

  /** From the first free slot on, nothing is valid. */
  lemma TailInvalid(log: Log, k: nat)
    requires Shaped(log) && 0 <= FreeIndex(log) <= k < 51
    ensures !Valid(log[k])
  {
    ErasedInvalid();
    assert log[k] == ERASED;
  }

  /** Skipping the erased part finds the same record as searching the whole log. */
  lemma LatestIsLast(log: Log)
    requires Shaped(log)
    ensures LatestIndex(log) == ValidFrom(log, 50)
  {
    var f := FreeIndex(log);
    if f >= 0 {
      forall k | f - 1 < k <= 50 ensures !Valid(log[k]) {
        TailInvalid(log, k);
      }
      SkipInvalid(log, f - 1, 50);
    }
  }

  lemma {:induction false} SkipInvalid(log: Log, i: int, j: int)
    requires -1 <= i <= j < 51
    requires forall k :: i < k <= j ==> !Valid(log[k])
    ensures ValidFrom(log, i) == ValidFrom(log, j)
    decreases j
  {
    if i < j {
      SkipInvalid(log, i, j - 1);
    }
  }

  lemma {:induction false} SameBelow(log: Log, log': Log, i: int)
    requires -1 <= i < 51
    requires forall k :: 0 <= k <= i ==> log[k] == log'[k]
    ensures ValidFrom(log, i) == ValidFrom(log', i)
    decreases i
  {
    if i >= 0 {
      SameBelow(log, log', i - 1);
    }
  }

  lemma LastAfterUpdate(log: Log, f: nat, stored: Record)
    requires f < 51 && forall k :: f <= k <= 50 ==> !Valid(log[k])
    ensures ValidFrom(log[f := stored], 50) == if Valid(stored) then f else ValidFrom(log, 50)
  {
    var log': Log := log[f := stored];
    SkipInvalid(log', f, 50);
    SkipInvalid(log, f - 1, 50);
    SameBelow(log, log', f - 1);
  }

  /** A read after a write: the new record if it is valid, what was read before if it is not. */
  lemma ReadAfterAppend(log: Log, stored: Record)
    requires Shaped(log) && FreeIndex(log) >= 0
    ensures ReadBack(Appended(log, stored)) == if Valid(stored) then Some(Address(stored)) else ReadBack(log)
  {
    var f := FreeIndex(log);
    forall k | f <= k <= 50 ensures !Valid(log[k]) {
      TailInvalid(log, k);
    }
    AppendShaped(log, stored);
    LatestIsLast(log);
    LatestIsLast(Appended(log, stored));
    LastAfterUpdate(log, f, stored);
  }

  // ---- every history of writes and power cuts ----

  /** A completed write, or one that power loss or a flash error left with any content. */
  datatype Event = Write(mac: Mac) | Cut(stored: Record)

  function Stored(e: Event): Record
  {
    match e case Write(mac) => Built(mac) case Cut(stored) => stored
  }

  function After(run: seq<Event>): Log
  {
    if run == [] then seq(51, i => ERASED) else Appended(After(run[..|run| - 1]), Stored(run[|run| - 1]))
  }

  /** The address that a history leaves on record: that of its last write that found room and left a valid record. */
  function OnRecord(run: seq<Event>): Option<Mac>
  {
    if run == [] then None
    else
      var before := run[..|run| - 1];
      var stored := Stored(run[|run| - 1]);
      if FreeIndex(After(before)) >= 0 && Valid(stored) then Some(Address(stored)) else OnRecord(before)
  }

  lemma {:induction false} RunShaped(run: seq<Event>)
    ensures Shaped(After(run))
  {
    if run != [] {
      RunShaped(run[..|run| - 1]);
      AppendShaped(After(run[..|run| - 1]), Stored(run[|run| - 1]));
    }
  }

  /** After every history of writes and cuts, a read returns the last record that went in valid. */
  lemma {:induction false} RunRecovers(run: seq<Event>)
    ensures ReadBack(After(run)) == OnRecord(run)
  {
    if run == [] {
      assert FreeIndex(After(run)) == 0;
    } else {
      var before := run[..|run| - 1];
      RunRecovers(before);
      RunShaped(before);
      if FreeIndex(After(before)) >= 0 {
        ReadAfterAppend(After(before), Stored(run[|run| - 1]));
      }
    }
  }

  /** A completed write that finds room is what the next read returns. */
  lemma ReadAfterWrite(run: seq<Event>, mac: Mac)
    requires FreeIndex(After(run)) >= 0
    ensures ReadBack(After(run + [Write(mac)])) == Some(mac)
  {
    BuiltReadsBack(mac);
    var all := run + [Write(mac)];
    assert all[..|all| - 1] == run;
    RunRecovers(all);
  }

  /** A record cut short does not disturb the one before it, unless its erased rest happens to match the checksum. */
  lemma ReadAfterTorn(run: seq<Event>, mac: Mac, k: nat)
    requires k <= 10 && !(k >= 4 && Crc(mac[..k - 4] + ERASED[k..]) == Crc(mac))
    ensures ReadBack(After(run + [Cut(Torn(mac, k))])) == ReadBack(After(run))
  {
    TornAcceptedIff(mac, k);
    var all := run + [Cut(Torn(mac, k))];
    assert all[..|all| - 1] == run;
    RunRecovers(all);
    RunRecovers(run);
  }

  predicate AllWrites(run: seq<Event>)
  {
    forall i :: 0 <= i < |run| ==> run[i].Write?
  }

  lemma FreeIs(log: Log, f: nat)
    requires f <= 50 && (forall k :: 0 <= k < f ==> log[k] != ERASED) && (f < 50 ==> log[f] == ERASED)
    ensures FreeIndex(log) == if f < 50 then f else -1
  {
  }

  lemma WriteUsesSlot(log: Log, mac: Mac)
    requires Shaped(log) && FreeIndex(log) >= 0
    ensures FreeIndex(Appended(log, Built(mac))) == if FreeIndex(log) < 49 then FreeIndex(log) + 1 else -1
  {
    BuiltReadsBack(mac);
    FreeIs(Appended(log, Built(mac)), FreeIndex(log) + 1);
  }

  /** Fifty writes fit, and no more. */
  lemma {:induction false} RunCapacity(run: seq<Event>)
    requires AllWrites(run)
    ensures FreeIndex(After(run)) == if |run| < 50 then |run| else -1
  {
    if run == [] {
      FreeIs(After(run), 0);
    } else {
      var before := run[..|run| - 1];
      RunCapacity(before);
      if |run| <= 50 {
        RunShaped(before);
        WriteUsesSlot(After(before), run[|run| - 1].mac);
      }
    }
  }

  /** Once the log is full, everything later is rejected and leaves it as it is. */
  lemma {:induction false} RunFull(run: seq<Event>, more: seq<Event>)
    requires FreeIndex(After(run)) < 0
    ensures After(run + more) == After(run)
  {
    if more == [] {
      assert run + more == run;
    } else {
      var all := run + more;
      assert all[..|all| - 1] == run + more[..|more| - 1];
      RunFull(run, more[..|more| - 1]);
    }
  }

  // ---- the store ----

  /** What a flash write leaves in the slot: the record as given, or anything else when it fails or is torn. */
  datatype Flashing = Complete | Leaves(stored: Record)

  function Flashed(f: Flashing, r: Record): Record
  {
    if f.Complete? then r else f.stored
  }

  /** The outcome, the log and the address in memory after a synchronisation. `readable` and `writable` say
      whether the log can be read for the search and for the append; `f` is what the flash write does. */
  function Synced(log: Log, base: Mac, readable: bool, writable: bool, f: Flashing): (bool, Log, Mac)
  {
    var saved := if readable then ReadBack(log) else None;
    if !ValidAddress(base) then
      if saved.Some? then (true, log, saved.value) else (false, log, base)
    else if saved == Some(base) || !writable then (true, log, base)
    else (true, Appended(log, Flashed(f, Built(base))), base)
  }

  class MacStore {
    var flash: Log
    var base: Mac
    /** The address in the network information partition, from which the one in memory is loaded. */
    var netInfo: Mac

    constructor (base: Mac)
      ensures this.base == netInfo == base && Shaped(flash) && ReadBack(flash) == None
    {
      this.base, netInfo := base, base;
      flash := seq(51, i => ERASED);
      new;
      assert FreeIndex(flash) == 0;
    }

    method FirstFree(log: Log) returns (free: int)
      ensures free == FreeIndex(log)
    {
      var left, right := 0, COUNT - 1;
      while left < right
        invariant 0 <= left <= 50
        invariant FreeFrom(log, left) == FreeIndex(log)
      {
        var erased := IsFree(log[left]);
        if erased {
          return left;
        }
        left := left + 1;
      }
      return -1;
    }

    method LatestValid(log: Log, free: int) returns (v: int)
      requires free == FreeIndex(log)
      ensures v == LatestIndex(log)
    {
      if free == 0 {
        return -1;
      }
      if 0 < free < COUNT {
        v := free - 1;
      } else {
        v := COUNT - 1;
      }
      while v >= 0
        invariant -1 <= v < 51
        invariant ValidFrom(log, v) == LatestIndex(log)
      {
        var valid := IsValid(log[v]);
        if valid {
          return;
        }
        v := v - 1;
      }
    }

    /** Reads the latest address, or fails when the flash cannot be read or holds none. */
    method Read(readable: bool) returns (ok: bool, mac: Mac)
      ensures ok <==> readable && ReadBack(flash).Some?
      ensures ok ==> ReadBack(flash) == Some(mac)
    {
      ok, mac := false, [0, 0, 0, 0, 0, 0];
      if !readable {
        return;
      }
      var free := FirstFree(flash);
      var v := LatestValid(flash, free);
      if v < 0 || v >= COUNT {
        return;
      }
      return true, Address(flash[v]);
    }

    /** Appends a record, or fails and changes nothing when the log cannot be read or is full. What the flash
        write does to the slot is not looked at: the call succeeds either way. */
    method Write(mac: Mac, readable: bool, f: Flashing) returns (ok: bool)
      modifies this`flash
      ensures ok <==> readable && FreeIndex(old(flash)) >= 0
      ensures flash == if readable then Appended(old(flash), Flashed(f, Built(mac))) else old(flash)
    {
      if !readable {
        return false;
      }
      var free := FirstFree(flash);
      if free < 0 || free >= COUNT {
        return false;
      }
      var r := Build(mac);
      flash := flash[free := Flashed(f, r)];
      return true;
    }

    /** Brings the address in memory and the log into agreement; the outcome of the write is ignored. An address
        taken from the log also goes to the network information partition; `torn` is what that holds instead when
        the store fails. */
    method SyncMac(readable: bool, writable: bool, f: Flashing, torn: Option<Mac>) returns (ok: bool)
      modifies this
      ensures (ok, flash, base) == Synced(old(flash), old(base), readable, writable, f)
      ensures netInfo == if !ok || ValidAddress(old(base)) then old(netInfo) else if torn.Some? then torn.value else base
      ensures torn.None? && old(netInfo == base) ==> netInfo == base
    {
      var found, saved := Read(readable);
      var usable := ValidAddress(base);
      if !usable {
        if found {
          base := saved;
          netInfo := if torn.Some? then torn.value else base;
        } else {
          return false;
        }
      } else if !found || base != saved {
        var _ := Write(base, writable, f);
      }
      return true;
    }
  }

  /** An address of equal bytes 0 or 0xff is never recorded: it is replaced by the latest one in the log, or the
      synchronisation fails and changes nothing. */
  lemma SyncReplaces(log: Log, base: Mac, readable: bool, writable: bool, f: Flashing)
    requires (forall i :: 0 <= i < 6 ==> base[i] == 0xff) || (forall i :: 0 <= i < 6 ==> base[i] == 0)
    ensures Synced(log, base, readable, writable, f) ==
            if readable && ReadBack(log).Some? then (true, log, ReadBack(log).value) else (false, log, base)
  {
    RejectedIff(base);
  }

  /** Any other address stays in memory. */
  lemma SyncKeeps(log: Log, base: Mac, readable: bool, writable: bool, f: Flashing)
    requires exists i, j :: 0 <= i < 6 && 0 <= j < 6 && base[i] != 0xff && base[j] != 0
    ensures var (ok, log', base') := Synced(log, base, readable, writable, f); ok && base' == base
  {
    RejectedIff(base);
  }

  /** A synchronisation has to record the address in memory. */
  predicate MustRecord(log: Log, base: Mac, readable: bool)
  {
    ValidAddress(base) && !(readable && ReadBack(log) == Some(base))
  }

  /** The flash write happens: the log can be read for it and has room. */
  predicate Reaches(log: Log, writable: bool)
  {
    writable && FreeIndex(log) >= 0
  }

  /** When a synchronisation succeeds, log and memory agree exactly when nothing had to be recorded, or the flash
      write happened and left the built record, or they agreed before and no other valid record was left. */
  lemma SyncConvergesIff(log: Log, base: Mac, readable: bool, writable: bool, f: Flashing)
    requires Shaped(log)
    ensures var (ok, log', base') := Synced(log, base, readable, writable, f);
            var left := Flashed(f, Built(base));
            && Shaped(log')
            && (ok <==> ValidAddress(base) || (readable && ReadBack(log).Some?))
            && (ok ==> (ReadBack(log') == Some(base') <==>
                        || !MustRecord(log, base, readable)
                        || (Reaches(log, writable) && left == Built(base))
                        || (ReadBack(log) == Some(base) && !(Reaches(log, writable) && Valid(left)))))
  {
    var left := Flashed(f, Built(base));
    AppendShaped(log, left);
    BuiltReadsBack(base);
    ValidIsBuilt(left);
    if FreeIndex(log) >= 0 {
      ReadAfterAppend(log, left);
    }
  }

  /** The address in memory is valid afterwards exactly when it was before or the log held a valid one. */
  lemma SyncValidIff(log: Log, base: Mac, readable: bool, writable: bool, f: Flashing)
    ensures var (ok, log', base') := Synced(log, base, readable, writable, f);
            ValidAddress(base') <==>
            ValidAddress(base) || (readable && ReadBack(log).Some? && ValidAddress(ReadBack(log).value))
  {
  }

  /** A second synchronisation on a readable log changes nothing exactly when the first one made log and memory
      agree, or the log is full, or the second flash write leaves the slot erased. */
  lemma SyncTwiceIff(log: Log, base: Mac, readable: bool, writable: bool, f: Flashing, f': Flashing)
    requires Shaped(log) && Synced(log, base, readable, writable, f).0
    ensures var (ok, log', base') := Synced(log, base, readable, writable, f);
            Synced(log', base', true, true, f') == (true, log', base') <==>
            || ReadBack(log') == Some(base')
            || FreeIndex(log') < 0
            || Flashed(f', Built(base')) == ERASED
  {
    var (ok, log', base') := Synced(log, base, readable, writable, f);
    SyncConvergesIff(log, base, readable, writable, f);
    var free := FreeIndex(log');
    if free >= 0 {
      assert Appended(log', Flashed(f', Built(base')))[free] == Flashed(f', Built(base'));
      assert log'[free] == ERASED;
      assert log'[free := ERASED] == log';
    }
  }

  // ---- failing synchronisations ----

  lemma {:induction false} SameWrites(run: seq<Event>, mac: Mac)
    requires run != [] && forall i :: 0 <= i < |run| ==> run[i] == Write(mac)
    ensures OnRecord(run) == Some(mac)
  {
    BuiltReadsBack(mac);
    var before := run[..|run| - 1];
    if before == [] {
      assert After(before) == After([]);
      FreeIs(After([]), 0);
    } else {
      SameWrites(before, mac);
    }
  }

  /** After fifty writes of one address, the synchronisation of another reports success and records nothing. */
  lemma FullSyncWitness(a: Mac, b: Mac)
    requires a != b && ValidAddress(b)
    ensures var log := After(seq(50, i => Write(a)));
            Synced(log, b, true, true, Complete) == (true, log, b) && ReadBack(log) == Some(a)
  {
    var run := seq(50, i => Write(a));
    RunCapacity(run);
    SameWrites(run, a);
    RunRecovers(run);
  }

  /** On an empty log, a synchronisation whose flash write fails reports success and records nothing; the next
      one writes again. */
  lemma FailedFlashWitness(b: Mac)
    requires ValidAddress(b)
    ensures var (ok, log, base) := Synced(After([]), b, true, true, Leaves(ERASED));
            ok && base == b && ReadBack(log) == None && Synced(log, base, true, true, Complete).1 != log
  {
    BuiltReadsBack(b);
    SyncTwiceIff(After([]), b, true, true, Leaves(ERASED), Complete);
    AppendShaped(After([]), ERASED);
    assert Appended(After([]), ERASED) == After([]);
    RunRecovers([]);
    RunShaped([]);
    FreeIs(After([]), 0);
    ErasedInvalid();
    ReadAfterAppend(After([]), ERASED);
  }
}
