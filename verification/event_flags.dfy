/** Event flags: any number of setters, in tasks or interrupts, and one waiting task share a word of
    flags and a counting semaphore. A setter ORs its bits in a critical section and posts the
    semaphore afterwards; the waiter takes bits in a critical section and blocks in between. */
module EventFlags {

  const FOREVER: nat := 0xffffffff

  /** A flag word, as the set of its one bits. */
  type Flags = set<nat>

  /** Exclusive or of two flag words. */
  function Xor(a: Flags, b: Flags): Flags
  {
    (a - b) + (b - a)
  }

  /** The arguments of one wait. */
  datatype Request = Request(mask: Flags, any: bool, timeout: nat)

  /** Where the waiter stands, named after the statement that comes next. */
  datatype Waiter =
    | Idle
    | Scan(req: Request, start: nat)
    | TestTime(req: Request, start: nat)
    | Block(req: Request, start: nat)

  /** What happened, in order: bits set, and results returned. */
  datatype Entry = Set(bits: Flags) | Got(req: Request, taken: Flags)

  /** `due` counts the setters that have set their bits and not yet posted. `limit` is where the
      semaphore saturates. */
  datatype State = State(ready: bool, flag: Flags, count: nat, limit: nat, due: nat, waiter: Waiter, now: nat, log: seq<Entry>)

  /** `Tick` moves the clock, `Fail` ends a blocked wait by timeout or error, and `Run` is the waiter's next statement. */
  datatype Event = Init | SetBits(bits: Flags) | Post | Call(req: Request) | Run | Fail | Tick(now: nat)

  /** The bits a scan takes: those of the mask that are set, or none when all of them are required and some are missing. */
  function Takes(flag: Flags, mask: Flags, any: bool): Flags
  {
    if any || flag * mask == mask then flag * mask else {}
  }

  predicate Satisfied(flag: Flags, req: Request)
  {
    if req.any then flag * req.mask != {} else req.mask <= flag && req.mask != {}
  }

  /** The time waited so far, in 32-bit unsigned arithmetic. */
  function Elapsed(start: nat, now: nat): (e: nat)
    requires start < 0x1_0000_0000 && now < 0x1_0000_0000
  {
    if now < start then ((0xffffffff - now) + 1 + start) % 0x1_0000_0000 else now - start
  }

  /** The elapsed time is right exactly while the clock has not wrapped, but for a wrap of half its range. */
  lemma ElapsedRightIff(start: nat, now: nat)
    requires start < 0x1_0000_0000 && now < 0x1_0000_0000
    ensures Elapsed(start, now) == (now - start) % 0x1_0000_0000 <==> now >= start || start - now == 0x8000_0000
  {
    if now < start {
      assert Elapsed(start, now) == start - now;
      assert (now - start) % 0x1_0000_0000 == now - start + 0x1_0000_0000;
    }
  }

  function WaiterStep(s: State): State
  {
    match s.waiter
    case Idle => s
    case Scan(req, start) =>
      var taken := Takes(s.flag, req.mask, req.any);
      var t := s.(flag := Xor(s.flag, taken));
      if taken != {} then t.(waiter := Idle, log := s.log + [Got(req, taken)]) else t.(waiter := TestTime(req, start))
    case TestTime(req, start) =>
      var elapsed := if req.timeout != FOREVER && start < 0x1_0000_0000 && s.now < 0x1_0000_0000 then Elapsed(start, s.now) else 0;
      if elapsed >= req.timeout then s.(waiter := Idle, log := s.log + [Got(req, {})]) else s.(waiter := Block(req, start))
    case Block(req, start) => if s.count > 0 then s.(count := s.count - 1, waiter := Scan(req, start)) else s
  }

  function Step(s: State, e: Event): State
  {
    match e
    case Init => if s.ready then s else s.(ready := true, flag := {}, count := 0)
    case SetBits(bits) => if s.ready && bits != {} then s.(flag := s.flag + bits, due := s.due + 1, log := s.log + [Set(bits)]) else s
    case Post => if s.due > 0 then s.(due := s.due - 1, count := if s.count < s.limit then s.count + 1 else s.count) else s
    case Call(req) =>
      if s.waiter != Idle then s
      else if !s.ready || req.mask == {} then s.(log := s.log + [Got(req, {})])
      else s.(waiter := Scan(req, s.now))
    case Run => WaiterStep(s)
    case Fail => if s.waiter.Block? then s.(waiter := Idle, log := s.log + [Got(s.waiter.req, {})]) else s
    case Tick(now) => if now < 0x1_0000_0000 then s.(now := now) else s
  }

  /** One tick across the wrap counts as almost the whole range: any finite wait ends there, however long. */
  lemma WrapEndsWaitEarly(s: State, req: Request)
    requires s.waiter == TestTime(req, 0xffffffff) && s.now == 0 && req.timeout < FOREVER
    ensures Step(s, Run) == s.(waiter := Idle, log := s.log + [Got(req, {})])
  {
    ElapsedRightIff(0xffffffff, 0);
    assert Elapsed(0xffffffff, 0) == 0xffffffff;
  }

  function Play(s: State, run: seq<Event>): State
    decreases |run|
  {
    if run == [] then s else Play(Step(s, run[0]), run[1..])
  }

  function Start(limit: nat): State
  {
    State(false, {}, 0, limit, 0, Idle, 0, [])
  }

  // ---- no wakeup is lost ----

  ghost predicate WakeInv(s: State)
  {
    && s.limit >= 1 && s.now < 0x1_0000_0000
    && (!s.ready ==> s.waiter == Idle && s.due == 0)
    && (s.waiter != Idle ==> s.waiter.start < 0x1_0000_0000 && s.waiter.req.mask != {})
    && (s.waiter.TestTime? || s.waiter.Block? ==> (Satisfied(s.flag, s.waiter.req) ==> s.count > 0 || s.due > 0))
  }

  lemma WakeStep(s: State, e: Event)
    requires WakeInv(s)
    ensures WakeInv(Step(s, e))
  {
  }

  lemma {:induction false} PlayWake(s: State, run: seq<Event>)
    requires WakeInv(s)
    ensures WakeInv(Play(s, run))
    decreases |run|
  {
    if run != [] {
      WakeStep(s, run[0]);
      PlayWake(Step(s, run[0]), run[1..]);
    }
  }

  /** Whenever the waiter is about to block, or blocks, while its condition holds, the semaphore is
      positive or a setter has yet to post. */
  lemma RunNoLostWakeup(limit: nat, run: seq<Event>)
    requires limit >= 1
    ensures var s := Play(Start(limit), run);
            s.waiter.TestTime? || s.waiter.Block? ==> Satisfied(s.flag, s.waiter.req) ==> s.count > 0 || s.due > 0
  {
    PlayWake(Start(limit), run);
  }

  predicate IsSetter(e: Event)
  {
    e.SetBits? || e.Post? || e.Tick?
  }

  /** While the waiter is blocked, nothing the setters do takes its condition away. */
  lemma {:induction false} SettersKeepCondition(s: State, run: seq<Event>)
    requires WakeInv(s) && s.waiter.Block? && Satisfied(s.flag, s.waiter.req)
    requires forall i :: 0 <= i < |run| ==> IsSetter(run[i])
    ensures var t := Play(s, run); t.waiter == s.waiter && Satisfied(t.flag, s.waiter.req) && (t.count > 0 || t.due > 0)
    decreases |run|
  {
    if run != [] {
      assert IsSetter(run[0]);
      WakeStep(s, run[0]);
      SettersKeepCondition(Step(s, run[0]), run[1..]);
    }
  }

  /** A blocked waiter whose condition holds returns non-zero bits once the setters that are due have
      posted: two statements after the semaphore is positive. */
  lemma SatisfiedReturns(s: State)
    requires WakeInv(s) && s.waiter.Block? && Satisfied(s.flag, s.waiter.req)
    ensures var p := if s.count > 0 then s else Step(s, Post);
            var t := Step(Step(p, Run), Run);
            t.waiter == Idle && |t.log| == |s.log| + 1 && t.log[|s.log|].Got? && t.log[|s.log|].taken != {}
  {
    var p := if s.count > 0 then s else Step(s, Post);
    assert p.count > 0 && p.flag == s.flag && p.waiter == s.waiter && p.log == s.log;
    var q := Step(p, Run);
    assert q.waiter == Scan(s.waiter.req, s.waiter.start) && q.flag == s.flag;
  }

  // ---- when a wait blocks, and when it gives up ----

  /** The time that the call counts as waited; it takes the clock to have wrapped when that went back. */
  function Waited(start: nat, now: nat): nat
  {
    if now >= start then now - start else start - now
  }

  predicate TimeUp(req: Request, start: nat, now: nat)
  {
    req.timeout != FOREVER && Waited(start, now) >= req.timeout
  }

  /** The test of the time: the waiter blocks if and only if it waits forever or its time is not up, and otherwise
      returns nothing. */
  lemma TimeTestIff(s: State)
    requires WakeInv(s) && s.waiter.TestTime?
    ensures var (req, start) := (s.waiter.req, s.waiter.start);
            Step(s, Run) == if TimeUp(req, start, s.now) then s.(waiter := Idle, log := s.log + [Got(req, {})])
                            else s.(waiter := Block(req, start))
  {
    ElapsedIsWaited(s.waiter.start, s.now);
  }

  lemma ElapsedIsWaited(start: nat, now: nat)
    requires start < 0x1_0000_0000 && now < 0x1_0000_0000
    ensures Elapsed(start, now) == Waited(start, now)
  {
  }

  /** A call on an initialised event with a mask: it returns the bits at once when its condition holds, and otherwise
      blocks two statements later, unless it may not wait at all. */
  lemma CallOutcome(s: State, req: Request)
    requires WakeInv(s) && s.ready && s.waiter == Idle && req.mask != {}
    ensures var t := Step(Step(s, Call(req)), Run);
            if Satisfied(s.flag, req) then
              t.waiter == Idle && exists taken :: taken != {} && t.log == s.log + [Got(req, taken)]
            else
              && t == s.(waiter := TestTime(req, s.now))
              && (Step(t, Run).waiter == Block(req, s.now) <==> req.timeout > 0)
  {
    var s1 := Step(s, Call(req));
    TakesClears(s.flag, req);
    var taken := Takes(s.flag, req.mask, req.any);
    if Satisfied(s.flag, req) {
      assert Step(s1, Run).log == s.log + [Got(req, taken)];
    } else {
      WakeStep(s, Call(req));
      WakeStep(s1, Run);
      assert Xor(s.flag, {}) == s.flag;
      TimeTestIff(Step(s1, Run));
    }
  }

  /** Setting no bit, or a bit of an event that is not initialised, changes nothing and posts nothing. */
  lemma IdleSet(s: State, bits: Flags)
    requires !s.ready || bits == {}
    ensures Step(s, SetBits(bits)) == s
  {
  }

  /** A blocked waiter goes on if and only if the semaphore is positive, and takes exactly one from it. */
  lemma BlockTakesOne(s: State)
    requires s.waiter.Block?
    ensures var t := Step(s, Run); (t.waiter.Scan? <==> s.count > 0) && s.count == t.count + (if t.waiter.Scan? then 1 else 0)
    ensures var t := Step(s, Run); t.flag == s.flag && t.due == s.due && t.log == s.log
  {
  }

  /** A wait that goes on keeps its request and the time it began, whatever happens. */
  lemma WaitKeepsStart(s: State, e: Event)
    requires s.waiter != Idle && Step(s, e).waiter != Idle
    ensures Step(s, e).waiter.req == s.waiter.req && Step(s, e).waiter.start == s.waiter.start
  {
  }

  /** Why a wait ends without a bit. */
  ghost predicate Excused(s: State, e: Event, req: Request)
  {
    || (e == Call(req) && s.waiter == Idle && (!s.ready || req.mask == {}))
    || (e == Fail && s.waiter.Block? && s.waiter.req == req)
    || (e == Run && s.waiter.TestTime? && s.waiter.req == req && TimeUp(req, s.waiter.start, s.now))
  }

  /** A wait ends with nothing if and only if it was refused at the call, failed while blocked, or its time was up; it
      ends with bits if and only if its condition holds when it looks. */
  lemma ResultIff(s: State, e: Event, req: Request)
    requires WakeInv(s)
    ensures Step(s, e).log == s.log + [Got(req, {})] <==> Excused(s, e, req)
    ensures (exists taken :: taken != {} && Step(s, e).log == s.log + [Got(req, taken)]) <==>
            e == Run && s.waiter.Scan? && s.waiter.req == req && Satisfied(s.flag, req)
  {
    LogsOne(s, e);
    if e == Run && s.waiter.TestTime? {
      TimeTestIff(s);
    } else if e == Run && s.waiter.Scan? {
      TakesClears(s.flag, s.waiter.req);
    }
  }

  /** A step adds at most one entry to the log. */
  lemma LogsOne(s: State, e: Event)
    ensures var t := Step(s, e);
            t.log == s.log || (|t.log| == |s.log| + 1 && t.log[..|s.log|] == s.log && t.log == s.log + [t.log[|s.log|]])
  {
  }

  /** Over every run: nobody gets an empty result who was not refused, did not fail and had time left. */
  lemma RunResults(limit: nat, run: seq<Event>, e: Event, req: Request)
    requires limit >= 1
    ensures var s := Play(Start(limit), run);
            Step(s, e).log == s.log + [Got(req, {})] <==> Excused(s, e, req)
  {
    PlayWake(Start(limit), run);
    ResultIff(Play(Start(limit), run), e, req);
  }

  // ---- no bit is lost ----

  /** The bits that were set and not handed out since. */
  function Owed(log: seq<Entry>): Flags
  {
    if log == [] then {}
    else
      var before := Owed(log[..|log| - 1]);
      match log[|log| - 1]
      case Set(bits) => before + bits
      case Got(_, taken) => before - taken
  }

  /** A result is nothing, or bits that are owed: all owed bits of the mask when any will do, the whole mask otherwise. */
  predicate Rightful(owed: Flags, req: Request, taken: Flags)
  {
    taken == {} || (taken <= owed && if req.any then taken == owed * req.mask else taken == req.mask)
  }

  ghost predicate Honest(log: seq<Entry>)
  {
    forall i {:trigger log[i]} :: 0 <= i < |log| && log[i].Got? ==> Rightful(Owed(log[..i]), log[i].req, log[i].taken)
  }

  ghost predicate BitInv(s: State)
  {
    s.flag == Owed(s.log) && Honest(s.log) && (!s.ready ==> s.flag == {})
  }

  lemma Logged(log: seq<Entry>, e: Entry)
    requires Honest(log)
    requires e.Got? ==> Rightful(Owed(log), e.req, e.taken)
    ensures Honest(log + [e])
    ensures Owed(log + [e]) == if e.Set? then Owed(log) + e.bits else Owed(log) - e.taken
  {
    var l := log + [e];
    assert l[..|log|] == log;
    forall i | 0 <= i < |l| && l[i].Got?
      ensures Rightful(Owed(l[..i]), l[i].req, l[i].taken)
    {
      if i < |log| {
        assert l[i] == log[i] && l[..i] == log[..i];
      }
    }
  }

  lemma TakesClears(flag: Flags, req: Request)
    ensures var taken := Takes(flag, req.mask, req.any);
            && Xor(flag, taken) == flag - taken
            && (taken != {} ==> Rightful(flag, req, taken))
            && (taken != {} <==> Satisfied(flag, req))
  {
    var taken := Takes(flag, req.mask, req.any);
    assert taken <= flag;
    assert Xor(flag, taken) == flag - taken;
    assert flag * req.mask == req.mask <==> req.mask <= flag;
  }

  lemma ScanBits(s: State)
    requires BitInv(s) && s.waiter.Scan?
    ensures BitInv(WaiterStep(s))
  {
    var taken := Takes(s.flag, s.waiter.req.mask, s.waiter.req.any);
    TakesClears(s.flag, s.waiter.req);
    Logged(s.log, Got(s.waiter.req, taken));
    assert taken == {} ==> s.flag - taken == s.flag;
  }

  lemma WaiterBits(s: State)
    requires BitInv(s)
    ensures BitInv(WaiterStep(s))
  {
    if s.waiter.Scan? {
      ScanBits(s);
    } else if s.waiter.TestTime? {
      Logged(s.log, Got(s.waiter.req, {}));
      assert s.flag - {} == s.flag;
    }
  }

  lemma BitStep(s: State, e: Event)
    requires BitInv(s)
    ensures BitInv(Step(s, e))
  {
    match e
    case SetBits(bits) => Logged(s.log, Set(bits));
    case Call(req) => Logged(s.log, Got(req, {}));
    case Run => WaiterBits(s);
    case Fail =>
      if s.waiter.Block? {
        Logged(s.log, Got(s.waiter.req, {}));
      }
    case _ =>
  }

  lemma {:induction false} PlayBits(s: State, run: seq<Event>)
    requires BitInv(s)
    ensures BitInv(Play(s, run))
    decreases |run|
  {
    if run != [] {
      BitStep(s, run[0]);
      PlayBits(Step(s, run[0]), run[1..]);
    }
  }

  /** Over every run, the flag word is exactly what is owed, and every result is rightful. */
  lemma RunLosesNoBit(limit: nat, run: seq<Event>)
    ensures var s := Play(Start(limit), run); s.flag == Owed(s.log) && Honest(s.log)
  {
    PlayBits(Start(limit), run);
  }

  // ---- a set bit is there until somebody gets it ----

  /** A setter's critical section in every state of an initialised event. */
  lemma SetMarks(s: State, bits: Flags)
    requires s.ready && bits != {}
    ensures Step(s, SetBits(bits)) == s.(flag := s.flag + bits, due := s.due + 1, log := s.log + [Set(bits)])
  {
  }

  /** Somebody got the bit at or behind position `from` of the log. */
  ghost predicate HandedOut(log: seq<Entry>, from: nat, bit: nat)
  {
    exists j :: from <= j < |log| && log[j].Got? && bit in log[j].taken
  }

  /** The bit is set, or has been handed out since. */
  ghost predicate Kept(s: State, from: nat, bit: nat)
  {
    s.ready && from <= |s.log| && (bit in s.flag || HandedOut(s.log, from, bit))
  }

  lemma HandedOutStays(s: State, e: Event, from: nat, bit: nat)
    requires HandedOut(s.log, from, bit)
    ensures HandedOut(Step(s, e).log, from, bit)
  {
    LogsOne(s, e);
    var j :| from <= j < |s.log| && s.log[j].Got? && bit in s.log[j].taken;
    assert Step(s, e).log[j] == s.log[j];
  }

  lemma KeptStep(s: State, e: Event, from: nat, bit: nat)
    requires Kept(s, from, bit)
    ensures Kept(Step(s, e), from, bit)
  {
    LogsOne(s, e);
    var t := Step(s, e);
    if HandedOut(s.log, from, bit) {
      HandedOutStays(s, e, from, bit);
    } else if bit !in t.flag {
      assert t.log[|s.log|].Got? && bit in t.log[|s.log|].taken;
    }
  }

  lemma {:induction false} KeptRun(s: State, run: seq<Event>, from: nat, bit: nat)
    requires Kept(s, from, bit)
    ensures Kept(Play(s, run), from, bit)
    decreases |run|
  {
    if run != [] {
      KeptStep(s, run[0], from, bit);
      KeptRun(Step(s, run[0]), run[1..], from, bit);
    }
  }

  /** In every state of an initialised event and whatever follows, each bit that is set is still there or has been
      handed out since. */
  lemma SetIsKept(s: State, bits: Flags, bit: nat, run: seq<Event>)
    requires s.ready && bit in bits
    ensures Kept(Play(Step(s, SetBits(bits)), run), |s.log|, bit)
  {
    SetMarks(s, bits);
    KeptRun(Step(s, SetBits(bits)), run, |s.log|, bit);
  }
}
