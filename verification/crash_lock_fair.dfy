/** Every fair run of the crash lock ends in a dump, within a fixed number of rounds. */
module CrashLockFair {
  import opened CrashLock
  import opened CrashLockProgress

  /** Steps left to a dump; a core waits without getting nearer while the other side has the turn. */
  function Weight(r: Region, me: nat, pc: Pc): nat
  {
    if pc.Running? then 15
    else if pc.TestTurn? && r.turn != me then 3
    else Rank(pc)
  }

  function Potential(s: State): nat
  {
    Weight(s.region, 0, s.cp) + Weight(s.region, 1, s.ap0) + Weight(s.region, 1, s.ap1)
  }

  /** A crashed core that has not been stopped. */
  predicate Awake(s: State, c: Core)
  {
    At(s, c) != Running && At(s, c) != Stopped
  }

  lemma LeaderAwake(s: State)
    requires LiveInv(s) && Crashed(s) && !Dumped(s)
    ensures Awake(s, Leader(s))
  {
  }

  /** A side waits while the other one wants to dump and has the turn. */
  predicate Waits(r: Region, me: nat, pc: Pc)
    requires me <= 1
  {
    InLoop(pc) && Want(r, 1 - me) == 1 && r.turn == 1 - me
  }

  lemma CompeteFalls(r: Region, me: nat, pc: Pc)
    requires me <= 1 && Valid(r) && (Competing(pc) || (pc.Check? && pc.sane && !pc.again && pc.k <= 5)) && !pc.Dumping?
    requires pc.TestTurn? ==> Want(r, 1 - me) == 1
    ensures var (r', pc') := Compete(r, me, pc);
            if Waits(r, me, pc) then
              r' == r && InLoop(pc') && Weight(r, me, pc') == Weight(r, me, pc)
            else
              Weight(r', me, pc') < Weight(r, me, pc)
  {
  }

  /** The turn is only ever given to the other side. */
  lemma OtherFalls(r: Region, me: nat, pc: Pc, other: Pc)
    requires me <= 1 && Trusting(pc)
    ensures Weight(Compete(r, me, pc).0, 1 - me, other) <= Weight(r, 1 - me, other)
  {
  }

  /** A step never raises the potential; one that leaves it changes nothing about who leads. */
  ghost predicate Falls(s: State, c: Core, t: State)
  {
    || Dumped(t)
    || Potential(t) < Potential(s)
    || (Potential(t) == Potential(s) && c != Leader(s) && Leader(t) == Leader(s))
  }

  lemma CpFalls(s: State)
    requires LiveInv(s) && Crashed(s) && !Dumped(s)
    ensures Falls(s, Cp, Step(s, Cp))
  {
    if s.cp != Running {
      CompeteFalls(s.region, 0, s.cp);
      OtherFalls(s.region, 0, s.cp, s.ap0);
      OtherFalls(s.region, 0, s.cp, s.ap1);
    }
  }

  lemma Ap0Falls(s: State)
    requires LiveInv(s) && Crashed(s) && !Dumped(s)
    ensures Falls(s, Ap0, Step(s, Ap0))
  {
    if Alone(s.ap0) {
      CompeteFalls(s.region, 1, s.ap0);
      OtherFalls(s.region, 1, s.ap0, s.cp);
    }
  }

  lemma Ap1Falls(s: State)
    requires LiveInv(s) && Crashed(s) && !Dumped(s)
    ensures Falls(s, Ap1, Step(s, Ap1))
  {
    if Alone(s.ap1) {
      CompeteFalls(s.region, 1, s.ap1);
      OtherFalls(s.region, 1, s.ap1, s.cp);
    }
  }

  lemma CrashedStays(s: State, c: Core)
    requires LiveInv(s) && Crashed(s)
    ensures Crashed(Step(s, c))
  {
  }

  lemma DumpedStays(s: State, c: Core)
    requires LiveInv(s) && Dumped(s)
    ensures Dumped(Step(s, c))
  {
    if s.cp.Dumping? {
      StaysStep(s, Cp, c);
    } else if s.ap0.Dumping? {
      StaysStep(s, Ap0, c);
    } else {
      StaysStep(s, Ap1, c);
    }
  }

  lemma StepFalls(s: State, c: Core)
    requires LiveInv(s) && Crashed(s) && !Dumped(s)
    ensures var t := Step(s, c); LiveInv(t) && Crashed(t) && Falls(s, c, t)
  {
    LiveStep(s, c);
    CrashedStays(s, c);
    match c
    case Cp => CpFalls(s);
    case Ap0 => Ap0Falls(s);
    case Ap1 => Ap1Falls(s);
  }

  // ---- rounds ----

  lemma {:induction false} DumpedRun(s: State, run: seq<Core>)
    requires LiveInv(s) && Dumped(s)
    ensures Dumped(Play(s, run))
    decreases |run|
  {
    if run != [] {
      LiveStep(s, run[0]);
      DumpedStays(s, run[0]);
      DumpedRun(Step(s, run[0]), run[1..]);
    }
  }

  lemma {:induction false} RunFalls(s: State, run: seq<Core>)
    requires LiveInv(s) && Crashed(s)
    ensures var t := Play(s, run);
            && LiveInv(t) && Crashed(t)
            && (Dumped(t) || Potential(t) <= Potential(s))
            && (Leader(s) in run ==> Dumped(t) || Potential(t) < Potential(s))
    decreases |run|
  {
    if run != [] {
      var t := Step(s, run[0]);
      LiveStep(s, run[0]);
      CrashedStays(s, run[0]);
      RunFalls(t, run[1..]);
      if Dumped(s) {
        DumpedRun(s, run);
      } else {
        StepFalls(s, run[0]);
        if Dumped(t) {
          DumpedRun(t, run[1..]);
        }
      }
    }
  }

  /** In every round each core steps that is awake when the round begins, once or more and in any order. */
  ghost predicate Fair(s: State, rounds: seq<seq<Core>>)
    decreases |rounds|
  {
    rounds == [] || ((forall c :: Awake(s, c) ==> c in rounds[0]) && Fair(Play(s, rounds[0]), rounds[1..]))
  }

  function Joined(rounds: seq<seq<Core>>): seq<Core>
  {
    if rounds == [] then [] else rounds[0] + Joined(rounds[1..])
  }

  lemma {:induction false} RoundsDump(s: State, rounds: seq<seq<Core>>)
    requires LiveInv(s) && Crashed(s) && Fair(s, rounds) && |rounds| >= Potential(s)
    ensures Dumped(Play(s, Joined(rounds)))
    decreases |rounds|
  {
    if Dumped(s) {
      DumpedRun(s, Joined(rounds));
    } else {
      LeaderAwake(s);
      PotentialLeft(s);
      var t := Play(s, rounds[0]);
      RunFalls(s, rounds[0]);
      PlayAppend(s, rounds[0], Joined(rounds[1..]));
      if Dumped(t) {
        DumpedRun(t, Joined(rounds[1..]));
      } else {
        RoundsDump(t, rounds[1..]);
      }
    }
  }

  lemma PotentialLeft(s: State)
    requires LiveInv(s) && Crashed(s) && !Dumped(s)
    ensures Potential(s) > 0
  {
  }

  /** After a regular boot and a crash, 45 rounds end in a dump, however the cores take turns and
      whichever of the others crash meanwhile. */
  lemma RunMustDump(run: seq<Core>, rounds: seq<seq<Core>>)
    requires Crashed(Play(BOOTED, run)) && Fair(Play(BOOTED, run), rounds) && |rounds| >= 45
    ensures Dumped(Play(BOOTED, run + Joined(rounds)))
  {
    PlayLive(BOOTED, run);
    RoundsDump(Play(BOOTED, run), rounds);
    PlayAppend(BOOTED, run, Joined(rounds));
  }

  // ---- endless schedules ----

  /** `len` steps of the schedule from step `n` on. */
  function Part(f: nat -> Core, n: nat, len: nat): seq<Core>
  {
    seq(len, i requires 0 <= i => f(n + i))
  }

  /** The state after `n` steps of the schedule. */
  function After(f: nat -> Core, n: nat): State
  {
    Play(BOOTED, Part(f, 0, n))
  }

  lemma AfterLive(f: nat -> Core, n: nat)
    ensures LiveInv(After(f, n))
  {
    PlayLive(BOOTED, Part(f, 0, n));
  }

  lemma AfterPlay(f: nat -> Core, n: nat, len: nat)
    ensures After(f, n + len) == Play(After(f, n), Part(f, n, len))
  {
    assert Part(f, 0, n + len) == Part(f, 0, n) + Part(f, n, len);
    PlayAppend(BOOTED, Part(f, 0, n), Part(f, n, len));
  }

  predicate Steps(f: nat -> Core, m: nat, c: Core)
  {
    f(m) == c
  }

  /** No core that is awake is left waiting for its next step forever. */
  ghost predicate FairSchedule(f: nat -> Core)
  {
    forall n: nat, c :: Awake(After(f, n), c) ==> exists m :: n <= m && Steps(f, m, c)
  }

  lemma NextStep(f: nat -> Core, n: nat, c: Core) returns (m: nat)
    requires FairSchedule(f) && Awake(After(f, n), c)
    ensures n <= m && f(m) == c
  {
    m :| n <= m && Steps(f, m, c);
  }

  lemma LeaderNext(f: nat -> Core, n: nat) returns (m: nat)
    requires FairSchedule(f) && Crashed(After(f, n)) && !Dumped(After(f, n))
    ensures n <= m && f(m) == Leader(After(f, n))
  {
    AfterLive(f, n);
    LeaderAwake(After(f, n));
    m := NextStep(f, n, Leader(After(f, n)));
  }

  predicate Within(s: State, bound: nat)
  {
    Crashed(s) && (Dumped(s) || Potential(s) <= bound)
  }

  /** A run in which the leader steps. */
  lemma NearerAfter(s: State, run: seq<Core>, bound: nat)
    requires LiveInv(s) && Within(s, bound) && !Dumped(s) && Leader(s) in run
    ensures bound > 0 && Within(Play(s, run), bound - 1)
  {
    PotentialLeft(s);
    RunFalls(s, run);
  }

  lemma Nearer(f: nat -> Core, n: nat, m: nat, bound: nat)
    requires Within(After(f, n), bound) && !Dumped(After(f, n)) && n <= m && f(m) == Leader(After(f, n))
    ensures bound > 0 && Within(After(f, m + 1), bound - 1)
  {
    var run := Part(f, n, m + 1 - n);
    assert run[m - n] == f(m);
    AfterLive(f, n);
    NearerAfter(After(f, n), run, bound);
    AfterPlay(f, n, m + 1 - n);
  }

  lemma {:induction false} DumpsFrom(f: nat -> Core, n: nat, bound: nat) returns (k: nat)
    requires FairSchedule(f) && Within(After(f, n), bound)
    ensures Dumped(After(f, k))
    decreases bound
  {
    if Dumped(After(f, n)) {
      k := n;
    } else {
      var m := LeaderNext(f, n);
      Nearer(f, n, m, bound);
      k := DumpsFrom(f, m + 1, bound - 1);
    }
  }

  /** After a regular boot, every fair schedule in which some core crashes ends in a dump. */
  lemma FairScheduleDumps(f: nat -> Core, n: nat) returns (k: nat)
    requires FairSchedule(f) && Crashed(After(f, n))
    ensures Dumped(After(f, k))
  {
    k := DumpsFrom(f, n, Potential(After(f, n)));
  }
}
