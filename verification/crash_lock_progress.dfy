/** What the crash lock promises after a regular boot: the dumper word always tells who dumps, and
    a crash can always still end in a dump. */
module CrashLockProgress {
  import opened CrashLock
  import opened CrashLockBreaks

  // ---- the dumper word ----

  /** The test by which the application side asks whether it owns the dump. */
  predicate ApInDumpMode(r: Region)
  {
    r.dumper != NOBODY && r.head == HEAD && r.tail == TAIL && r.dumper == 1
  }

  predicate CpInDumpMode(r: Region)
  {
    r.dumper != NOBODY && r.head == HEAD && r.tail == TAIL && r.dumper == 0
  }

  /** Once the dumper word names a side, the two queries name the same side if and only if both guard words are
      sealed; in a corrupted region neither side is reported. */
  lemma QueriesRightIff(r: Region)
    requires r.dumper <= 1
    ensures (ApInDumpMode(r) <==> r.dumper == 1) && (CpInDumpMode(r) <==> r.dumper == 0) <==>
            r.head == 0xabcd9527 && r.tail == 0x9527abcd
    ensures r.head != 0xabcd9527 || r.tail != 0x9527abcd ==> !ApInDumpMode(r) && !CpInDumpMode(r)
  {
  }

  /** A core that dumps by the fallback, because a guard word is still wrong after its repair, is not reported. */
  lemma FallbackUnseen(s: State, c: Core) returns (run: seq<Core>)
    requires At(s, c) == Check(0, true, true) && (s.region.head != HEAD || s.region.tail != TAIL)
    ensures var t := Play(s, run);
            At(t, c) == Dumping && t.region.dumper == Me(c) && !ApInDumpMode(t.region) && !CpInDumpMode(t.region)
  {
    run := FallbackDumps(s, c);
  }

  ghost predicate DumperInv(s: State)
  {
    && Inv(s)
    && (s.region.dumper == 0 <==> s.cp.Dumping?)
    && (s.region.dumper == 1 <==> s.ap0.Dumping? || s.ap1.Dumping?)
  }

  lemma CpDumper(s: State)
    requires DumperInv(s)
    ensures DumperInv(Step(s, Cp))
  {
    InvStep(s, Cp);
  }

  /** An application core that is not about to enter itself as the dumper leaves the word and its own dumping alone. */
  lemma ApKeepsDumper(s: State, c: Core)
    requires DumperInv(s) && c != Cp && !At(s, c).SetDumper?
    ensures var t := Step(s, c);
            && t.region.dumper == s.region.dumper && t.cp == s.cp
            && (t.ap0.Dumping? || t.ap1.Dumping? <==> s.ap0.Dumping? || s.ap1.Dumping?)
  {
  }

  lemma ApDumper(s: State, c: Core)
    requires DumperInv(s) && c != Cp
    ensures DumperInv(Step(s, c))
  {
    InvStep(s, c);
    if !At(s, c).SetDumper? {
      ApKeepsDumper(s, c);
    }
  }

  lemma DumperStep(s: State, c: Core)
    requires DumperInv(s)
    ensures DumperInv(Step(s, c))
  {
    if c == Cp {
      CpDumper(s);
    } else {
      ApDumper(s, c);
    }
  }

  lemma {:induction false} PlayDumper(s: State, run: seq<Core>)
    requires DumperInv(s)
    ensures DumperInv(Play(s, run))
    decreases |run|
  {
    if run != [] {
      DumperStep(s, run[0]);
      PlayDumper(Step(s, run[0]), run[1..]);
    }
  }

  /** Either side's query is true exactly while a core of that side dumps. */
  lemma RunDumpMode(run: seq<Core>)
    ensures var s := Play(BOOTED, run);
            && (ApInDumpMode(s.region) <==> s.ap0.Dumping? || s.ap1.Dumping?)
            && (CpInDumpMode(s.region) <==> s.cp.Dumping?)
  {
    PlayDumper(BOOTED, run);
  }

  lemma StaysStep(s: State, c: Core, d: Core)
    requires Inv(s) && At(s, c) == Dumping
    ensures At(Step(s, d), c) == Dumping
  {
  }

  /** A dump is never taken over: who dumps goes on dumping, alone, and stays the dumper on record. */
  lemma {:induction false} DumpIsFinal(s: State, c: Core, run: seq<Core>)
    requires DumperInv(s) && At(s, c) == Dumping
    ensures var t := Play(s, run); At(t, c) == Dumping && Exclusive(t) && t.region.dumper == Me(c)
    decreases |run|
  {
    if run != [] {
      StaysStep(s, c, run[0]);
      DumperStep(s, run[0]);
      DumpIsFinal(Step(s, run[0]), c, run[1..]);
    }
  }

  // ---- no deadlock ----

  /** How the flags and the spin lock follow the cores after a regular boot. */
  ghost predicate Tidy(s: State)
  {
    && s.spin.head == HEAD && s.spin.tail == TAIL
    && (s.region.want0 == 1 <==> Wants(s.cp))
    && (s.region.want1 == 1 <==> Wants(s.ap0) || Wants(s.ap1))
    && (s.cp.TestTurn? ==> s.region.want1 == 1)
    && (s.ap0.TestTurn? || s.ap1.TestTurn? ==> s.region.want0 == 1)
    && (s.spin.held <==> Holds(s.ap0) || Holds(s.ap1))
    && !(Holds(s.ap0) && Holds(s.ap1))
    && Orderly(s.ap0) && Orderly(s.ap1)
  }

  ghost predicate LiveInv(s: State)
  {
    Inv(s) && Tidy(s) && CheckBounded(s.cp) && CheckBounded(s.ap0) && CheckBounded(s.ap1)
  }

  predicate CheckBounded(pc: Pc)
  {
    pc.Check? ==> pc.k <= 5
  }

  lemma CpLive(s: State)
    requires LiveInv(s)
    ensures LiveInv(Step(s, Cp))
  {
    InvStep(s, Cp);
  }

  lemma Ap0Spins(s: State)
    requires LiveInv(s) && !Alone(s.ap0)
    ensures Tidy(Step(s, Ap0))
  {
  }

  lemma Ap0Competes(s: State)
    requires LiveInv(s) && Alone(s.ap0)
    ensures Tidy(Step(s, Ap0))
  {
  }

  lemma Ap0Live(s: State)
    requires LiveInv(s)
    ensures LiveInv(Step(s, Ap0))
  {
    InvStep(s, Ap0);
    if Alone(s.ap0) {
      Ap0Competes(s);
    } else {
      Ap0Spins(s);
    }
  }

  lemma Ap1Spins(s: State)
    requires LiveInv(s) && !Alone(s.ap1)
    ensures Tidy(Step(s, Ap1))
  {
  }

  lemma Ap1Competes(s: State)
    requires LiveInv(s) && Alone(s.ap1)
    ensures Tidy(Step(s, Ap1))
  {
  }

  lemma Ap1Live(s: State)
    requires LiveInv(s)
    ensures LiveInv(Step(s, Ap1))
  {
    InvStep(s, Ap1);
    if Alone(s.ap1) {
      Ap1Competes(s);
    } else {
      Ap1Spins(s);
    }
  }

  lemma LiveStep(s: State, c: Core)
    requires LiveInv(s)
    ensures LiveInv(Step(s, c))
  {
    match c
    case Cp => CpLive(s);
    case Ap0 => Ap0Live(s);
    case Ap1 => Ap1Live(s);
  }

  lemma {:induction false} PlayLive(s: State, run: seq<Core>)
    requires LiveInv(s)
    ensures LiveInv(Play(s, run))
    decreases |run|
  {
    if run != [] {
      LiveStep(s, run[0]);
      PlayLive(Step(s, run[0]), run[1..]);
    }
  }

  /** Steps left to a dump when nobody interferes. */
  function Rank(pc: Pc): nat
  {
    match pc
    case SpinCheck => 14
    case SpinTake => 13
    case StopPeer => 12
    case Check(k, _, _) => if k <= 5 then 11 - k else 6
    case SetWant => 5
    case SetTurn => 4
    case TestWant => 3
    case TestTurn => 2
    case SetDumper => 1
    case _ => 0
  }

  function Total(s: State): nat
  {
    Rank(s.cp) + Rank(s.ap0) + Rank(s.ap1)
  }

  predicate Crashed(s: State)
  {
    s.cp != Running || (s.ap0 != Running && s.ap0 != Stopped) || (s.ap1 != Running && s.ap1 != Stopped)
  }

  predicate Dumped(s: State)
  {
    s.cp.Dumping? || s.ap0.Dumping? || s.ap1.Dumping?
  }

  /** The core whose turn it is to get nearer to a dump. */
  function Leader(s: State): Core
  {
    if s.cp != Running && !(InLoop(s.cp) && s.region.want1 == 1 && s.region.turn == 1) then Cp
    else if Alone(s.ap0) || s.ap0.StopPeer? then Ap0
    else if Alone(s.ap1) || s.ap1.StopPeer? then Ap1
    else if s.ap0 != Running && s.ap0 != Stopped then Ap0
    else Ap1
  }

  lemma CpAdvances(s: State)
    requires LiveInv(s) && Crashed(s) && !Dumped(s) && Leader(s) == Cp
    ensures var t := Step(s, Cp); Total(t) < Total(s) && Crashed(t)
  {
  }

  lemma Ap0Advances(s: State)
    requires LiveInv(s) && Crashed(s) && !Dumped(s) && Leader(s) == Ap0
    ensures var t := Step(s, Ap0); Total(t) < Total(s) && Crashed(t)
  {
  }

  lemma Ap1Advances(s: State)
    requires LiveInv(s) && Crashed(s) && !Dumped(s) && Leader(s) == Ap1
    ensures var t := Step(s, Ap1); Total(t) < Total(s) && Crashed(t)
  {
  }

  /** The two sides never wait for each other: some core always gets nearer. */
  lemma LeaderAdvances(s: State)
    requires LiveInv(s) && Crashed(s) && !Dumped(s)
    ensures var t := Step(s, Leader(s)); Total(t) < Total(s) && Crashed(t)
  {
    match Leader(s)
    case Cp => CpAdvances(s);
    case Ap0 => Ap0Advances(s);
    case Ap1 => Ap1Advances(s);
  }

  lemma {:induction false} CanDumpFrom(s: State) returns (run: seq<Core>)
    requires LiveInv(s) && Crashed(s)
    ensures Dumped(Play(s, run))
    decreases Total(s)
  {
    if Dumped(s) {
      run := [];
    } else {
      LeaderAdvances(s);
      LiveStep(s, Leader(s));
      var more := CanDumpFrom(Step(s, Leader(s)));
      run := [Leader(s)] + more;
      assert run[1..] == more;
    }
  }

  /** After a regular boot, every run in which some core has crashed can be continued to a dump. */
  lemma RunCanDump(run: seq<Core>) returns (more: seq<Core>)
    requires Crashed(Play(BOOTED, run))
    ensures Dumped(Play(BOOTED, run + more))
  {
    PlayLive(BOOTED, run);
    more := CanDumpFrom(Play(BOOTED, run));
    PlayAppend(BOOTED, run, more);
  }

  ghost predicate Shut(s: State)
  {
    && Inv(s) && s.cp == Running && s.region.want0 == 1
    && !Won(s.ap0) && !Won(s.ap1)
    && (InLoop(s.ap0) || InLoop(s.ap1) ==> s.region.turn == 0)
  }

  lemma ShutStep(s: State, c: Core)
    requires Shut(s) && c != Cp
    ensures Shut(Step(s, c))
  {
    InvStep(s, c);
  }

  lemma {:induction false} LockedOut(s: State, run: seq<Core>)
    requires Shut(s) && WithoutCp(run)
    ensures Shut(Play(s, run))
    decreases |run|
  {
    if run != [] {
      assert run[0] != Cp && WithoutCp(run[1..]);
      ShutStep(s, run[0]);
      LockedOut(Step(s, run[0]), run[1..]);
    }
  }

  ghost predicate WithoutCp(run: seq<Core>)
  {
    forall i :: 0 <= i < |run| ==> run[i] != Cp
  }

  /** With the communication core's status word clear, a lone application core gets to dump. */
  lemma ClearWantDumps(s: State) returns (run: seq<Core>)
    requires Quiet(s) && Valid(s.region) && s.region.want0 != 1
    ensures WithoutCp(run) && Dumped(Play(s, run))
  {
    var spin := PassSpin(s);
    var check := CheckAlone(Play(s, spin), Ap0, false);
    PlayAppend(s, spin, check);
    var win := WinAlone(Play(s, spin + check), Ap0);
    PlayAppend(s, spin + check, win);
    run := spin + check + win;
  }

  /** Before any crash and with a valid region, the application cores can never dump without the communication
      core exactly when its status word is still set: a word left over from an earlier crash locks them out. */
  lemma StaleWantIff(s: State)
    requires Quiet(s) && Valid(s.region)
    ensures (forall run :: WithoutCp(run) ==> !Dumped(Play(s, run))) <==> s.region.want0 == 1
  {
    if s.region.want0 == 1 {
      forall run | WithoutCp(run) ensures !Dumped(Play(s, run)) {
        LockedOut(s, run);
      }
    } else {
      var run := ClearWantDumps(s);
    }
  }
}
