/** What a core does alone, and how an invalid region breaks the crash lock's exclusion. */
module CrashLockBreaks {
  import opened CrashLock

  /** Past the spin lock, a core's steps concern only the region and its own place. */
  predicate InRegion(pc: Pc)
  {
    !Spinning(pc) && !pc.StopPeer?
  }

  /** The region and the place of side `me` after `n` steps of its own. */
  function Solo(r: Region, me: nat, pc: Pc, n: nat): (Region, Pc)
    requires me <= 1
    decreases n
  {
    if n == 0 then (r, pc) else var next := Compete(r, me, pc); Solo(next.0, me, next.1, n - 1)
  }

  function Repeated(c: Core, n: nat): seq<Core>
  {
    seq(n, i => c)
  }

  lemma StepInRegion(s: State, c: Core)
    requires InRegion(At(s, c))
    ensures var next := Compete(s.region, Me(c), At(s, c));
            Step(s, c) == Put(s.(region := next.0), c, next.1) && InRegion(next.1)
  {
  }

  lemma PutTwice(s: State, c: Core, r: Region, r': Region, pc: Pc, pc': Pc)
    ensures var t := Put(s.(region := r), c, pc);
            At(t, c) == pc && t.region == r && Put(t.(region := r'), c, pc') == Put(s.(region := r'), c, pc')
  {
  }

  lemma PutSame(s: State, c: Core)
    ensures Put(s.(region := s.region), c, At(s, c)) == s
  {
  }

  /** A run of one core's own steps is what it does alone; the other cores stay where they are. */
  lemma {:induction false} SoloPlay(s: State, c: Core, n: nat)
    requires InRegion(At(s, c))
    ensures var done := Solo(s.region, Me(c), At(s, c), n);
            Play(s, Repeated(c, n)) == Put(s.(region := done.0), c, done.1)
    decreases n
  {
    if n == 0 {
      PutSame(s, c);
    } else {
      var next := Compete(s.region, Me(c), At(s, c));
      StepInRegion(s, c);
      assert Repeated(c, n)[1..] == Repeated(c, n - 1);
      var done := Solo(next.0, Me(c), next.1, n - 1);
      PutTwice(s, c, next.0, done.0, next.1, done.1);
      SoloPlay(Step(s, c), c, n - 1);
    }
  }

  /** Every step of the run is the core's own. */
  predicate Only(run: seq<Core>, c: Core)
  {
    forall i :: 0 <= i < |run| ==> run[i] == c
  }

  /** How many reads it takes to find a region invalid. */
  function Effort(r: Region): nat
  {
    if !WordOk(r, 0) then 1 else if !WordOk(r, 1) then 2 else 6
  }

  /** Where a core goes that finds the region invalid: to the repair, or to the fallback if it has repaired already. */
  function Fixing(again: bool): Pc
  {
    if again then FallbackSet else Repair(0)
  }

  lemma SoloReads(r: Region, me: nat, again: bool)
    requires me <= 1 && !Valid(r)
    ensures Solo(r, me, Check(0, true, again), Effort(r)) == (r, Fixing(again))
  {
    if !WordOk(r, 0) {
      assert Solo(r, me, Check(0, true, again), 1) == Solo(r, me, Fixing(again), 0);
    } else if !WordOk(r, 1) {
      assert Solo(r, me, Check(0, true, again), 2) == Solo(r, me, Check(1, true, again), 1);
      assert Solo(r, me, Check(1, true, again), 1) == Solo(r, me, Fixing(again), 0);
    } else {
      var k3, k4, k5 := WordOk(r, 2), WordOk(r, 2) && WordOk(r, 3), WordOk(r, 2) && WordOk(r, 3) && WordOk(r, 4);
      assert Solo(r, me, Check(0, true, again), 6) == Solo(r, me, Check(1, true, again), 5);
      assert Solo(r, me, Check(1, true, again), 5) == Solo(r, me, Check(2, true, again), 4);
      assert Solo(r, me, Check(2, true, again), 4) == Solo(r, me, Check(3, k3, again), 3);
      assert Solo(r, me, Check(3, k3, again), 3) == Solo(r, me, Check(4, k4, again), 2);
      assert Solo(r, me, Check(4, k4, again), 2) == Solo(r, me, Check(5, k5, again), 1);
      assert Solo(r, me, Check(5, k5, again), 1) == Solo(r, me, Fixing(again), 0);
    }
  }

  /** A core that starts validating an invalid region alone decides to repair it and has changed nothing. */
  lemma ReachRepair(s: State, c: Core) returns (run: seq<Core>)
    requires At(s, c) == Check(0, true, false) && !Valid(s.region)
    ensures Play(s, run) == Put(s, c, Repair(0))
  {
    run := Repeated(c, Effort(s.region));
    SoloReads(s.region, Me(c), false);
    SoloPlay(s, c, Effort(s.region));
  }

  lemma SoloRepairs(r: Region, me: nat)
    requires me <= 1
    ensures Solo(r, me, Repair(0), 6) == (BOOTED.region, Check(0, true, true))
  {
    var r1 := Repaired(r, 0);
    var r2 := Repaired(r1, 1);
    var r3 := Repaired(r2, 2);
    var r4 := Repaired(r3, 3);
    var r5 := Repaired(r4, 4);
    assert Solo(r, me, Repair(0), 6) == Solo(r1, me, Repair(1), 5);
    assert Solo(r1, me, Repair(1), 5) == Solo(r2, me, Repair(2), 4);
    assert Solo(r2, me, Repair(2), 4) == Solo(r3, me, Repair(3), 3);
    assert Solo(r3, me, Repair(3), 3) == Solo(r4, me, Repair(4), 2);
    assert Solo(r4, me, Repair(4), 2) == Solo(r5, me, Repair(5), 1);
  }

  lemma SoloChecks(r: Region, me: nat, again: bool)
    requires me <= 1 && Valid(r)
    ensures Solo(r, me, Check(0, true, again), 6) == (r, SetWant)
  {
    assert Solo(r, me, Check(0, true, again), 6) == Solo(r, me, Check(1, true, again), 5);
    assert Solo(r, me, Check(1, true, again), 5) == Solo(r, me, Check(2, true, again), 4);
    assert Solo(r, me, Check(2, true, again), 4) == Solo(r, me, Check(3, true, again), 3);
    assert Solo(r, me, Check(3, true, again), 3) == Solo(r, me, Check(4, true, again), 2);
    assert Solo(r, me, Check(4, true, again), 2) == Solo(r, me, Check(5, true, again), 1);
  }

  /** A core that validates a valid region alone goes on to compete. */
  lemma CheckAlone(s: State, c: Core, again: bool) returns (run: seq<Core>)
    requires At(s, c) == Check(0, true, again) && Valid(s.region)
    ensures Play(s, run) == Put(s, c, SetWant) && Only(run, c)
  {
    run := Repeated(c, 6);
    SoloChecks(s.region, Me(c), again);
    SoloPlay(s, c, 6);
  }

  /** A core that repairs alone ends up competing in a freshly sealed region. */
  lemma RepairAlone(s: State, c: Core) returns (run: seq<Core>)
    requires At(s, c) == Repair(0)
    ensures Play(s, run) == Put(s.(region := BOOTED.region), c, SetWant)
  {
    SoloRepairs(s.region, Me(c));
    SoloPlay(s, c, 6);
    var t := Put(s.(region := BOOTED.region), c, Check(0, true, true));
    PutTwice(s, c, BOOTED.region, BOOTED.region, Check(0, true, true), SetWant);
    var more := CheckAlone(t, c, true);
    run := Repeated(c, 6) + more;
    PlayAppend(s, Repeated(c, 6), more);
  }

  lemma SoloWins(r: Region, me: nat)
    requires me <= 1 && Want(r, 1 - me) != 1
    ensures Solo(r, me, SetWant, 4).1 == Dumping
  {
    var r1 := Compete(r, me, SetWant).0;
    var r2 := Compete(r1, me, SetTurn).0;
    assert Solo(r, me, SetWant, 4) == Solo(r1, me, SetTurn, 3);
    assert Solo(r1, me, SetTurn, 3) == Solo(r2, me, TestWant, 2);
    assert Solo(r2, me, TestWant, 2) == Solo(r2, me, SetDumper, 1);
  }

  /** While the other side's status word is clear, a core that competes alone wins. */
  lemma WinAlone(s: State, c: Core) returns (run: seq<Core>)
    requires At(s, c) == SetWant && Want(s.region, 1 - Me(c)) != 1
    ensures At(Play(s, run), c) == Dumping && Only(run, c)
    ensures forall d :: d != c ==> At(Play(s, run), d) == At(s, d)
  {
    run := Repeated(c, 4);
    SoloWins(s.region, Me(c));
    SoloPlay(s, c, 4);
  }

  lemma SoloOne(s: State, c: Core)
    ensures Play(s, [c]) == Step(s, c)
  {
    assert [c][1..] == [];
  }

  lemma SoloTwo(s: State, c: Core)
    ensures Play(s, [c, c]) == Step(Step(s, c), c)
  {
    assert [c, c][1..] == [c];
    SoloOne(Step(s, c), c);
  }

  lemma SoloFour(s: State, c: Core)
    ensures Play(s, [c, c, c, c]) == Step(Step(Step(Step(s, c), c), c), c)
  {
    assert [c, c, c, c] == [c, c] + [c, c];
    PlayAppend(s, [c, c], [c, c]);
    SoloTwo(s, c);
    SoloTwo(Step(Step(s, c), c), c);
  }

  /** An application core that crashes alone reaches the validation, whatever the spin lock's guard words hold. */
  lemma PassSpin(s: State) returns (run: seq<Core>)
    requires s.ap0 == Running && !s.spin.held
    ensures var t := Play(s, run); t.ap0 == Check(0, true, false) && t.cp == s.cp && t.region == s.region
    ensures Only(run, Ap0)
  {
    SoloTwo(s, Ap0);
    var s2 := Play(s, [Ap0, Ap0]);
    if s.spin.head == HEAD && s.spin.tail == TAIL {
      run := [Ap0, Ap0] + [Ap0, Ap0];
      PlayAppend(s, [Ap0, Ap0], [Ap0, Ap0]);
      SoloTwo(s2, Ap0);
    } else {
      var last := [Ap0, Ap0, Ap0, Ap0] + [Ap0];
      run := [Ap0, Ap0] + last;
      PlayAppend(s, [Ap0, Ap0], last);
      PlayAppend(s2, [Ap0, Ap0, Ap0, Ap0], [Ap0]);
      SoloFour(s2, Ap0);
      InitSpin(s2);
      SoloOne(Play(s2, [Ap0, Ap0, Ap0, Ap0]), Ap0);
    }
  }

  lemma InitSpin(s: State)
    requires s.ap0 == SpinInit
    ensures var t := Step(Step(Step(Step(s, Ap0), Ap0), Ap0), Ap0);
            t.ap0 == StopPeer && t.cp == s.cp && t.region == s.region
  {
    var s1 := Step(s, Ap0);
    var s2 := Step(s1, Ap0);
    assert s2.ap0 == SpinInitTail && !s2.spin.held;
  }

  /** Both sides find the region invalid, each repairs it, and each wins. */
  lemma InvalidBreaks(s: State) returns (run: seq<Core>)
    requires Quiet(s) && !Valid(s.region)
    ensures !Exclusive(Play(s, run))
  {
    run := PassSpin(s);
    run := Then(s, run, [Cp]);
    SoloOne(Play(s, run[..|run| - 1]), Cp);
    assert run == run[..|run| - 1] + [Cp];
    PlayAppend(s, run[..|run| - 1], [Cp]);
    var more := ReachRepair(Play(s, run), Cp);
    run := Then(s, run, more);
    more := ReachRepair(Play(s, run), Ap0);
    run := Then(s, run, more);
    more := RepairAlone(Play(s, run), Cp);
    run := Then(s, run, more);
    more := WinAlone(Play(s, run), Cp);
    run := Then(s, run, more);
    more := RepairAlone(Play(s, run), Ap0);
    run := Then(s, run, more);
    more := WinAlone(Play(s, run), Ap0);
    run := Then(s, run, more);
    assert At(Play(s, run), Cp) == Dumping && At(Play(s, run), Ap0) == Dumping;
  }

  lemma Then(s: State, run: seq<Core>, more: seq<Core>) returns (both: seq<Core>)
    ensures both == run + more && Play(s, both) == Play(Play(s, run), more)
  {
    both := run + more;
    PlayAppend(s, run, more);
  }

  /** Before any crash, the exclusion holds over every run exactly when the region is valid. */
  lemma ExclusiveIff(s: State)
    requires Quiet(s)
    ensures (forall run :: Exclusive(Play(s, run))) <==> Valid(s.region)
  {
    if Valid(s.region) {
      forall run ensures Exclusive(Play(s, run)) {
        ValidExcludes(s, run);
      }
    } else {
      var run := InvalidBreaks(s);
    }
  }

  // ---- the fallback ----

  lemma SoloFallback(r: Region, me: nat)
    requires me <= 1
    ensures Solo(r, me, FallbackSet, 2) == (r.(dumper := me), Dumping)
  {
    assert Solo(r, me, FallbackSet, 2) == Solo(r.(dumper := me), me, FallbackTest, 1);
    assert Solo(r.(dumper := me), me, FallbackTest, 1) == Solo(r.(dumper := me), me, Dumping, 0);
  }

  /** A core that validates again after its repair, alone, and still finds the region invalid dumps all the same,
      with nothing but the dumper word changed. */
  lemma FallbackDumps(s: State, c: Core) returns (run: seq<Core>)
    requires At(s, c) == Check(0, true, true) && !Valid(s.region)
    ensures Only(run, c) && Play(s, run) == Put(s.(region := s.region.(dumper := Me(c))), c, Dumping)
  {
    var n := Effort(s.region);
    SoloReads(s.region, Me(c), true);
    SoloPlay(s, c, n);
    var t := Put(s, c, FallbackSet);
    PutTwice(s, c, s.region, s.region.(dumper := Me(c)), FallbackSet, Dumping);
    SoloFallback(s.region, Me(c));
    SoloPlay(t, c, 2);
    run := Repeated(c, n) + Repeated(c, 2);
    PlayAppend(s, Repeated(c, n), Repeated(c, 2));
  }

  lemma StuckStep(s: State, c: Core, d: Core)
    requires At(s, c) == Stuck && !s.cp.StopPeer?
    ensures var t := Step(s, d); (At(t, c) == Stuck || At(t, c) == Stopped) && !t.cp.StopPeer?
  {
  }

  lemma {:induction false} StuckForever(s: State, c: Core, run: seq<Core>)
    requires (At(s, c) == Stuck || At(s, c) == Stopped) && !s.cp.StopPeer?
    ensures At(Play(s, run), c) == Stuck || At(Play(s, run), c) == Stopped
    decreases |run|
  {
    if run != [] {
      if At(s, c) == Stuck {
        StuckStep(s, c, run[0]);
      }
      StuckForever(Step(s, run[0]), c, run[1..]);
    }
  }

  /** A core in the fallback whose entry the other side has overwritten never dumps. */
  lemma FallbackYields(s: State, c: Core, run: seq<Core>)
    requires At(s, c) == FallbackTest && s.region.dumper != Me(c) && !s.cp.StopPeer?
    ensures !At(Play(Step(s, c), run), c).Dumping?
  {
    StuckForever(Step(s, c), c, run);
  }
}
