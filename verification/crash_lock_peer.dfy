/** The crash lock when the request to stop the peer takes effect late or never. What then keeps the
    two application cores apart is the spin lock, which is never released. */
module CrashLockPeer {
  import opened CrashLock
  import opened CrashLockBreaks

  /** A core takes its next step, or stops for good. */
  datatype Move = Go(c: Core) | Halt(c: Core)

  /** A core that asks its peer to stop goes on at once. The peer stops when it stops, if ever. */
  function Act(s: State, m: Move): State
  {
    match m
    case Go(c) => if At(s, c) == StopPeer then Put(s, c, Check(0, true, false)) else Step(s, c)
    case Halt(c) => Put(s, c, Stopped)
  }

  function Wander(s: State, run: seq<Move>): State
    decreases |run|
  {
    if run == [] then s else Wander(Act(s, run[0]), run[1..])
  }

  lemma {:induction false} WanderAppend(s: State, run: seq<Move>, more: seq<Move>)
    ensures Wander(s, run + more) == Wander(Wander(s, run), more)
    decreases |run|
  {
    if run == [] {
      assert run + more == more;
    } else {
      assert (run + more)[1..] == run[1..] + more;
      WanderAppend(Act(s, run[0]), run[1..], more);
    }
  }

  ghost predicate Reaches(s: State, t: State)
  {
    exists run :: Wander(s, run) == t
  }

  lemma ReachesSelf(s: State)
    ensures Reaches(s, s)
  {
    assert Wander(s, []) == s;
  }

  lemma ReachesOn(s: State, t: State, u: State)
    requires Reaches(s, t) && Reaches(t, u)
    ensures Reaches(s, u)
  {
    var run :| Wander(s, run) == t;
    var more :| Wander(t, more) == u;
    WanderAppend(s, run, more);
  }

  lemma ReachesNext(s: State, t: State, m: Move)
    requires Reaches(s, t)
    ensures Reaches(s, Act(t, m))
  {
    assert [m][1..] == [];
    assert Wander(t, [m]) == Act(t, m);
    ReachesOn(s, t, Act(t, m));
  }

  // ---- a stop that takes effect at once is one of the cases ----

  lemma StepIsMoves(s: State, c: Core)
    requires !s.cp.StopPeer?
    ensures Reaches(s, Step(s, c)) && !Step(s, c).cp.StopPeer?
  {
    ReachesSelf(s);
    ReachesNext(s, s, Go(c));
    if At(s, c) == StopPeer {
      ReachesNext(s, Act(s, Go(c)), Halt(if c == Ap0 then Ap1 else Ap0));
    }
  }

  /** Every run in which stops take effect at once is also a run here. */
  lemma {:induction false} PlayIsMoves(s: State, run: seq<Core>)
    requires !s.cp.StopPeer?
    ensures Reaches(s, Play(s, run))
    decreases |run|
  {
    if run == [] {
      ReachesSelf(s);
    } else {
      StepIsMoves(s, run[0]);
      PlayIsMoves(Step(s, run[0]), run[1..]);
      ReachesOn(s, Step(s, run[0]), Play(s, run));
    }
  }

  // ---- exclusion ----

  predicate Guarded(spin: Spin)
  {
    spin.head == HEAD && spin.tail == TAIL
  }

  /** The lock is held from the moment one application core has it, and only one ever does. */
  ghost predicate PeerInv(s: State)
  {
    && Valid(s.region) && Guarded(s.spin)
    && Trusting(s.cp) && Trusting(s.ap0) && Trusting(s.ap1)
    && !s.cp.StopPeer? && (Spinning(s.cp) ==> s.cp == Running)
    && Orderly(s.ap0) && Orderly(s.ap1)
    && (Holds(s.ap0) || Holds(s.ap1) ==> s.spin.held)
    && !(Holds(s.ap0) && Holds(s.ap1))
    && Peterson(s.region, s.cp, s.ap0)
    && Peterson(s.region, s.cp, s.ap1)
  }

  lemma CpGoes(s: State)
    requires PeerInv(s)
    ensures PeerInv(Act(s, Go(Cp)))
  {
    CpCompetes(s.region, s.cp, s.ap0);
    CpCompetes(s.region, s.cp, s.ap1);
  }

  lemma Ap0Spins(s: State)
    requires PeerInv(s) && !Alone(s.ap0)
    ensures PeerInv(Act(s, Go(Ap0)))
  {
  }

  lemma Ap0Goes(s: State)
    requires PeerInv(s)
    ensures PeerInv(Act(s, Go(Ap0)))
  {
    if Alone(s.ap0) {
      ApCompetes(s.region, s.cp, s.ap0);
    } else {
      Ap0Spins(s);
    }
  }

  lemma Ap1Spins(s: State)
    requires PeerInv(s) && !Alone(s.ap1)
    ensures PeerInv(Act(s, Go(Ap1)))
  {
  }

  lemma Ap1Goes(s: State)
    requires PeerInv(s)
    ensures PeerInv(Act(s, Go(Ap1)))
  {
    if Alone(s.ap1) {
      ApCompetes(s.region, s.cp, s.ap1);
    } else {
      Ap1Spins(s);
    }
  }

  lemma {:induction false} WanderInv(s: State, run: seq<Move>)
    requires PeerInv(s)
    ensures PeerInv(Wander(s, run))
    decreases |run|
  {
    if run != [] {
      match run[0] {
        case Go(Cp) => CpGoes(s);
        case Go(Ap0) => Ap0Goes(s);
        case Go(Ap1) => Ap1Goes(s);
        case Halt(c) =>
      }
      WanderInv(Act(s, run[0]), run[1..]);
    }
  }

  /** With a valid region and intact guard words, no two cores ever dump, whether and whenever cores stop. */
  lemma SpinExcludes(s: State, run: seq<Move>)
    requires Quiet(s) && Valid(s.region) && Guarded(s.spin)
    ensures Exclusive(Wander(s, run))
  {
    WanderInv(s, run);
  }

  // ---- broken guard words ----

  /** What a core does alone in the region is a run here too. */
  lemma {:induction false} SoloIsMoves(s: State, c: Core, n: nat)
    requires InRegion(At(s, c))
    ensures var done := Solo(s.region, Me(c), At(s, c), n); Reaches(s, Put(s.(region := done.0), c, done.1))
    decreases n
  {
    if n == 0 {
      PutSame(s, c);
      ReachesSelf(s);
    } else {
      var next := Compete(s.region, Me(c), At(s, c));
      StepInRegion(s, c);
      var done := Solo(next.0, Me(c), next.1, n - 1);
      PutTwice(s, c, next.0, done.0, next.1, done.1);
      SoloIsMoves(Step(s, c), c, n - 1);
      ReachesSelf(s);
      ReachesNext(s, s, Go(c));
      ReachesOn(s, Step(s, c), Put(s.(region := done.0), c, done.1));
    }
  }

  /** The region after side `me` has announced itself and given the turn away. */
  function Announced(r: Region, me: nat): Region
  {
    if me == 0 then r.(want0 := 1, turn := 1) else r.(want1 := 1, turn := 0)
  }

  lemma Announces(s: State, c: Core)
    requires At(s, c) == Check(0, true, false) && Valid(s.region)
    ensures Reaches(s, Put(s.(region := Announced(s.region, Me(c))), c, TestWant))
  {
    var r, me := s.region, Me(c);
    SoloChecks(r, me, false);
    SoloIsMoves(s, c, 6);
    var t := Put(s, c, SetWant);
    var r1 := Compete(r, me, SetWant).0;
    assert Solo(r, me, SetWant, 2) == Solo(r1, me, SetTurn, 1);
    assert Solo(r1, me, SetTurn, 1) == Solo(Announced(r, me), me, TestWant, 0);
    SoloIsMoves(t, c, 2);
    PutTwice(s, c, r, Announced(r, me), SetWant, TestWant);
    ReachesOn(s, t, Put(s.(region := Announced(r, me)), c, TestWant));
  }

  lemma TurnWins(s: State, c: Core)
    requires c != Cp && At(s, c) == TestWant && s.region.want0 == 1 && s.region.turn == 1
    ensures Reaches(s, Put(s.(region := s.region.(dumper := 1)), c, Dumping))
  {
    var r := s.region;
    assert Solo(r, 1, TestWant, 3) == Solo(r, 1, TestTurn, 2);
    assert Solo(r, 1, TestTurn, 2) == Solo(r, 1, SetDumper, 1);
    assert Solo(r, 1, SetDumper, 1) == Solo(r.(dumper := 1), 1, Dumping, 0);
    SoloIsMoves(s, c, 3);
  }

  /** An application core that finds broken guard words. */
  lemma FindsBroken(s: State, c: Core)
    requires c != Cp && At(s, c) == Running && !Guarded(s.spin)
    ensures Reaches(s, Put(s, c, SpinInit))
  {
    ReachesSelf(s);
    ReachesNext(s, s, Go(c));
    ReachesNext(s, Put(s, c, SpinCheck), Go(c));
    assert Act(Put(s, c, SpinCheck), Go(c)) == Put(s, c, SpinInit);
  }

  /** It initialises the lock anew and takes it, even from its holder. */
  lemma Seizes(s: State, c: Core)
    requires c != Cp && At(s, c) == SpinInit
    ensures Reaches(s, Put(s.(spin := Spin(HEAD, true, TAIL)), c, Check(0, true, false)))
  {
    var s1 := Put(s.(spin := s.spin.(held := false)), c, SpinInitHead);
    var s2 := Put(s.(spin := s1.spin.(head := HEAD)), c, SpinInitTail);
    var s3 := Put(s.(spin := Spin(HEAD, false, TAIL)), c, SpinTake);
    var s4 := Put(s.(spin := Spin(HEAD, true, TAIL)), c, StopPeer);
    ReachesSelf(s);
    ReachesNext(s, s, Go(c));
    assert Act(s, Go(c)) == s1;
    ReachesNext(s, s1, Go(c));
    assert Act(s1, Go(c)) == s2;
    ReachesNext(s, s2, Go(c));
    assert Act(s2, Go(c)) == s3;
    ReachesNext(s, s3, Go(c));
    assert Act(s3, Go(c)) == s4;
    ReachesNext(s, s4, Go(c));
  }

  /** Both application cores find the guard words broken, and both get past the spin lock. */
  lemma BothSeize(s: State)
    requires Quiet(s) && !Guarded(s.spin)
    ensures Reaches(s, State(s.region, Spin(HEAD, true, TAIL), Running, Check(0, true, false), Check(0, true, false)))
  {
    FindsBroken(s, Ap0);
    var s1 := s.(ap0 := SpinInit);
    FindsBroken(s1, Ap1);
    var s2 := s1.(ap1 := SpinInit);
    ReachesOn(s, s1, s2);
    Seizes(s2, Ap0);
    var s3 := s2.(spin := Spin(HEAD, true, TAIL), ap0 := Check(0, true, false));
    ReachesOn(s, s2, s3);
    Seizes(s3, Ap1);
    ReachesOn(s, s3, s3.(ap1 := Check(0, true, false)));
  }

  lemma AllAnnounce(r: Region, spin: Spin)
    requires Valid(r)
    ensures var c := Check(0, true, false);
            Reaches(State(r, spin, Running, c, c), State(r.(want0 := 1, want1 := 1, turn := 1), spin, TestWant, TestWant, TestWant))
  {
    var check := Check(0, true, false);
    var s := State(r, spin, Running, check, check);
    Announces(s, Ap0);
    var s1 := State(Announced(r, 1), spin, Running, TestWant, check);
    Announces(s1, Ap1);
    var s2 := State(Announced(r, 1), spin, Running, TestWant, TestWant);
    ReachesOn(s, s1, s2);
    var s3 := s2.(cp := check);
    ReachesNext(s, s2, Go(Cp));
    assert Act(s2, Go(Cp)) == s3;
    Announces(s3, Cp);
    ReachesOn(s, s3, s3.(region := Announced(s3.region, 0), cp := TestWant));
  }

  /** Both application cores dump. */
  predicate BothDump(s: State)
  {
    s.ap0.Dumping? && s.ap1.Dumping?
  }

  /** With broken guard words, a turn that the communication core gives away is taken by both application cores. */
  lemma BrokenGuardBreaks(s: State)
    requires Quiet(s) && Valid(s.region) && !Guarded(s.spin)
    ensures exists run :: BothDump(Wander(s, run))
  {
    var spin, check := Spin(HEAD, true, TAIL), Check(0, true, false);
    var s1 := State(s.region, spin, Running, check, check);
    BothSeize(s);
    AllAnnounce(s.region, spin);
    var s2 := State(s.region.(want0 := 1, want1 := 1, turn := 1), spin, TestWant, TestWant, TestWant);
    ReachesOn(s, s1, s2);
    TurnWins(s2, Ap0);
    var s3 := s2.(region := s2.region.(dumper := 1), ap0 := Dumping);
    ReachesOn(s, s2, s3);
    TurnWins(s3, Ap1);
    var s4 := s3.(ap1 := Dumping);
    ReachesOn(s, s3, s4);
    var run :| Wander(s, run) == s4;
  }

  /** Before any crash, exclusion holds over every run, however stops take effect, exactly when the region is
      valid and the spin lock's guard words are intact. */
  lemma ExclusiveAnyStopIff(s: State)
    requires Quiet(s)
    ensures (forall run :: Exclusive(Wander(s, run))) <==> Valid(s.region) && Guarded(s.spin)
  {
    if !Valid(s.region) {
      var play := InvalidBreaks(s);
      PlayIsMoves(s, play);
      var run :| Wander(s, run) == Play(s, play);
      assert !Exclusive(Wander(s, run));
    } else if !Guarded(s.spin) {
      BrokenGuardBreaks(s);
      var run :| BothDump(Wander(s, run));
      assert !Exclusive(Wander(s, run));
    } else {
      forall run ensures Exclusive(Wander(s, run)) {
        SpinExcludes(s, run);
      }
    }
  }
}
