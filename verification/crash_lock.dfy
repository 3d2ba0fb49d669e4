/** The lock that decides which core dumps after a crash: two application cores share a spin lock
    and then, as one side, run Peterson's algorithm against the communication core through a
    region of fixed shared memory. The lock is never released. Every read and write of shared
    memory is a step of its own, and any core may take the next step. */
module CrashLock {

  const HEAD: nat := 0xabcd9527
  const TAIL: nat := 0x9527abcd
  const NOBODY: nat := 0xffffffff

  /** The communication core and the two application cores. */
  datatype Core = Cp | Ap0 | Ap1

  /** The shared region. `want0`/`want1` are the exception status words of the two sides. */
  datatype Region = Region(head: nat, want0: nat, want1: nat, turn: nat, dumper: nat, tail: nat)

  /** The spin lock of the application cores with its guard words. */
  datatype Spin = Spin(head: nat, held: bool, tail: nat)

  datatype Pc =
    | Running
    | SpinCheck | SpinInit | SpinInitHead | SpinInitTail | SpinTake | StopPeer
    | Check(k: nat, sane: bool, again: bool)
    | Repair(i: nat)
    | SetWant | SetTurn | TestWant | TestTurn | SetDumper
    | FallbackSet | FallbackTest | Stuck
    | Dumping
    | Stopped

  datatype State = State(region: Region, spin: Spin, cp: Pc, ap0: Pc, ap1: Pc)

  /** A side's identity: 0 for the communication core, 1 for the application cores. */
  function Me(c: Core): nat
  {
    if c == Cp then 0 else 1
  }

  function At(s: State, c: Core): Pc
  {
    match c case Cp => s.cp case Ap0 => s.ap0 case Ap1 => s.ap1
  }

  function Put(s: State, c: Core, pc: Pc): State
  {
    match c case Cp => s.(cp := pc) case Ap0 => s.(ap0 := pc) case Ap1 => s.(ap1 := pc)
  }

  function Want(r: Region, side: nat): nat
  {
    if side == 0 then r.want0 else r.want1
  }

  /** Whether word `k` of the region, in the order of validation, holds a legal value. */
  predicate WordOk(r: Region, k: nat)
  {
    match k
    case 0 => r.head == HEAD
    case 1 => r.tail == TAIL
    case 2 => r.want0 <= 1
    case 3 => r.want1 <= 1
    case 4 => r.turn <= 1
    case _ => r.dumper == NOBODY || r.dumper <= 1
  }

  predicate Valid(r: Region)
  {
    WordOk(r, 0) && WordOk(r, 1) && WordOk(r, 2) && WordOk(r, 3) && WordOk(r, 4) && WordOk(r, 5)
  }

  /** A region is valid exactly when its guard words are sealed and every value is one that the lock writes. */
  lemma ValidWords(r: Region)
    ensures Valid(r) <==>
            && r.head == 0xabcd9527 && r.tail == 0x9527abcd
            && (r.want0 == 0 || r.want0 == 1) && (r.want1 == 0 || r.want1 == 1)
            && (r.turn == 0 || r.turn == 1)
            && (r.dumper == 0xffffffff || r.dumper == 0 || r.dumper == 1)
  {
  }

  /** One read of the validation: the guard words fail at once, the values are read first and judged after. */
  function CheckNext(r: Region, k: nat, sane: bool, again: bool): Pc
  {
    var sane' := sane && WordOk(r, k);
    if !sane' && (k < 2 || k >= 5) then (if again then FallbackSet else Repair(0))
    else if k >= 5 then SetWant
    else Check(k + 1, sane', again)
  }

  /** One write of the repair, which rewrites the whole region. */
  function Repaired(r: Region, i: nat): Region
  {
    match i
    case 0 => r.(head := HEAD)
    case 1 => r.(want0 := 0)
    case 2 => r.(want1 := 0)
    case 3 => r.(turn := 0)
    case 4 => r.(dumper := NOBODY)
    case _ => r.(tail := TAIL)
  }

  /** One step of side `me` on the shared region. */
  function Compete(r: Region, me: nat, pc: Pc): (Region, Pc)
    requires me <= 1
  {
    match pc
    case Check(k, sane, again) => (r, CheckNext(r, k, sane, again))
    case Repair(i) => (Repaired(r, i), if i >= 5 then Check(0, true, true) else Repair(i + 1))
    case SetWant => (if me == 0 then r.(want0 := 1) else r.(want1 := 1), SetTurn)
    case SetTurn => (r.(turn := if me == 0 then 1 else 0), TestWant)
    case TestWant => (r, if Want(r, 1 - me) == 1 then TestTurn else SetDumper)
    case TestTurn => (r, if r.turn == 1 - me then TestWant else SetDumper)
    case SetDumper => (r.(dumper := me), Dumping)
    case FallbackSet => (r.(dumper := me), FallbackTest)
    case FallbackTest => (r, if r.dumper == me then Dumping else Stuck)
    case _ => (r, pc)
  }

  /** One step of an application core in front of the shared region. */
  function SpinStep(spin: Spin, pc: Pc): (Spin, Pc)
  {
    match pc
    case Running => (spin, SpinCheck)
    case SpinCheck => (spin, if spin.head == HEAD && spin.tail == TAIL then SpinTake else SpinInit)
    case SpinInit => (spin.(held := false), SpinInitHead)
    case SpinInitHead => (spin.(head := HEAD), SpinInitTail)
    case SpinInitTail => (spin.(tail := TAIL), SpinTake)
    case SpinTake => if spin.held then (spin, SpinTake) else (spin.(held := true), StopPeer)
    case _ => (spin, pc)
  }

  predicate Spinning(pc: Pc)
  {
    pc.Running? || pc.SpinCheck? || pc.SpinInit? || pc.SpinInitHead? || pc.SpinInitTail? || pc.SpinTake?
  }

  /** Core `c` takes its next step. */
  function Step(s: State, c: Core): State
  {
    var pc := At(s, c);
    if c == Cp && pc == Running then s.(cp := Check(0, true, false))
    else if c != Cp && Spinning(pc) then
      var next := SpinStep(s.spin, pc);
      Put(s.(spin := next.0), c, next.1)
    else if pc == StopPeer then
      Put(Put(s, c, Check(0, true, false)), if c == Ap0 then Ap1 else Ap0, Stopped)
    else
      var next := Compete(s.region, Me(c), pc);
      Put(s.(region := next.0), c, next.1)
  }

  function Play(s: State, run: seq<Core>): State
    decreases |run|
  {
    if run == [] then s else Play(Step(s, run[0]), run[1..])
  }

  lemma {:induction false} PlayAppend(s: State, run: seq<Core>, more: seq<Core>)
    ensures Play(s, run + more) == Play(Play(s, run), more)
    decreases |run|
  {
    if run == [] {
      assert run + more == more;
    } else {
      assert (run + more)[1..] == run[1..] + more;
      PlayAppend(Step(s, run[0]), run[1..], more);
    }
  }

  /** No core has crashed yet; nothing is said about the memory except that the spin lock is free. */
  predicate Quiet(s: State)
  {
    s.cp == Running && s.ap0 == Running && s.ap1 == Running && !s.spin.held
  }

  /** The state that early initialisation leaves behind. */
  const BOOTED: State := State(Region(HEAD, 0, 0, 0, NOBODY, TAIL), Spin(HEAD, false, TAIL), Running, Running, Running)

  // ---- mutual exclusion ----

  /** No two cores dump. */
  predicate Exclusive(s: State)
  {
    !(s.cp.Dumping? && s.ap0.Dumping?) && !(s.cp.Dumping? && s.ap1.Dumping?) && !(s.ap0.Dumping? && s.ap1.Dumping?)
  }

  /** Past the validation, with the region taken as it stands. */
  predicate Competing(pc: Pc)
  {
    pc.SetWant? || pc.SetTurn? || pc.TestWant? || pc.TestTurn? || pc.SetDumper? || pc.Dumping?
  }

  /** A core that has never found the region invalid. */
  predicate Trusting(pc: Pc)
  {
    Spinning(pc) || pc.StopPeer? || pc.Stopped? || Competing(pc) || (pc.Check? && pc.sane && !pc.again)
  }

  /** An application core that has stopped the other one. */
  predicate Alone(pc: Pc)
  {
    !Spinning(pc) && !pc.StopPeer? && !pc.Stopped?
  }

  /** An application core that has taken the spin lock. */
  predicate Holds(pc: Pc)
  {
    pc.StopPeer? || Alone(pc)
  }

  /** Not initialising the spin lock anew. */
  predicate Orderly(pc: Pc)
  {
    !pc.SpinInit? && !pc.SpinInitHead? && !pc.SpinInitTail?
  }

  predicate InLoop(pc: Pc)
  {
    pc.TestWant? || pc.TestTurn?
  }

  predicate Won(pc: Pc)
  {
    pc.SetDumper? || pc.Dumping?
  }

  predicate Wants(pc: Pc)
  {
    pc.SetTurn? || InLoop(pc) || Won(pc)
  }

  /** Peterson's invariant between the communication core and one application core. */
  ghost predicate Peterson(r: Region, cp: Pc, ap: Pc)
  {
    && (Wants(cp) ==> r.want0 == 1)
    && (Wants(ap) ==> r.want1 == 1)
    && (Won(cp) && InLoop(ap) ==> r.turn == 0)
    && (Won(ap) && InLoop(cp) ==> r.turn == 1)
    && !(Won(cp) && Won(ap))
  }

  ghost predicate Inv(s: State)
  {
    && Valid(s.region)
    && Trusting(s.cp) && Trusting(s.ap0) && Trusting(s.ap1)
    && !s.cp.Stopped? && !s.cp.StopPeer? && (Spinning(s.cp) ==> s.cp == Running)
    && (Alone(s.ap0) ==> s.ap1.Stopped?)
    && (Alone(s.ap1) ==> s.ap0.Stopped?)
    && Peterson(s.region, s.cp, s.ap0)
    && Peterson(s.region, s.cp, s.ap1)
  }

  lemma CpCompetes(r: Region, cp: Pc, ap: Pc)
    requires Valid(r) && Trusting(cp) && Peterson(r, cp, ap)
    ensures var (r', cp') := Compete(r, 0, cp); Valid(r') && Trusting(cp') && Peterson(r', cp', ap)
  {
  }

  lemma ApCompetes(r: Region, cp: Pc, ap: Pc)
    requires Valid(r) && Trusting(ap) && Peterson(r, cp, ap)
    ensures var (r', ap') := Compete(r, 1, ap); Valid(r') && Trusting(ap') && Peterson(r', cp, ap')
  {
  }

  lemma CpInv(s: State)
    requires Inv(s)
    ensures Inv(Step(s, Cp))
  {
    CpCompetes(s.region, s.cp, s.ap0);
    CpCompetes(s.region, s.cp, s.ap1);
  }

  lemma Ap0Spins(s: State)
    requires Inv(s) && !Alone(s.ap0)
    ensures Inv(Step(s, Ap0))
  {
  }

  lemma Ap0Inv(s: State)
    requires Inv(s)
    ensures Inv(Step(s, Ap0))
  {
    if Alone(s.ap0) {
      ApCompetes(s.region, s.cp, s.ap0);
    } else {
      Ap0Spins(s);
    }
  }

  lemma Ap1Spins(s: State)
    requires Inv(s) && !Alone(s.ap1)
    ensures Inv(Step(s, Ap1))
  {
  }

  lemma Ap1Inv(s: State)
    requires Inv(s)
    ensures Inv(Step(s, Ap1))
  {
    if Alone(s.ap1) {
      ApCompetes(s.region, s.cp, s.ap1);
    } else {
      Ap1Spins(s);
    }
  }

  lemma InvStep(s: State, c: Core)
    requires Inv(s)
    ensures Inv(Step(s, c))
  {
    match c
    case Cp => CpInv(s);
    case Ap0 => Ap0Inv(s);
    case Ap1 => Ap1Inv(s);
  }

  lemma {:induction false} PlayInv(s: State, run: seq<Core>)
    requires Inv(s)
    ensures Inv(Play(s, run))
    decreases |run|
  {
    if run != [] {
      InvStep(s, run[0]);
      PlayInv(Step(s, run[0]), run[1..]);
    }
  }

  /** With a valid region no two cores ever dump, and neither repair nor fallback is ever entered. */
  lemma ValidExcludes(s: State, run: seq<Core>)
    requires Quiet(s) && Valid(s.region)
    ensures var t := Play(s, run);
            Exclusive(t) && Valid(t.region) && Trusting(t.cp) && Trusting(t.ap0) && Trusting(t.ap1)
  {
    PlayInv(s, run);
  }
}
