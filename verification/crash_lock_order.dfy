/** First come, first served: the side that is late at the crash lock waits forever. */
module CrashLockOrder {
  import opened CrashLock

  /** A core in the loop that the other side has been put in front of. */
  ghost predicate Barred(s: State, c: Core)
  {
    && Inv(s) && InLoop(At(s, c)) && s.region.turn == 1 - Me(c) && Want(s.region, 1 - Me(c)) == 1
    && (c == Cp ==> Settled(s.ap0) || Settled(s.ap1))
    && (c != Cp ==> Settled(s.cp))
  }

  /** Past the write of the turn word, which happens once. */
  predicate Settled(pc: Pc)
  {
    InLoop(pc) || Won(pc)
  }

  lemma CpBarredStep(s: State, d: Core)
    requires Barred(s, Cp)
    ensures Barred(Step(s, d), Cp)
  {
    InvStep(s, d);
  }

  lemma ApBarredStep(s: State, c: Core, d: Core)
    requires c != Cp && Barred(s, c)
    ensures Barred(Step(s, d), c)
  {
    InvStep(s, d);
  }

  lemma BarredStep(s: State, c: Core, d: Core)
    requires Barred(s, c)
    ensures Barred(Step(s, d), c)
  {
    if c == Cp {
      CpBarredStep(s, d);
    } else {
      ApBarredStep(s, c, d);
    }
  }

  lemma {:induction false} BarredForever(s: State, c: Core, run: seq<Core>)
    requires Barred(s, c)
    ensures Barred(Play(s, run), c)
    decreases |run|
  {
    if run != [] {
      BarredStep(s, c, run[0]);
      BarredForever(Step(s, run[0]), c, run[1..]);
    }
  }

  /** First come, first served: a core that yields the turn while the other side is already waiting or has
      won never dumps. */
  lemma LateWaits(s: State, c: Core, run: seq<Core>)
    requires Inv(s) && At(s, c) == SetTurn
    requires if c == Cp then Settled(s.ap0) || Settled(s.ap1) else Settled(s.cp)
    ensures InLoop(At(Play(Step(s, c), run), c))
  {
    InvStep(s, c);
    BarredForever(Step(s, c), c, run);
  }
}
