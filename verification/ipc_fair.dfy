/** Every item that is posted is sent: when the mailbox accepts, transfers complete and the queue has room, a
    bounded number of rounds of the task, the mailbox and the interrupt handler empties the pipeline. */
module IpcFair {
  import opened IpcPipeline
  import opened IpcWitnesses

  function QueueWeight(queue: seq<Msg>): nat
  {
    if queue == [] then 0 else (if queue[0].New? then 200 else 20) + QueueWeight(queue[1..])
  }

  lemma {:induction false} QueueWeightSnoc(queue: seq<Msg>, m: Msg)
    ensures QueueWeight(queue + [m]) == QueueWeight(queue) + (if m.New? then 200 else 20)
  {
    if queue != [] {
      QueueWeightSnoc(queue[1..], m);
      assert (queue + [m])[1..] == queue[1..] + [m];
    }
  }

  lemma {:induction false} QueueWeightBound(queue: seq<Msg>)
    ensures QueueWeight(queue) <= 200 * |queue|
  {
    if queue != [] {
      QueueWeightBound(queue[1..]);
    }
  }

  function TaskWeight(pc: TaskPc): nat
  {
    match pc
    case Push(_) => 150
    case TestFlag => 15
    case SetFlag => 14
    case ReadFirst => 13
    case ReadLast(_) => 12
    case ReadNum(_, _) => 11
    case Check(_, _, _) => 10
    case Send(_, _, _) => 9
    case ResetFirst => 4
    case ResetLast => 3
    case ClearFlag => 2
    case _ => 0
  }

  function IsrWeight(pc: IsrPc): nat
  {
    match pc case Waiting => 0 case IsrClear => 39 case IsrTest => 38
  }

  /** Statements that are left at most before the pipeline comes to rest. */
  function Weight(s: State): nat
  {
    QueueWeight(s.queue) + TaskWeight(s.task) + IsrWeight(s.isr) + 40 * |s.inFlight| + (if Pending(s) == [] then 0 else 100)
  }

  /** The task, the mailbox or the handler goes on, and nothing fails. */
  predicate Plain(e: Event)
  {
    e == Task(true) || e == Done || e == Isr(true)
  }

  lemma BusyTaskFalls(s: State)
    requires Pointers(s) && s.task != Idle && !s.task.Halted?
    ensures Weight(TaskStep(s, true)) < Weight(s)
  {
    assert TaskStep(s, true).queue == s.queue;
  }

  lemma TaskFalls(s: State)
    requires Pointers(s)
    ensures var t := Step(s, Task(true)); t == s || Weight(t) < Weight(s)
  {
    if s.task != Idle && !s.task.Halted? {
      BusyTaskFalls(s);
    }
  }

  lemma IsrFalls(s: State)
    ensures var t := Step(s, Isr(true)); t == s || Weight(t) < Weight(s)
  {
    if s.isr == IsrTest {
      QueueWeightSnoc(s.queue, Retry);
    }
  }

  /** Whatever changes anything brings the pipeline nearer to rest. */
  lemma PlainFalls(s: State, e: Event)
    requires Pointers(s) && Plain(e)
    ensures var t := Step(s, e); (t == s || Weight(t) < Weight(s)) && t.posted == s.posted
  {
    match e
    case Task(_) => TaskFalls(s);
    case Done =>
    case Isr(_) => IsrFalls(s);
  }

  /** Nobody has anything to do. */
  ghost predicate AtRest(s: State)
  {
    forall e :: Plain(e) ==> Step(s, e) == s
  }

  /** A pipeline at rest has sent everything, unless the task stopped at its assertion. */
  lemma RestIsDone(s: State)
    requires WakeInv(s) && Accounted(s) && !s.mishap && AtRest(s)
    ensures s.task.Halted? || (Sent(s.sent) == s.posted && s.inFlight == [] && !s.flag)
  {
    assert Plain(Task(true)) && Plain(Done) && Plain(Isr(true));
    if !s.task.Halted? {
      assert s.task == Idle && s.queue == [] && s.isr == Waiting && s.inFlight == [];
      assert Pending(s) == [];
      assert Sent(s.sent) + [] + [] + [] == Sent(s.sent);
    }
  }

  /** One round: each of the three goes on at least once, in any order. */
  ghost predicate Round(round: seq<Event>)
  {
    && Task(true) in round && Done in round && Isr(true) in round
    && forall i {:trigger round[i]} :: 0 <= i < |round| ==> Plain(round[i])
  }

  ghost predicate AllPlain(run: seq<Event>)
  {
    forall i {:trigger run[i]} :: 0 <= i < |run| ==> Plain(run[i])
  }

  lemma PlainKeeps(s: State, e: Event)
    requires WakeInv(s) && Accounted(s) && !s.mishap && Plain(e)
    ensures var t := Step(s, e); WakeInv(t) && Accounted(t) && !t.mishap
  {
    WakeStep(s, e);
    assert Accounted(Step(s, e)) by {
      AccountedStep(s, e);
    }
    PlainNoMishap(s, e);
  }

  lemma PlainNoMishap(s: State, e: Event)
    requires Pointers(s) && !s.mishap && Plain(e)
    ensures !Step(s, e).mishap
  {
  }

  lemma {:induction false} PlainRun(s: State, run: seq<Event>, e: Event)
    requires WakeInv(s) && Accounted(s) && !s.mishap && AllPlain(run)
    ensures var t := Play(s, run);
            && WakeInv(t) && Accounted(t) && !t.mishap && t.posted == s.posted && Weight(t) <= Weight(s)
            && (e in run && Plain(e) && Step(s, e) != s ==> Weight(t) < Weight(s))
            && (AtRest(s) ==> t == s)
    decreases |run|
  {
    if run != [] {
      assert Plain(run[0]) && AllPlain(run[1..]);
      PlainFalls(s, run[0]);
      PlainKeeps(s, run[0]);
      PlainRun(Step(s, run[0]), run[1..], e);
    }
  }

  lemma RoundFalls(s: State, round: seq<Event>)
    requires WakeInv(s) && Accounted(s) && !s.mishap && Round(round) && !AtRest(s)
    ensures Weight(Play(s, round)) < Weight(s)
  {
    var e :| Plain(e) && Step(s, e) != s;
    PlainRun(s, round, e);
  }

  function Joined(rounds: seq<seq<Event>>): seq<Event>
  {
    if rounds == [] then [] else rounds[0] + Joined(rounds[1..])
  }

  ghost predicate AllRounds(rounds: seq<seq<Event>>)
  {
    forall i {:trigger rounds[i]} :: 0 <= i < |rounds| ==> Round(rounds[i])
  }

  lemma {:induction false} JoinedPlain(rounds: seq<seq<Event>>)
    requires AllRounds(rounds)
    ensures AllPlain(Joined(rounds))
  {
    if rounds != [] {
      assert Round(rounds[0]) && AllRounds(rounds[1..]);
      JoinedPlain(rounds[1..]);
    }
  }

  lemma {:induction false} RoundsRest(s: State, rounds: seq<seq<Event>>)
    requires WakeInv(s) && Accounted(s) && !s.mishap && AllRounds(rounds) && |rounds| >= Weight(s)
    ensures AtRest(Play(s, Joined(rounds)))
    decreases |rounds|
  {
    JoinedPlain(rounds);
    if AtRest(s) {
      PlainRun(s, Joined(rounds), Done);
    } else if rounds == [] {
      var e :| Plain(e) && Step(s, e) != s;
      PlainFalls(s, e);
      assert false;
    } else {
      assert Round(rounds[0]) && AllRounds(rounds[1..]);
      RoundFalls(s, rounds[0]);
      PlainRun(s, rounds[0], Done);
      PlayAppend(s, rounds[0], Joined(rounds[1..]));
      RoundsRest(Play(s, rounds[0]), rounds[1..]);
    }
  }

  lemma WeightBound(s: State)
    requires FlagInv(s)
    ensures Weight(s) <= 200 * |s.queue| + 329
  {
    QueueWeightBound(s.queue);
  }

  /** After every run in which nothing fails, a number of rounds that grows with the queue only sends everything
      that was posted, in order, unless the task stops at its assertion. */
  lemma RunMustDeliver(run: seq<Event>, rounds: seq<seq<Event>>)
    requires AllGranted(run) && AllRounds(rounds) && |rounds| >= 200 * |Play(START, run).queue| + 329
    ensures var t := Play(START, run + Joined(rounds));
            t.task.Halted? || (Sent(t.sent) == Play(START, run).posted && t.inFlight == [] && !t.flag)
  {
    var s := Play(START, run);
    PlayWake(START, run);
    PlayGranted(START, run);
    RunDelivers(run);
    WeightBound(s);
    RoundsRest(s, rounds);
    JoinedPlain(rounds);
    PlainRun(s, Joined(rounds), Done);
    RestIsDone(Play(s, Joined(rounds)));
    PlayAppend(START, run, Joined(rounds));
  }
}
