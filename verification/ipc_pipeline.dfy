/** The Wi-Fi IPC transmit pipeline: one task and a completion interrupt share a sending flag and
    a pending list. Every interleaving of their statements is a run. The two channels use separate
    flags and lists, so one channel is modelled; while the task serves the other one it is idle here. */
module IpcPipeline {

  type Item = nat

  datatype Msg = New(item: Item) | Retry

  /** Where the task stands in wdrv_txdata_pre_process, named after the statement that comes next. */
  datatype TaskPc =
    | Idle
    | Push(item: Item)
    | TestFlag
    | SetFlag
    | ReadFirst
    | ReadLast(first: seq<Item>)
    | ReadNum(first: seq<Item>, last: seq<Item>)
    | Check(first: seq<Item>, last: seq<Item>, num: nat)
    | Send(first: seq<Item>, last: seq<Item>, num: nat)
    | ResetFirst
    | ResetLast
    | ClearFlag
    | Halted

  /** Where the interrupt handler stands. */
  datatype IsrPc = Waiting | IsrClear | IsrTest

  /** What one mailbox transfer announces, and the chain that starts at its head. */
  datatype Batch = Batch(first: Item, last: Item, num: nat, items: seq<Item>)

  /** `list` is the pending list; pointers to it are sequences of at most one item, `[]` being NULL.
      `inFlight` are the transfers whose completion has not been taken up. `posted` are all items ever
      put on the queue. `mishap` records that a send failed or that a retry post was rejected. */
  datatype State = State(task: TaskPc, isr: IsrPc, flag: bool, list: seq<Item>, last: seq<Item>,
                         queue: seq<Msg>, inFlight: seq<Batch>, sent: seq<Batch>, posted: seq<Item>, mishap: bool)

  /** `Task(ok)`: the task runs its next statement, `ok` saying whether the mailbox accepts a send.
      `Post`: some caller queues an item. `Done`: the mailbox completes a transfer and raises the
      interrupt. `Isr(ok)`: the handler runs its next statement, `ok` saying whether the queue has room. */
  datatype Event = Task(ok: bool) | Post(item: Item) | Done | Isr(ok: bool)

  const START: State := State(Idle, Waiting, false, [], [], [], [], [], [], false)

  function Head(list: seq<Item>): seq<Item>
  {
    if list == [] then [] else [list[0]]
  }

  function Tail(list: seq<Item>): seq<Item>
  {
    if list == [] then [] else [list[|list| - 1]]
  }

  /** Truncation to eight bits. */
  function Byte(n: nat): nat
  {
    if n < 256 then n else Byte(n - 256)
  }

  lemma {:induction false} ByteIsMod(n: nat)
    ensures Byte(n) == n % 256
  {
    if n >= 256 {
      ByteIsMod(n - 256);
    }
  }

  function TaskStep(s: State, ok: bool): State
  {
    match s.task
    case Idle =>
      if s.queue == [] then s
      else s.(queue := s.queue[1..], task := if s.queue[0].New? then Push(s.queue[0].item) else TestFlag)
    case Push(item) => s.(list := s.list + [item], last := [item], task := TestFlag)
    case TestFlag => s.(task := if s.flag then Idle else SetFlag)
    case SetFlag => s.(flag := true, task := ReadFirst)
    case ReadFirst => s.(task := ReadLast(Head(s.list)))
    case ReadLast(first) => s.(task := ReadNum(first, s.last))
    case ReadNum(first, last) => s.(task := Check(first, last, Byte(|s.list|)))
    case Check(first, last, num) =>
      s.(task := if first != [] && last != [] && num == 0 then Halted
                 else if first == [] then ClearFlag
                 else Send(first, last, num))
    case Send(first, last, num) =>
      if ok && first != [] && last != [] then
        var b := Batch(first[0], last[0], num, s.list);
        s.(inFlight := s.inFlight + [b], sent := s.sent + [b], task := ResetFirst)
      else s.(task := ClearFlag, mishap := true)
    case ResetFirst => s.(list := [], task := ResetLast)
    case ResetLast => s.(last := [], task := Idle)
    case ClearFlag => s.(flag := false, task := Idle)
    case Halted => s
  }

  function IsrStep(s: State, ok: bool): State
  {
    match s.isr
    case Waiting => s
    case IsrClear => s.(flag := false, isr := IsrTest)
    case IsrTest =>
      if s.list == [] then s.(isr := Waiting)
      else if ok then s.(isr := Waiting, queue := s.queue + [Retry])
      else s.(isr := Waiting, mishap := true)
  }

  function Step(s: State, e: Event): State
  {
    match e
    case Task(ok) => TaskStep(s, ok)
    case Post(item) => s.(queue := s.queue + [New(item)], posted := s.posted + [item])
    case Done => if s.inFlight != [] && s.isr == Waiting then s.(inFlight := s.inFlight[1..], isr := IsrClear) else s
    case Isr(ok) => IsrStep(s, ok)
  }

  /** The state after the events of `run`, first event first. */
  function Play(s: State, run: seq<Event>): State
    decreases |run|
  {
    if run == [] then s else Play(Step(s, run[0]), run[1..])
  }

  // ---- the flag protocol ----

  /** A transfer is under way, or its completion has not yet cleared the flag. */
  predicate Busy(s: State)
  {
    s.inFlight != [] || s.isr == IsrClear
  }

  /** The task is between claiming the flag and giving the channel to the mailbox or back. */
  predicate Claiming(s: State)
  {
    s.task.ReadFirst? || s.task.ReadLast? || s.task.ReadNum? || s.task.Check? || s.task.Send? || s.task.ClearFlag? || s.task.Halted?
  }

  ghost predicate FlagInv(s: State)
  {
    && |s.inFlight| <= 1
    && (s.inFlight != [] ==> s.isr != IsrClear)
    && (s.flag <==> Busy(s) || Claiming(s))
    && !(Busy(s) && (Claiming(s) || s.task == SetFlag))
  }

  lemma FlagStep(s: State, e: Event)
    requires FlagInv(s)
    ensures FlagInv(Step(s, e))
  {
  }

  lemma {:induction false} PlayFlag(s: State, run: seq<Event>)
    requires FlagInv(s)
    ensures FlagInv(Play(s, run))
    decreases |run|
  {
    if run != [] {
      FlagStep(s, run[0]);
      PlayFlag(Step(s, run[0]), run[1..]);
    }
  }

  /** At most one mailbox transfer is ever outstanding, whatever the interleaving. */
  lemma RunOneInFlight(run: seq<Event>)
    ensures |Play(START, run).inFlight| <= 1
  {
    PlayFlag(START, run);
  }

  // ---- nothing lost, duplicated or reordered ----

  function Sent(batches: seq<Batch>): seq<Item>
  {
    if batches == [] then [] else Sent(batches[..|batches| - 1]) + batches[|batches| - 1].items
  }

  lemma SentSnoc(batches: seq<Batch>, b: Batch)
    ensures Sent(batches + [b]) == Sent(batches) + b.items
  {
    assert (batches + [b])[..|batches|] == batches;
  }

  /** Items that wait on the pending list; right after a send the list still shows what was sent. */
  function Pending(s: State): seq<Item>
  {
    if s.task == ResetFirst then [] else s.list
  }

  function Carried(s: State): seq<Item>
  {
    if s.task.Push? then [s.task.item] else []
  }

  function Items(queue: seq<Msg>): seq<Item>
  {
    if queue == [] then [] else (if queue[0].New? then [queue[0].item] else []) + Items(queue[1..])
  }

  lemma {:induction false} ItemsSnoc(queue: seq<Msg>, m: Msg)
    ensures Items(queue + [m]) == Items(queue) + (if m.New? then [m.item] else [])
  {
    if queue != [] {
      ItemsSnoc(queue[1..], m);
      assert (queue + [m])[1..] == queue[1..] + [m];
    }
  }

  /** The task's pointers are those of the list, which only the task changes. */
  ghost predicate Pointers(s: State)
  {
    && (s.list != [] ==> s.last == Tail(s.list))
    && (s.task.ReadLast? || s.task.ReadNum? || s.task.Check? || s.task.Send? ==> s.task.first == Head(s.list))
    && (s.task.ReadNum? || s.task.Check? || s.task.Send? ==> (s.list != [] ==> s.task.last == Tail(s.list)))
    && (s.task.Check? || s.task.Send? ==> s.task.num == Byte(|s.list|))
    && (s.task.Send? ==> s.list != [] && s.task.num != 0)
    && (s.task == ResetLast ==> s.list == [])
    && (s.task.Halted? ==> s.list != [] && Byte(|s.list|) == 0)
  }

  /** A transfer names the ends and, up to the width of its counter, the length of its chain. */
  ghost predicate Described(b: Batch)
  {
    && b.items != [] && b.first == b.items[0] && b.last == b.items[|b.items| - 1]
    && b.num == Byte(|b.items|) && b.num != 0
  }

  ghost predicate AllDescribed(batches: seq<Batch>)
  {
    forall i {:trigger batches[i]} :: 0 <= i < |batches| ==> Described(batches[i])
  }

  /** Every item posted so far is in exactly one place, and the places follow each other in posting order. */
  ghost predicate Accounted(s: State)
  {
    Sent(s.sent) + Pending(s) + Carried(s) + Items(s.queue) == s.posted
  }

  lemma TaskPointers(s: State, ok: bool)
    requires Pointers(s)
    ensures Pointers(TaskStep(s, ok))
  {
    match s.task
    case Push(item) => assert Tail(s.list + [item]) == [item];
    case Check(_, _, _) => assert s.list == [] <==> Head(s.list) == [];
    case _ =>
  }

  lemma PointersStep(s: State, e: Event)
    requires Pointers(s)
    ensures Pointers(Step(s, e))
  {
    if e.Task? {
      TaskPointers(s, e.ok);
    }
  }

  lemma DescribedStep(s: State, e: Event)
    requires Pointers(s) && AllDescribed(s.sent)
    ensures AllDescribed(Step(s, e).sent)
  {
  }

  /** Items that move between adjacent places keep their order. */
  lemma Regroup(sent: seq<Item>, list: seq<Item>, moved: seq<Item>, queue: seq<Item>)
    ensures sent + list + [] + (moved + queue) == sent + list + moved + queue
    ensures sent + (list + moved) + [] + queue == sent + list + moved + queue
    ensures (sent + list) + [] + [] + queue == sent + list + [] + queue
  {
    assert sent + list + [] == sent + list;
    assert sent + list + (moved + queue) == sent + list + moved + queue;
    assert sent + (list + moved) + [] == sent + list + moved;
  }

  lemma PopAccounted(s: State, ok: bool)
    requires Accounted(s) && s.task == Idle
    ensures Accounted(TaskStep(s, ok))
  {
    if s.queue != [] {
      var moved := if s.queue[0].New? then [s.queue[0].item] else [];
      Regroup(Sent(s.sent), s.list, moved, Items(s.queue[1..]));
      assert Carried(TaskStep(s, ok)) == moved;
    }
  }

  lemma SendAccounted(s: State, ok: bool)
    requires Pointers(s) && Accounted(s) && s.task.Send?
    ensures Accounted(TaskStep(s, ok))
  {
    if ok {
      SentSnoc(s.sent, Batch(s.task.first[0], s.task.last[0], s.task.num, s.list));
      Regroup(Sent(s.sent), s.list, [], Items(s.queue));
    }
  }

  lemma PushAccounted(s: State, ok: bool)
    requires Accounted(s) && s.task.Push?
    ensures Accounted(TaskStep(s, ok))
  {
    Regroup(Sent(s.sent), s.list, [s.task.item], Items(s.queue));
  }

  /** The other statements of the task move nothing. */
  lemma NothingMoves(s: State, ok: bool)
    requires s.task != Idle && !s.task.Push? && !s.task.Send?
    ensures var t := TaskStep(s, ok);
            (t.sent, Pending(t), Carried(t), t.queue, t.posted) == (s.sent, Pending(s), Carried(s), s.queue, s.posted)
  {
  }

  lemma TaskAccounted(s: State, ok: bool)
    requires Pointers(s) && Accounted(s)
    ensures Accounted(TaskStep(s, ok))
  {
    if s.task == Idle {
      PopAccounted(s, ok);
    } else if s.task.Push? {
      PushAccounted(s, ok);
    } else if s.task.Send? {
      SendAccounted(s, ok);
    } else {
      NothingMoves(s, ok);
    }
  }

  lemma PostAccounted(s: State, item: Item)
    requires Accounted(s)
    ensures Accounted(Step(s, Post(item)))
  {
    ItemsSnoc(s.queue, New(item));
    var before := Sent(s.sent) + Pending(s) + Carried(s);
    assert before + (Items(s.queue) + [item]) == before + Items(s.queue) + [item];
  }

  lemma IsrAccounted(s: State, ok: bool)
    requires Accounted(s)
    ensures Accounted(IsrStep(s, ok))
  {
    if s.isr == IsrTest && s.list != [] && ok {
      ItemsSnoc(s.queue, Retry);
      assert Items(s.queue) + [] == Items(s.queue);
      assert IsrStep(s, ok).queue == s.queue + [Retry];
    }
  }

  lemma AccountedStep(s: State, e: Event)
    requires Pointers(s) && Accounted(s)
    ensures Accounted(Step(s, e))
  {
    match e
    case Task(ok) => TaskAccounted(s, ok);
    case Post(item) => PostAccounted(s, item);
    case Done =>
    case Isr(ok) => IsrAccounted(s, ok);
  }

  lemma {:induction false} PlayAccounted(s: State, run: seq<Event>)
    requires Pointers(s) && AllDescribed(s.sent) && Accounted(s)
    ensures var t := Play(s, run); Pointers(t) && AllDescribed(t.sent) && Accounted(t)
    decreases |run|
  {
    if run != [] {
      PointersStep(s, run[0]);
      DescribedStep(s, run[0]);
      AccountedStep(s, run[0]);
      PlayAccounted(Step(s, run[0]), run[1..]);
    }
  }

  /** What was sent, then what is pending, then what the task carries and the queue holds, is exactly
      what was posted, in order; and every transfer describes its chain. */
  lemma RunDelivers(run: seq<Event>)
    ensures Accounted(Play(START, run)) && AllDescribed(Play(START, run).sent)
  {
    PlayAccounted(START, run);
  }

  /** A transfer's counter is the length of its chain exactly while the chain is shorter than 256. */
  lemma CountExactIff(b: Batch)
    requires Described(b)
    ensures b.num == |b.items| <==> |b.items| < 256
  {
    ByteIsMod(|b.items|);
  }

  /** The task stops at its assertion exactly when the eight-bit counter wraps to zero on a list that
      is not empty. */
  lemma HaltIff(s: State, ok: bool)
    requires Pointers(s) && s.task.Check?
    ensures TaskStep(s, ok).task.Halted? <==> s.list != [] && |s.list| % 256 == 0
  {
    ByteIsMod(|s.list|);
  }

  // ---- no work is left behind ----

  /** The task is on its way to testing the flag or to sending. */
  predicate OnItsWay(s: State)
  {
    s.task.Push? || s.task.TestFlag? || s.task.SetFlag? || (Claiming(s) && !s.task.ClearFlag? && !s.task.Halted?)
  }

  /** Items wait on the list and nobody will look at it again: the task has stopped at its assertion, or
      there is no transfer, no handler at work, no queued message and no task on its way. */
  predicate Stranded(s: State)
  {
    Pending(s) != [] && (s.task.Halted? || (!Busy(s) && s.isr == Waiting && s.queue == [] && !OnItsWay(s)))
  }

  ghost predicate WakeInv(s: State)
  {
    FlagInv(s) && Pointers(s) && (Stranded(s) ==> s.mishap || s.task.Halted?)
  }

  lemma WakeStep(s: State, e: Event)
    requires WakeInv(s)
    ensures WakeInv(Step(s, e))
  {
    FlagStep(s, e);
    PointersStep(s, e);
  }

  lemma {:induction false} PlayWake(s: State, run: seq<Event>)
    requires WakeInv(s)
    ensures WakeInv(Play(s, run))
    decreases |run|
  {
    if run != [] {
      WakeStep(s, run[0]);
      PlayWake(Step(s, run[0]), run[1..]);
    }
  }

  /** Unless a send failed, a retry post was rejected or the task stopped at its assertion, no item is ever
      left behind. */
  lemma RunNotStranded(run: seq<Event>)
    ensures var s := Play(START, run); Stranded(s) ==> s.mishap || s.task.Halted?
  {
    PlayWake(START, run);
  }

  /** The mailbox accepts and the queue has room. */
  predicate Granted(e: Event)
  {
    (e.Task? ==> e.ok) && (e.Isr? ==> e.ok)
  }

  ghost predicate AllGranted(run: seq<Event>)
  {
    forall i {:trigger run[i]} :: 0 <= i < |run| ==> Granted(run[i])
  }

  lemma {:induction false} PlayGranted(s: State, run: seq<Event>)
    requires WakeInv(s) && !s.mishap && AllGranted(run)
    ensures !Play(s, run).mishap
    decreases |run|
  {
    if run != [] {
      assert Granted(run[0]);
      WakeStep(s, run[0]);
      PlayGranted(Step(s, run[0]), run[1..]);
    }
  }

  /** As long as the mailbox accepts every send and the queue has room for every retry, nothing goes wrong on the
      way: items are left behind only by a task that stopped at its assertion. */
  lemma RunGrantedNotStranded(run: seq<Event>)
    requires AllGranted(run)
    ensures var s := Play(START, run); !s.mishap && (Stranded(s) ==> s.task.Halted?)
  {
    PlayGranted(START, run);
    PlayWake(START, run);
  }

  /** A send that the mailbox accepts transfers the whole list, whatever its length, and empties it; the flag stays
      set until the transfer is complete. */
  lemma AcceptedSend(s: State)
    requires Pointers(s) && s.task.Send?
    ensures var b := Batch(s.list[0], s.list[|s.list| - 1], Byte(|s.list|), s.list);
            var t := Step(Step(Step(s, Task(true)), Task(true)), Task(true));
            && Step(s, Task(true)).sent == s.sent + [b]
            && t == s.(task := Idle, list := [], last := [], inFlight := s.inFlight + [b], sent := s.sent + [b])
  {
  }

  /** A task that has stopped leaves a multiple of 256 items behind, whatever happens afterwards. */
  lemma {:induction false} HaltedForever(s: State, run: seq<Event>)
    requires Pointers(s) && s.task.Halted?
    ensures var t := Play(s, run);
            t.task.Halted? && t.list == s.list && Stranded(t) && |t.list| > 0 && |t.list| % 256 == 0
    decreases |run|
  {
    if run == [] {
      ByteIsMod(|s.list|);
    } else {
      PointersStep(s, run[0]);
      HaltedForever(Step(s, run[0]), run[1..]);
    }
  }

  /** The completion of a transfer: the handler clears the flag, and asks for another round exactly when items wait
      on the list. */
  lemma CompletionOutcome(s: State)
    requires s.isr == IsrClear
    ensures Step(Step(s, Isr(true)), Isr(true)) ==
            s.(flag := false, isr := Waiting, queue := if s.list == [] then s.queue else s.queue + [Retry])
  {
  }

  /** A failed send leaves its items behind exactly when nothing is queued and the handler is at rest. */
  lemma FailedSendStrandsIff(s: State)
    requires WakeInv(s) && s.task.Send?
    ensures Stranded(Step(Step(s, Task(false)), Task(true))) <==> s.queue == [] && s.isr == Waiting
  {
  }

  /** A rejected retry leaves items behind exactly when the task has stopped, or when no message, transfer
      or task will revisit the list. */
  lemma RejectedRetryStrandsIff(s: State)
    requires WakeInv(s) && s.isr == IsrTest && s.list != []
    ensures Stranded(Step(s, Isr(false))) <==>
            s.task.Halted? ||
            (s.queue == [] && s.inFlight == [] && (s.task == Idle || s.task == ClearFlag || s.task == ResetLast))
  {
  }
}
