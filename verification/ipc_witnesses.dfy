/** Runs of the IPC pipeline, from its start, in which items are left behind. */
module IpcWitnesses {
  import opened IpcPipeline

  lemma {:induction false} PlayAppend(s: State, run: seq<Event>, more: seq<Event>)
    ensures Play(s, run + more) == Play(Play(s, run), more)
    decreases |run|
  {
    if run == [] {
      assert run + more == more;
    } else {
      assert (run + more)[1..] == run[1..] + more;
      PlayAppend(Step(s, run[0]), run[1..], more);
    }
  }

  /** One more event at the end of a run. */
  lemma Then(run: seq<Event>, e: Event) returns (more: seq<Event>)
    ensures Play(START, more) == Step(Play(START, run), e)
  {
    more := run + [e];
    PlayAppend(START, run, [e]);
    assert [e][1..] == [];
    assert Play(Step(Play(START, run), e), []) == Step(Play(START, run), e);
  }

  /** The task claims the flag and reads the head of the list. */
  lemma Claim(run: seq<Event>) returns (more: seq<Event>)
    requires var s := Play(START, run); s.task == TestFlag && !s.flag
    ensures var s, t := Play(START, run), Play(START, more);
            t == s.(flag := true, task := ReadLast(Head(s.list)))
  {
    more := Then(run, Task(true));
    more := Then(more, Task(true));
    more := Then(more, Task(true));
  }

  /** The task works on an idle pipeline with one message queued until it is about to send. */
  lemma Approach(run: seq<Event>) returns (more: seq<Event>)
    requires var s := Play(START, run); s.task == TestFlag && !s.flag
    ensures var s, t := Play(START, run), Play(START, more);
            t == s.(flag := true, task := Check(Head(s.list), s.last, Byte(|s.list|)))
  {
    more := Claim(run);
    more := Then(more, Task(true));
    more := Then(more, Task(true));
  }

  /** An item is posted to an idle task, which puts it on the list and tests the flag next. */
  lemma Deliver(run: seq<Event>, item: Item) returns (more: seq<Event>)
    requires var s := Play(START, run); s.task == Idle && s.queue == []
    ensures var s, t := Play(START, run), Play(START, more);
            t == s.(list := s.list + [item], last := [item], posted := s.posted + [item], task := TestFlag)
  {
    more := Then(run, Post(item));
    assert Play(START, more).queue == [New(item)];
    more := Then(more, Task(true));
    more := Then(more, Task(true));
  }

  /** The first item, up to the send. */
  lemma FirstItem(item: Item) returns (run: seq<Event>)
    ensures Play(START, run) == START.(list := [item], last := [item], posted := [item], flag := true, task := Send([item], [item], 1))
  {
    run := [];
    run := Deliver(run, item);
    run := Approach(run);
    run := Then(run, Task(true));
  }

  /** A failed send: the item waits, and nothing in the pipeline will move it. */
  lemma FailedSendWitness(item: Item) returns (run: seq<Event>)
    ensures var s := Play(START, run); Stranded(s) && !s.task.Halted? && s.list == [item]
  {
    run := FirstItem(item);
    run := Then(run, Task(false));
    run := Then(run, Task(true));
  }

  /** The first item is sent and in flight, and the task is idle again. */
  lemma InFlight(item: Item) returns (run: seq<Event>)
    ensures var b := Batch(item, item, 1, [item]);
            Play(START, run) == START.(posted := [item], flag := true, inFlight := [b], sent := [b])
  {
    run := FirstItem(item);
    run := Then(run, Task(true));
    run := Then(run, Task(true));
    run := Then(run, Task(true));
  }

  /** Items posted while a transfer is in flight gather on the list. */
  lemma {:induction false} Gather(item: Item, n: nat) returns (run: seq<Event>)
    ensures var s := Play(START, run);
            && s.task == Idle && s.isr == Waiting && s.flag && s.queue == [] && |s.inFlight| == 1 && !s.mishap
            && |s.list| == n && (n > 0 ==> s.last == [item])
  {
    if n == 0 {
      run := InFlight(item);
    } else {
      run := Gather(item, n - 1);
      run := Deliver(run, item);
      run := Then(run, Task(true));
    }
  }

  /** A rejected retry: an item gathered during a transfer waits after its completion. */
  lemma RejectedRetryWitness(item: Item) returns (run: seq<Event>)
    ensures var s := Play(START, run); Stranded(s) && !s.task.Halted? && |s.list| == 1
  {
    run := Gather(item, 1);
    run := Then(run, Done);
    run := Then(run, Isr(true));
    run := Then(run, Isr(false));
  }

  /** Without any mishap, 256 items that gather during one transfer stop the task at its assertion. */
  lemma HaltWitness(item: Item) returns (run: seq<Event>)
    ensures var s := Play(START, run); s.task.Halted? && !s.mishap && |s.list| == 256 && Stranded(s)
  {
    run := Gather(item, 256);
    run := Then(run, Done);
    run := Then(run, Isr(true));
    run := Then(run, Isr(true));
    run := Then(run, Task(true));
    assert Play(START, run).task == TestFlag;
    run := Approach(run);
    ByteIsMod(256);
    run := Then(run, Task(true));
  }
}
