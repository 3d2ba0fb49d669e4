/** Activations of high-level interrupts against the dispatcher task, statement by statement. An
    activation sets a pending bit in a critical section and posts the semaphore afterwards; the
    semaphore exists only once the task has created it, and a post before that is dropped. */
module HisrRuns {

  const MAX: nat := 32

  /** Where the dispatcher task stands, named after what comes next. */
  datatype Task = CreateSemaphore | Take | Block | Call(id: nat)

  datatype Entry = Activated(id: nat) | Called(id: nat)

  /** `count` is `[]` while there is no semaphore and `[n]` afterwards; it saturates at `limit`. `due` counts
      activations whose post is still to come. */
  datatype State = State(pending: set<nat>, count: seq<nat>, limit: nat, due: nat, task: Task, log: seq<Entry>)

  datatype Event = Activate(id: nat) | Post | Run

  function Start(limit: nat): State
  {
    State({}, [], limit, 0, CreateSemaphore, [])
  }

  predicate IsLowest(ids: set<nat>, id: nat)
  {
    id in ids && forall k :: k in ids ==> id <= k
  }

  /** The smallest id in a set of ids below the limit, counting up from `from`. */
  function Lowest(ids: set<nat>, from: nat): (id: nat)
    requires forall k :: k in ids ==> from <= k < MAX
    requires ids != {}
    ensures IsLowest(ids, id)
    decreases MAX - from
  {
    assert exists k :: k in ids;
    if from in ids then from else Lowest(ids, from + 1)
  }

  predicate Bounded(s: State)
  {
    forall k :: k in s.pending ==> k < MAX
  }

  function TaskStep(s: State): State
    requires Bounded(s)
  {
    match s.task
    case CreateSemaphore => s.(count := [0], task := Take)
    case Take =>
      if s.pending == {} then s.(task := Block)
      else
        var id := Lowest(s.pending, 0);
        s.(pending := s.pending - {id}, task := Call(id))
    case Block => if s.count != [] && s.count[0] > 0 then s.(count := [s.count[0] - 1], task := Take) else s
    case Call(id) => s.(task := Take, log := s.log + [Called(id)])
  }

  /** A post: dropped without a semaphore, and lost on a full one. */
  function Posted(count: seq<nat>, limit: nat): seq<nat>
  {
    if count == [] then [] else if count[0] < limit then [count[0] + 1] else count
  }

  function Step(s: State, e: Event): (t: State)
    requires Bounded(s)
    ensures Bounded(t)
  {
    match e
    case Activate(id) =>
      if id < MAX then s.(pending := s.pending + {id}, due := s.due + 1, log := s.log + [Activated(id)]) else s
    case Post => if s.due > 0 then s.(due := s.due - 1, count := Posted(s.count, s.limit)) else s
    case Run => TaskStep(s)
  }

  function Play(s: State, run: seq<Event>): (t: State)
    requires Bounded(s)
    ensures Bounded(t)
    decreases |run|
  {
    if run == [] then s else Play(Step(s, run[0]), run[1..])
  }

  /** An activation marks its id in every state, also before the semaphore exists. */
  lemma ActivateMarks(s: State, id: nat)
    requires Bounded(s) && id < MAX
    ensures Step(s, Activate(id)) ==
            s.(pending := s.pending + {id}, due := s.due + 1, log := s.log + [Activated(id)])
  {
  }

  /** The task takes exactly the lowest pending id, to call it next, and blocks only when there is none. */
  lemma TakesLowest(s: State)
    requires Bounded(s) && s.task == Take
    ensures var t := Step(s, Run);
            && (s.pending == {} ==> t == s.(task := Block))
            && (s.pending != {} ==> t.task.Call? && IsLowest(s.pending, t.task.id)
                                    && t == s.(task := t.task, pending := s.pending - {t.task.id}))
  {
  }

  /** A blocked task goes on if and only if the semaphore is positive, and takes exactly one from it. */
  lemma BlockTakesOne(s: State)
    requires Bounded(s) && s.task == Block && s.count != []
    ensures var t := Step(s, Run);
            && t.count != [] && (t.task == Take <==> s.count[0] > 0)
            && s.count[0] == t.count[0] + (if t.task == Take then 1 else 0)
            && t.pending == s.pending && t.due == s.due && t.log == s.log
  {
  }

  /** The task never blocks beside a pending bit unless a post is present or due. */
  ghost predicate WakeInv(s: State)
  {
    && Bounded(s) && |s.count| <= 1 && s.limit >= 1
    && (s.task != CreateSemaphore ==> s.count != [])
    && (s.task == Block && s.pending != {} ==> s.count[0] > 0 || s.due > 0)
  }

  lemma WakeStep(s: State, e: Event)
    requires WakeInv(s)
    ensures WakeInv(Step(s, e))
  {
  }

  lemma {:induction false} PlayWake(s: State, run: seq<Event>)
    requires WakeInv(s)
    ensures WakeInv(Play(s, run))
    decreases |run|
  {
    if run != [] {
      WakeStep(s, run[0]);
      PlayWake(Step(s, run[0]), run[1..]);
    }
  }

  lemma RunNeverSleepsOnWork(limit: nat, run: seq<Event>)
    requires limit >= 1
    ensures var s := Play(Start(limit), run);
            s.task == Block && s.pending != {} ==> (s.count != [] && s.count[0] > 0) || s.due > 0
  {
    PlayWake(Start(limit), run);
  }

  // ---- every activation is followed by a call ----

  /** The ids whose last activation has not been followed by a call. */
  function Unanswered(log: seq<Entry>): set<nat>
  {
    if log == [] then {}
    else
      var before := Unanswered(log[..|log| - 1]);
      match log[|log| - 1]
      case Activated(id) => before + {id}
      case Called(id) => before - {id}
  }

  lemma UnansweredSnoc(log: seq<Entry>, e: Entry)
    ensures Unanswered(log + [e]) == if e.Activated? then Unanswered(log) + {e.id} else Unanswered(log) - {e.id}
  {
    assert (log + [e])[..|log|] == log;
  }

  /** An unanswered id is pending or about to be called. A call can answer an activation that is
      still pending, so the other inclusion fails. */
  ghost predicate AnswerInv(s: State)
  {
    && Bounded(s)
    && Unanswered(s.log) <= s.pending + (if s.task.Call? then {s.task.id} else {})
  }

  lemma AnswerStep(s: State, e: Event)
    requires AnswerInv(s)
    ensures AnswerInv(Step(s, e))
  {
    match e
    case Activate(id) => UnansweredSnoc(s.log, Activated(id));
    case Post =>
    case Run =>
      if s.task.Call? {
        UnansweredSnoc(s.log, Called(s.task.id));
      }
  }

  lemma {:induction false} PlayAnswers(s: State, run: seq<Event>)
    requires AnswerInv(s)
    ensures AnswerInv(Play(s, run))
    decreases |run|
  {
    if run != [] {
      AnswerStep(s, run[0]);
      PlayAnswers(Step(s, run[0]), run[1..]);
    }
  }

  /** The entry stands in the log at or behind position `from`. */
  ghost predicate Since(log: seq<Entry>, from: nat, e: Entry)
  {
    exists j :: from <= j < |log| && log[j] == e
  }

  lemma LogGrows(s: State, e: Event, from: nat, x: Entry)
    requires Bounded(s)
    ensures var t := Step(s, e); |s.log| <= |t.log| && t.log[..|s.log|] == s.log && (Since(s.log, from, x) ==> Since(t.log, from, x))
  {
    var t := Step(s, e);
    if Since(s.log, from, x) {
      var j :| from <= j < |s.log| && s.log[j] == x;
      assert t.log[j] == x;
    }
  }

  /** An id is waiting to be called or has been called since position `from` of the log. */
  ghost predicate Served(s: State, from: nat, id: nat)
  {
    id in s.pending || s.task == Call(id) || Since(s.log, from, Called(id))
  }

  lemma ServedStep(s: State, e: Event, from: nat, id: nat)
    requires Bounded(s) && from <= |s.log| && Served(s, from, id)
    ensures Served(Step(s, e), from, id) && from <= |Step(s, e).log|
  {
    LogGrows(s, e, from, Called(id));
    if e == Run && s.task == Call(id) {
      assert Step(s, e).log[|s.log|] == Called(id);
    }
  }

  lemma {:induction false} ServedRun(s: State, run: seq<Event>, from: nat, id: nat)
    requires Bounded(s) && from <= |s.log| && Served(s, from, id)
    ensures Served(Play(s, run), from, id)
    decreases |run|
  {
    if run != [] {
      ServedStep(s, run[0], from, id);
      ServedRun(Step(s, run[0]), run[1..], from, id);
    }
  }

  /** In every state and whatever follows, an activation of an id is not forgotten: the id is pending, or about to
      be called, or was called after the activation. */
  lemma ActivationServed(s: State, id: nat, run: seq<Event>)
    requires Bounded(s) && id < MAX
    ensures Served(Play(Step(s, Activate(id)), run), |s.log|, id)
  {
    ActivateMarks(s, id);
    ServedRun(Step(s, Activate(id)), run, |s.log|, id);
  }

  /** Whatever was activated before, during or after the task's start is pending or about to be called
      until it has been called. */
  lemma RunKeepsActivations(limit: nat, run: seq<Event>)
    ensures var s := Play(Start(limit), run);
            forall id :: id in Unanswered(s.log) ==> id in s.pending || s.task == Call(id)
  {
    PlayAnswers(Start(limit), run);
  }

  // ---- the task drains what is pending ----

  /** Task statements until nothing is pending and nothing is held. */
  function Work(s: State): nat
  {
    2 * |s.pending| + (if s.task == Take then 0 else 1)
  }

  function Runs(n: nat): seq<Event>
  {
    if n == 0 then [] else [Run] + Runs(n - 1)
  }

  /** With no activation in progress, every statement of the task brings it nearer to having called everything. */
  lemma RunWorks(s: State)
    requires WakeInv(s) && s.due == 0 && (s.pending != {} || s.task.Call?)
    ensures var t := Step(s, Run); Work(t) < Work(s) && t.due == 0
  {
    if s.task == Take {
      var id := Lowest(s.pending, 0);
      assert |s.pending - {id}| == |s.pending| - 1;
    }
  }

  /** Everything that was pending or held in `s` has been called by `u`. */
  ghost predicate Answered(s: State, u: State)
  {
    s.log <= u.log && forall id :: id in s.pending || s.task == Call(id) ==> Called(id) in u.log[|s.log|..]
  }

  lemma AnsweredBefore(s: State, u: State)
    requires Bounded(s) && Answered(Step(s, Run), u)
    ensures Answered(s, u)
  {
    var t := Step(s, Run);
    forall id | id in s.pending || s.task == Call(id) ensures Called(id) in u.log[|s.log|..] {
      if s.task == Call(id) {
        assert t.log == s.log + [Called(id)];
        assert u.log[|s.log|] == Called(id);
      } else {
        assert id in t.pending || t.task == Call(id);
        assert forall k :: |t.log| <= k < |u.log| ==> u.log[k] in u.log[|s.log|..];
      }
    }
  }

  lemma RunsSnoc(s: State, n: nat)
    requires Bounded(s)
    ensures Play(s, Runs(n + 1)) == Play(Step(s, Run), Runs(n))
  {
    assert Runs(n + 1)[1..] == Runs(n);
  }

  /** From any reachable state without further activations, the task calls every pending id. */
  lemma {:induction false} TaskDrains(s: State) returns (n: nat)
    requires WakeInv(s) && s.due == 0
    ensures n <= Work(s)
    ensures var t := Play(s, Runs(n)); t.pending == {} && !t.task.Call? && Answered(s, t)
    decreases Work(s)
  {
    if s.pending == {} && !s.task.Call? {
      n := 0;
    } else {
      RunWorks(s);
      WakeStep(s, Run);
      var m := TaskDrains(Step(s, Run));
      n := m + 1;
      RunsSnoc(s, m);
      AnsweredBefore(s, Play(s, Runs(n)));
    }
  }
}
