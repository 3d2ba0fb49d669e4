/** Registration of high-level interrupts, statement by statement, against activations and the dispatcher.
    Registration holds no lock: it numbers a block and marks it as initialised before it enters it in the
    table, and an activation whose critical section falls in between makes the dispatcher follow a missing
    entry. */
module HisrRegistration {
  import opened Common
  import Runs = HisrRuns

  const MAX: nat := Runs.MAX

  /** An event id. The test of an activation against the limit never refuses one: ids are zero or slots of the table. */
  type Id = i: nat | i < 32

  /** A control block; handlers and parameters are told apart by number. */
  datatype Block = Block(handler: nat, param: nat, eventId: Id, inited: bool)

  /** Where a registration of block `b` stands, named after the statement that comes next. */
  datatype Reg =
    | Scan(b: nat, handler: nat, param: nat, i: nat)
    | FillHandler(b: nat, handler: nat, param: nat, slot: Id)
    | FillParam(b: nat, param: nat, slot: Id)
    | Number(b: nat, slot: Id)
    | Announce(b: nat)
    | Enter(b: nat)

  datatype Dispatcher = Ready | Follow(id: Id)

  /** `regs` are the calls of registration in progress; several may concern the same block. `acts` are the blocks
      of activations that have passed their tests and not set their bit yet. */
  datatype World = World(blocks: seq<Block>, list: seq<Option<nat>>, regs: map<nat, Reg>,
                         acts: multiset<nat>, pending: set<Id>, task: Dispatcher)

  /** `Begin` starts the call `r` of registration and `Register` runs its next statement. `Look` is an
      activation's tests of its block, taken when the second one is made: the first one cannot fail any more.
      `Set` is its critical section, which reads the event id again. `Dispatch` is the dispatcher's next statement. */
  datatype Action =
    | Begin(r: nat, b: nat, handler: nat, param: nat)
    | Register(r: nat)
    | Look(b: nat)
    | Set(b: nat)
    | Dispatch

  /** No block is initialised, the table is empty and nothing is going on. */
  function Start(m: nat): World
  {
    World(seq(m, i => Block(0, 0, 0, false)), seq(MAX, i => None), map[], multiset{}, {}, Ready)
  }

  predicate Slotted(reg: Reg)
  {
    reg.FillHandler? || reg.FillParam? || reg.Number?
  }

  predicate Shaped(w: World)
  {
    && |w.list| == MAX
    && (forall i {:trigger w.list[i]} :: 0 <= i < MAX && w.list[i].Some? ==> w.list[i].value < |w.blocks|)
    && (forall r {:trigger w.regs[r]} :: r in w.regs ==> w.regs[r].b < |w.blocks|)
    && (forall b :: b in w.acts ==> b < |w.blocks|)
  }

  function Ended(w: World, r: nat): World
  {
    w.(regs := w.regs - {r})
  }

  /** One statement of the call `r` of registration. */
  function RegisterStep(w: World, r: nat): (v: World)
    requires Shaped(w) && r in w.regs
    ensures Shaped(v)
    ensures (v.acts, v.pending, v.task) == (w.acts, w.pending, w.task)
    ensures forall i {:trigger v.list[i]} :: 0 <= i < MAX && w.list[i].Some? ==> v.list[i].Some?
  {
    var b := w.regs[r].b;
    match w.regs[r]
    case Scan(_, handler, param, i) =>
      if i >= MAX then Ended(w, r)
      else if w.list[i].None? then w.(regs := w.regs[r := FillHandler(b, handler, param, i)])
      else
        var other := w.blocks[w.list[i].value];
        if other.handler == handler && other.param == param then Ended(w, r)
        else w.(regs := w.regs[r := Scan(b, handler, param, i + 1)])
    case FillHandler(_, handler, param, i) =>
      w.(blocks := w.blocks[b := w.blocks[b].(handler := handler)], regs := w.regs[r := FillParam(b, param, i)])
    case FillParam(_, param, i) =>
      w.(blocks := w.blocks[b := w.blocks[b].(param := param)], regs := w.regs[r := Number(b, i)])
    case Number(_, i) =>
      w.(blocks := w.blocks[b := w.blocks[b].(eventId := i)], regs := w.regs[r := Announce(b)])
    case Announce(_) =>
      w.(blocks := w.blocks[b := w.blocks[b].(inited := true)], regs := w.regs[r := Enter(b)])
    case Enter(_) => Ended(w.(list := w.list[w.blocks[b].eventId := Some(b)]), r)
  }

  /** An activation passes the tests on its block. */
  predicate Passes(w: World, b: nat)
  {
    b < |w.blocks| && w.blocks[b].inited
  }

  function Act(w: World, a: Action): (v: World)
    requires Shaped(w)
    ensures Shaped(v)
  {
    match a
    case Begin(r, b, handler, param) =>
      if b < |w.blocks| && r !in w.regs then w.(regs := w.regs[r := Scan(b, handler, param, 0)]) else w
    case Register(r) => if r in w.regs then RegisterStep(w, r) else w
    case Look(b) => if Passes(w, b) then w.(acts := w.acts + multiset{b}) else w
    case Set(b) =>
      if b in w.acts then w.(acts := w.acts - multiset{b}, pending := w.pending + {w.blocks[b].eventId}) else w
    case Dispatch =>
      if w.task.Follow? then w.(task := Ready)
      else if w.pending == {} then w
      else var id := Runs.Lowest(w.pending, 0); w.(pending := w.pending - {id}, task := Follow(id))
  }

  function Play(w: World, run: seq<Action>): (v: World)
    requires Shaped(w)
    ensures Shaped(v)
    decreases |run|
  {
    if run == [] then w else Play(Act(w, run[0]), run[1..])
  }

  /** An activation from its tests to its critical section: a block that is not initialised is refused and nothing
      changes; otherwise the id that the block has by then becomes pending, whatever is in the table. */
  lemma ActivationMarks(w: World, b: nat, v: World)
    requires Shaped(w) && Shaped(v) && b < |v.blocks|
    ensures if Passes(w, b) then b in Act(w, Look(b)).acts else Act(w, Look(b)) == w
    ensures b in v.acts ==> Act(v, Set(b)) == v.(acts := v.acts - multiset{b}, pending := v.pending + {v.blocks[b].eventId})
  {
  }

  /** The dispatcher follows the lowest pending id next, and no other bit is cleared. */
  lemma DispatchTakes(w: World)
    requires Shaped(w) && w.task == Ready && w.pending != {}
    ensures var v := Act(w, Dispatch);
            v.task.Follow? && Runs.IsLowest(w.pending, v.task.id) && v == w.(task := v.task, pending := w.pending - {v.task.id})
  {
  }

  // ---- following only registered entries ----

  /** The dispatcher is about to follow an entry that is not there. */
  predicate FollowsMissing(w: World)
    requires Shaped(w)
  {
    w.task.Follow? && w.list[w.task.id].None?
  }

  /** Whatever is pending or being followed is registered. */
  ghost predicate Safe(w: World)
    requires Shaped(w)
  {
    && (forall p :: p in w.pending ==> w.list[p].Some?)
    && !FollowsMissing(w)
  }

  /** An activation of `b` is about to mark an id that nobody has entered in the table. */
  predicate Hole(w: World, b: nat)
    requires Shaped(w)
  {
    b in w.acts && w.list[w.blocks[b].eventId].None?
  }

  lemma SafeStep(w: World, a: Action)
    requires Shaped(w) && Safe(w) && (a.Set? ==> !Hole(w, a.b))
    ensures Safe(Act(w, a))
  {
  }

  ghost predicate NoSet(run: seq<Action>)
  {
    forall i :: 0 <= i < |run| ==> !run[i].Set?
  }

  lemma {:induction false} SafeRun(w: World, run: seq<Action>)
    requires Shaped(w) && Safe(w) && NoSet(run)
    ensures Safe(Play(w, run))
    decreases |run|
  {
    if run != [] {
      assert !run[0].Set? && NoSet(run[1..]);
      SafeStep(w, run[0]);
      SafeRun(Act(w, run[0]), run[1..]);
    }
  }

  lemma PlayOne(w: World, a: Action, run: seq<Action>)
    requires Shaped(w)
    ensures Play(w, [a] + run) == Play(Act(w, a), run)
  {
    assert ([a] + run)[1..] == run;
  }

  /** The dispatcher alone works its way down to a pending id that is missing from the table. */
  lemma {:induction false} ReachMissing(w: World, id: nat) returns (run: seq<Action>)
    requires Shaped(w) && id in w.pending && w.list[id].None?
    ensures NoSet(run) && FollowsMissing(Play(w, run))
    decreases |w.pending|, w.task.Follow?
  {
    var v := Act(w, Dispatch);
    var more := [];
    if w.task.Follow? {
      more := ReachMissing(v, id);
    } else {
      var low := Runs.Lowest(w.pending, 0);
      if low != id {
        assert |w.pending - {low}| < |w.pending|;
        more := ReachMissing(v, id);
      }
    }
    run := [Dispatch] + more;
    PlayOne(w, Dispatch, more);
  }

  /** An activation that marks a missing id can make the dispatcher follow it. */
  lemma HoleFails(w: World, b: nat) returns (run: seq<Action>)
    requires Shaped(w) && Hole(w, b)
    ensures NoSet(run) && FollowsMissing(Play(Act(w, Set(b)), run))
  {
    run := ReachMissing(Act(w, Set(b)), w.blocks[b].eventId);
  }

  /** From a safe state, the critical section of an activation is harmless whatever follows it if and only if the
      id it marks is in the table at that moment. */
  lemma SetSafeIff(w: World, b: nat)
    requires Shaped(w) && Safe(w)
    ensures (forall run :: NoSet(run) ==> !FollowsMissing(Play(Act(w, Set(b)), run))) <==> !Hole(w, b)
  {
    if Hole(w, b) {
      var run := HoleFails(w, b);
    } else {
      SafeStep(w, Set(b));
      forall run | NoSet(run) ensures !FollowsMissing(Play(Act(w, Set(b)), run)) {
        SafeRun(Act(w, Set(b)), run);
      }
    }
  }

  /** No critical section of the run marks a missing id. */
  ghost predicate Careful(w: World, run: seq<Action>)
    requires Shaped(w)
    decreases |run|
  {
    run == [] || ((run[0].Set? ==> !Hole(w, run[0].b)) && Careful(Act(w, run[0]), run[1..]))
  }

  lemma {:induction false} CarefulRun(w: World, run: seq<Action>, k: nat)
    requires Shaped(w) && Safe(w) && Careful(w, run) && k <= |run|
    ensures Safe(Play(w, run[..k]))
    decreases |run|
  {
    if k > 0 {
      SafeStep(w, run[0]);
      CarefulRun(Act(w, run[0]), run[1..], k - 1);
      assert run[..k][1..] == run[1..][..k - 1];
    }
  }

  lemma PlayShift(w: World, run: seq<Action>, k: nat, more: seq<Action>)
    requires Shaped(w) && k < |run|
    ensures Play(w, run[..k + 1] + more) == Play(Act(w, run[0]), run[1..][..k] + more)
  {
    assert run[..k + 1] + more == [run[0]] + (run[1..][..k] + more);
    PlayOne(w, run[0], run[1..][..k] + more);
  }

  /** After `k` actions of the run, the dispatcher and the registrations under way can go on so that a missing
      entry is followed. */
  ghost predicate FailsAt(w: World, run: seq<Action>, k: nat, more: seq<Action>)
    requires Shaped(w)
  {
    k <= |run| && NoSet(more) && FollowsMissing(Play(w, run[..k] + more))
  }

  lemma FailsNow(w: World, run: seq<Action>) returns (more: seq<Action>)
    requires Shaped(w) && run != [] && run[0].Set? && Hole(w, run[0].b)
    ensures FailsAt(w, run, 1, more)
  {
    more := HoleFails(w, run[0].b);
    assert run[1..][..0] + more == more;
    PlayShift(w, run, 0, more);
  }

  lemma FailsLater(w: World, run: seq<Action>, k: nat, more: seq<Action>)
    requires Shaped(w) && run != [] && FailsAt(Act(w, run[0]), run[1..], k, more)
    ensures FailsAt(w, run, k + 1, more)
  {
    PlayShift(w, run, k, more);
  }

  lemma {:induction false} CarelessRun(w: World, run: seq<Action>) returns (k: nat, more: seq<Action>)
    requires Shaped(w) && Safe(w) && !Careful(w, run)
    ensures FailsAt(w, run, k, more)
    decreases |run|
  {
    if run[0].Set? && Hole(w, run[0].b) {
      k := 1;
      more := FailsNow(w, run);
    } else {
      SafeStep(w, run[0]);
      k, more := CarelessRun(Act(w, run[0]), run[1..]);
      FailsLater(w, run, k, more);
      k := k + 1;
    }
  }

  lemma {:induction false} PlayAppend(w: World, run: seq<Action>, more: seq<Action>)
    requires Shaped(w)
    ensures Play(w, run + more) == Play(Play(w, run), more)
    decreases |run|
  {
    if run == [] {
      assert run + more == more;
    } else {
      assert (run + more)[1..] == run[1..] + more;
      PlayAppend(Act(w, run[0]), run[1..], more);
    }
  }

  lemma CarefulHolds(w: World, run: seq<Action>, k: nat, more: seq<Action>)
    requires Shaped(w) && Safe(w) && Careful(w, run)
    ensures !FailsAt(w, run, k, more)
  {
    if k <= |run| && NoSet(more) {
      PlayAppend(w, run[..k], more);
      CarefulRun(w, run, k);
      SafeRun(Play(w, run[..k]), more);
    }
  }

  /** With any number of registrations, activations and dispatches interleaved: the dispatcher follows only
      registered entries, at every moment and however the others go on, if and only if no critical section of
      an activation marks an id that is not in the table. */
  lemma RunSafeIff(w: World, run: seq<Action>)
    requires Shaped(w) && Safe(w)
    ensures (forall k: nat, more :: !FailsAt(w, run, k, more)) <==> Careful(w, run)
  {
    if Careful(w, run) {
      forall k: nat, more ensures !FailsAt(w, run, k, more) {
        CarefulHolds(w, run, k, more);
      }
    } else {
      var k, more := CarelessRun(w, run);
    }
  }

  // ---- where the holes are ----

  /** A call of registration has numbered block `b` and not entered it yet. */
  predicate HalfDoneBy(w: World, r: nat, b: nat)
  {
    r in w.regs && w.regs[r].b == b && (w.regs[r].Announce? || w.regs[r].Enter?)
  }

  ghost predicate HalfDone(w: World, b: nat)
  {
    exists r: nat :: HalfDoneBy(w, r, b)
  }

  /** An initialised block that is not half registered is numbered with an id in the table. */
  ghost predicate Numbered(w: World)
    requires Shaped(w)
  {
    && (forall b :: b in w.acts ==> w.blocks[b].inited)
    && (forall b: nat {:trigger w.blocks[b]} :: b < |w.blocks| && w.blocks[b].inited && !HalfDone(w, b) ==>
          w.list[w.blocks[b].eventId].Some?)
  }

  lemma RegisterNumbered(w: World, r: nat)
    requires Shaped(w) && Numbered(w) && r in w.regs
    ensures Numbered(RegisterStep(w, r))
  {
    var v := RegisterStep(w, r);
    forall c: nat | c < |w.blocks| && v.blocks[c].inited && !HalfDone(v, c)
      ensures v.list[v.blocks[c].eventId].Some?
    {
      KeepsHalfDone(w, r, c);
    }
  }

  /** A statement of one call leaves the other calls where they are. */
  lemma KeepsHalfDone(w: World, r: nat, c: nat)
    requires Shaped(w) && r in w.regs && !HalfDone(RegisterStep(w, r), c)
    ensures HalfDone(w, c) ==> w.regs[r] == Enter(c)
    ensures !((w.regs[r].Number? || w.regs[r].Announce?) && w.regs[r].b == c)
  {
    var v := RegisterStep(w, r);
    forall q: nat | HalfDoneBy(w, q, c) ensures w.regs[r] == Enter(c) {
      assert q != r ==> HalfDoneBy(v, q, c);
      assert w.regs[r] == Announce(c) ==> HalfDoneBy(v, r, c);
    }
    assert w.regs[r].Number? && w.regs[r].b == c ==> HalfDoneBy(v, r, c);
    assert w.regs[r].Announce? && w.regs[r].b == c ==> HalfDoneBy(v, r, c);
  }

  lemma NumberedStep(w: World, a: Action)
    requires Shaped(w) && Numbered(w)
    ensures Numbered(Act(w, a))
  {
    var v := Act(w, a);
    if a.Register? && a.r in w.regs {
      RegisterNumbered(w, a.r);
    } else {
      assert forall r: nat, b: nat :: HalfDoneBy(v, r, b) <==> HalfDoneBy(w, r, b);
      assert forall b: nat :: HalfDone(v, b) <==> HalfDone(w, b);
    }
  }

  lemma {:induction false} NumberedRun(w: World, run: seq<Action>)
    requires Shaped(w) && Numbered(w)
    ensures Numbered(Play(w, run))
    decreases |run|
  {
    if run != [] {
      NumberedStep(w, run[0]);
      NumberedRun(Act(w, run[0]), run[1..]);
    }
  }

  lemma StartSafe(m: nat)
    ensures Shaped(Start(m)) && Safe(Start(m)) && Numbered(Start(m))
  {
  }

  /** Over every run from the start, an activation finds a hole only while some registration of its block is
      between the numbering and the entry in the table. */
  lemma RunHoles(m: nat, run: seq<Action>, b: nat)
    ensures Shaped(Start(m))
    ensures var w := Play(Start(m), run); Hole(w, b) ==> HalfDone(w, b)
  {
    StartSafe(m);
    NumberedRun(Start(m), run);
    assert Hole(Play(Start(m), run), b) ==> Play(Start(m), run).blocks[b].inited;
  }

  // ---- registrations that do not overlap ----

  /** Every registration begins when no other is in progress. */
  ghost predicate Serial(w: World, run: seq<Action>)
    requires Shaped(w)
    decreases |run|
  {
    run == [] || ((run[0].Begin? ==> w.regs == map[]) && Serial(Act(w, run[0]), run[1..]))
  }

  /** The one registration in progress has a slot to itself, and every other initialised block is entered under its id. */
  ghost predicate Found(w: World)
    requires Shaped(w)
  {
    && (forall q, r :: q in w.regs && r in w.regs ==> q == r)
    && (forall r {:trigger w.regs[r]} :: r in w.regs && Slotted(w.regs[r]) ==> w.list[w.regs[r].slot].None?)
    && (forall r: nat, b: nat {:trigger HalfDoneBy(w, r, b)} :: HalfDoneBy(w, r, b) ==>
          w.list[w.blocks[b].eventId].None?)
    && (forall b: nat {:trigger w.blocks[b]} :: b < |w.blocks| && w.blocks[b].inited && !HalfDone(w, b) ==>
          w.list[w.blocks[b].eventId] == Some(b))
  }

  lemma RegisterFound(w: World, r: nat)
    requires Shaped(w) && Found(w) && r in w.regs
    ensures Found(RegisterStep(w, r))
  {
    var v, b := RegisterStep(w, r), w.regs[r].b;
    assert w.regs[r].Announce? || w.regs[r].Enter? ==> HalfDoneBy(w, r, b);
    forall c: nat | c < |w.blocks| && v.blocks[c].inited && !HalfDone(v, c)
      ensures v.list[v.blocks[c].eventId] == Some(c)
    {
      KeepsHalfDone(w, r, c);
    }
    forall q: nat, c: nat {:trigger HalfDoneBy(v, q, c)} | HalfDoneBy(v, q, c)
      ensures v.list[v.blocks[c].eventId].None?
    {
      assert q == r && c == b;
    }
  }

  lemma FoundStep(w: World, a: Action)
    requires Shaped(w) && Found(w) && (a.Begin? ==> w.regs == map[])
    ensures Found(Act(w, a))
  {
    var v := Act(w, a);
    if a.Register? && a.r in w.regs {
      RegisterFound(w, a.r);
    } else {
      assert forall r: nat, b: nat :: HalfDoneBy(v, r, b) <==> HalfDoneBy(w, r, b);
      assert forall b: nat :: HalfDone(v, b) <==> HalfDone(w, b);
    }
  }

  lemma {:induction false} FoundRun(w: World, run: seq<Action>)
    requires Shaped(w) && Found(w) && Serial(w, run)
    ensures Found(Play(w, run))
    decreases |run|
  {
    if run != [] {
      FoundStep(w, run[0]);
      FoundRun(Act(w, run[0]), run[1..]);
    }
  }

  /** Over every run whose registrations do not overlap, an initialised block whose registration is not half done
      is found under its own id: its activation calls its own handler. */
  lemma RunFound(m: nat, run: seq<Action>, b: nat)
    requires Shaped(Start(m)) && Serial(Start(m), run)
    ensures var w := Play(Start(m), run);
            Passes(w, b) && !HalfDone(w, b) ==> w.list[w.blocks[b].eventId] == Some(b)
  {
    FoundRun(Start(m), run);
    assert Passes(Play(Start(m), run), b) ==> Play(Start(m), run).blocks[b].inited;
  }
}
