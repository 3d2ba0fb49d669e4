/** Runs of registration and activation, from the start, that go wrong. */
module HisrWitnesses {
  import opened Common
  import opened HisrRegistration

  ghost predicate LeadsBy(w: World, run: seq<Action>, v: World)
    requires Shaped(w)
  {
    Play(w, run) == v
  }

  /** Some run leads from `w` to `v`. */
  ghost predicate Leads(w: World, v: World)
    requires Shaped(w)
  {
    exists run :: LeadsBy(w, run, v)
  }

  lemma LeadsHere(w: World)
    requires Shaped(w)
    ensures Leads(w, w)
  {
    assert LeadsBy(w, [], w);
  }

  lemma LeadsOn(w0: World, w: World, a: Action, v: World)
    requires Shaped(w0) && Leads(w0, w) && Shaped(w) && Act(w, a) == v
    ensures Shaped(v) && Leads(w0, v)
  {
    var run :| LeadsBy(w0, run, w);
    PlayAppend(w0, run, [a]);
    PlayOne(w, a, []);
    assert [a] + [] == [a];
    assert LeadsBy(w0, run + [a], v);
  }

  /** The world with block `b` and the call `r` changed. */
  function At(w: World, b: nat, block: Block, r: nat, reg: Reg): World
    requires b < |w.blocks|
  {
    w.(blocks := w.blocks[b := block], regs := w.regs[r := reg])
  }

  lemma AtTwice(w: World, b: nat, block: Block, block': Block, r: nat, reg: Reg, reg': Reg)
    requires b < |w.blocks|
    ensures At(At(w, b, block, r, reg), b, block', r, reg') == At(w, b, block', r, reg')
  {
    assert w.blocks[b := block][b := block'] == w.blocks[b := block'];
    assert w.regs[r := reg][r := reg'] == w.regs[r := reg'];
  }

  /** One statement of a registration that has found its slot. */
  lemma FillStep(w: World, r: nat, b: nat, block: Block, reg: Reg, block': Block, reg': Reg)
    requires b < |w.blocks| && Shaped(At(w, b, block, r, reg)) && reg.b == b
    requires || (reg.FillHandler? && block' == block.(handler := reg.handler) && reg' == FillParam(b, reg.param, reg.slot))
             || (reg.FillParam? && block' == block.(param := reg.param) && reg' == Number(b, reg.slot))
             || (reg.Number? && block' == block.(eventId := reg.slot) && reg' == Announce(b))
    ensures Act(At(w, b, block, r, reg), Register(r)) == At(w, b, block', r, reg')
  {
    AtTwice(w, b, block, block', r, reg, reg');
  }

  /** The world while the call `r` looks at slot `j` for block `b`. */
  function Scanning(w: World, r: nat, b: nat, handler: nat, j: nat): World
  {
    w.(regs := w.regs[r := Scan(b, handler, 0, j)])
  }

  lemma SearchAct(w: World, r: nat, b: nat, handler: nat, j: nat, reg: Reg)
    requires b < |w.blocks| && j < MAX && Shaped(Scanning(w, r, b, handler, j))
    requires if w.list[j].None? then reg == FillHandler(b, handler, 0, j)
             else w.blocks[w.list[j].value].handler != handler && reg == Scan(b, handler, 0, j + 1)
    ensures Act(Scanning(w, r, b, handler, j), Register(r)) == w.(regs := w.regs[r := reg])
  {
    assert w.regs[r := Scan(b, handler, 0, j)][r := reg] == w.regs[r := reg];
  }

  /** A registration looks at the slots up to the first empty one. */
  lemma {:induction false} Searches(w0: World, w: World, r: nat, b: nat, handler: nat, j: nat, i: Id)
    requires b < |w.blocks| && Shaped(w0) && j <= i && |w.list| == MAX && w.list[i].None?
    requires Shaped(Scanning(w, r, b, handler, j)) && Leads(w0, Scanning(w, r, b, handler, j))
    requires forall k {:trigger w.list[k]} :: j <= k < i ==> w.list[k].Some? && w.blocks[w.list[k].value].handler != handler
    ensures var v := w.(regs := w.regs[r := FillHandler(b, handler, 0, i)]); Shaped(v) && Leads(w0, v)
    decreases i - j
  {
    var reg := if j < i then Scan(b, handler, 0, j + 1) else FillHandler(b, handler, 0, i);
    SearchAct(w, r, b, handler, j, reg);
    LeadsOn(w0, Scanning(w, r, b, handler, j), Register(r), w.(regs := w.regs[r := reg]));
    if j < i {
      Searches(w0, w, r, b, handler, j + 1, i);
    }
  }

  /** The world once the call `r` has numbered block `b` for slot `i`. */
  function NumberedBy(w: World, r: nat, b: nat, handler: nat, i: Id): World
    requires b < |w.blocks|
  {
    At(w, b, Block(handler, 0, i, w.blocks[b].inited), r, Announce(b))
  }

  /** A new call of registration, up to its numbering. */
  lemma Numbers(w0: World, w: World, r: nat, b: nat, handler: nat, i: Id)
    requires Shaped(w0) && Leads(w0, w) && Shaped(w) && r !in w.regs && b < |w.blocks| && i < MAX && w.list[i].None?
    requires forall k {:trigger w.list[k]} :: 0 <= k < i ==> w.list[k].Some? && w.blocks[w.list[k].value].handler != handler
    ensures var v := NumberedBy(w, r, b, handler, i); Shaped(v) && Leads(w0, v)
  {
    assert w.blocks[b := w.blocks[b]] == w.blocks;
    LeadsOn(w0, w, Begin(r, b, handler, 0), Scanning(w, r, b, handler, 0));
    Searches(w0, w, r, b, handler, 0, i);
    Fills(w0, w, r, b, handler, i);
  }

  lemma Fills(w0: World, w: World, r: nat, b: nat, handler: nat, i: Id)
    requires b < |w.blocks| && Shaped(w0)
    requires var v := At(w, b, w.blocks[b], r, FillHandler(b, handler, 0, i)); Shaped(v) && Leads(w0, v)
    ensures var v := NumberedBy(w, r, b, handler, i); Shaped(v) && Leads(w0, v)
  {
    var c := w.blocks[b];
    var c1 := c.(handler := handler);
    var c2 := c1.(param := 0);
    var c3 := c2.(eventId := i);
    Fill(w0, w, r, b, c, FillHandler(b, handler, 0, i), c1, FillParam(b, 0, i));
    Fill(w0, w, r, b, c1, FillParam(b, 0, i), c2, Number(b, i));
    Fill(w0, w, r, b, c2, Number(b, i), c3, Announce(b));
  }

  lemma Fill(w0: World, w: World, r: nat, b: nat, block: Block, reg: Reg, block': Block, reg': Reg)
    requires Shaped(w0) && b < |w.blocks| && reg.b == b
    requires var v := At(w, b, block, r, reg); Shaped(v) && Leads(w0, v)
    requires || (reg.FillHandler? && block' == block.(handler := reg.handler) && reg' == FillParam(b, reg.param, reg.slot))
             || (reg.FillParam? && block' == block.(param := reg.param) && reg' == Number(b, reg.slot))
             || (reg.Number? && block' == block.(eventId := reg.slot) && reg' == Announce(b))
    ensures var v := At(w, b, block', r, reg'); Shaped(v) && Leads(w0, v)
  {
    FillStep(w, r, b, block, reg, block', reg');
    LeadsOn(w0, At(w, b, block, r, reg), Register(r), At(w, b, block', r, reg'));
  }

  /** The world once the call `r` has entered block `b`. */
  function EnteredBy(w: World, r: nat, b: nat): World
    requires b < |w.blocks| && w.blocks[b].eventId < |w.list|
  {
    w.(blocks := w.blocks[b := w.blocks[b].(inited := true)], list := w.list[w.blocks[b].eventId := Some(b)], regs := w.regs - {r})
  }

  /** A numbered block is marked as initialised and entered. */
  lemma Enters(w0: World, w: World, r: nat)
    requires Shaped(w0) && Leads(w0, w) && Shaped(w) && r in w.regs && w.regs[r].Announce?
    ensures var v := EnteredBy(w, r, w.regs[r].b); Shaped(v) && Leads(w0, v)
  {
    var b := w.regs[r].b;
    var w1 := At(w, b, w.blocks[b].(inited := true), r, HisrRegistration.Enter(b));
    LeadsOn(w0, w, Register(r), w1);
    assert w1.regs - {r} == w.regs - {r};
    LeadsOn(w0, w1, Register(r), EnteredBy(w, r, b));
  }

  lemma Fails(w0: World, w: World, b: nat)
    requires Shaped(w0) && Leads(w0, w) && Shaped(w) && Hole(w, b)
    ensures exists run :: FollowsMissing(Play(w0, run))
  {
    var more := HoleFails(w, b);
    var v := Act(w, Set(b));
    LeadsOn(w0, w, Set(b), v);
    var run :| LeadsBy(w0, run, v);
    PlayAppend(w0, run, more);
    assert FollowsMissing(Play(w0, run + more));
  }

  /** A block is activated between the last two statements of its registration. */
  lemma MissingWitness(handler: nat)
    ensures Shaped(Start(1)) && exists run :: FollowsMissing(Play(Start(1), run))
  {
    StartSafe(1);
    var w0 := Start(1);
    LeadsHere(w0);
    Numbers(w0, w0, 0, 0, handler, 0);
    var w1 := NumberedBy(w0, 0, 0, handler, 0);
    var w2 := Act(w1, Register(0));
    LeadsOn(w0, w1, Register(0), w2);
    LeadsOn(w0, w2, Look(0), Act(w2, Look(0)));
    Fails(w0, Act(w2, Look(0)), 0);
  }

  /** The one block of a world is registered under id 0. */
  lemma Registered(handler: nat) returns (w: World)
    ensures Shaped(Start(1)) && Shaped(w) && Leads(Start(1), w)
    ensures w.blocks == [Block(handler, 0, 0, true)] && w.list == Start(1).list[0 := Some(0)] && w.regs == map[] && w.acts == multiset{}
  {
    StartSafe(1);
    var w0 := Start(1);
    LeadsHere(w0);
    Numbers(w0, w0, 0, 0, handler, 0);
    var w1 := NumberedBy(w0, 0, 0, handler, 0);
    Enters(w0, w1, 0);
    w := EnteredBy(w1, 0, 0);
  }

  /** An activation tests a block that is registered, with no registration going on; the block is registered again
      for another handler; and the activation's critical section marks the new id before it is in the table. */
  lemma ReregisterWitness() returns (w: World, v: World)
    ensures Shaped(Start(1)) && Shaped(w) && Leads(Start(1), w)
    ensures Passes(w, 0) && w.regs == map[] && w.list[w.blocks[0].eventId] == Some(0)
    ensures Shaped(v) && Leads(Act(w, Look(0)), v) && v.acts == Act(w, Look(0)).acts == multiset{0}
    ensures exists more :: NoSet(more) && FollowsMissing(Play(Act(v, Set(0)), more))
  {
    w := Registered(1);
    var u := Act(w, Look(0));
    LeadsHere(u);
    Numbers(u, u, 1, 0, 2, 1);
    v := NumberedBy(u, 1, 0, 2, 1);
    var more := HoleFails(v, 0);
  }

  /** Two registrations that both look for a slot before either enters one. */
  lemma Overlap() returns (w: World)
    ensures Shaped(Start(2)) && Shaped(w) && Leads(Start(2), w)
    ensures |w.blocks| == 2 && w.blocks[0].eventId == 0 && w.blocks[1].eventId == 0
    ensures 0 in w.regs && 1 in w.regs && w.regs[0] == Announce(0) && w.regs[1] == Announce(1) && forall r :: r in w.regs ==> r < 2
  {
    StartSafe(2);
    var w0 := Start(2);
    LeadsHere(w0);
    Numbers(w0, w0, 0, 0, 1, 0);
    var w1 := NumberedBy(w0, 0, 0, 1, 0);
    Numbers(w0, w1, 1, 1, 2, 0);
    w := NumberedBy(w1, 1, 1, 2, 0);
  }

  /** Block `b` is initialised and fully registered, and another one stands under its id. */
  ghost predicate Usurped(w: World, b: nat)
    requires Shaped(w)
  {
    Passes(w, b) && !HalfDone(w, b) && w.list[w.blocks[b].eventId] != Some(b)
  }

  /** The first of the two goes on to its end, and then the second. */
  lemma BothEnter(w0: World, w: World)
    requires Shaped(w0) && Shaped(w) && Leads(w0, w)
    requires 0 in w.regs && 1 in w.regs && w.regs[0] == Announce(0) && w.regs[1] == Announce(1)
    ensures var v := EnteredBy(EnteredBy(w, 0, 0), 1, 1); Shaped(v) && Leads(w0, v)
  {
    Enters(w0, w, 0);
    Enters(w0, EnteredBy(w, 0, 0), 1);
  }

  lemma NowUsurped(w: World)
    requires |w.blocks| == 2 && |w.list| == MAX && w.blocks[0].eventId == 0 && w.blocks[1].eventId == 0
    requires forall r :: r in w.regs ==> r < 2
    requires Shaped(EnteredBy(EnteredBy(w, 0, 0), 1, 1))
    ensures Usurped(EnteredBy(EnteredBy(w, 0, 0), 1, 1), 0)
  {
    var v := EnteredBy(EnteredBy(w, 0, 0), 1, 1);
    assert v.list[0] == Some(1) && v.blocks[0].inited && v.blocks[0].eventId == 0;
    assert forall r: nat :: r !in v.regs;
  }

  /** Registrations that overlap can take the same id: activating the first block then calls the second one's handler. */
  lemma OverlapWitness() returns (w: World)
    ensures Shaped(Start(2)) && Shaped(w) && Leads(Start(2), w) && Usurped(w, 0)
  {
    var v := Overlap();
    BothEnter(Start(2), v);
    NowUsurped(v);
    w := EnteredBy(EnteredBy(v, 0, 0), 1, 1);
  }
}
