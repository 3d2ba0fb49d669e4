/** What one registration does when nothing interferes: taken together, its statements register the block in
    the first empty slot, or do nothing. */
module HisrSolo {
  import opened Common
  import opened HisrRegistration

  /** The world after `k` statements of the call `r`. */
  function Alone(w: World, r: nat, k: nat): (v: World)
    requires Shaped(w)
    ensures Shaped(v)
    decreases k
  {
    if k == 0 then w else Alone(Act(w, Register(r)), r, k - 1)
  }

  lemma {:induction false} AlonePlays(w: World, r: nat, k: nat)
    requires Shaped(w)
    ensures Play(w, seq(k, i => Register(r))) == Alone(w, r, k)
    decreases k
  {
    if k > 0 {
      var run := seq(k, i => Register(r));
      assert run[1..] == seq(k - 1, i => Register(r));
      AlonePlays(Act(w, Register(r)), r, k - 1);
    }
  }

  lemma {:induction false} EndedStays(w: World, r: nat, k: nat)
    requires Shaped(w) && r !in w.regs
    ensures Alone(w, r, k) == w
    decreases k
  {
    if k > 0 {
      EndedStays(w, r, k - 1);
    }
  }

  /** Slot `i` is the first empty one, and no block before it has the handler and the parameter. */
  ghost predicate Suits(w: World, handler: nat, param: nat, i: nat)
    requires Shaped(w)
  {
    && i < MAX && w.list[i].None?
    && forall k: nat {:trigger Other(w, handler, param, k)} :: k < i ==> Other(w, handler, param, k)
  }

  /** Slot `k` holds a block with another handler or another parameter. */
  ghost predicate Other(w: World, handler: nat, param: nat, k: nat)
    requires Shaped(w) && k < MAX
  {
    w.list[k].Some? && var c := w.blocks[w.list[k].value]; c.handler != handler || c.param != param
  }

  /** Block `b` filled in and entered in slot `i`. */
  function Registered(w: World, b: nat, handler: nat, param: nat, i: nat): World
    requires b < |w.blocks| && i < |w.list| && i < 32
  {
    w.(blocks := w.blocks[b := Block(handler, param, i, true)], list := w.list[i := Some(b)])
  }

  /** The world in which the call `r` stands at `reg`. */
  function With(w: World, r: nat, reg: Reg): World
  {
    w.(regs := w.regs[r := reg])
  }

  lemma WithTwice(w: World, r: nat, reg: Reg, reg': Reg)
    requires r !in w.regs
    ensures With(With(w, r, reg), r, reg') == With(w, r, reg')
    ensures With(w, r, reg).(regs := With(w, r, reg).regs - {r}) == w
  {
    assert w.regs[r := reg][r := reg'] == w.regs[r := reg'];
    assert w.regs[r := reg] - {r} == w.regs;
  }

  lemma WithShaped(w: World, r: nat, reg: Reg)
    requires Shaped(w) && reg.b < |w.blocks|
    ensures Shaped(With(w, r, reg))
  {
  }

  /** The world in which block `b` is `block` and the call `r` stands at `reg`. */
  function Half(w: World, b: nat, block: Block, r: nat, reg: Reg): World
    requires b < |w.blocks|
  {
    With(w.(blocks := w.blocks[b := block]), r, reg)
  }

  lemma HalfShaped(w: World, b: nat, block: Block, r: nat, reg: Reg)
    requires Shaped(w) && b < |w.blocks| && reg.b == b
    ensures Shaped(Half(w, b, block, r, reg))
  {
  }

  /** One of the statements that fill in the block. */
  lemma FillStep(w: World, b: nat, block: Block, r: nat, reg: Reg, block': Block, reg': Reg)
    requires Shaped(w) && b < |w.blocks| && r !in w.regs && reg.b == b && Shaped(Half(w, b, block, r, reg))
    requires || (reg.FillHandler? && block' == block.(handler := reg.handler) && reg' == FillParam(b, reg.param, reg.slot))
             || (reg.FillParam? && block' == block.(param := reg.param) && reg' == Number(b, reg.slot))
             || (reg.Number? && block' == block.(eventId := reg.slot) && reg' == Announce(b))
             || (reg.Announce? && block' == block.(inited := true) && reg' == Enter(b))
    ensures Act(Half(w, b, block, r, reg), Register(r)) == Half(w, b, block', r, reg')
  {
    assert w.blocks[b := block][b := block'] == w.blocks[b := block'];
    WithTwice(w.(blocks := w.blocks[b := block']), r, reg, reg');
  }

  lemma EnterStep(w: World, b: nat, handler: nat, param: nat, i: nat, r: nat)
    requires Shaped(w) && b < |w.blocks| && r !in w.regs && i < MAX
    requires Shaped(Half(w, b, Block(handler, param, i, true), r, Enter(b)))
    ensures Act(Half(w, b, Block(handler, param, i, true), r, Enter(b)), Register(r)) == Registered(w, b, handler, param, i)
  {
    assert w.regs[r := Enter(b)] - {r} == w.regs;
  }

  /** From the slot found to the end of the call. */
  lemma FillsAlone(w: World, b: nat, handler: nat, param: nat, i: nat, r: nat, k: nat)
    requires Shaped(w) && b < |w.blocks| && r !in w.regs && i < MAX && k >= 5
    ensures Shaped(With(w, r, FillHandler(b, handler, param, i)))
    ensures Alone(With(w, r, FillHandler(b, handler, param, i)), r, k) == Registered(w, b, handler, param, i)
  {
    var c := w.blocks[b];
    var c1 := c.(handler := handler);
    var c2 := c1.(param := param);
    var c3 := c2.(eventId := i);
    var c4 := Block(handler, param, i, true);
    assert w.blocks[b := c] == w.blocks;
    assert With(w, r, FillHandler(b, handler, param, i)) == Half(w, b, c, r, FillHandler(b, handler, param, i));
    HalfShaped(w, b, c, r, FillHandler(b, handler, param, i));
    FillStep(w, b, c, r, FillHandler(b, handler, param, i), c1, FillParam(b, param, i));
    HalfShaped(w, b, c1, r, FillParam(b, param, i));
    FillStep(w, b, c1, r, FillParam(b, param, i), c2, Number(b, i));
    HalfShaped(w, b, c2, r, Number(b, i));
    FillStep(w, b, c2, r, Number(b, i), c3, Announce(b));
    HalfShaped(w, b, c3, r, Announce(b));
    FillStep(w, b, c3, r, Announce(b), c4, Enter(b));
    HalfShaped(w, b, c4, r, Enter(b));
    EnterStep(w, b, handler, param, i, r);
    EndedStays(Registered(w, b, handler, param, i), r, k - 5);
    FiveSteps(Half(w, b, c, r, FillHandler(b, handler, param, i)), Half(w, b, c1, r, FillParam(b, param, i)),
              Half(w, b, c2, r, Number(b, i)), Half(w, b, c3, r, Announce(b)), Half(w, b, c4, r, Enter(b)), r, k);
  }

  lemma FiveSteps(w0: World, w1: World, w2: World, w3: World, w4: World, r: nat, k: nat)
    requires Shaped(w0) && Shaped(w1) && Shaped(w2) && Shaped(w3) && Shaped(w4) && k >= 5
    requires Act(w0, Register(r)) == w1 && Act(w1, Register(r)) == w2 && Act(w2, Register(r)) == w3 && Act(w3, Register(r)) == w4
    ensures Alone(w0, r, k) == Alone(Act(w4, Register(r)), r, k - 5)
  {
    assert Alone(w0, r, k) == Alone(w1, r, k - 1);
    assert Alone(w1, r, k - 1) == Alone(w2, r, k - 2);
    assert Alone(w2, r, k - 2) == Alone(w3, r, k - 3);
    assert Alone(w3, r, k - 3) == Alone(w4, r, k - 4);
  }

  /** The search passes slots with other blocks. */
  lemma SearchStep(w: World, b: nat, handler: nat, param: nat, j: nat, r: nat)
    requires Shaped(w) && b < |w.blocks| && r !in w.regs && j <= MAX && Shaped(With(w, r, Scan(b, handler, param, j)))
    ensures Act(With(w, r, Scan(b, handler, param, j)), Register(r)) ==
            if j == MAX then w
            else if w.list[j].None? then With(w, r, FillHandler(b, handler, param, j))
            else if Other(w, handler, param, j) then With(w, r, Scan(b, handler, param, j + 1))
            else w
  {
    var reg := Scan(b, handler, param, j);
    WithTwice(w, r, reg, Scan(b, handler, param, j + 1));
    if j < MAX {
      WithTwice(w, r, reg, FillHandler(b, handler, param, j));
    }
  }

  /** The suitable slot is not among those passed, and the next one is passed if it is further on. */
  lemma SuitsLater(w: World, handler: nat, param: nat, j: nat, i: nat)
    requires Shaped(w) && j <= MAX && Suits(w, handler, param, i)
    requires forall k: nat {:trigger Other(w, handler, param, k)} :: k < j ==> Other(w, handler, param, k)
    ensures i == j || (j < i && Other(w, handler, param, j))
  {
    assert i < j ==> Other(w, handler, param, i);
  }

  lemma {:induction false} SearchAlone(w: World, b: nat, handler: nat, param: nat, j: nat, r: nat, k: nat)
    requires Shaped(w) && b < |w.blocks| && r !in w.regs && j <= MAX && k >= MAX - j + 6
    requires Shaped(With(w, r, Scan(b, handler, param, j)))
    requires forall i: nat {:trigger Other(w, handler, param, i)} :: i < j ==> Other(w, handler, param, i)
    ensures var v := Alone(With(w, r, Scan(b, handler, param, j)), r, k);
            && (forall i :: Suits(w, handler, param, i) ==> v == Registered(w, b, handler, param, i))
            && ((forall i :: !Suits(w, handler, param, i)) ==> v == w)
    decreases MAX - j
  {
    SearchStep(w, b, handler, param, j, r);
    forall i | Suits(w, handler, param, i)
      ensures i == j || (j < i && Other(w, handler, param, j))
    {
      SuitsLater(w, handler, param, j, i);
    }
    if j < MAX && w.list[j].None? {
      assert Suits(w, handler, param, j);
      FillsAlone(w, b, handler, param, j, r, k - 1);
    } else if j < MAX && Other(w, handler, param, j) {
      WithShaped(w, r, Scan(b, handler, param, j + 1));
      SearchAlone(w, b, handler, param, j + 1, r, k - 1);
    } else {
      EndedStays(w, r, k - 1);
    }
  }

  /** A call of registration that nothing interferes with, in every state: with a suitable slot it fills the block
      in, numbers it, marks it and enters it there; otherwise it changes nothing. */
  lemma SoloRegisters(w: World, r: nat, b: nat, handler: nat, param: nat)
    requires Shaped(w) && b < |w.blocks| && r !in w.regs
    ensures var v := Play(Act(w, Begin(r, b, handler, param)), seq(MAX + 6, i => Register(r)));
            && (forall i :: Suits(w, handler, param, i) ==> v == Registered(w, b, handler, param, i))
            && ((forall i :: !Suits(w, handler, param, i)) ==> v == w)
  {
    var w1 := With(w, r, Scan(b, handler, param, 0));
    assert Act(w, Begin(r, b, handler, param)) == w1;
    AlonePlays(w1, r, MAX + 6);
    SearchAlone(w, b, handler, param, 0, r, MAX + 6);
  }
}
