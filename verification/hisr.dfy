/** The high-level interrupt dispatcher: a byte bitmap of pending ids, a table of registered control
    blocks, and the critical sections that work on them. */
module Hisr {

  const MAX: nat := 32

  /** The byte with only bit `j` set. */
  function Mask(j: nat): bv8
    requires j < 8
  {
    match j
    case 0 => 0x01
    case 1 => 0x02
    case 2 => 0x04
    case 3 => 0x08
    case 4 => 0x10
    case 5 => 0x20
    case 6 => 0x40
    case _ => 0x80
  }

  lemma MaskIsShift(j: nat)
    requires j < 8
    ensures Mask(j) == (1 as bv8) << j
  {
  }

  predicate Bit(b: bv8, j: nat)
    requires j < 8
  {
    b & Mask(j) != 0
  }

  lemma ClearBit(b: bv8, j: nat, k: nat)
    requires j < 8 && k < 8
    ensures Bit(b & !Mask(j), k) <==> Bit(b, k) && k != j
  {
  }

  lemma SetBit(b: bv8, j: nat, k: nat)
    requires j < 8 && k < 8
    ensures Bit(b | Mask(j), k) <==> Bit(b, k) || k == j
  {
  }

  lemma NonZeroHasBit(b: bv8)
    requires forall j :: 0 <= j < 8 ==> !Bit(b, j)
    ensures b == 0
  {
    assert !Bit(b, 0) && !Bit(b, 1) && !Bit(b, 2) && !Bit(b, 3) && !Bit(b, 4) && !Bit(b, 5) && !Bit(b, 6) && !Bit(b, 7);
  }

  /** A control block; handlers and parameters are told apart by number. */
  class Block {
    var handler: nat
    var param: nat
    var hisrId: nat
    var eventId: nat
    var inited: bool
  }

  class Dispatcher {
    const group: array<bv8>
    const list: array<Block?>

    /** The bitmap and the table as they are at start-up: all zero. */
    constructor ()
      ensures Valid() && Safe() && Unshared() && fresh(group) && fresh(list)
      ensures forall p :: 0 <= p < MAX ==> !Pending(p) && list[p] == null
    {
      group := new bv8[4](i => 0);
      list := new Block?[MAX](i => null);
    }

    ghost predicate Shaped()
    {
      group.Length == 4 && list.Length == MAX
    }

    /** Whether event `p` waits for its handler. */
    ghost predicate Pending(p: nat)
      requires Shaped() && p < MAX
      reads group
    {
      Bit(group[p / 8], p % 8)
    }

    /** Registered blocks fill the table from the front, are initialised, and are found under their event id. */
    ghost predicate Registry()
      requires Shaped()
      reads list, list[..]
    {
      && (forall i, k :: 0 <= i < k < MAX && list[k] != null ==> list[i] != null)
      && (forall i :: 0 <= i < MAX && list[i] != null ==>
            list[i].inited && list[i].eventId < MAX && list[list[i].eventId] == list[i])
    }

    ghost predicate Valid()
      reads list, list[..]
    {
      Shaped() && Registry()
    }

    /** Every pending id is registered, so the dispatcher does not follow a missing entry. */
    ghost predicate Safe()
      requires Shaped()
      reads group, list
    {
      forall p :: 0 <= p < MAX && Pending(p) ==> list[p] != null
    }

    /** The critical section of get_hisr_event_id: takes the lowest pending id, or 255 when there is none. */
    method Take() returns (id: nat)
      requires Valid()
      modifies group
      ensures Valid()
      ensures id == 0xff <==> forall p :: 0 <= p < MAX ==> !old(Pending(p))
      ensures id != 0xff ==> id < MAX && old(Pending(id))
      ensures old(Safe()) ==> Safe() && (id != 0xff ==> list[id] != null)
      ensures id != 0xff ==> forall p :: 0 <= p < id ==> !old(Pending(p))
      ensures forall p :: 0 <= p < MAX ==> (Pending(p) <==> old(Pending(p)) && p != id)
    {
      id := 0xff;
      var i := 0;
      while i < group.Length && group[i] == 0
        invariant 0 <= i <= 4
        invariant forall k :: 0 <= k < i ==> group[k] == 0
      {
        i := i + 1;
      }
      if i < group.Length {
        var j := LowestBit(group[i]);
        id := i * 8 + j;
        assert id / 8 == i && id % 8 == j;
        assert Pending(id);
        ClearAt(i, j);
      }
    }

    method LowestBit(b: bv8) returns (j: nat)
      requires b != 0
      ensures j < 8 && Bit(b, j) && forall k :: 0 <= k < j ==> !Bit(b, k)
    {
      j := 0;
      while j < 8 && !Bit(b, j)
        invariant 0 <= j <= 8
        invariant forall k :: 0 <= k < j ==> !Bit(b, k)
      {
        j := j + 1;
      }
      if j == 8 {
        NonZeroHasBit(b);
      }
    }

    method ClearAt(i: nat, j: nat)
      requires Shaped() && i < 4 && j < 8
      modifies group
      ensures forall p :: 0 <= p < MAX ==> (Pending(p) <==> old(Pending(p)) && p != i * 8 + j)
    {
      group[i] := group[i] & !Mask(j);
      forall k | 0 <= k < 8 ensures Bit(group[i], k) <==> old(Bit(group[i], k)) && k != j {
        ClearBit(old(group[i]), j, k);
      }
    }

    /** Marks the block's event pending; refuses a block that is not initialised or has no valid id. The
        dispatcher stays safe exactly when the block is refused or its id is registered. */
    method Activate(cb: Block) returns (ok: bool)
      requires Valid()
      modifies group
      ensures Valid()
      ensures ok <==> cb.inited && cb.eventId < MAX
      ensures old(Safe()) ==> (Safe() <==> !ok || list[cb.eventId] != null)
      ensures forall p :: 0 <= p < MAX ==> (Pending(p) <==> old(Pending(p)) || (ok && p == cb.eventId))
    {
      if !cb.inited {
        return false;
      }
      if cb.eventId >= MAX {
        return false;
      }
      var i, j := cb.eventId / 8, cb.eventId % 8;
      group[i] := group[i] | Mask(j);
      forall k | 0 <= k < 8 ensures Bit(group[i], k) <==> old(Bit(group[i], k)) || k == j {
        SetBit(old(group[i]), j, k);
      }
      assert Pending(cb.eventId);
      return true;
    }

    /** Where a new registration of this handler and parameter goes: the first empty slot, unless an
        entry before it already has both, or there is none. */
    ghost predicate Free(handler: nat, param: nat, i: nat)
      requires Shaped()
      reads list, list[..]
    {
      && i < MAX && list[i] == null
      && forall k :: 0 <= k < i ==> list[k] != null && !(list[k].handler == handler && list[k].param == param)
    }

    /** No two entries have the same handler and parameter. */
    ghost predicate Unshared()
      requires Shaped()
      reads list, list[..]
    {
      forall i, k :: 0 <= i < k < MAX && list[i] != null && list[k] != null ==>
        !(list[i].handler == list[k].handler && list[i].param == list[k].param)
    }

    method Slot(handler: nat, param: nat) returns (i: nat)
      requires Shaped()
      ensures i <= MAX
      ensures i < MAX ==> Free(handler, param, i)
      ensures i == MAX ==> forall k :: 0 <= k < MAX ==> !Free(handler, param, k)
    {
      i := 0;
      while i < MAX && list[i] != null
        invariant 0 <= i <= MAX
        invariant forall k :: 0 <= k < i ==> list[k] != null && !(list[k].handler == handler && list[k].param == param)
      {
        if list[i].handler == handler && list[i].param == param {
          return MAX;
        }
        i := i + 1;
      }
    }

    /** Fills in a control block and enters it under the free id `i`. Handlers stay unshared exactly when
        the block was not registered before. */
    method Enter(cb: Block, handler: nat, param: nat, hisrId: nat, i: nat)
      requires Valid() && Free(handler, param, i)
      modifies list, cb
      ensures Valid() && (old(Safe()) ==> Safe())
      ensures cb.handler == handler && cb.param == param && cb.hisrId == hisrId && cb.eventId == i && cb.inited
      ensures list[..] == old(list[..])[i := cb]
      ensures old(Unshared()) ==> (Unshared() <==> cb !in old(list[..]))
    {
      ghost var before := list[..];
      cb.handler, cb.param, cb.hisrId, cb.eventId, cb.inited := handler, param, hisrId, i, true;
      list[cb.eventId] := cb;
      assert list[..] == before[i := cb];
      if cb in before {
        var k :| 0 <= k < MAX && before[k] == cb;
        assert k != i && list[k] == cb && list[i] == cb;
        assert !Unshared();
      }
    }

    /** Registers a control block under the first free id. */
    method Create(cb: Block, handler: nat, param: nat, hisrId: nat) returns (ok: bool)
      requires Valid()
      modifies list, cb
      ensures Valid() && (old(Safe()) ==> Safe())
      ensures ok <==> exists i :: 0 <= i < MAX && old(Free(handler, param, i))
      ensures !ok ==> unchanged(list) && unchanged(cb)
      ensures ok ==> var i := cb.eventId; cb.inited && i < MAX && old(Free(handler, param, i))
      ensures ok ==> cb.handler == handler && cb.param == param && cb.hisrId == hisrId
      ensures ok ==> list[..] == old(list[..])[cb.eventId := cb]
      ensures ok && old(Unshared()) ==> (Unshared() <==> cb !in old(list[..]))
    {
      var i := Slot(handler, param);
      assert forall k :: 0 <= k < MAX ==> (Free(handler, param, k) <==> old(Free(handler, param, k)));
      if i >= MAX {
        return false;
      }
      Enter(cb, handler, param, hisrId, i);
      return true;
    }
  }

  /** Registering one block for two handlers leaves both ids with the second handler. */
  method SharedHandlerWitness() returns (d: Dispatcher, cb: Block)
    ensures d.Valid() && !d.Unshared() && d.list[0] == cb && d.list[1] == cb && cb.handler == 2
  {
    d := new Dispatcher();
    cb := new Block;
    assert d.Free(1, 0, 0);
    var first := d.Create(cb, 1, 0, 0);
    assert d.list[0] == cb && cb.eventId == 0;
    assert d.list[1] == null;
    assert d.Free(2, 0, 1);
    var second := d.Create(cb, 2, 0, 0);
  }
}
