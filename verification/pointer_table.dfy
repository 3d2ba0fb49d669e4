/** Tables of pointers in which 0 stands for NULL. */
module PointerTable {

  /** The multiset of non-NULL pointers in a table of pointers. */
  ghost function InTable(table: seq<nat>): multiset<nat>
  {
    multiset(table)[0 := 0]
  }

  lemma InTableUpdate(table: seq<nat>, i: nat, p: nat)
    requires i < |table|
    ensures table[i] == 0 && p != 0 ==> InTable(table[i := p]) == InTable(table) + multiset{p}
    ensures table[i] != 0 && p == 0 ==> InTable(table) == multiset{table[i]} + InTable(table[i := p])
    ensures table[i] == p ==> table[i := p] == table
  {
    assert multiset(table[i := p]) == multiset(table) - multiset{table[i]} + multiset{p};
  }

  /** How often `p` occurs in `list`. */
  function Count(list: seq<nat>, p: nat): nat
  {
    if list == [] then 0 else (if list[0] == p then 1 else 0) + Count(list[1..], p)
  }

  lemma {:induction false} CountIsMultiset(list: seq<nat>, p: nat)
    ensures Count(list, p) == multiset(list)[p]
  {
    if list != [] {
      CountIsMultiset(list[1..], p);
      assert list == [list[0]] + list[1..];
    }
  }

  lemma CountCons(x: nat, list: seq<nat>, p: nat)
    ensures Count([x] + list, p) == Count(list, p) + (if x == p then 1 else 0)
  {
    assert ([x] + list)[1..] == list;
  }

  lemma {:induction false} CountClear(table: seq<nat>, i: nat, p: nat)
    requires i < |table| && p != 0
    ensures Count(table[i := 0], p) + (if table[i] == p then 1 else 0) == Count(table, p)
  {
    if i > 0 {
      CountClear(table[1..], i - 1, p);
      assert table[i := 0][1..] == table[1..][i - 1 := 0];
    } else {
      assert table[i := 0][1..] == table[1..];
    }
  }

  /** Adding `p` and then `rest` to `start` is adding `[p] + rest` to it. */
  lemma GiveIn(start: multiset<nat>, p: nat, more: multiset<nat>, rest: seq<nat>, all: multiset<nat>)
    requires more == start + multiset{p} && all == more + multiset(rest)
    ensures all == start + multiset([p] + rest)
  {
    assert multiset([p] + rest) == multiset{p} + multiset(rest);
  }
}
