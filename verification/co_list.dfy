/** The intrusive singly linked list, refined to a sequence of its elements. */
module CoList {
  import opened Common

  // ---- sequences ----

  function IndexOf<T(==)>(xs: seq<T>, x: T): (i: nat)
    ensures i <= |xs|
    ensures i < |xs| ==> xs[i] == x
    ensures forall j :: 0 <= j < i ==> xs[j] != x
    ensures i < |xs| <==> x in xs
  {
    if xs == [] || xs[0] == x then 0 else IndexOf(xs[1..], x) + 1
  }

  function Without<T(==)>(xs: seq<T>, x: T): seq<T>
  {
    var i := IndexOf(xs, x);
    if i < |xs| then xs[..i] + xs[i + 1..] else xs
  }

  function InsertedAt<T>(xs: seq<T>, i: nat, x: T): seq<T>
    requires i <= |xs|
  {
    xs[..i] + [x] + xs[i..]
  }

  /** The first element that `x` has to come before. */
  function Place<T>(cmp: (T, T) -> bool, xs: seq<T>, x: T): (i: nat)
    ensures i <= |xs|
    ensures i < |xs| ==> cmp(x, xs[i])
    ensures forall j :: 0 <= j < i ==> !cmp(x, xs[j])
  {
    if xs == [] || cmp(x, xs[0]) then 0 else Place(cmp, xs[1..], x) + 1
  }

  ghost predicate Distinct<T>(xs: seq<T>)
  {
    forall i, j :: 0 <= i < j < |xs| ==> xs[i] != xs[j]
  }

  lemma IndexOfUnique<T>(xs: seq<T>, i: nat)
    requires Distinct(xs) && i < |xs|
    ensures IndexOf(xs, xs[i]) == i
  {
  }

  lemma InsertedIndex<T>(xs: seq<T>, i: nat, x: T)
    requires i <= |xs|
    ensures var ys := InsertedAt(xs, i, x);
            && |ys| == |xs| + 1
            && (forall j {:trigger ys[j]} :: 0 <= j < |ys| ==> ys[j] == if j < i then xs[j] else if j == i then x else xs[j - 1])
            && (Distinct(xs) && x !in xs ==> Distinct(ys))
  {
  }

  lemma RemovedIndex<T>(xs: seq<T>, i: nat)
    requires i < |xs|
    ensures var ys := xs[..i] + xs[i + 1..];
            && |ys| == |xs| - 1
            && (forall j {:trigger ys[j]} :: 0 <= j < |ys| ==> ys[j] == if j < i then xs[j] else xs[j + 1])
            && (Distinct(xs) ==> Distinct(ys))
            && (Distinct(xs) ==> ys == Without(xs, xs[i]))
  {
    if Distinct(xs) {
      IndexOfUnique(xs, i);
    }
  }

  lemma SuffixIndex<T>(xs: seq<T>, i: nat)
    requires i < |xs| && Distinct(xs)
    ensures var ys := xs[i + 1..];
            && (forall j {:trigger ys[j]} :: 0 <= j < |ys| ==> ys[j] == xs[i + 1 + j] != xs[i])
            && Distinct(ys)
  {
  }

  lemma WithoutFirst<T>(xs: seq<T>)
    requires xs != []
    ensures Without(xs, xs[0]) == xs[1..]
  {
    assert xs[..0] + xs[1..] == xs[1..];
  }

  ghost predicate Disjoint<T>(xs: seq<T>, ys: seq<T>)
  {
    forall i, j :: 0 <= i < |xs| && 0 <= j < |ys| ==> xs[i] != ys[j]
  }

  lemma DistinctConcat<T>(xs: seq<T>, ys: seq<T>)
    requires Distinct(xs) && Distinct(ys) && Disjoint(xs, ys)
    ensures Distinct(xs + ys)
  {
  }

  ghost predicate StrictWeakOrder<T>(cmp: (T, T) -> bool, xs: seq<T>)
  {
    && (forall i, j :: 0 <= i < |xs| && 0 <= j < |xs| && cmp(xs[i], xs[j]) ==> !cmp(xs[j], xs[i]))
    && (forall i, j, k :: 0 <= i < |xs| && 0 <= j < |xs| && 0 <= k < |xs| && !cmp(xs[i], xs[j]) && !cmp(xs[j], xs[k]) ==> !cmp(xs[i], xs[k]))
  }

  /** No element has to come before an earlier one. */
  ghost predicate Sorted<T>(cmp: (T, T) -> bool, xs: seq<T>)
  {
    forall i, j :: 0 <= i < j < |xs| ==> !cmp(xs[j], xs[i])
  }

  /** Inserting at the chosen place keeps a sorted sequence sorted, and puts the element behind
      everything it does not have to come before, its equals included. */
  lemma PlaceSorts<T>(cmp: (T, T) -> bool, xs: seq<T>, x: T)
    requires Sorted(cmp, xs) && StrictWeakOrder(cmp, xs + [x])
    ensures var i := Place(cmp, xs, x);
            && Sorted(cmp, InsertedAt(xs, i, x))
            && forall j {:trigger xs[j]} :: 0 <= j < |xs| ==> (j < i <==> !cmp(x, xs[j]))
  {
    var i, ys := Place(cmp, xs, x), xs + [x];
    var zs := InsertedAt(xs, i, x);
    forall j {:trigger xs[j]} | i <= j < |xs|
      ensures cmp(x, xs[j])
    {
      assert ys[i] == xs[i] && ys[j] == xs[j] && ys[|xs|] == x;
    }
    forall a, b | 0 <= a < b < |zs|
      ensures !cmp(zs[b], zs[a])
    {
      assert ys[|xs|] == x;
      if b == i {
      } else if a == i {
        assert ys[b - 1] == zs[b];
      }
    }
  }

  lemma InsertKeepsSorted<T>(cmp: (T, T) -> bool, xs: seq<T>, x: T)
    ensures Sorted(cmp, xs) && StrictWeakOrder(cmp, xs + [x]) ==> Sorted(cmp, InsertedAt(xs, Place(cmp, xs, x), x))
  {
    if Sorted(cmp, xs) && StrictWeakOrder(cmp, xs + [x]) {
      PlaceSorts(cmp, xs, x);
    }
  }

  // ---- the list on the heap ----

  /** co_list_hdr, with whatever else the element holds as `body`. */
  class Hdr {
    var next: Hdr?
    var body: nat
  }

  class List {
    var first: Hdr?
    /** Meaningless while the list is empty. */
    var last: Hdr?
    ghost var content: seq<Hdr>

    /** `first` leads through the elements and then to null. */
    ghost predicate Chained()
      reads this, content
    {
      && Distinct(content)
      && first == (if content == [] then null else content[0])
      && (forall i :: 0 <= i < |content| - 1 ==> content[i].next == content[i + 1])
      && (content != [] ==> content[|content| - 1].next == null)
    }

    ghost predicate Valid()
      reads this, content
    {
      Chained() && (content != [] ==> last == content[|content| - 1])
    }

    /** What the elements of a sequence hold. */
    static ghost function Bodies(xs: seq<Hdr>): (bs: seq<nat>)
      reads xs
      ensures |bs| == |xs|
    {
      seq(|xs|, i requires 0 <= i < |xs| reads xs => xs[i].body)
    }

    /** co_list_init. */
    constructor ()
      ensures Valid() && content == []
    {
      first, last, content := null, null, [];
    }

    method Init()
      modifies this
      ensures Valid() && content == []
    {
      first := null;
      last := null;
      content := [];
    }

    method PushBack(x: Hdr)
      requires Valid() && x !in content
      modifies this, x`next, content`next
      ensures Valid() && content == old(content) + [x]
    {
      if first == null {
        first := x;
      } else {
        last.next := x;
      }
      last := x;
      x.next := null;
      content := content + [x];
    }

    method PushFront(x: Hdr)
      requires Valid() && x !in content
      modifies this, x
      ensures Valid() && content == [x] + old(content)
    {
      if first == null {
        last := x;
      }
      x.next := first;
      first := x;
      content := [x] + content;
    }

    method PopFront() returns (x: Hdr?)
      requires Valid()
      modifies this
      ensures Valid()
      ensures if old(content) == [] then x == null && content == [] else x == old(content)[0] && content == old(content)[1..]
    {
      x := first;
      if x != null {
        first := first.next;
        if last == x {
          last := null;
        }
        content := content[1..];
      }
    }

    /** co_list_find. */
    method Find(x: Hdr) returns (found: bool)
      requires Valid()
      ensures found <==> x in content
    {
      var scan := first;
      ghost var i := 0;
      while scan != x && scan != null
        invariant 0 <= i <= |content| && scan == (if i < |content| then content[i] else null)
        invariant x !in content[..i]
        decreases |content| - i
      {
        scan := scan.next;
        i := i + 1;
      }
      found := scan == x;
    }

    /** co_list_cnt. */
    method Cnt() returns (cnt: nat)
      requires Valid()
      ensures cnt == |content|
    {
      cnt := 0;
      var elt := first;
      while elt != null
        invariant cnt <= |content| && elt == (if cnt < |content| then content[cnt] else null)
        decreases |content| - cnt
      {
        cnt := cnt + 1;
        elt := elt.next;
      }
    }

    /** co_list_extract: an element that is not in the list is ignored. */
    method Extract(x: Hdr)
      requires Valid()
      modifies this, content
      ensures Valid() && content == Without(old(content), x)
    {
      var scan := first;
      if scan == null {
        return;
      }
      if scan == x {
        WithoutFirst(content);
        DropFirst(scan);
      } else {
        ghost var i;
        scan, i := ScanBefore(x);
        if scan.next != null {
          Unlink(scan, x, i + 1);
        }
      }
    }

    /** The head of co_list_extract: takes out the first element. */
    method DropFirst(scan: Hdr)
      requires Valid() && content != [] && scan == content[0]
      modifies this
      ensures Valid() && content == old(content)[1..]
    {
      first := scan.next;
      if last == scan {
        last := null;
      }
      content := content[1..];
    }

    /** The loop of co_list_extract: stops before `x`, or at the end when `x` is not in the list. */
    method ScanBefore(x: Hdr) returns (scan: Hdr, ghost i: nat)
      requires Valid() && content != [] && content[0] != x
      ensures i < |content| && scan == content[i]
      ensures if scan.next == null then x !in content else i + 1 < |content| && content[i + 1] == x
    {
      scan, i := first, 0;
      while scan.next != null && scan.next != x
        invariant 0 <= i < |content| && scan == content[i]
        invariant forall j :: 0 <= j <= i ==> content[j] != x
        decreases |content| - i
      {
        scan := scan.next;
        i := i + 1;
      }
      assert i + 1 < |content| ==> content[i].next == content[i + 1];
    }

    /** The tail of co_list_extract: takes out `x`, which follows `prev`. */
    method Unlink(prev: Hdr, x: Hdr, ghost i: nat)
      requires Valid() && 0 < i < |content| && content[i - 1] == prev && content[i] == x
      modifies this, content
      ensures Valid() && content == old(content)[..i] + old(content)[i + 1..] == Without(old(content), x)
    {
      RemovedIndex(content, i);
      if last == x {
        last := prev;
      }
      prev.next := x.next;
      content := content[..i] + content[i + 1..];
    }

    /** The scan of co_list_insert: where an element with the given body goes, and its neighbours. */
    method Search(body: nat, cmp: (nat, nat) -> bool) returns (prev: Hdr?, scan: Hdr?, ghost i: nat)
      requires Valid()
      ensures i == Place(cmp, Bodies(content), body) <= |content|
      ensures scan == (if i < |content| then content[i] else null)
      ensures prev == (if i > 0 then content[i - 1] else null)
    {
      ghost var bodies := Bodies(content);
      prev, scan, i := null, first, 0;
      while true
        invariant 0 <= i <= |content|
        invariant scan == (if i < |content| then content[i] else null)
        invariant prev == (if i > 0 then content[i - 1] else null)
        invariant forall j :: 0 <= j < i ==> !cmp(body, bodies[j])
        decreases |content| - i
      {
        if scan != null {
          assert bodies[i] == scan.body;
          if cmp(body, scan.body) {
            break;
          }
          prev := scan;
          scan := scan.next;
          i := i + 1;
        } else {
          break;
        }
      }
    }

    /** co_list_insert: by a comparison of what the elements hold. A sorted list stays sorted. */
    method Insert(x: Hdr, cmp: (nat, nat) -> bool)
      requires Valid() && x !in content
      modifies this, x`next, content`next
      ensures Valid()
      ensures content == InsertedAt(old(content), Place(cmp, old(Bodies(content)), x.body), x)
      ensures Bodies(content) == InsertedAt(old(Bodies(content)), Place(cmp, old(Bodies(content)), x.body), x.body)
      ensures Sorted(cmp, old(Bodies(content))) && StrictWeakOrder(cmp, old(Bodies(content)) + [x.body]) ==>
                Sorted(cmp, Bodies(content))
    {
      ghost var bodies := Bodies(content);
      var prev, scan, i := Search(x.body, cmp);
      InsertAt(x, prev, scan, i);
      InsertKeepsSorted(cmp, bodies, x.body);
    }

    /** The linking of co_list_insert. */
    method InsertAt(x: Hdr, prev: Hdr?, scan: Hdr?, ghost i: nat)
      requires Valid() && x !in content && i <= |content|
      requires scan == (if i < |content| then content[i] else null)
      requires prev == (if i > 0 then content[i - 1] else null)
      modifies this, x`next, content`next
      ensures Valid() && content == InsertedAt(old(content), i, x)
      ensures Bodies(content) == InsertedAt(old(Bodies(content)), i, x.body)
    {
      if scan == null {
        last := x;
      }
      if prev != null {
        Splice(prev, x, scan, i);
      } else {
        x.next := scan;
        first := x;
        content := [x] + content;
      }
    }

    /** Links `x` in behind `prev`, in front of `next`; `last` is the caller's business. */
    method Splice(prev: Hdr, x: Hdr, next: Hdr?, ghost i: nat)
      requires Chained() && x !in content && 0 < i <= |content| && prev == content[i - 1] && next == prev.next
      modifies this`content, x`next, prev`next
      ensures Chained() && content == InsertedAt(old(content), i, x)
    {
      ghost var xs := content;
      InsertedIndex(xs, i, x);
      x.next := next;
      prev.next := x;
      content := InsertedAt(xs, i, x);
      forall j | 0 <= j < |content| - 1
        ensures content[j].next == content[j + 1]
      {
        assert j + 1 < i ==> xs[j].next == xs[j + 1];
        assert i < j ==> xs[j - 1].next == xs[j];
      }
    }

    /** co_list_insert_after_fast: behind an element of another chain, the list does not change. */
    method InsertAfterFast(prev: Hdr?, x: Hdr)
      requires Valid() && x !in content
      modifies this, x, content, if prev == null then {} else {prev}
      ensures Valid()
      ensures prev == null ==> content == [x] + old(content)
      ensures prev != null && prev in old(content) ==>
                content == InsertedAt(old(content), IndexOf(old(content), prev) + 1, x)
      ensures prev != null && prev !in old(content) ==>
                content == old(content) && prev.next == x && (prev != x ==> x.next == old(prev.next))
    {
      if prev == null {
        PushFront(x);
      } else {
        InsertBehind(prev, x);
      }
    }

    /** co_list_insert_after_fast behind an element. */
    method InsertBehind(prev: Hdr, x: Hdr)
      requires Valid() && x !in content
      modifies this, x, prev
      ensures Valid()
      ensures prev in old(content) ==> content == InsertedAt(old(content), IndexOf(old(content), prev) + 1, x)
      ensures prev !in old(content) ==>
                content == old(content) && prev.next == x && (prev != x ==> x.next == old(prev.next))
    {
      ghost var xs, i := content, IndexOf(content, prev) + 1;
      x.next := prev.next;
      prev.next := x;
      if last == prev {
        last := x;
      }
      if prev in xs {
        InsertedIndex(xs, i, x);
        content := InsertedAt(xs, i, x);
        forall j | 0 <= j < |content| - 1
          ensures content[j].next == content[j + 1]
        {
          assert j + 1 < i ==> xs[j].next == xs[j + 1];
          assert i < j ==> xs[j - 1].next == xs[j];
        }
      }
    }

    /** co_list_insert_after: nothing happens when `prev` is not in the list. */
    method InsertAfter(prev: Hdr?, x: Hdr)
      requires Valid() && x !in content
      modifies this, x, content
      ensures Valid()
      ensures content == if prev == null then [x] + old(content)
                         else if prev in old(content) then InsertedAt(old(content), IndexOf(old(content), prev) + 1, x)
                         else old(content)
    {
      if prev == null {
        PushFront(x);
      } else {
        var scan := first;
        ghost var i := 0;
        while scan != null
          invariant 0 <= i <= |content| && scan == (if i < |content| then content[i] else null)
          invariant prev !in content[..i]
          decreases |content| - i
        {
          if scan == prev {
            break;
          }
          scan := scan.next;
          i := i + 1;
        }
        if scan != null {
          InsertAfterFast(prev, x);
        }
      }
    }

    /** co_list_insert_before: nothing happens when `next` is not in the list. */
    method InsertBefore(next: Hdr?, x: Hdr)
      requires Valid() && x !in content
      modifies this, x, content
      ensures Valid()
      ensures content == if next == null then old(content) + [x]
                         else if next in old(content) then InsertedAt(old(content), IndexOf(old(content), next), x)
                         else old(content)
    {
      if next == null {
        PushBack(x);
      } else if next == first {
        PushFront(x);
      } else {
        var scan := first;
        ghost var i := 0;
        while scan != null
          invariant 0 <= i <= |content| && scan == (if i < |content| then content[i] else null)
          invariant i < |content| ==> next !in content[..i + 1]
          invariant i == |content| ==> next !in content
          decreases |content| - i
        {
          if scan.next == next {
            break;
          }
          scan := scan.next;
          i := i + 1;
        }
        if scan != null {
          assert content[i + 1] == next;
          IndexOfUnique(content, i + 1);
          Splice(scan, x, next, i + 1);
        }
      }
    }

    /** co_list_concat: `last` of the emptied list is left as it was. */
    method Concat(other: List)
      requires other != this && Valid() && other.Valid()
      requires Disjoint(content, other.content)
      modifies this, other, content
      ensures Valid() && content == old(content) + old(other.content)
      ensures other.Valid() && other.content == [] && other.last == old(other.last)
    {
      DistinctConcat(content, other.content);
      if other.first != null {
        if first == null {
          first := other.first;
          last := other.last;
        } else {
          last.next := other.first;
          last := other.last;
        }
        other.first := null;
        content := content + other.content;
        other.content := [];
      }
    }

    /** co_list_remove: takes `x` out from behind `prev`. With no `prev` everything up to `x` goes with it,
        and behind an element of another chain the list does not change. */
    method Remove(prev: Hdr?, x: Hdr)
      requires Valid()
      requires if prev == null then x in content else prev.next == x && (x in content ==> prev in content)
      modifies this, x, if prev == null then {} else {prev}
      ensures Valid() && x.next == null
      ensures prev == null ==> content == old(content)[IndexOf(old(content), x) + 1..]
      ensures prev != null ==> content == Without(old(content), x)
    {
      if prev == null {
        RemoveFront(x);
      } else {
        RemoveBehind(prev, x);
      }
    }

    /** Without a `prev` the removal is right exactly when `x` is first. */
    lemma RemoveFrontIff(x: Hdr)
      requires Distinct(content) && x in content
      ensures content[IndexOf(content, x) + 1..] == Without(content, x) <==> content[0] == x
    {
      var i := IndexOf(content, x);
      if i == 0 {
        WithoutFirst(content);
      } else {
        assert |Without(content, x)| == |content| - 1;
      }
    }

    /** The part of the list behind element `i` is itself a chain. */
    lemma SuffixChained(i: nat)
      requires Valid() && i < |content|
      ensures var ys := content[i + 1..];
              && Distinct(ys) && content[i] !in ys
              && content[i].next == (if ys == [] then null else ys[0])
              && (forall j {:trigger ys[j]} :: 0 <= j < |ys| - 1 ==> ys[j].next == ys[j + 1])
              && (ys != [] ==> ys[|ys| - 1].next == null && last == ys[|ys| - 1] != content[i])
              && (ys == [] ==> last == content[i])
    {
      SuffixIndex(content, i);
      assert i + 1 < |content| ==> content[i].next == content[i + 1];
    }

    method RemoveFront(x: Hdr)
      requires Valid() && x in content
      modifies this, x
      ensures Valid() && x.next == null && content == old(content)[IndexOf(old(content), x) + 1..]
    {
      ghost var i := IndexOf(content, x);
      SuffixChained(i);
      CutBefore(x, content[i + 1..]);
    }

    /** The list becomes the chain behind `x`. */
    method CutBefore(x: Hdr, ghost rest: seq<Hdr>)
      requires Distinct(rest) && x !in rest && x.next == (if rest == [] then null else rest[0])
      requires forall j {:trigger rest[j]} :: 0 <= j < |rest| - 1 ==> rest[j].next == rest[j + 1]
      requires if rest == [] then last == x else rest[|rest| - 1].next == null && last == rest[|rest| - 1]
      modifies this, x
      ensures Valid() && x.next == null && content == rest
    {
      first := x.next;
      if last == x {
        last := null;
      }
      x.next := null;
      content := rest;
    }

    method RemoveBehind(prev: Hdr, x: Hdr)
      requires Valid() && prev.next == x && (x in content ==> prev in content)
      modifies this, x, prev
      ensures Valid() && x.next == null && content == Without(old(content), x)
    {
      ghost var xs, i := content, IndexOf(content, prev) + 1;
      if x in xs {
        assert i < |xs| && xs[i] == x;
        RemovedIndex(xs, i);
      }
      prev.next := x.next;
      if last == x {
        last := prev;
      }
      x.next := null;
      if x in xs {
        content := xs[..i] + xs[i + 1..];
      }
    }

    /** co_list_pool_init, for a pool given by its elements in address order. */
    method PoolInit(pool: seq<Hdr>, default: Option<nat>)
      requires Distinct(pool)
      modifies this, pool
      ensures Valid() && content == pool
      ensures forall i :: 0 <= i < |pool| ==> pool[i].body == if default.Some? then default.value else old(pool[i].body)
    {
      Init();
      for i := 0 to |pool|
        invariant Valid() && content == pool[..i]
        invariant forall j :: 0 <= j < |pool| ==>
                    pool[j].body == if j < i && default.Some? then default.value else old(pool[j].body)
      {
        if default.Some? {
          pool[i].body := default.value;
        }
        PushBack(pool[i]);
      }
    }
  }
}
