/** Stable sorting, as Python's sort does it, and what stability buys. */
module Ordering {

  /** A total preorder: the key comparison a sort uses. Ties are allowed. */
  ghost predicate TotalPreorder<T(!new)>(le: (T, T) -> bool) {
    && (forall a, b :: le(a, b) || le(b, a))
    && (forall a, b, c :: le(a, b) && le(b, c) ==> le(a, c))
  }

  /** Put x before the first element it may precede; so x stays in front of its ties. */
  function Insert<T>(x: T, xs: seq<T>, le: (T, T) -> bool): (r: seq<T>)
    ensures multiset(r) == multiset{x} + multiset(xs)
    ensures |r| == |xs| + 1
  {
    if xs == [] then [x]
    else if le(x, xs[0]) then assert [x] + xs == [x] + ([xs[0]] + xs[1..]); [x] + xs
    else
      assert xs == [xs[0]] + xs[1..];
      [xs[0]] + Insert(x, xs[1..], le)
  }

  function StableSort<T>(xs: seq<T>, le: (T, T) -> bool): (r: seq<T>)
    ensures multiset(r) == multiset(xs)
    ensures |r| == |xs|
  {
    if xs == [] then []
    else
      assert xs == [xs[0]] + xs[1..];
      Insert(xs[0], StableSort(xs[1..], le), le)
  }

  ghost predicate Sorted<T>(xs: seq<T>, le: (T, T) -> bool) {
    forall i, j | 0 <= i < j < |xs| :: le(xs[i], xs[j])
  }

  lemma {:induction false} InsertSorted<T(!new)>(x: T, xs: seq<T>, le: (T, T) -> bool)
    requires TotalPreorder(le) && Sorted(xs, le)
    ensures Sorted(Insert(x, xs, le), le)
  {
    if xs != [] && !le(x, xs[0]) {
      InsertSorted(x, xs[1..], le);
      var tail := Insert(x, xs[1..], le);
      forall j | 0 <= j < |tail|
        ensures le(xs[0], tail[j])
      {
        assert tail[j] in multiset(tail);
        if tail[j] != x {
          assert tail[j] in multiset(xs[1..]);
        }
      }
    }
  }

  lemma {:induction false} SortSorted<T(!new)>(xs: seq<T>, le: (T, T) -> bool)
    requires TotalPreorder(le)
    ensures Sorted(StableSort(xs, le), le)
  {
    if xs != [] {
      SortSorted(xs[1..], le);
      InsertSorted(xs[0], StableSort(xs[1..], le), le);
    }
  }

  lemma LeastFirst<T(!new)>(xs: seq<T>, x: T, le: (T, T) -> bool)
    requires TotalPreorder(le) && Sorted(xs, le) && x in xs
    ensures le(xs[0], x)
  {
    var i :| 0 <= i < |xs| && xs[i] == x;
  }

  lemma SameTail<T>(a: seq<T>, b: seq<T>)
    requires a != [] && b != [] && a[0] == b[0] && multiset(a) == multiset(b)
    ensures multiset(a[1..]) == multiset(b[1..])
  {
    assert a == [a[0]] + a[1..] && b == [b[0]] + b[1..];
    assert multiset(a[1..]) == multiset(a) - multiset{a[0]};
    assert multiset(b[1..]) == multiset(b) - multiset{b[0]};
  }

  /** Sorted sequences over an antisymmetric order are determined by their elements. */
  lemma {:induction false} SortedUnique<T(!new)>(a: seq<T>, b: seq<T>, le: (T, T) -> bool)
    requires TotalPreorder(le)
    requires forall x, y :: le(x, y) && le(y, x) ==> x == y
    requires Sorted(a, le) && Sorted(b, le)
    requires multiset(a) == multiset(b)
    ensures a == b
  {
    hide TotalPreorder, Sorted;
    assert |multiset(a)| == |a| && |multiset(b)| == |b|;
    if a != [] {
      assert a[0] in multiset(b) && b[0] in multiset(a);
      LeastFirst(a, b[0], le);
      LeastFirst(b, a[0], le);
      SameTail(a, b);
      SortedTail(a, le);
      SortedTail(b, le);
      SortedUnique(a[1..], b[1..], le);
      assert a == [a[0]] + a[1..] && b == [b[0]] + b[1..];
    }
  }

  lemma SortedTail<T>(xs: seq<T>, le: (T, T) -> bool)
    requires Sorted(xs, le) && xs != []
    ensures Sorted(xs[1..], le)
  {
  }

  // ---------------------------------------------------------------- sorting whole blocks

  /** The blocks of the given keys, one after another. */
  function Flatten<K, R>(keys: seq<K>, block: K -> seq<R>): seq<R> {
    if keys == [] then [] else block(keys[0]) + Flatten(keys[1..], block)
  }

  lemma {:induction false} FlattenConcat<K, R>(a: seq<K>, b: seq<K>, block: K -> seq<R>)
    ensures Flatten(a + b, block) == Flatten(a, block) + Flatten(b, block)
  {
    if a == [] {
      assert a + b == b;
    } else {
      assert (a + b)[0] == a[0] && (a + b)[1..] == a[1..] + b;
      FlattenConcat(a[1..], b, block);
    }
  }

  lemma FlattenOne<K, R>(k: K, block: K -> seq<R>)
    ensures Flatten([k], block) == block(k)
  {
  }

  function InsertAll<R>(front: seq<R>, xs: seq<R>, le: (R, R) -> bool): seq<R> {
    if front == [] then xs else Insert(front[0], InsertAll(front[1..], xs, le), le)
  }

  lemma {:induction false} SortOfConcat<R>(a: seq<R>, b: seq<R>, le: (R, R) -> bool)
    ensures StableSort(a + b, le) == InsertAll(a, StableSort(b, le), le)
  {
    if a == [] {
      assert a + b == b;
    } else {
      assert (a + b)[0] == a[0] && (a + b)[1..] == a[1..] + b;
      SortOfConcat(a[1..], b, le);
    }
  }

  /** The front elements may precede one another and all the others. */
  ghost predicate AllBefore<R(!new)>(front: seq<R>, xs: seq<R>, le: (R, R) -> bool) {
    forall x, y | x in front && (y in front || y in xs) :: le(x, y)
  }

  lemma {:induction false} InsertAllBefore<R(!new)>(front: seq<R>, xs: seq<R>, le: (R, R) -> bool)
    requires AllBefore(front, xs, le)
    ensures InsertAll(front, xs, le) == front + xs
  {
    hide AllBefore, Insert;
    if front == [] {
      assert front + xs == xs;
    } else {
      HeadBefore(front, xs, le);
      InsertAllBefore(front[1..], xs, le);
      assert front + xs == [front[0]] + (front[1..] + xs);
    }
  }

  lemma HeadBefore<R(!new)>(front: seq<R>, xs: seq<R>, le: (R, R) -> bool)
    requires AllBefore(front, xs, le) && front != []
    ensures AllBefore(front[1..], xs, le)
    ensures Insert(front[0], front[1..] + xs, le) == [front[0]] + (front[1..] + xs)
  {
    var rest := front[1..] + xs;
    if rest != [] {
      assert front[0] in front && (rest[0] in front || rest[0] in xs);
    }
  }

  lemma InsertPast<R>(x: R, head: R, xs: seq<R>, le: (R, R) -> bool)
    requires !le(x, head)
    ensures Insert(x, [head] + xs, le) == [head] + Insert(x, xs, le)
  {
    assert ([head] + xs)[1..] == xs;
  }

  lemma {:induction false} InsertAfter<R(!new)>(x: R, head: seq<R>, xs: seq<R>, le: (R, R) -> bool)
    requires forall y | y in head :: !le(x, y)
    ensures Insert(x, head + xs, le) == head + Insert(x, xs, le)
  {
    hide Insert;
    if head == [] {
      assert head + xs == xs && head + Insert(x, xs, le) == Insert(x, xs, le);
    } else {
      var h, rest := head[0], head[1..];
      HeadFirst(head, xs);
      HeadFirst(head, Insert(x, xs, le));
      InsertAfter(x, rest, xs, le);
      InsertPast(x, h, rest + xs, le);
    }
  }

  lemma HeadFirst<T(!new)>(a: seq<T>, b: seq<T>)
    requires a != []
    ensures a + b == [a[0]] + (a[1..] + b)
    ensures a[0] in a && forall y | y in a[1..] :: y in a
  {
  }

  lemma {:induction false} InsertAllAfter<R(!new)>(front: seq<R>, head: seq<R>, xs: seq<R>, le: (R, R) -> bool)
    requires forall x, y | x in front && y in head :: !le(x, y)
    ensures InsertAll(front, head + xs, le) == head + InsertAll(front, xs, le)
  {
    if front != [] {
      assert forall x | x in front[1..] :: x in front;
      InsertAllAfter(front[1..], head, xs, le);
      InsertAfter(front[0], head, InsertAll(front[1..], xs, le), le);
    }
  }

  /** The elements of different blocks compare as their keys do. */
  ghost predicate Agrees<K(!new), R(!new)>(keys: seq<K>, block: K -> seq<R>, leK: (K, K) -> bool, leR: (R, R) -> bool) {
    forall a, b, x, y | a in keys && b in keys && x in block(a) && y in block(b) :: leR(x, y) == leK(a, b)
  }

  lemma {:induction false} InFlatten<K, R>(keys: seq<K>, block: K -> seq<R>, x: R)
    ensures x in Flatten(keys, block) <==> exists k | k in keys :: x in block(k)
  {
    if keys != [] {
      InFlatten(keys[1..], block, x);
      assert keys == [keys[0]] + keys[1..];
    }
  }

  lemma FirstBlockBefore<K(!new), R(!new)>(k: K, keys: seq<K>, block: K -> seq<R>,
                                           leK: (K, K) -> bool, leR: (R, R) -> bool)
    requires TotalPreorder(leK) && Sorted(keys, leK) && Agrees([k] + keys, block, leK, leR)
    requires keys == [] || leK(k, keys[0])
    ensures AllBefore(block(k), Flatten(keys, block), leR)
  {
    hide Flatten;
    var all := [k] + keys;
    assert k in all && forall a | a in keys :: a in all;
    forall x, y | x in block(k) && (y in block(k) || y in Flatten(keys, block))
      ensures leR(x, y)
    {
      if y !in block(k) {
        InFlatten(keys, block, y);
        var a :| a in keys && y in block(a);
        LeastFirst(keys, a, leK);
      }
    }
  }

  lemma NotBefore<K(!new), R(!new)>(k: K, keys: seq<K>, block: K -> seq<R>, leK: (K, K) -> bool, leR: (R, R) -> bool)
    requires keys != [] && !leK(k, keys[0]) && Agrees([k] + keys, block, leK, leR)
    ensures forall x, y | x in block(k) && y in block(keys[0]) :: !leR(x, y)
  {
    assert k in [k] + keys && keys[0] in [k] + keys;
  }

  lemma {:induction false} InsertBlock<K(!new), R(!new)>(k: K, keys: seq<K>, block: K -> seq<R>,
                                                        leK: (K, K) -> bool, leR: (R, R) -> bool)
    requires TotalPreorder(leK) && Sorted(keys, leK) && Agrees([k] + keys, block, leK, leR)
    ensures InsertAll(block(k), Flatten(keys, block), leR) == Flatten(Insert(k, keys, leK), block)
  {
    hide TotalPreorder, Sorted, Agrees, InsertAll, AllBefore;
    if keys == [] || leK(k, keys[0]) {
      FirstBlockBefore(k, keys, block, leK, leR);
      InsertAllBefore(block(k), Flatten(keys, block), leR);
      assert Insert(k, keys, leK) == [k] + keys && ([k] + keys)[1..] == keys;
    } else {
      var rest := keys[1..];
      NotBefore(k, keys, block, leK, leR);
      InsertAllAfter(block(k), block(keys[0]), Flatten(rest, block), leR);
      assert forall a | a in [k] + rest :: a in [k] + keys;
      AgreesWithin([k] + keys, [k] + rest, block, leK, leR);
      SortedTail(keys, leK);
      InsertBlock(k, rest, block, leK, leR);
      assert ([keys[0]] + Insert(k, rest, leK))[1..] == Insert(k, rest, leK);
    }
  }

  /** Sorting the keys and concatenating their blocks sorts all elements, stably. */
  lemma {:induction false} SortOfBlocks<K(!new), R(!new)>(keys: seq<K>, block: K -> seq<R>,
                                                         leK: (K, K) -> bool, leR: (R, R) -> bool)
    requires TotalPreorder(leK) && Agrees(keys, block, leK, leR)
    ensures StableSort(Flatten(keys, block), leR) == Flatten(StableSort(keys, leK), block)
  {
    hide TotalPreorder, Sorted, Agrees, InsertAll, Insert;
    if keys != [] {
      var rest := keys[1..];
      var sorted := StableSort(rest, leK);
      SortedWithin(keys, leK);
      AgreesWithin(keys, rest, block, leK, leR);
      SortOfBlocks(rest, block, leK, leR);
      SortOfConcat(block(keys[0]), Flatten(rest, block), leR);
      SortSorted(rest, leK);
      AgreesWithin(keys, [keys[0]] + sorted, block, leK, leR);
      InsertBlock(keys[0], sorted, block, leK, leR);
    }
  }

  lemma AgreesWithin<K(!new), R(!new)>(keys: seq<K>, fewer: seq<K>, block: K -> seq<R>,
                                       leK: (K, K) -> bool, leR: (R, R) -> bool)
    requires Agrees(keys, block, leK, leR) && forall k | k in fewer :: k in keys
    ensures Agrees(fewer, block, leK, leR)
  {
  }

  lemma SortedWithin<K>(keys: seq<K>, le: (K, K) -> bool)
    requires keys != []
    ensures forall k | k in keys[1..] :: k in keys
    ensures forall k | k in [keys[0]] + StableSort(keys[1..], le) :: k in keys
  {
    forall k | k in StableSort(keys[1..], le)
      ensures k in keys
    {
      assert k in multiset(StableSort(keys[1..], le));
      assert k in multiset(keys[1..]);
    }
  }

  // ---------------------------------------------------------------- sequences without repeats

  ghost predicate Distinct<T>(xs: seq<T>) {
    forall i, j | 0 <= i < j < |xs| :: xs[i] != xs[j]
  }

  lemma {:induction false} DistinctCounts<T>(xs: seq<T>)
    ensures Distinct(xs) <==> forall x | x in xs :: multiset(xs)[x] == 1
  {
    if xs != [] {
      var front, last := xs[..|xs| - 1], xs[|xs| - 1];
      DistinctCounts(front);
      assert xs == front + [last];
      assert forall x | x in front :: multiset(front)[x] >= 1;
      if Distinct(xs) {
        assert Distinct(front);
        assert last !in multiset(front);
      } else if last !in front {
        var i, j :| 0 <= i < j < |xs| && xs[i] == xs[j];
        assert j == |xs| - 1 || !Distinct(front);
        assert front[i] == xs[i];
        var x :| x in front && multiset(front)[x] != 1;
        assert multiset(xs)[x] != 1;
      } else {
        assert multiset(xs)[last] >= 2;
      }
    }
  }

  lemma DistinctPermuted<T>(a: seq<T>, b: seq<T>)
    requires Distinct(a) && multiset(a) == multiset(b)
    ensures Distinct(b)
  {
    DistinctCounts(a);
    DistinctCounts(b);
    forall x | x in b
      ensures multiset(b)[x] == 1
    {
      assert x in multiset(b);
    }
  }

  /** Each element once, where it first occurs. */
  function Firsts<T(==, !new)>(xs: seq<T>): (r: seq<T>)
    ensures forall x :: x in r <==> x in xs
    ensures forall i, j | 0 <= i < j < |r| :: r[i] != r[j]
  {
    if xs == [] then []
    else
      var front, last := Firsts(xs[..|xs| - 1]), xs[|xs| - 1];
      assert xs == xs[..|xs| - 1] + [last];
      if last in front then front else front + [last]
  }

  lemma FirstsSnoc<T(!new)>(xs: seq<T>, i: nat)
    requires i < |xs|
    ensures var front := Firsts(xs[..i]);
      Firsts(xs[..i + 1]) == if xs[i] in front then front else front + [xs[i]]
  {
    assert xs[..i + 1][..i] == xs[..i];
  }
}
