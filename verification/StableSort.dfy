/** A stable sort by an arbitrary comparison, standing for the sort of the host language. */
module StableSort {

  ghost predicate TotalPreorder<T(!new)>(le: (T, T) -> bool) {
    && (forall x, y :: le(x, y) || le(y, x))
    && (forall x, y, z :: le(x, y) && le(y, z) ==> le(x, z))
  }

  ghost predicate Sorted<T>(s: seq<T>, le: (T, T) -> bool) {
    forall i, j :: 0 <= i < j < |s| ==> le(s[i], s[j])
  }

  function Insert<T>(x: T, s: seq<T>, le: (T, T) -> bool): seq<T> {
    if s == [] || le(x, s[0]) then [x] + s else [s[0]] + Insert(x, s[1..], le)
  }

  function Sort<T>(s: seq<T>, le: (T, T) -> bool): (r: seq<T>)
    ensures |r| == |s|
    ensures multiset(r) == multiset(s)
  {
    if s == [] then []
    else
      InsertPermutes(s[0], Sort(s[1..], le), le);
      assert s == [s[0]] + s[1..];
      Insert(s[0], Sort(s[1..], le), le)
  }

  lemma {:induction false} InsertPermutes<T>(x: T, s: seq<T>, le: (T, T) -> bool)
    ensures |Insert(x, s, le)| == |s| + 1
    ensures multiset(Insert(x, s, le)) == multiset(s) + multiset{x}
  {
    if s != [] && !le(x, s[0]) {
      InsertPermutes(x, s[1..], le);
      assert s == [s[0]] + s[1..];
    }
  }

  lemma {:induction false} InsertSorts<T(!new)>(x: T, s: seq<T>, le: (T, T) -> bool)
    requires TotalPreorder(le) && Sorted(s, le)
    ensures Sorted(Insert(x, s, le), le)
  {
    if s != [] && !le(x, s[0]) {
      var rest := Insert(x, s[1..], le);
      InsertSorts(x, s[1..], le);
      InsertPermutes(x, s[1..], le);
      forall k | 0 <= k < |rest| ensures le(s[0], rest[k]) {
        assert rest[k] in multiset(rest);
        assert rest[k] == x || rest[k] in s[1..];
      }
    }
  }

  /** The result is in order. */
  lemma {:induction false} SortSorts<T(!new)>(s: seq<T>, le: (T, T) -> bool)
    requires TotalPreorder(le)
    ensures Sorted(Sort(s, le), le)
  {
    if s != [] {
      SortSorts(s[1..], le);
      InsertSorts(s[0], Sort(s[1..], le), le);
    }
  }

  /** The elements satisfying p, in order. */
  function Filter<T>(s: seq<T>, p: T -> bool): seq<T> {
    if s == [] then []
    else if p(s[0]) then [s[0]] + Filter(s[1..], p)
    else Filter(s[1..], p)
  }

  lemma {:induction false} InsertStable<T>(x: T, s: seq<T>, le: (T, T) -> bool, p: T -> bool)
    requires forall y :: y in s && p(x) && p(y) ==> le(x, y)
    ensures Filter(Insert(x, s, le), p) == if p(x) then [x] + Filter(s, p) else Filter(s, p)
  {
    var r := Insert(x, s, le);
    if s == [] || le(x, s[0]) {
      assert r[1..] == s;
    } else {
      InsertStable(x, s[1..], le, p);
      assert r[1..] == Insert(x, s[1..], le);
    }
  }

  /** Stability: elements that compare as equal among themselves keep their relative order. */
  lemma {:induction false} SortStable<T>(s: seq<T>, le: (T, T) -> bool, p: T -> bool)
    requires forall x, y :: x in s && y in s && p(x) && p(y) ==> le(x, y)
    ensures Filter(Sort(s, le), p) == Filter(s, p)
  {
    if s != [] {
      SortStable(s[1..], le, p);
      forall y | y in Sort(s[1..], le) && p(s[0]) && p(y) ensures le(s[0], y) {
        assert y in multiset(s[1..]);
      }
      InsertStable(s[0], Sort(s[1..], le), le, p);
    }
  }

  lemma {:induction false} FilterMembers<T>(s: seq<T>, p: T -> bool, x: T)
    ensures x in Filter(s, p) <==> x in s && p(x)
  {
    if s != [] {
      FilterMembers(s[1..], p, x);
      assert s == [s[0]] + s[1..];
    }
  }

  lemma {:induction false} FilterConcat<T>(a: seq<T>, b: seq<T>, p: T -> bool)
    ensures Filter(a + b, p) == Filter(a, p) + Filter(b, p)
  {
    if a == [] {
      assert a + b == b;
    } else {
      FilterConcat(a[1..], b, p);
      assert (a + b)[1..] == a[1..] + b;
    }
  }

  // ---- Sorting some of the elements within the slots they occupy ----

  /** s with its p-slots refilled, left to right, from the elements of fill. */
  function Refill<T>(s: seq<T>, fill: seq<T>, p: T -> bool): (r: seq<T>)
    requires |fill| == |Filter(s, p)|
    ensures |r| == |s|
  {
    if s == [] then []
    else if p(s[0]) then [fill[0]] + Refill(s[1..], fill[1..], p)
    else [s[0]] + Refill(s[1..], fill, p)
  }

  function SortedInSlots<T>(s: seq<T>, p: T -> bool, le: (T, T) -> bool): (r: seq<T>)
    ensures |r| == |s|
  {
    Refill(s, Sort(Filter(s, p), le), p)
  }

  lemma {:induction false} RefillWithOwn<T>(s: seq<T>, p: T -> bool)
    ensures Refill(s, Filter(s, p), p) == s
  {
    if s != [] {
      RefillWithOwn(s[1..], p);
    }
  }

  lemma {:induction false} SlotsOfRefill<T>(s: seq<T>, fill: seq<T>, p: T -> bool)
    requires |fill| == |Filter(s, p)| && forall x :: x in fill ==> p(x)
    ensures Filter(Refill(s, fill, p), p) == fill
  {
    if s != [] {
      var rest := if p(s[0]) then fill[1..] else fill;
      SlotsOfRefill(s[1..], rest, p);
      assert Refill(s, fill, p)[1..] == Refill(s[1..], rest, p);
    }
  }

  lemma {:induction false} RefillPermutes<T>(s: seq<T>, fill: seq<T>, p: T -> bool)
    requires |fill| == |Filter(s, p)|
    ensures multiset(Refill(s, fill, p)) + multiset(Filter(s, p)) == multiset(s) + multiset(fill)
  {
    if s != [] {
      assert s == [s[0]] + s[1..];
      var head, none := multiset{s[0]}, multiset{};
      if p(s[0]) {
        assert fill == [fill[0]] + fill[1..];
        RefillPermutes(s[1..], fill[1..], p);
        var r, f := Refill(s[1..], fill[1..], p), Filter(s[1..], p);
        var filled := multiset{fill[0]};
        MultisetAdd(filled, head, head, filled, multiset(r), multiset(f), multiset(s[1..]), multiset(fill[1..]));
      } else {
        RefillPermutes(s[1..], fill, p);
        var r, f := Refill(s[1..], fill, p), Filter(s[1..], p);
        MultisetAdd(head, none, head, none, multiset(r), multiset(f), multiset(s[1..]), multiset(fill));
        assert none + multiset(f) == multiset(f) && none + multiset(fill) == multiset(fill);
      }
    }
  }

  lemma MultisetAdd<T>(u: multiset<T>, v: multiset<T>, w: multiset<T>, z: multiset<T>,
                       a: multiset<T>, b: multiset<T>, c: multiset<T>, d: multiset<T>)
    requires u + v == w + z && a + b == c + d
    ensures (u + a) + (v + b) == (w + c) + (z + d)
  {
    forall y ensures ((u + a) + (v + b))[y] == ((w + c) + (z + d))[y] {
      assert (u + v)[y] == (w + z)[y] && (a + b)[y] == (c + d)[y];
    }
  }

  /** Position by position: the k-th slot receives fill[k]. */
  lemma {:induction false} RefillAt<T>(s: seq<T>, fill: seq<T>, p: T -> bool, i: nat)
    requires i < |s| && |fill| == |Filter(s, p)|
    ensures p(s[i]) ==> |Filter(s[..i], p)| < |fill| && Refill(s, fill, p)[i] == fill[|Filter(s[..i], p)|]
    ensures !p(s[i]) ==> Refill(s, fill, p)[i] == s[i]
  {
    if i > 0 {
      RefillAt(s[1..], if p(s[0]) then fill[1..] else fill, p, i - 1);
      assert s[..i][1..] == s[1..][..i - 1];
    }
  }

  lemma SortMember<T>(s: seq<T>, le: (T, T) -> bool, x: T)
    ensures x in Sort(s, le) <==> x in s
  {
    assert x in multiset(Sort(s, le)) <==> x in multiset(s);
  }

  lemma SortOfFilterMembers<T>(s: seq<T>, p: T -> bool, le: (T, T) -> bool)
    ensures forall x :: x in Sort(Filter(s, p), le) ==> x in s && p(x)
  {
    forall x | x in Sort(Filter(s, p), le) ensures x in s && p(x) {
      SortMember(Filter(s, p), le, x);
      FilterMembers(s, p, x);
    }
  }

  lemma MultisetCancel<T>(a: multiset<T>, b: multiset<T>, c: multiset<T>)
    requires a + c == b + c
    ensures a == b
  {
    forall x ensures a[x] == b[x] {
      assert (a + c)[x] == (b + c)[x];
    }
  }

  /** The result is a permutation of s, keeps the elements outside the slots, and sorts the slots. */
  lemma SortedInSlotsShape<T(!new)>(s: seq<T>, p: T -> bool, le: (T, T) -> bool)
    requires TotalPreorder(le)
    ensures multiset(SortedInSlots(s, p, le)) == multiset(s)
    ensures forall i :: 0 <= i < |s| && !p(s[i]) ==> SortedInSlots(s, p, le)[i] == s[i]
    ensures forall i :: 0 <= i < |s| && p(s[i]) ==> p(SortedInSlots(s, p, le)[i])
    ensures Sorted(Filter(SortedInSlots(s, p, le), p), le)
  {
    var fill := Sort(Filter(s, p), le);
    SortOfFilterMembers(s, p, le);
    RefillPermutes(s, fill, p);
    MultisetCancel(multiset(SortedInSlots(s, p, le)), multiset(s), multiset(fill));
    SlotsOfRefill(s, fill, p);
    SortSorts(Filter(s, p), le);
    forall i | 0 <= i < |s|
      ensures if p(s[i]) then p(SortedInSlots(s, p, le)[i]) else SortedInSlots(s, p, le)[i] == s[i]
    {
      RefillAt(s, fill, p, i);
    }
  }

  /** The element of a slot is at its number among the slots. */
  lemma SlotAt<T>(s: seq<T>, p: T -> bool, i: nat)
    requires i < |s| && p(s[i])
    ensures |Filter(s[..i], p)| < |Filter(s, p)| && Filter(s, p)[|Filter(s[..i], p)|] == s[i]
  {
    RefillWithOwn(s, p);
    RefillAt(s, Filter(s, p), p, i);
  }

  lemma SlotsCountUp<T>(s: seq<T>, p: T -> bool, i: nat, j: nat)
    requires i < j <= |s| && p(s[i])
    ensures |Filter(s[..i], p)| < |Filter(s[..j], p)|
  {
    assert s[..j] == s[..i] + s[i..j];
    FilterConcat(s[..i], s[i..j], p);
  }

  /** If the selected elements are sorted, then any two of them are, wherever they stand. */
  lemma SortedPositions<T>(s: seq<T>, p: T -> bool, le: (T, T) -> bool, i: nat, j: nat)
    requires Sorted(Filter(s, p), le) && i < j < |s| && p(s[i]) && p(s[j])
    ensures le(s[i], s[j])
  {
    hide Filter;
    SlotAt(s, p, i);
    SlotAt(s, p, j);
    SlotsCountUp(s, p, i, j);
  }

  lemma FilterSortStable<T>(s: seq<T>, p: T -> bool, le: (T, T) -> bool, q: T -> bool)
    requires forall x, y :: x in s && y in s && q(x) && q(y) ==> le(x, y)
    ensures Filter(Sort(Filter(s, p), le), q) == Filter(Filter(s, p), q)
  {
    forall x | x in Filter(s, p) ensures x in s {
      FilterMembers(s, p, x);
    }
    SortStable(Filter(s, p), le, q);
  }

  /**
   * A class q of elements that lies inside the slots or outside them, and whose elements
   * compare as equal, keeps its order under the slot sort.
   */
  lemma SlotSortStable<T>(s: seq<T>, p: T -> bool, le: (T, T) -> bool, q: T -> bool)
    requires forall x, y :: x in s && y in s && q(x) && q(y) ==> p(x) == p(y) && le(x, y)
    ensures Filter(SortedInSlots(s, p, le), q) == Filter(s, q)
  {
    var own, fill := Filter(s, p), Sort(Filter(s, p), le);
    SortOfFilterMembers(s, p, le);
    FilterSortStable(s, p, le, q);
    if forall x :: x in s && q(x) ==> p(x) {
      FilterInside(s, fill, p, q);
      FilterInside(s, own, p, q);
      RefillWithOwn(s, p);
    } else {
      FilterOutside(s, fill, p, q);
    }
  }

  lemma {:induction false} FilterInside<T>(s: seq<T>, fill: seq<T>, p: T -> bool, q: T -> bool)
    requires |fill| == |Filter(s, p)| && forall x :: x in s && q(x) ==> p(x)
    ensures Filter(Refill(s, fill, p), q) == Filter(fill, q)
  {
    if s != [] {
      var rest := if p(s[0]) then fill[1..] else fill;
      FilterInside(s[1..], rest, p, q);
      assert Refill(s, fill, p)[1..] == Refill(s[1..], rest, p);
      assert s[0] in s;
    }
  }

  lemma {:induction false} FilterOutside<T>(s: seq<T>, fill: seq<T>, p: T -> bool, q: T -> bool)
    requires |fill| == |Filter(s, p)|
    requires forall x :: x in s && q(x) ==> !p(x)
    requires forall x :: x in fill ==> !q(x)
    ensures Filter(Refill(s, fill, p), q) == Filter(s, q)
  {
    if s != [] {
      var rest := if p(s[0]) then fill[1..] else fill;
      FilterOutside(s[1..], rest, p, q);
      assert Refill(s, fill, p)[1..] == Refill(s[1..], rest, p);
      assert s[0] in s;
    }
  }

  /** Index i holds the k-th element of s that satisfies p. */
  predicate IsSlot<T>(s: seq<T>, p: T -> bool, i: int, k: nat) {
    0 <= i < |s| && p(s[i]) && |Filter(s[..i], p)| == k
  }

  /** The indexes of all slots, in order. */
  predicate AreSlots<T>(s: seq<T>, p: T -> bool, indexes: seq<int>) {
    && (forall k :: 0 <= k < |indexes| ==> IsSlot(s, p, indexes[k], k))
    && (forall i :: 0 <= i < |s| && p(s[i]) ==> i in indexes)
  }

  method CollectSlots<T>(s: seq<T>, p: T -> bool) returns (indexes: seq<int>, picked: seq<T>)
    ensures AreSlots(s, p, indexes) && picked == Filter(s, p) && |indexes| == |picked|
  {
    indexes, picked := [], [];
    for index := 0 to |s|
      invariant picked == Filter(s[..index], p) && |indexes| == |picked|
      invariant forall k :: 0 <= k < |indexes| ==> indexes[k] < index && IsSlot(s, p, indexes[k], k)
      invariant forall i :: 0 <= i < index && p(s[i]) ==> i in indexes
    {
      assert s[..index + 1] == s[..index] + [s[index]];
      FilterConcat(s[..index], [s[index]], p);
      if p(s[index]) {
        indexes := indexes + [index];
        picked := picked + [s[index]];
      }
    }
    assert s[..|s|] == s;
  }

  /** Writes the k-th picked element to the k-th slot. */
  method WriteBack<T>(s: seq<T>, p: T -> bool, indexes: seq<int>, picked: seq<T>) returns (ordered: seq<T>)
    requires AreSlots(s, p, indexes) && |indexes| == |picked|
    ensures |ordered| == |s|
    ensures forall k :: 0 <= k < |indexes| ==> ordered[indexes[k]] == picked[k]
    ensures forall i :: 0 <= i < |s| && i !in indexes ==> ordered[i] == s[i]
  {
    ordered := s;
    for k := 0 to |indexes|
      invariant |ordered| == |s|
      invariant forall l :: 0 <= l < k ==> ordered[indexes[l]] == picked[l]
      invariant forall i :: 0 <= i < |s| && i !in indexes[..k] ==> ordered[i] == s[i]
    {
      assert forall l :: 0 <= l < k ==> IsSlot(s, p, indexes[l], l) && IsSlot(s, p, indexes[k], k);
      ordered := ordered[indexes[k] := picked[k]];
    }
    assert indexes[..|indexes|] == indexes;
  }

  lemma WrittenBack<T>(s: seq<T>, p: T -> bool, indexes: seq<int>, fill: seq<T>, ordered: seq<T>)
    requires AreSlots(s, p, indexes) && |indexes| == |fill| == |Filter(s, p)| && |ordered| == |s|
    requires forall k :: 0 <= k < |indexes| ==> 0 <= indexes[k] < |s| && ordered[indexes[k]] == fill[k]
    requires forall i :: 0 <= i < |s| && i !in indexes ==> ordered[i] == s[i]
    ensures ordered == Refill(s, fill, p)
  {
    forall i | 0 <= i < |s|
      ensures ordered[i] == Refill(s, fill, p)[i]
    {
      RefillAt(s, fill, p, i);
      if p(s[i]) {
        var k :| 0 <= k < |indexes| && indexes[k] == i;
        assert IsSlot(s, p, i, k);
      } else {
        assert forall k :: 0 <= k < |indexes| ==> IsSlot(s, p, indexes[k], k);
      }
    }
  }

  /** The whole of it: collect the slots, sort their elements, write them back. */
  method SortInSlots<T>(s: seq<T>, p: T -> bool, le: (T, T) -> bool) returns (ordered: seq<T>)
    ensures ordered == SortedInSlots(s, p, le)
  {
    var indexes, picked := CollectSlots(s, p);
    if |indexes| < 2 {
      SortOfAtMostOne(picked, le);
      RefillWithOwn(s, p);
      return s;
    }
    picked := Sort(picked, le);
    ordered := WriteBack(s, p, indexes, picked);
    WrittenBack(s, p, indexes, picked, ordered);
  }

  lemma SortOfAtMostOne<T>(s: seq<T>, le: (T, T) -> bool)
    requires |s| < 2
    ensures Sort(s, le) == s
  {
    if s != [] {
      assert s[1..] == [];
    }
  }
}
