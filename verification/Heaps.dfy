/** The binary heap behind RecHeap and headHeap.

    heap.go supplies Len, Less, Swap, Push, Pop and Top over a slice; the sifting is Go's
    container/heap.  Less is given here by a key: an entry with a smaller key is nearer the root.
 */
module Heaps {

  function Parent(i: nat): nat
    requires 0 < i
  {
    (i - 1) / 2
  }

  /** The entry at i may stand above the entry at j. */
  ghost predicate NotBelow<T>(data: seq<T>, key: T -> int, i: nat, j: nat) {
    i < |data| && j < |data| ==> key(data[i]) <= key(data[j])
  }

  ghost predicate Ordered<T>(data: seq<T>, key: T -> int) {
    forall j :: 0 < j < |data| ==> NotBelow(data, key, Parent(j), j)
  }

  /** The first n positions are ordered, except for the edges at the hole given by the flags; the
      parent of the hole is still in order with the children of the hole. */
  ghost predicate OrderedAround<T>(data: seq<T>, key: T -> int, n: nat, hole: nat, up: bool) {
    && (forall j :: 0 < j < n && (if up then j else Parent(j)) != hole ==> NotBelow(data, key, Parent(j), j))
    && (forall j :: 0 < hole && 0 < j < n && Parent(j) == hole ==> NotBelow(data, key, Parent(hole), j))
  }

  lemma {:induction false} RootIsLeast<T>(data: seq<T>, key: T -> int, i: nat)
    requires Ordered(data, key) && i < |data|
    ensures key(data[0]) <= key(data[i])
  {
    if i != 0 {
      assert NotBelow(data, key, Parent(i), i);
      RootIsLeast(data, key, Parent(i));
    }
  }

  function Swapped<T>(data: seq<T>, i: nat, j: nat): (r: seq<T>)
    requires i < |data| && j < |data|
    ensures |r| == |data|
    ensures multiset(r) == multiset(data)
  {
    data[i := data[j]][j := data[i]]
  }

  lemma SiftUp<T>(data: seq<T>, key: T -> int, j: nat)
    requires 0 < j < |data| && OrderedAround(data, key, |data|, j, true)
    requires key(data[j]) < key(data[Parent(j)])
    ensures OrderedAround(Swapped(data, Parent(j), j), key, |data|, Parent(j), true)
  {
  }

  /** The child of i that Go's down loop swaps with. */
  ghost predicate IsSmallerChild<T>(data: seq<T>, key: T -> int, n: nat, i: nat, j: nat) {
    && 0 < j < n <= |data| && Parent(j) == i
    && forall c :: 0 < c < n && Parent(c) == i ==> NotBelow(data, key, j, c)
  }

  lemma SiftDown<T>(data: seq<T>, key: T -> int, n: nat, i: nat, j: nat)
    requires n <= |data| && OrderedAround(data, key, n, i, false)
    requires IsSmallerChild(data, key, n, i, j)
    requires key(data[j]) < key(data[i])
    ensures OrderedAround(Swapped(data, i, j), key, n, j, false)
  {
  }

  lemma SiftedDown<T>(data: seq<T>, key: T -> int, n: nat, i: nat)
    requires n <= |data| && OrderedAround(data, key, n, i, false)
    requires forall c :: 0 < c < n && Parent(c) == i ==> NotBelow(data, key, i, c)
    ensures Ordered(data[..n], key)
  {
  }

  class Heap<T> {
    const key: T -> int
    var data: seq<T>

    ghost predicate Valid()
      reads this
    {
      Ordered(data, key)
    }

    constructor (key: T -> int)
      ensures Valid() && this.key == key && data == []
    {
      this.key := key;
      data := [];
    }

    method Push(x: T)
      requires Valid()
      modifies this
      ensures Valid()
      ensures multiset(data) == old(multiset(data)) + multiset{x}
    {
      assert forall j :: 0 < j < |data| ==> NotBelow(data, key, Parent(j), j);
      data := data + [x];
      assert forall j :: 0 < j < |data| - 1 ==> NotBelow(old(data), key, Parent(j), j);
      Up(|data| - 1);
    }

    method Pop() returns (x: T)
      requires Valid() && data != []
      modifies this
      ensures Valid()
      ensures x in old(multiset(data)) && multiset(data) == old(multiset(data)) - multiset{x}
      ensures forall y :: y in old(multiset(data)) ==> key(x) <= key(y)
    {
      forall i | 0 <= i < |data|
        ensures key(data[0]) <= key(data[i])
      {
        RootIsLeast(data, key, i);
      }
      var n := |data| - 1;
      data := Swapped(data, 0, n);
      Down(n);
      x := data[n];
      assert data == data[..n] + [x];
      data := data[..n];
    }

    function Top(): T
      requires data != []
      reads this
    {
      data[0]
    }

    method Up(start: nat)
      requires start < |data| && OrderedAround(data, key, |data|, start, true)
      modifies this
      ensures Valid()
      ensures multiset(data) == old(multiset(data))
    {
      var j := start;
      while 0 < j && key(data[j]) < key(data[Parent(j)])
        invariant 0 <= j < |data| && OrderedAround(data, key, |data|, j, true)
        invariant multiset(data) == old(multiset(data))
      {
        SiftUp(data, key, j);
        data := Swapped(data, Parent(j), j);
        j := Parent(j);
      }
      assert 0 < j ==> NotBelow(data, key, Parent(j), j);
    }

    method Down(n: nat)
      requires n < |data| && OrderedAround(data, key, n, 0, false)
      modifies this
      ensures |data| == old(|data|) && Ordered(data[..n], key)
      ensures multiset(data) == old(multiset(data)) && data[n] == old(data[n])
    {
      var i := 0;
      while 2 * i + 1 < n
        invariant 0 <= i <= n < |data| == old(|data|) && OrderedAround(data, key, n, i, false)
        invariant multiset(data) == old(multiset(data)) && data[n] == old(data[n])
      {
        var j := 2 * i + 1;
        if j + 1 < n && key(data[j + 1]) < key(data[j]) {
          j := j + 1;
        }
        assert IsSmallerChild(data, key, n, i, j);
        if key(data[i]) <= key(data[j]) {
          assert forall c :: 0 < c < n && Parent(c) == i ==> NotBelow(data, key, j, c);
          break;
        }
        SiftDown(data, key, n, i, j);
        data := Swapped(data, i, j);
        i := j;
      }
      SiftedDown(data, key, n, i);
    }
  }
}
