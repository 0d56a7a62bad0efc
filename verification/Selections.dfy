/** Which selections of k largest entries a pool allows when ties may be broken in any way. */
module Selections {
  import opened Basics
  import opened Recos
  import opened TopLists

  /** The entries more frequent than f. */
  ghost function Above(bag: multiset<Reco>, f: int): (above: multiset<Reco>)
    ensures forall r :: above[r] == if r.freq > f then bag[r] else 0
    decreases |bag|
  {
    if bag == multiset{} then multiset{}
    else
      var x :| x in bag;
      Above(bag - multiset{x}, f) + if x.freq > f then multiset{x} else multiset{}
  }

  lemma AboveAdd(bag: multiset<Reco>, x: Reco, f: int)
    ensures Above(bag + multiset{x}, f) == Above(bag, f) + if x.freq > f then multiset{x} else multiset{}
    ensures |Above(bag + multiset{x}, f)| == |Above(bag, f)| + if x.freq > f then 1 else 0
  {
    forall r
      ensures Above(bag + multiset{x}, f)[r] == (Above(bag, f) + if x.freq > f then multiset{x} else multiset{})[r]
    {
    }
  }

  /** A selection holds everything above any of its members. */
  lemma HoldsAbove(bag: multiset<Reco>, pool: multiset<Reco>, k: nat, x: Reco)
    requires IsTopBag(bag, pool, k) && x in bag
    ensures Above(pool, x.freq) == Above(bag, x.freq)
  {
    forall r
      ensures Above(pool, x.freq)[r] == Above(bag, x.freq)[r]
    {
      assert r.freq > x.freq ==> r !in pool - bag;
    }
  }

  lemma AboveAndCopies(bag: multiset<Reco>, x: Reco, n: nat)
    requires n <= bag[x]
    ensures Above(bag, x.freq) + multiset{}[x := n] <= bag
    ensures |Above(bag, x.freq)| + n <= |bag|
  {
    var copies: multiset<Reco> := multiset{}[x := n];
    assert |copies| == n;
    SubBagSize(Above(bag, x.freq) + copies, bag);
  }

  lemma SharedAbove(bag: multiset<Reco>, pool: multiset<Reco>, other: multiset<Reco>, k: nat, x: Reco)
    requires IsTopBag(bag, pool, k) && bag <= other && x in bag
    requires |Above(other, x.freq)| == |Above(pool, x.freq)|
    ensures Above(bag, x.freq) == Above(other, x.freq)
  {
    HoldsAbove(bag, pool, k, x);
    EqualSizeSubBag(Above(bag, x.freq), Above(other, x.freq));
  }

  /** Pools with as many entries above every frequency have the same selections among shared entries. */
  lemma SelectionMoves(bag: multiset<Reco>, pool: multiset<Reco>, other: multiset<Reco>, k: nat)
    requires IsTopBag(bag, pool, k) && bag <= other && |other| == |pool|
    requires forall f :: |Above(other, f)| == |Above(pool, f)|
    ensures IsTopBag(bag, other, k)
  {
    forall x, y | x in bag && y in other - bag
      ensures y.freq <= x.freq
    {
      SharedAbove(bag, pool, other, k, x);
      assert Above(bag, x.freq)[y] == Above(other, x.freq)[y];
    }
  }

  lemma Inserted(s: seq<Reco>, x: Reco) returns (s': seq<Reco>)
    requires SortedDesc(s)
    ensures SortedDesc(s') && multiset(s') == multiset(s) + multiset{x}
  {
    if s == [] || x.freq <= s[|s| - 1].freq {
      s' := s + [x];
    } else {
      var front, last := s[..|s| - 1], s[|s| - 1];
      assert s == front + [last];
      var t := Inserted(front, x);
      forall i | 0 <= i < |t|
        ensures last.freq <= t[i].freq
      {
        assert t[i] in multiset(t);
      }
      s' := t + [last];
    }
  }

  lemma Arranged(bag: multiset<Reco>) returns (s: seq<Reco>)
    ensures SortedDesc(s) && multiset(s) == bag
    decreases |bag|
  {
    if bag == multiset{} {
      s := [];
    } else {
      var x :| x in bag;
      s := Arranged(bag - multiset{x});
      s := Inserted(s, x);
    }
  }

  lemma JoinSorted(a: seq<Reco>, b: seq<Reco>, f: int)
    requires SortedDesc(a) && SortedDesc(b)
    requires forall x :: x in multiset(a) ==> f <= x.freq
    requires forall x :: x in multiset(b) ==> x.freq <= f
    ensures SortedDesc(a + b)
  {
    forall i, j | 0 <= i < j < |a + b|
      ensures (a + b)[j].freq <= (a + b)[i].freq
    {
      assert i < |a| ==> a[i] in multiset(a);
      assert |a| <= j ==> b[j - |a|] in multiset(b);
    }
  }

  lemma Layers(pool: multiset<Reco>, r: Reco, n: nat) returns (low: multiset<Reco>)
    requires n <= pool[r]
    ensures Above(pool, r.freq) + multiset{}[r := n] + low == pool
    ensures forall x :: x in low ==> x.freq <= r.freq
  {
    AboveAndCopies(pool, r, n);
    var high := Above(pool, r.freq) + multiset{}[r := n];
    low := pool - high;
    forall x | x in low
      ensures x.freq <= r.freq
    {
      assert x.freq > r.freq ==> Above(pool, r.freq)[x] == pool[x];
    }
  }

  /** The pool in order, with n copies of r right after what is more frequent. */
  lemma Layered(pool: multiset<Reco>, r: Reco, n: nat) returns (high: seq<Reco>, low: seq<Reco>)
    requires n <= pool[r]
    ensures SortedDesc(high + Repeat(r, n) + low) && |high| == |Above(pool, r.freq)|
    ensures multiset(high) + multiset(Repeat(r, n)) + multiset(low) == pool
  {
    hide SortedDesc, Above, Repeat;
    var lowBag := Layers(pool, r, n);
    RepeatBag(r, n);
    high := Arranged(Above(pool, r.freq));
    low := Arranged(lowBag);
    assert |high| == |multiset(high)|;
    JoinSorted(high, Repeat(r, n), r.freq);
    JoinSorted(high + Repeat(r, n), low, r.freq);
  }

  /** Some selection has n copies of r, when that many fit below what is more frequent. */
  lemma Preferred(pool: multiset<Reco>, r: Reco, n: nat, k: nat) returns (list: seq<Reco>)
    requires n <= pool[r] && |Above(pool, r.freq)| + n <= k
    ensures IsTopK(list, pool, k) && n <= multiset(list)[r]
  {
    hide Above, IsTopK, SortedDesc;
    var high, low := Layered(pool, r, n);
    var top := high + Repeat(r, n);
    var all := top + low;
    assert multiset(all) == pool;
    PrefixIsTopK(all, k);
    list := all[..Min(k, |all|)];
    assert list == top + list[|top|..];
    assert multiset(list) == multiset(high) + multiset(Repeat(r, n)) + multiset(list[|top|..]);
    RepeatBag(r, n);
  }

  lemma {:induction false} RepeatBag(r: Reco, n: nat)
    ensures multiset(Repeat(r, n)) == multiset{}[r := n] && SortedDesc(Repeat(r, n))
  {
    if n > 0 {
      RepeatBag(r, n - 1);
      assert Repeat(r, n) == Repeat(r, n - 1) + [r];
    }
  }
}
