/** Suggestions and the one specification every suggestion path is measured against.

    A Go string is modelled as its sequence of runes.  Ties between equal frequencies are broken
    arbitrarily by the program (map order, unstable sort, heaps), so the specification fixes the
    descending list of frequencies and leaves the choice among equals open.
 */
module Recos {
  import opened Basics

  datatype Rune = Rune(code: int)

  type Str = seq<Rune>

  datatype Reco = Reco(word: Str, freq: int)

  function Freqs(s: seq<Reco>): seq<int> {
    seq(|s|, i requires 0 <= i < |s| => s[i].freq)
  }

  function WordsOf(s: seq<Reco>): seq<Str> {
    seq(|s|, i requires 0 <= i < |s| => s[i].word)
  }

  ghost predicate SortedDesc(s: seq<Reco>) {
    forall i, j :: 0 <= i < j < |s| ==> s[j].freq <= s[i].freq
  }

  /** Everything in the first bag is at least as frequent as everything in the second. */
  ghost predicate Dominates(high: multiset<Reco>, low: multiset<Reco>) {
    forall x, y :: x in high && y in low ==> y.freq <= x.freq
  }

  /** The bag holds k largest entries of the pool (all of them when there are fewer). */
  ghost predicate IsTopBag(bag: multiset<Reco>, pool: multiset<Reco>, k: nat) {
    && |bag| == Min(k, |pool|)
    && bag <= pool
    && Dominates(bag, pool - bag)
  }

  /** The list is the k largest entries of the pool in descending order. */
  ghost predicate IsTopK(out: seq<Reco>, pool: multiset<Reco>, k: nat) {
    SortedDesc(out) && IsTopBag(multiset(out), pool, k)
  }

  /** Joining lists whose contents are spread over the pools of several sources. */
  ghost function Total(lists: seq<seq<Reco>>): multiset<Reco> {
    if lists == [] then multiset{} else Total(lists[..|lists| - 1]) + multiset(lists[|lists| - 1])
  }

  ghost predicate SameTop(lists: seq<seq<Reco>>, pool: multiset<Reco>, k: nat, rest: multiset<Reco>, out: seq<Reco>) {
    IsTopK(out, Total(lists) + rest, k) ==> IsTopK(out, pool + rest, k)
  }

  /** The lists can stand in for the pool: the top k of the lists, joined with anything else, is
      the top k of the pool joined with the same thing. */
  ghost predicate Represents(lists: seq<seq<Reco>>, pool: multiset<Reco>, k: nat) {
    forall rest: multiset<Reco>, out: seq<Reco> :: SameTop(lists, pool, k, rest, out)
  }

  // ---------------------------------------------------------------- bags

  lemma EqualSizeSubBag<T>(a: multiset<T>, b: multiset<T>)
    requires a <= b && |a| == |b|
    ensures a == b
  {
    assert b == a + (b - a);
    assert |b - a| == 0;
  }

  lemma SubBagSize<T>(a: multiset<T>, b: multiset<T>)
    requires a <= b
    ensures |a| <= |b|
  {
    assert b == a + (b - a);
  }

  // ---------------------------------------------------------------- one answer only

  /** Entries above a bound that b has fallen to by position i all sit before i. */
  lemma AboveBoundIsEarly(b: seq<Reco>, i: nat, x: Reco)
    requires SortedDesc(b) && i < |b| && b[i].freq < x.freq
    ensures multiset(b)[x] == multiset(b[..i])[x]
  {
    assert b == b[..i] + b[i..];
    assert x !in b[i..];
  }

  /** If everything in head is more frequent than b[i], the top list b holds all of it before i. */
  lemma HeadIsEarly(head: multiset<Reco>, b: seq<Reco>, pool: multiset<Reco>, k: nat, i: nat)
    requires IsTopK(b, pool, k) && i < |b|
    requires head <= pool
    requires forall x :: x in head ==> b[i].freq < x.freq
    ensures head <= multiset(b[..i])
  {
    forall x | x in head
      ensures head[x] <= multiset(b[..i])[x]
    {
      AboveBoundIsEarly(b, i, x);
      assert b[i] in multiset(b);
      assert multiset(b)[x] < head[x] ==> x in pool - multiset(b);
    }
  }

  lemma SplitBag(s: seq<Reco>, i: nat)
    requires i <= |s|
    ensures multiset(s) == multiset(s[..i]) + multiset(s[i..])
  {
    assert s == s[..i] + s[i..];
  }

  lemma HeadsAbove(a: seq<Reco>, i: nat, x: Reco)
    requires SortedDesc(a) && i < |a|
    requires x in multiset(a[..i + 1])
    ensures a[i].freq <= x.freq
  {
  }

  lemma NotAheadAt(a: seq<Reco>, b: seq<Reco>, pool: multiset<Reco>, k: nat, i: nat)
    requires IsTopK(a, pool, k) && IsTopK(b, pool, k)
    requires i < |a| && i < |b|
    ensures a[i].freq <= b[i].freq
  {
    if b[i].freq < a[i].freq {
      var head := multiset(a[..i + 1]);
      assert head <= pool by {
        SplitBag(a, i + 1);
      }
      forall x | x in head
        ensures b[i].freq < x.freq
      {
        HeadsAbove(a, i, x);
      }
      HeadIsEarly(head, b, pool, k, i);
      SubBagSize(head, multiset(b[..i]));
    }
  }

  /** Any two answers have the same frequency list, however ties were broken. */
  lemma TopKIsUnique(a: seq<Reco>, b: seq<Reco>, pool: multiset<Reco>, k: nat)
    requires IsTopK(a, pool, k) && IsTopK(b, pool, k)
    ensures Freqs(a) == Freqs(b)
  {
    forall i | 0 <= i < |a|
      ensures a[i].freq == b[i].freq
    {
      NotAheadAt(a, b, pool, k, i);
      NotAheadAt(b, a, pool, k, i);
    }
  }

  // ---------------------------------------------------------------- truncating early is harmless

  /** Replacing a pool by its own top k does not change the top k of a larger pool. */
  lemma ReplaceByTop(out: seq<Reco>, a: multiset<Reco>, pool: multiset<Reco>, rest: multiset<Reco>, k: nat)
    requires IsTopBag(a, pool, k)
    requires IsTopK(out, a + rest, k)
    ensures IsTopK(out, pool + rest, k)
  {
    var bag := multiset(out);
    if |pool| <= k {
      EqualSizeSubBag(a, pool);
    } else {
      forall x, y | x in bag && y in (pool + rest) - bag
        ensures y.freq <= x.freq
      {
        if y !in (a + rest) - bag {
          assert y in pool - a;
          DominatedByTop(out, a, pool, rest, k, x, y);
        }
      }
    }
  }

  lemma DominatedByTop(out: seq<Reco>, a: multiset<Reco>, pool: multiset<Reco>, rest: multiset<Reco>, k: nat,
                       x: Reco, y: Reco)
    requires IsTopBag(a, pool, k) && k < |pool|
    requires IsTopK(out, a + rest, k)
    requires x in out && y in pool - a
    ensures y.freq <= x.freq
  {
    var bag := multiset(out);
    if z :| z in a && z in (a + rest) - bag {
      assert z.freq <= x.freq && y.freq <= z.freq;
    } else {
      forall z | z in a
        ensures a[z] <= bag[z]
      {
        assert z !in (a + rest) - bag;
      }
      EqualSizeSubBag(a, bag);
    }
  }

  /** Adding one more source: its list may be cut to its own top k first. */
  lemma RepresentsMore(lists: seq<seq<Reco>>, pool: multiset<Reco>, top: seq<Reco>, more: multiset<Reco>, k: nat)
    requires Represents(lists, pool, k)
    requires IsTopK(top, more, k)
    ensures Represents(lists + [top], pool + more, k)
  {
    var lists' := lists + [top];
    assert lists'[..|lists'| - 1] == lists;
    forall rest: multiset<Reco>, out: seq<Reco>
      ensures SameTop(lists', pool + more, k, rest, out)
    {
      if IsTopK(out, Total(lists') + rest, k) {
        assert Total(lists') + rest == Total(lists) + (multiset(top) + rest);
        assert SameTop(lists, pool, k, multiset(top) + rest, out);
        assert pool + (multiset(top) + rest) == multiset(top) + (pool + rest);
        ReplaceByTop(out, multiset(top), more, pool + rest, k);
        assert more + (pool + rest) == (pool + more) + rest;
      }
    }
  }

  /** What a merge of the representing lists gives is the answer for the pool. */
  lemma RepresentsAnswer(lists: seq<seq<Reco>>, pool: multiset<Reco>, out: seq<Reco>, k: nat)
    requires Represents(lists, pool, k)
    requires IsTopK(out, Total(lists), k)
    ensures IsTopK(out, pool, k)
  {
    assert Total(lists) + multiset{} == Total(lists);
    assert pool + multiset{} == pool;
    assert SameTop(lists, pool, k, multiset{}, out);
  }
}
