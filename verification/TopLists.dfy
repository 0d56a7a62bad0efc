/** The three ways the program computes a top list, each proved to meet Recos.IsTopK:
    a k-way merge of sorted lists, a bounded min-heap over unsorted candidates, and
    sort-and-truncate of two lists. */
module TopLists {
  import opened Basics
  import opened Recos
  import opened Heaps

  // ---------------------------------------------------------------- heads of lists

  datatype RawHead = RawHead(list: seq<Reco>, idx: nat)

  /** A list and a position inside it. */
  type Head = h: RawHead | h.idx < |h.list| witness RawHead([Reco([], 0)], 0)

  function HeadKey(h: Head): int {
    -h.list[h.idx].freq
  }

  function FreqKey(r: Reco): int {
    r.freq
  }

  /** What is still to come from one head. */
  ghost function Rest(h: Head): multiset<Reco> {
    multiset(h.list[h.idx..])
  }

  ghost function RestOf(heads: seq<Head>): multiset<Reco> {
    if heads == [] then multiset{} else RestOf(heads[..|heads| - 1]) + Rest(heads[|heads| - 1])
  }

  ghost predicate SortedLists(lists: seq<seq<Reco>>) {
    forall i :: 0 <= i < |lists| ==> SortedDesc(lists[i])
  }

  ghost predicate SortedHeads(heads: multiset<Head>) {
    forall h :: h in heads ==> SortedDesc(h.list)
  }

  lemma RestOfSnoc(heads: seq<Head>, h: Head)
    ensures RestOf(heads + [h]) == RestOf(heads) + Rest(h)
  {
  }

  function Without<T>(s: seq<T>, i: nat): seq<T>
    requires i < |s|
  {
    s[..i] + s[i + 1..]
  }

  lemma WithoutLast<T>(s: seq<T>)
    requires |s| > 0
    ensures Without(s, |s| - 1) == s[..|s| - 1]
  {
  }

  lemma WithoutEarlier<T>(s: seq<T>, i: nat)
    requires i < |s| - 1
    ensures Without(s, i) == Without(s[..|s| - 1], i) + [s[|s| - 1]]
  {
  }

  lemma WithoutBag<T>(s: seq<T>, i: nat)
    requires i < |s|
    ensures multiset(Without(s, i)) == multiset(s) - multiset{s[i]}
  {
    assert s == s[..i] + [s[i]] + s[i + 1..];
  }

  lemma {:induction false} RestOfRemoved(heads: seq<Head>, i: nat)
    requires i < |heads|
    ensures RestOf(heads) == RestOf(Without(heads, i)) + Rest(heads[i])
  {
    var n := |heads| - 1;
    if i < n {
      RestOfRemoved(heads[..n], i);
      WithoutEarlier(heads, i);
      RestOfSnoc(Without(heads[..n], i), heads[n]);
    } else {
      WithoutLast(heads);
    }
  }

  /** The order of the heads inside the heap does not matter. */
  lemma {:induction false} RestOfBag(a: seq<Head>, b: seq<Head>)
    requires multiset(a) == multiset(b)
    ensures RestOf(a) == RestOf(b)
    decreases |a|
  {
    if a == [] {
      assert |multiset(b)| == 0;
    } else {
      var n := |a| - 1;
      WithoutBag(a, n);
      WithoutLast(a);
      assert a[n] in multiset(b);
      var i :| 0 <= i < |b| && b[i] == a[n];
      WithoutBag(b, i);
      RestOfRemoved(b, i);
      RestOfBag(a[..n], Without(b, i));
    }
  }

  lemma RestOfAdded(before: seq<Head>, after: seq<Head>, h: Head)
    requires multiset(after) == multiset(before) + multiset{h}
    ensures RestOf(after) == RestOf(before) + Rest(h)
  {
    RestOfBag(after, before + [h]);
    RestOfSnoc(before, h);
  }

  lemma {:induction false} RestIn(heads: seq<Head>, x: Reco) returns (h: Head)
    requires x in RestOf(heads)
    ensures h in heads && x in Rest(h)
  {
    var n := |heads| - 1;
    if x in Rest(heads[n]) {
      h := heads[n];
    } else {
      h := RestIn(heads[..n], x);
    }
  }

  /** Every entry still to come is at most the largest current head. */
  lemma RestBelow(heads: seq<Head>, top: Head)
    requires SortedHeads(multiset(heads))
    requires forall h :: h in multiset(heads) ==> HeadKey(top) <= HeadKey(h)
    ensures forall y :: y in RestOf(heads) ==> y.freq <= top.list[top.idx].freq
  {
    forall y | y in RestOf(heads)
      ensures y.freq <= top.list[top.idx].freq
    {
      var h := RestIn(heads, y);
      assert h in multiset(heads);
      assert y in h.list[h.idx..];
    }
  }

  lemma RestSplits(h: Head)
    ensures Rest(h) == multiset{h.list[h.idx]} + multiset(h.list[h.idx + 1..])
  {
    assert h.list[h.idx..] == [h.list[h.idx]] + h.list[h.idx + 1..];
  }

  /** What one turn of the merge loop does to the entries still to come. */
  lemma PoppedHead(before: seq<Head>, after: seq<Head>, h: Head)
    requires h in multiset(before) && multiset(after) == multiset(before) - multiset{h}
    ensures h.list[h.idx] in RestOf(before)
    ensures RestOf(after) + multiset(h.list[h.idx + 1..]) == RestOf(before) - multiset{h.list[h.idx]}
  {
    var tail := multiset(h.list[h.idx + 1..]);
    assert RestOf(before) == RestOf(after) + (multiset{h.list[h.idx]} + tail) by {
      assert multiset(before) == multiset(after) + multiset{h};
      RestOfAdded(after, before, h);
      RestSplits(h);
    }
  }

  // ---------------------------------------------------------------- k-way merge

  /** Entries taken so far, and entries still to come, are the pool split at a frequency. */
  ghost predicate Merging(out: seq<Reco>, rest: multiset<Reco>, pool: multiset<Reco>) {
    SortedDesc(out) && multiset(out) + rest == pool && Dominates(multiset(out), rest)
  }

  lemma MergingStep(out: seq<Reco>, rest: multiset<Reco>, pool: multiset<Reco>, x: Reco)
    requires Merging(out, rest, pool)
    requires x in rest && forall y :: y in rest ==> y.freq <= x.freq
    ensures Merging(out + [x], rest - multiset{x}, pool)
  {
  }

  lemma MergingDone(out: seq<Reco>, rest: multiset<Reco>, pool: multiset<Reco>, k: nat)
    requires Merging(out, rest, pool) && |out| <= k
    requires |out| == k || rest == multiset{}
    ensures IsTopK(out, pool, k)
  {
  }

  /** The heap of heads that the merge starts from: one per non-empty list. */
  method PushHeads(lists: seq<seq<Reco>>) returns (h: Heap<Head>)
    requires SortedLists(lists)
    ensures fresh(h) && h.Valid() && h.key == HeadKey
    ensures SortedHeads(multiset(h.data)) && RestOf(h.data) == Total(lists)
  {
    h := new Heap<Head>(HeadKey);
    var i := 0;
    while i < |lists|
      invariant 0 <= i <= |lists|
      invariant h.Valid() && fresh(h) && h.key == HeadKey
      invariant SortedHeads(multiset(h.data)) && RestOf(h.data) == Total(lists[..i])
    {
      assert lists[..i + 1][..i] == lists[..i];
      if |lists[i]| > 0 {
        ghost var before := h.data;
        var first: Head := RawHead(lists[i], 0);
        h.Push(first);
        RestOfAdded(before, h.data, first);
        assert lists[i][0..] == lists[i];
      }
      i := i + 1;
    }
    assert lists[..i] == lists;
  }

  /** Take the largest current head and put the next entry of its list in the race. */
  method TakeLargest(h: Heap<Head>) returns (x: Reco)
    requires h.Valid() && h.key == HeadKey && h.data != []
    requires SortedHeads(multiset(h.data))
    modifies h
    ensures h.Valid()
    ensures SortedHeads(multiset(h.data))
    ensures x in old(RestOf(h.data)) && RestOf(h.data) == old(RestOf(h.data)) - multiset{x}
    ensures forall y :: y in old(RestOf(h.data)) ==> y.freq <= x.freq
  {
    ghost var before := h.data;
    var t := h.Pop();
    RestBelow(before, t);
    ghost var popped := h.data;
    PoppedHead(before, popped, t);
    x := t.list[t.idx];
    if t.idx + 1 < |t.list| {
      PushNext(h, t);
    } else {
      assert multiset(t.list[t.idx + 1..]) == multiset{};
    }
  }

  method PushNext(h: Heap<Head>, t: Head)
    requires h.Valid() && h.key == HeadKey && t.idx + 1 < |t.list|
    requires SortedHeads(multiset(h.data)) && SortedDesc(t.list)
    modifies h
    ensures h.Valid() && SortedHeads(multiset(h.data))
    ensures RestOf(h.data) == old(RestOf(h.data)) + multiset(t.list[t.idx + 1..])
  {
    ghost var before := h.data;
    var next: Head := RawHead(t.list, t.idx + 1);
    h.Push(next);
    RestOfAdded(before, h.data, next);
  }

  method MergeTopK(lists: seq<seq<Reco>>, k: nat) returns (out: seq<Reco>)
    requires SortedLists(lists)
    ensures IsTopK(out, Total(lists), k)
  {
    var h := PushHeads(lists);
    out := [];
    while |h.data| > 0 && |out| < k
      invariant h.Valid() && fresh(h) && h.key == HeadKey && |out| <= k
      invariant SortedHeads(multiset(h.data)) && Merging(out, RestOf(h.data), Total(lists))
      decreases k - |out|
    {
      ghost var before := RestOf(h.data);
      var x := TakeLargest(h);
      MergingStep(out, before, Total(lists), x);
      out := out + [x];
    }
    MergingDone(out, RestOf(h.data), Total(lists), k);
  }

  // ---------------------------------------------------------------- bounded min-heap

  lemma OfferSmall(bag: multiset<Reco>, pool: multiset<Reco>, k: nat, r: Reco)
    requires IsTopBag(bag, pool, k) && |bag| < k
    ensures IsTopBag(bag + multiset{r}, pool + multiset{r}, k)
  {
    EqualSizeSubBag(bag, pool);
  }

  lemma OfferFull(bag: multiset<Reco>, pool: multiset<Reco>, k: nat, r: Reco, low: Reco)
    requires IsTopBag(bag, pool, k) && |bag| == k
    requires low in bag && forall y :: y in bag ==> low.freq <= y.freq
    ensures low.freq < r.freq ==> IsTopBag(bag - multiset{low} + multiset{r}, pool + multiset{r}, k)
    ensures r.freq <= low.freq ==> IsTopBag(bag, pool + multiset{r}, k)
  {
  }

  /** Offer one candidate to a heap holding the k best seen so far. */
  method Offer(h: Heap<Reco>, r: Reco, k: nat, ghost pool: multiset<Reco>)
    requires h.Valid() && h.key == FreqKey && k >= 1
    requires IsTopBag(multiset(h.data), pool, k)
    modifies h
    ensures h.Valid()
    ensures IsTopBag(multiset(h.data), pool + multiset{r}, k)
  {
    if |h.data| < k {
      OfferSmall(multiset(h.data), pool, k, r);
      h.Push(r);
    } else {
      forall y | y in multiset(h.data)
        ensures h.Top().freq <= y.freq
      {
        var i :| 0 <= i < |h.data| && h.data[i] == y;
        RootIsLeast(h.data, FreqKey, i);
      }
      OfferFull(multiset(h.data), pool, k, r, h.Top());
      if h.Top().freq < r.freq {
        var low := h.Pop();
        OfferFull(old(multiset(h.data)), pool, k, r, low);
        h.Push(r);
      }
    }
  }

  function Reversed<T>(s: seq<T>): (r: seq<T>)
    ensures |r| == |s| && forall i :: 0 <= i < |s| ==> r[i] == s[|s| - 1 - i]
    ensures multiset(r) == multiset(s)
  {
    if s == [] then [] else
      assert s == s[..|s| - 1] + [s[|s| - 1]];
      [s[|s| - 1]] + Reversed(s[..|s| - 1])
  }

  /** Popped so far (latest first), all at most what is still in the heap. */
  ghost predicate Draining(desc: seq<Reco>, rest: multiset<Reco>, pool: multiset<Reco>) {
    SortedDesc(desc) && multiset(desc) + rest == pool && Dominates(rest, multiset(desc))
  }

  lemma DrainingStep(desc: seq<Reco>, rest: multiset<Reco>, pool: multiset<Reco>, x: Reco)
    requires Draining(desc, rest, pool)
    requires x in rest && forall y :: y in rest ==> x.freq <= y.freq
    ensures Draining([x] + desc, rest - multiset{x}, pool)
  {
  }

  /** Popping a min-heap until it is empty, in the order the entries come out. */
  method DrainAscending(h: Heap<Reco>) returns (out: seq<Reco>)
    requires h.Valid() && h.key == FreqKey
    modifies h
    ensures h.Valid() && h.data == []
    ensures SortedDesc(Reversed(out)) && multiset(out) == old(multiset(h.data))
  {
    out := [];
    while |h.data| > 0
      invariant h.Valid()
      invariant Draining(Reversed(out), multiset(h.data), old(multiset(h.data)))
      decreases |multiset(h.data)|
    {
      ghost var before := multiset(h.data);
      var x := h.Pop();
      DrainingStep(Reversed(out), before, old(multiset(h.data)), x);
      assert (out + [x])[..|out|] == out;
      out := out + [x];
    }
  }

  /** Popping a min-heap into a slice from its far end, as the seeder does. */
  method DrainDescending(h: Heap<Reco>) returns (top: seq<Reco>)
    requires h.Valid() && h.key == FreqKey
    modifies h
    ensures h.Valid() && h.data == []
    ensures SortedDesc(top) && multiset(top) == old(multiset(h.data))
  {
    top := [];
    while |h.data| > 0
      invariant h.Valid()
      invariant Draining(top, multiset(h.data), old(multiset(h.data)))
      decreases |multiset(h.data)|
    {
      ghost var before := multiset(h.data);
      var x := h.Pop();
      DrainingStep(top, before, old(multiset(h.data)), x);
      top := [x] + top;
    }
  }

  method TopK(cands: seq<Reco>, k: nat) returns (out: seq<Reco>)
    requires k >= 1
    ensures IsTopK(out, multiset(cands), k)
  {
    var h := new Heap<Reco>(FreqKey);
    var i := 0;
    while i < |cands|
      invariant 0 <= i <= |cands|
      invariant h.Valid() && fresh(h) && h.key == FreqKey
      invariant IsTopBag(multiset(h.data), multiset(cands[..i]), k)
    {
      Offer(h, cands[i], k, multiset(cands[..i]));
      assert cands[..i + 1] == cands[..i] + [cands[i]];
      i := i + 1;
    }
    assert cands[..i] == cands;
    var ascending := DrainAscending(h);
    out := Reversed(ascending);
  }

  // ---------------------------------------------------------------- sort and truncate

  lemma InsertedIsSorted(r: seq<Reco>, j: nat, x: Reco)
    requires SortedDesc(r) && j <= |r|
    requires forall m :: 0 <= m < j ==> x.freq <= r[m].freq
    requires j < |r| ==> r[j].freq <= x.freq
    ensures SortedDesc(r[..j] + [x] + r[j..])
    ensures multiset(r[..j] + [x] + r[j..]) == multiset(r) + multiset{x}
  {
    assert r == r[..j] + r[j..];
  }

  method InsertSorted(r: seq<Reco>, x: Reco) returns (r': seq<Reco>)
    requires SortedDesc(r)
    ensures SortedDesc(r') && multiset(r') == multiset(r) + multiset{x}
  {
    var j := 0;
    while j < |r| && x.freq < r[j].freq
      invariant 0 <= j <= |r|
      invariant forall m :: 0 <= m < j ==> x.freq <= r[m].freq
    {
      j := j + 1;
    }
    InsertedIsSorted(r, j, x);
    r' := r[..j] + [x] + r[j..];
  }

  /** sort.Slice by descending frequency; how ties are ordered is left open. */
  method SortByFreqDesc(s: seq<Reco>) returns (r: seq<Reco>)
    ensures SortedDesc(r) && multiset(r) == multiset(s)
  {
    r := [];
    var i := 0;
    while i < |s|
      invariant 0 <= i <= |s|
      invariant SortedDesc(r) && multiset(r) == multiset(s[..i])
    {
      r := InsertSorted(r, s[i]);
      assert s[..i + 1] == s[..i] + [s[i]];
      i := i + 1;
    }
    assert s[..i] == s;
  }

  lemma FrontDominates(all: seq<Reco>, n: nat)
    requires SortedDesc(all) && n <= |all|
    ensures Dominates(multiset(all[..n]), multiset(all[n..]))
  {
  }

  lemma PrefixIsTopK(all: seq<Reco>, k: nat)
    requires SortedDesc(all)
    ensures IsTopK(all[..Min(k, |all|)], multiset(all), k)
  {
    var n := Min(k, |all|);
    SplitBag(all, n);
    FrontDominates(all, n);
    assert multiset(all) - multiset(all[..n]) == multiset(all[n..]);
  }

  method MergeTop(a: seq<Reco>, b: seq<Reco>, k: nat) returns (all: seq<Reco>)
    ensures IsTopK(all, multiset(a) + multiset(b), k)
  {
    all := SortByFreqDesc(a + b);
    PrefixIsTopK(all, k);
    assert multiset(a + b) == multiset(a) + multiset(b);
    if |all| > k {
      all := all[..k];
    } else {
      assert all[..|all|] == all;
    }
  }
}
