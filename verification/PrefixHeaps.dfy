/** An index from every prefix to a bounded min-heap: buildPrefixIndex and the memory estimator. */
module PrefixHeaps {
  import opened Recos
  import opened Heaps
  import opened TopLists
  import opened Files
  import opened PhrasePools
  import opened Buckets

  type PI = map<Str, Heap<Reco>>

  ghost function HeapsOf(pi: PI): set<Heap<Reco>> {
    set q | q in pi :: pi[q]
  }

  /** The slices behind the heaps. */
  ghost function DataOf(pi: PI): map<Str, seq<Reco>>
    reads HeapsOf(pi)
  {
    map q | q in pi :: pi[q].data
  }

  /** There is a heap for q exactly when some entry belongs to q, and it holds the k largest. */
  ghost predicate EntryOk(data: map<Str, seq<Reco>>, q: Str, pool: multiset<Reco>, k: nat) {
    && (q in data <==> q != [] && pool != multiset{})
    && (q in data ==> Ordered(data[q], FreqKey) && IsTopBag(multiset(data[q]), pool, k))
  }

  ghost predicate IsMinHeap(pi: PI, q: Str) {
    q in pi ==> pi[q].key == FreqKey
  }

  ghost predicate Separate(pi: PI, q: Str, r: Str) {
    q in pi && r in pi && pi[q] == pi[r] ==> q == r
  }

  /** Every prefix has a min-heap of its own. */
  ghost predicate AllSeparate(pi: PI) {
    (forall q, r :: Separate(pi, q, r)) && (forall q :: IsMinHeap(pi, q))
  }

  /** The entries of the selected lines, and line i counted for its prefixes up to length m. */
  ghost function Partial(file: File, sel: set<int>, i: nat, m: nat, q: Str): multiset<Reco> {
    Pooled(file, sel, q)
    + if Extends(file, i, q) && |q| <= m then multiset{Entry(file[i])} else multiset{}
  }

  ghost predicate PartialIndex(file: File, pi: PI, sel: set<int>, i: nat, m: nat, k: nat)
    reads HeapsOf(pi)
  {
    AllSeparate(pi) && forall q :: EntryOk(DataOf(pi), q, Partial(file, sel, i, m, q), k)
  }

  ghost predicate Index(file: File, pi: PI, sel: set<int>, k: nat)
    reads HeapsOf(pi)
  {
    AllSeparate(pi) && forall q :: EntryOk(DataOf(pi), q, Pooled(file, sel, q), k)
  }

  /** The heap for a prefix, made on first use. */
  method EnsureHeap(pi: PI, pref: Str) returns (pi': PI, hp: Heap<Reco>)
    requires AllSeparate(pi)
    ensures AllSeparate(pi')
    ensures pref in pi' && pi'[pref] == hp && pi' == pi[pref := hp]
    ensures if pref in pi then hp == pi[pref] else fresh(hp) && hp.Valid() && hp.key == FreqKey && hp.data == []
  {
    pi' := pi;
    if pref !in pi {
      hp := new Heap<Reco>(FreqKey);
      pi' := pi[pref := hp];
      forall q, r
        ensures Separate(pi', q, r)
      {
        assert Separate(pi, q, r);
      }
      forall q
        ensures IsMinHeap(pi', q)
      {
        assert IsMinHeap(pi, q);
      }
    } else {
      hp := pi[pref];
    }
  }

  /** Offer an entry to the heap of one prefix. */
  method OfferAt(pi: PI, pref: Str, r: Reco, k: nat, ghost pool: multiset<Reco>) returns (pi': PI)
    requires k >= 1 && pref != [] && AllSeparate(pi) && EntryOk(DataOf(pi), pref, pool, k)
    modifies HeapsOf(pi)
    ensures AllSeparate(pi') && pref in pi' && DataOf(pi') == old(DataOf(pi))[pref := pi'[pref].data]
    ensures EntryOk(DataOf(pi'), pref, pool + multiset{r}, k)
    ensures fresh(HeapsOf(pi') - HeapsOf(pi))
  {
    var hp;
    assert IsMinHeap(pi, pref);
    pi', hp := EnsureHeap(pi, pref);
    assert pref !in pi ==> pool == multiset{};
    Offer(hp, r, k, pool);
    forall q | q in pi && q != pref
      ensures pi[q] != hp
    {
      assert Separate(pi', q, pref);
    }
  }

  /** Offering line i to the heap of one prefix leaves the heaps of all others alone. */
  lemma OfferedPrefix(file: File, now: map<Str, seq<Reco>>, was: map<Str, seq<Reco>>,
                      sel: set<int>, i: nat, m: nat, k: nat, q: Str)
    requires i < |file| && file[i].Data? && m < |file[i].phrase|
    requires EntryOk(was, q, Partial(file, sel, i, m, q), k)
    requires q != file[i].phrase[..m + 1] ==> (q in now <==> q in was) && (q in now ==> now[q] == was[q])
    requires q == file[i].phrase[..m + 1] ==>
      EntryOk(now, q, Partial(file, sel, i, m, q) + multiset{Entry(file[i])}, k)
    ensures EntryOk(now, q, Partial(file, sel, i, m + 1, q), k)
  {
    PartialStep(file, sel, i, m, q);
  }

  method OfferPrefix(ghost file: File, pi: PI, ghost sel: set<int>, ghost i: nat, ghost m: nat,
                     pref: Str, r: Reco, k: nat) returns (pi': PI)
    requires k >= 1 && i < |file| && file[i].Data? && r == Entry(file[i])
    requires m < |file[i].phrase| && pref == file[i].phrase[..m + 1]
    requires PartialIndex(file, pi, sel, i, m, k)
    modifies HeapsOf(pi)
    ensures PartialIndex(file, pi', sel, i, m + 1, k)
    ensures fresh(HeapsOf(pi') - HeapsOf(pi))
  {
    ghost var m' := m + 1;
    ghost var was := DataOf(pi);
    assert EntryOk(was, pref, Partial(file, sel, i, m, pref), k);
    pi' := OfferAt(pi, pref, r, k, Partial(file, sel, i, m, pref));
    ghost var now := DataOf(pi');
    forall q
      ensures EntryOk(now, q, Partial(file, sel, i, m', q), k)
    {
      assert EntryOk(was, q, Partial(file, sel, i, m, q), k);
      OfferedPrefix(file, now, was, sel, i, m, k, q);
    }
  }

  lemma PartialStep(file: File, sel: set<int>, i: nat, m: nat, q: Str)
    requires i < |file| && file[i].Data? && m < |file[i].phrase|
    ensures Partial(file, sel, i, m + 1, q)
         == Partial(file, sel, i, m, q) + if q == file[i].phrase[..m + 1] then multiset{Entry(file[i])} else multiset{}
  {
  }

  lemma PartialStart(file: File, sel: set<int>, i: nat, q: Str)
    ensures q != [] ==> Partial(file, sel, i, 0, q) == Pooled(file, sel, q)
  {
  }

  lemma PartialEnd(file: File, sel: set<int>, i: nat, q: Str)
    requires i < |file| && file[i].Data? && i !in sel
    ensures Partial(file, sel, i, |file[i].phrase|, q) == Pooled(file, sel + {i}, q)
  {
    PoolUnion(file, |file|, sel, {i}, q);
    PoolOfOne(file, |file|, i, q);
  }

  /** Offer one line to the heaps of all its prefixes. */
  method IndexPhrase(ghost file: File, pi: PI, ghost sel: set<int>, ghost i: nat, line: Line, k: nat) returns (pi': PI)
    requires k >= 1 && i < |file| && file[i] == line && line.Data? && i !in sel
    requires Index(file, pi, sel, k)
    modifies HeapsOf(pi)
    ensures Index(file, pi', sel + {i}, k)
    ensures fresh(HeapsOf(pi') - HeapsOf(pi))
  {
    pi' := pi;
    forall q
      ensures EntryOk(DataOf(pi), q, Partial(file, sel, i, 0, q), k)
    {
      assert EntryOk(DataOf(pi), q, Pooled(file, sel, q), k);
      PartialStart(file, sel, i, q);
    }
    var n := 0;
    while n < |line.phrase|
      invariant 0 <= n <= |line.phrase|
      invariant PartialIndex(file, pi', sel, i, n, k)
      invariant fresh(HeapsOf(pi') - HeapsOf(pi))
    {
      pi' := OfferPrefix(file, pi', sel, i, n, line.phrase[..n + 1], Reco(line.phrase, line.freq), k);
      n := n + 1;
    }
    forall q
      ensures EntryOk(DataOf(pi'), q, Pooled(file, sel + {i}, q), k)
    {
      assert EntryOk(DataOf(pi'), q, Partial(file, sel, i, n, q), k);
      PartialEnd(file, sel, i, q);
    }
  }

  lemma EmptyIndex(file: File, pi: PI, sel: set<int>, k: nat)
    requires pi == map[] && sel == {}
    ensures Index(file, pi, sel, k)
  {
    forall q
      ensures EntryOk(DataOf(pi), q, Pooled(file, sel, q), k)
    {
      PoolEmptyIff(file, |file|, sel, q);
    }
  }

  lemma SkippedLine(file: File, pi: PI, lo: nat, i: nat, k: nat)
    requires lo <= i < |file| && !file[i].Data? && Index(file, pi, LineSet(lo, i), k)
    ensures Index(file, pi, LineSet(lo, i + 1), k)
  {
    var after := LineSet(lo, i + 1);
    forall q
      ensures EntryOk(DataOf(pi), q, Pooled(file, after, q), k)
    {
      PoolSame(file, |file|, LineSet(lo, i), after, q);
      assert EntryOk(DataOf(pi), q, Pooled(file, LineSet(lo, i), q), k);
    }
  }

  /** One turn of an indexing loop: a line without a phrase is skipped. */
  method IndexLine(ghost file: File, pi: PI, ghost lo: nat, ghost i: nat, line: Line, k: nat) returns (pi': PI)
    requires k >= 1 && lo <= i < |file| && file[i] == line
    requires Index(file, pi, LineSet(lo, i), k)
    modifies HeapsOf(pi)
    ensures Index(file, pi', LineSet(lo, i + 1), k)
    ensures fresh(HeapsOf(pi') - HeapsOf(pi))
  {
    if line.Data? {
      assert LineSet(lo, i + 1) == LineSet(lo, i) + {i};
      pi' := IndexPhrase(file, pi, LineSet(lo, i), i, line, k);
    } else {
      SkippedLine(file, pi, lo, i, k);
      pi' := pi;
    }
  }

  // ---------------------------------------------------------------- how many keys

  lemma KeyIff(file: File, pi: PI, lo: nat, hi: nat, k: nat, q: Str)
    requires hi <= |file| && Index(file, pi, LineSet(lo, hi), k)
    ensures q in pi <==> q != [] && exists i :: lo <= i < hi && Extends(file, i, q)
  {
    assert EntryOk(DataOf(pi), q, Pooled(file, LineSet(lo, hi), q), k);
    PoolEmptyIff(file, |file|, LineSet(lo, hi), q);
    if i :| lo <= i < hi && Extends(file, i, q) {
      assert i in LineSet(lo, hi);
    }
  }

  /** The keys of an index over a bucket: the prefixes of the bucket prefix, and those beyond it. */
  lemma KeysOfBucket(file: File, pi: PI, p: Str, lo: nat, hi: nat, k: nat)
    requires lo < hi <= |file| && Within(file, lo, hi, p) && file[lo].Data?
    requires Index(file, pi, LineSet(lo, hi), k)
    ensures |pi| == |Longer(file, lo, hi, p)| + |p|
  {
    var short, long := Tails(p, 0), Longer(file, lo, hi, p);
    forall q
      ensures q in pi.Keys <==> q in short || q in long
      ensures !(q in short && q in long)
    {
      KeyIff(file, pi, lo, hi, k, q);
      LongerMember(file, lo, hi, p, q);
      ShortKey(file, p, lo, hi, q);
    }
    assert pi.Keys == short + long;
    TailsCount(p, 0);
    assert |pi| == |pi.Keys|;
  }

  lemma ShortKey(file: File, p: Str, lo: nat, hi: nat, q: Str)
    requires lo < hi <= |file| && Within(file, lo, hi, p) && file[lo].Data?
    ensures q in Tails(p, 0) <==> q != [] && q <= p
    ensures q <= p ==> Extends(file, lo, q)
    ensures (exists i :: lo <= i < hi && Extends(file, i, q)) ==> q <= p || (p <= q && |p| < |q|)
  {
    assert Extends(file, lo, p);
    if q <= p {
      assert p[..|q|] == q;
    }
    if i :| lo <= i < hi && Extends(file, i, q) {
      assert Extends(file, i, p);
      assert q == file[i].phrase[..|q|] && p == file[i].phrase[..|p|];
    }
  }

  // ---------------------------------------------------------------- building one job's index

  method IndexLines(ghost file: File, lines: seq<Line>, ghost lo: nat, k: nat) returns (pi: PI)
    requires k >= 1 && lo + |lines| <= |file| && lines == file[lo..lo + |lines|]
    ensures Index(file, pi, LineSet(lo, lo + |lines|), k)
    ensures fresh(HeapsOf(pi))
  {
    pi := map[];
    EmptyIndex(file, pi, LineSet(lo, lo), k);
    var n := 0;
    while n < |lines|
      invariant 0 <= n <= |lines|
      invariant Index(file, pi, LineSet(lo, lo + n), k)
      invariant fresh(HeapsOf(pi))
    {
      pi := IndexLine(file, pi, lo, lo + n, lines[n], k);
      n := n + 1;
    }
  }

  /** One key per distinct prefix: as many as the scan counted, plus the prefixes of the bucket
      prefix itself; each heap holds the k largest entries of its prefix among the job's lines. */
  method BuildPrefixIndex(file: File, job: BucketMetrics, k: nat, ghost span: Span) returns (pi: PI)
    requires WellFormed(file) && k >= 1 && JobOk(file, job, span)
    ensures Index(file, pi, LineSet(span.lo, span.hi), k)
    ensures |pi| == job.distinctPrefixes + |job.prefix|
    ensures fresh(HeapsOf(pi))
  {
    ReadRangeIsSlice(file, 0, span.lo, span.hi);
    var lines := ReadRange(file, 0, job.start, job.end);
    pi := IndexLines(file, lines, span.lo, k);
    KeysOfBucket(file, pi, job.prefix, span.lo, span.hi, k);
  }

  // ---------------------------------------------------------------- the memory estimator

  /** The phrase of the last phrase line before i, "" if there is none. */
  ghost function PrevPhrase(file: File, i: nat): Str
    requires i <= |file|
  {
    if i == 0 then []
    else if file[i - 1].Data? then file[i - 1].phrase
    else PrevPhrase(file, i - 1)
  }

  ghost function PrefixCount(file: File, i: nat): nat {
    |Longer(file, 0, i, [])|
  }

  lemma {:induction false} PrevLine(file: File, i: nat) returns (seen: bool, j: nat)
    requires i <= |file|
    ensures seen ==> LastData(file, j, i) && file[j].phrase == PrevPhrase(file, i)
    ensures !seen ==> PrevPhrase(file, i) == [] && Longer(file, 0, i, []) == {}
    ensures !seen ==> forall e :: 0 <= e < i ==> !file[e].Data?
  {
    if i == 0 {
      seen, j := false, 0;
    } else if file[i - 1].Data? {
      seen, j := true, i - 1;
    } else {
      seen, j := PrevLine(file, i - 1);
    }
  }

  lemma CountLine(file: File, i: nat, n: nat)
    requires Sorted(file) && i < |file| && file[i].Data?
    requires IsLcp(file[i].phrase, PrevPhrase(file, i), n)
    ensures PrefixCount(file, i + 1) == PrefixCount(file, i) + |file[i].phrase| - n
  {
    assert Extends(file, i, []);
    var seen, j := PrevLine(file, i);
    if seen {
      LineAdds(file, 0, j, i, [], n);
    } else {
      assert Longer(file, 0, i + 1, []) == Tails(file[i].phrase, 0);
      TailsCount(file[i].phrase, 0);
    }
  }

  /** The prefixes a line is estimated to add, from its neighbour only. */
  method CountNew(ghost file: File, ghost i: nat, line: Line, prev: Str) returns (added: int, prev': Str)
    requires Sorted(file) && i < |file| && file[i] == line && prev == PrevPhrase(file, i)
    ensures PrefixCount(file, i + 1) == PrefixCount(file, i) + added
    ensures prev' == PrevPhrase(file, i + 1)
  {
    if line.Data? {
      var shared := LongestCommonPrefix(line.phrase, prev);
      CountLine(file, i, shared);
      added, prev' := |line.phrase| - shared, line.phrase;
    } else {
      JunkAddsNone(file, 0, i, []);
      added, prev' := 0, prev;
    }
  }

  /** On a sorted file the estimate from neighbouring lines is the size of the real prefix map. */
  method EstimateMemory(file: File, k: nat) returns (distinctPrefixes: int, pi: PI)
    requires WellFormed(file) && Sorted(file) && k >= 1
    ensures Index(file, pi, LineSet(0, |file|), k)
    ensures distinctPrefixes == |pi|
  {
    var prev: Str := [];
    distinctPrefixes := 0;
    pi := map[];
    EmptyIndex(file, pi, LineSet(0, 0), k);
    var i := 0;
    while i < |file|
      invariant 0 <= i <= |file|
      invariant Index(file, pi, LineSet(0, i), k) && fresh(HeapsOf(pi))
      invariant prev == PrevPhrase(file, i) && distinctPrefixes == PrefixCount(file, i)
    {
      var added;
      added, prev := CountNew(file, i, file[i], prev);
      distinctPrefixes := distinctPrefixes + added;
      pi := IndexLine(file, pi, 0, i, file[i], k);
      i := i + 1;
    }
    AllKeys(file, pi, k);
  }

  lemma AllKeys(file: File, pi: PI, k: nat)
    requires Index(file, pi, LineSet(0, |file|), k)
    ensures |pi| == PrefixCount(file, |file|)
  {
    forall q
      ensures q in pi.Keys <==> q in Longer(file, 0, |file|, [])
    {
      KeyIff(file, pi, 0, |file|, k, q);
      LongerMember(file, 0, |file|, [], q);
    }
    assert pi.Keys == Longer(file, 0, |file|, []);
    assert |pi| == |pi.Keys|;
  }
}
