/** Merging the leaf indexes into the stored collection, and the seeding run as a whole. */
module Seeding {
  import opened Basics
  import opened Recos
  import opened Heaps
  import opened TopLists
  import opened Files
  import opened PhrasePools
  import opened Buckets
  import opened PrefixHeaps

  const BATCH_SIZE := 1000

  type Docs = map<Str, seq<Reco>>

  datatype IndexRecord = IndexRecord(prefix: Str, top: seq<Reco>)

  // ---------------------------------------------------------------- what one merge does

  /** At q the incoming list has been joined with the stored one, if any, keeping the k largest. */
  ghost predicate JoinedAt(now: Docs, was: Docs, q: Str, bag: multiset<Reco>, k: nat) {
    && q in now
    && if q in was then IsTopK(now[q], multiset(was[q]) + bag, k)
       else SortedDesc(now[q]) && multiset(now[q]) == bag
  }

  ghost predicate SameAt(now: Docs, was: Docs, q: Str) {
    (q in now <==> q in was) && (q in now ==> now[q] == was[q])
  }

  /** The records up to n have been joined, the other prefixes left alone. */
  ghost predicate FlushedAt(now: Docs, was: Docs, batch: seq<IndexRecord>, n: nat, k: nat, q: Str)
    requires n <= |batch|
  {
    && (forall i :: 0 <= i < n && batch[i].prefix == q ==> JoinedAt(now, was, q, multiset(batch[i].top), k))
    && ((forall i :: 0 <= i < n ==> batch[i].prefix != q) ==> SameAt(now, was, q))
  }

  ghost predicate DistinctPrefixes(batch: seq<IndexRecord>) {
    forall i, j :: 0 <= i < j < |batch| ==> batch[i].prefix != batch[j].prefix
  }

  ghost predicate SortedTops(batch: seq<IndexRecord>) {
    forall i :: 0 <= i < |batch| ==> SortedDesc(batch[i].top)
  }

  lemma FlushOne(now: Docs, mid: Docs, was: Docs, batch: seq<IndexRecord>, n: nat, k: nat, q: Str)
    requires n < |batch| && DistinctPrefixes(batch) && FlushedAt(mid, was, batch, n, k, q)
    requires now.Keys == mid.Keys + {batch[n].prefix}
    requires q != batch[n].prefix ==> SameAt(now, mid, q)
    requires q == batch[n].prefix ==> JoinedAt(now, was, q, multiset(batch[n].top), k)
    ensures FlushedAt(now, was, batch, n + 1, k, q)
  {
  }

  class Collection {
    var docs: Docs

    constructor ()
      ensures docs == map[]
    {
      docs := map[];
    }

    /** One bulk write: look up what is stored for the batch, insert the new prefixes, merge the
        others. */
    method Flush(batch: seq<IndexRecord>, k: nat)
      requires DistinctPrefixes(batch) && SortedTops(batch)
      modifies this
      ensures forall q :: FlushedAt(docs, old(docs), batch, |batch|, k, q)
    {
      var existing := docs;
      var n := 0;
      while n < |batch|
        invariant 0 <= n <= |batch|
        invariant forall q :: FlushedAt(docs, existing, batch, n, k, q)
      {
        ghost var mid := docs;
        var incoming := batch[n];
        assert FlushedAt(docs, existing, batch, n, k, incoming.prefix);
        if incoming.prefix !in existing {
          docs := docs[incoming.prefix := incoming.top];
        } else {
          var merged := MergeTop(existing[incoming.prefix], incoming.top, k);
          docs := docs[incoming.prefix := merged];
        }
        ghost var n' := n + 1;
        forall q
          ensures FlushedAt(docs, existing, batch, n', k, q)
        {
          assert FlushedAt(mid, existing, batch, n, k, q);
          FlushOne(docs, mid, existing, batch, n, k, q);
        }
        n := n + 1;
      }
    }
  }

  // ---------------------------------------------------------------- merging one leaf index

  /** The prefixes in done have been joined with their bags, the others left alone. */
  ghost predicate MergedAt(now: Docs, was: Docs, data: Docs, done: set<Str>, k: nat, q: Str) {
    if q in done then q in data && JoinedAt(now, was, q, multiset(data[q]), k) else SameAt(now, was, q)
  }

  ghost predicate Merged(now: Docs, was: Docs, data: Docs, done: set<Str>, k: nat) {
    forall q :: MergedAt(now, was, data, done, k, q)
  }

  ghost function PrefixesOf(batch: seq<IndexRecord>): set<Str> {
    set i | 0 <= i < |batch| :: batch[i].prefix
  }

  /** A batch of drained heaps waiting to be written. */
  ghost predicate Pending(batch: seq<IndexRecord>, data: Docs) {
    && DistinctPrefixes(batch) && SortedTops(batch)
    && forall i :: 0 <= i < |batch| ==>
         batch[i].prefix in data && multiset(batch[i].top) == multiset(data[batch[i].prefix])
  }

  /** Part way through a merge: what is neither remaining nor waiting in the batch is written. */
  ghost predicate InProgress(now: Docs, was: Docs, data: Docs, batch: seq<IndexRecord>, remaining: set<Str>, k: nat) {
    && Pending(batch, data) && PrefixesOf(batch) !! remaining
    && Merged(now, was, data, data.Keys - remaining - PrefixesOf(batch), k)
  }

  lemma FlushedBatch(now: Docs, mid: Docs, was: Docs, data: Docs, batch: seq<IndexRecord>, remaining: set<Str>, k: nat)
    requires InProgress(mid, was, data, batch, remaining, k)
    requires forall q :: FlushedAt(now, mid, batch, |batch|, k, q)
    ensures InProgress(now, was, data, [], remaining, k)
  {
    var before, after := data.Keys - remaining - PrefixesOf(batch), data.Keys - remaining - PrefixesOf([]);
    forall q
      ensures MergedAt(now, was, data, after, k, q)
    {
      assert MergedAt(mid, was, data, before, k, q) && FlushedAt(now, mid, batch, |batch|, k, q);
      if i :| 0 <= i < |batch| && batch[i].prefix == q {
        assert q in PrefixesOf(batch);
      }
    }
  }

  lemma TookRecord(now: Docs, was: Docs, data: Docs, batch: seq<IndexRecord>, remaining: set<Str>, k: nat,
                   r: IndexRecord)
    requires InProgress(now, was, data, batch, remaining, k)
    requires r.prefix in remaining && remaining <= data.Keys
    requires SortedDesc(r.top) && multiset(r.top) == multiset(data[r.prefix])
    ensures InProgress(now, was, data, batch + [r], remaining - {r.prefix}, k)
  {
    MorePending(batch, data, r);
    assert data.Keys - remaining - PrefixesOf(batch)
        == data.Keys - (remaining - {r.prefix}) - PrefixesOf(batch + [r]);
  }

  lemma MorePending(batch: seq<IndexRecord>, data: Docs, r: IndexRecord)
    requires Pending(batch, data) && r.prefix !in PrefixesOf(batch)
    requires r.prefix in data && SortedDesc(r.top) && multiset(r.top) == multiset(data[r.prefix])
    ensures Pending(batch + [r], data)
    ensures PrefixesOf(batch + [r]) == PrefixesOf(batch) + {r.prefix}
  {
    forall i | 0 <= i < |batch|
      ensures batch[i].prefix != r.prefix
    {
      assert batch[i].prefix in PrefixesOf(batch);
    }
    forall p
      ensures p in PrefixesOf(batch + [r]) <==> p in PrefixesOf(batch) + {r.prefix}
    {
      if i :| 0 <= i < |batch| && batch[i].prefix == p {
        assert (batch + [r])[i].prefix == p;
      }
      assert (batch + [r])[|batch|] == r;
    }
  }

  /** The heaps of the remaining prefixes still hold what they held at the start. */
  ghost predicate Untouched(pi: PI, data: Docs, remaining: set<Str>)
    reads HeapsOf(pi)
  {
    remaining <= pi.Keys == data.Keys && AllSeparate(pi)
    && forall q :: q in remaining ==> DataOf(pi)[q] == data[q] && Ordered(data[q], FreqKey)
  }

  /** Empty the heap of one prefix into a record. */
  method TakeRecord(pi: PI, prefix: Str, ghost data: Docs, ghost remaining: set<Str>) returns (r: IndexRecord)
    requires Untouched(pi, data, remaining) && prefix in remaining
    modifies HeapsOf(pi)
    ensures Untouched(pi, data, remaining - {prefix})
    ensures r.prefix == prefix && SortedDesc(r.top) && multiset(r.top) == multiset(data[prefix])
  {
    assert IsMinHeap(pi, prefix) && DataOf(pi)[prefix] == data[prefix];
    var top := DrainDescending(pi[prefix]);
    r := IndexRecord(prefix, top);
    forall q | q in remaining - {prefix}
      ensures DataOf(pi)[q] == data[q]
    {
      assert old(DataOf(pi))[q] == data[q];
      assert Separate(pi, q, prefix);
    }
  }

  /** Whichever element comes next, from a map or a channel. */
  method AnyOf<T>(remaining: set<T>) returns (x: T)
    requires remaining != {}
    ensures x in remaining
  {
    x :| x in remaining;
  }

  method WriteBatch(coll: Collection, batch: seq<IndexRecord>, k: nat,
                    ghost was: Docs, ghost data: Docs, ghost remaining: set<Str>)
    requires InProgress(coll.docs, was, data, batch, remaining, k)
    modifies coll
    ensures InProgress(coll.docs, was, data, [], remaining, k)
  {
    ghost var mid := coll.docs;
    coll.Flush(batch, k);
    FlushedBatch(coll.docs, mid, was, data, batch, remaining, k);
  }

  /** Write a leaf index to the collection in batches; the order of the prefixes is arbitrary. */
  method MergeIntoMongo(coll: Collection, pi: PI, k: nat)
    requires AllSeparate(pi) && forall q :: q in pi ==> Ordered(DataOf(pi)[q], FreqKey)
    modifies coll, HeapsOf(pi)
    ensures Merged(coll.docs, old(coll.docs), old(DataOf(pi)), pi.Keys, k)
  {
    ghost var was, data := coll.docs, DataOf(pi);
    var batch: seq<IndexRecord> := [];
    var remaining := pi.Keys;
    NothingWritten(was, data, k);
    while remaining != {}
      invariant Untouched(pi, data, remaining)
      invariant InProgress(coll.docs, was, data, batch, remaining, k)
      decreases |remaining|
    {
      var prefix := AnyOf(remaining);
      var record := TakeRecord(pi, prefix, data, remaining);
      TookRecord(coll.docs, was, data, batch, remaining, k, record);
      batch := batch + [record];
      remaining := remaining - {prefix};
      if |batch| == BATCH_SIZE {
        WriteBatch(coll, batch, k, was, data, remaining);
        batch := [];
      }
    }
    WriteBatch(coll, batch, k, was, data, remaining);
    assert data.Keys - {} - PrefixesOf([]) == pi.Keys;
  }

  lemma NothingWritten(was: Docs, data: Docs, k: nat)
    ensures InProgress(was, was, data, [], data.Keys, k)
  {
  }

  // ---------------------------------------------------------------- the whole run

  /** The stored list of q, present exactly when some selected line extends q, holds the k largest
      entries of the selected lines that extend q. */
  ghost predicate StoredAt(docs: Docs, file: File, sel: set<int>, k: nat, q: Str) {
    && (q in docs <==> q != [] && Pooled(file, sel, q) != multiset{})
    && (q in docs ==> IsTopK(docs[q], Pooled(file, sel, q), k))
  }

  ghost predicate Stored(docs: Docs, file: File, sel: set<int>, k: nat) {
    forall q :: StoredAt(docs, file, sel, k, q)
  }

  lemma JoinTops(out: seq<Reco>, a: multiset<Reco>, b: multiset<Reco>, A: multiset<Reco>, B: multiset<Reco>, k: nat)
    requires IsTopBag(a, A, k) && IsTopBag(b, B, k) && IsTopK(out, a + b, k)
    ensures IsTopK(out, A + B, k)
  {
    ReplaceByTop(out, a, A, b, k);
    assert A + b == b + A;
    ReplaceByTop(out, b, B, A, k);
    assert B + A == A + B;
  }

  lemma LeafStoredAt(now: Docs, was: Docs, data: Docs, file: File, sel: set<int>, leaf: set<int>, k: nat, q: Str)
    requires sel !! leaf && StoredAt(was, file, sel, k, q) && EntryOk(data, q, Pooled(file, leaf, q), k)
    requires MergedAt(now, was, data, data.Keys, k, q)
    ensures StoredAt(now, file, sel + leaf, k, q)
  {
    PoolUnion(file, |file|, sel, leaf, q);
    var old', new' := Pooled(file, sel, q), Pooled(file, leaf, q);
    assert Pooled(file, sel + leaf, q) == old' + new';
    if q in data {
      if q in was {
        JoinTops(now[q], multiset(was[q]), multiset(data[q]), old', new', k);
      } else {
        assert old' + new' == new';
      }
    } else if q != [] {
      assert old' + new' == old';
    }
  }

  /** Merging a leaf whose lines have not been stored yet. */
  method StoreLeaf(file: File, coll: Collection, job: BucketMetrics, k: nat, ghost span: Span, ghost sel: set<int>)
    requires WellFormed(file) && k >= 1 && JobOk(file, job, span)
    requires Stored(coll.docs, file, sel, k) && sel !! LineSet(span.lo, span.hi)
    modifies coll
    ensures Stored(coll.docs, file, sel + LineSet(span.lo, span.hi), k)
  {
    ghost var was, leaf := coll.docs, LineSet(span.lo, span.hi);
    var pi := BuildPrefixIndex(file, job, k, span);
    ghost var data := DataOf(pi);
    forall q | q in pi
      ensures Ordered(DataOf(pi)[q], FreqKey)
    {
      assert EntryOk(data, q, Pooled(file, leaf, q), k);
    }
    MergeIntoMongo(coll, pi, k);
    ghost var after := sel + leaf;
    forall q
      ensures StoredAt(coll.docs, file, after, k, q)
    {
      assert StoredAt(was, file, sel, k, q) && EntryOk(data, q, Pooled(file, leaf, q), k);
      assert MergedAt(coll.docs, was, data, pi.Keys, k, q);
      LeafStoredAt(coll.docs, was, data, file, sel, leaf, k, q);
    }
  }

  /** Line i belongs to one of the jobs whose results have been merged. */
  ghost predicate LineDone(spans: seq<Span>, remaining: set<nat>, i: int) {
    exists m: nat :: m !in remaining && InSpan(spans, m, i)
  }

  ghost function LinesDone(file: File, spans: seq<Span>, remaining: set<nat>): set<int> {
    set i | 0 <= i < |file| && LineDone(spans, remaining, i)
  }

  lemma MoreLinesDone(file: File, jobs: seq<BucketMetrics>, spans: seq<Span>, remaining: set<nat>, m: nat)
    requires Split(file, jobs, spans, 0, |file|) && m in remaining && m < |spans|
    ensures LinesDone(file, spans, remaining) !! LineSet(spans[m].lo, spans[m].hi)
    ensures LinesDone(file, spans, remaining - {m})
         == LinesDone(file, spans, remaining) + LineSet(spans[m].lo, spans[m].hi)
  {
    assert SpanInside(spans, 0, |file|, m);
    forall i
      ensures !(i in LinesDone(file, spans, remaining) && i in LineSet(spans[m].lo, spans[m].hi))
      ensures i in LinesDone(file, spans, remaining - {m})
         <==> i in LinesDone(file, spans, remaining) || i in LineSet(spans[m].lo, spans[m].hi)
    {
      if l: nat :| l !in remaining && InSpan(spans, l, i) {
        assert SpansApart(spans, l, m) && SpansApart(spans, m, l);
        assert l !in remaining - {m} && InSpan(spans, l, i);
      }
      assert i in LineSet(spans[m].lo, spans[m].hi) ==> InSpan(spans, m, i);
    }
  }

  /** The lines whose phrase is not over budget: by Split, the lines that reach a job. */
  ghost function Reached(file: File): set<int> {
    set i | 0 <= i < |file| && IsReached(file, i)
  }

  ghost predicate IsReached(file: File, i: nat)
    requires i < |file|
  {
    file[i].Data? && !OverBudget(file, file[i].phrase)
  }

  lemma AllLinesDone(file: File, jobs: seq<BucketMetrics>, spans: seq<Span>, q: Str)
    requires Split(file, jobs, spans, 0, |file|)
    ensures Pooled(file, LinesDone(file, spans, {}), q) == Pooled(file, Reached(file), q)
  {
    forall i | 0 <= i < |file| && file[i].Data?
      ensures i in LinesDone(file, spans, {}) <==> i in Reached(file)
    {
      assert CoveredAt(file, spans, 0, |file|, i);
      if m :| InSpan(spans, m, i) {
        assert InSpan(spans, m as nat, i);
      }
    }
    PoolSame(file, |file|, LinesDone(file, spans, {}), Reached(file), q);
  }

  lemma NothingStored(file: File, spans: seq<Span>, remaining: set<nat>, k: nat)
    requires forall m: nat :: m < |spans| ==> m in remaining
    ensures Stored(map[], file, LinesDone(file, spans, remaining), k)
  {
    forall q
      ensures StoredAt(map[], file, LinesDone(file, spans, remaining), k, q)
    {
      PoolEmptyIff(file, |file|, LinesDone(file, spans, remaining), q);
    }
  }

  function Indices(n: nat): (r: set<nat>)
    ensures forall m: nat :: m in r <==> m < n
  {
    if n == 0 then {} else Indices(n - 1) + {n - 1}
  }

  /** A non-empty q has a list exactly when some line extends it, and then the k largest of all lines that do. */
  ghost predicate HasTopOfAll(docs: Docs, file: File, k: nat, q: Str) {
    q != [] ==>
      && (q in docs <==> exists i :: Extends(file, i, q))
      && (q in docs ==> IsTopK(docs[q], Pooled(file, LineSet(0, |file|), q), k))
  }

  /** A phrase reaches a leaf exactly when at most 4194304 distinct prefixes go beyond it: 500 MB at 125
      bytes each. */
  lemma ReachedIff(file: File, i: nat)
    requires i < |file|
    ensures i in Reached(file) <==> file[i].Data? && |Longer(file, 0, |file|, file[i].phrase)| <= 4_194_304
  {
    assert i in Reached(file) <==> IsReached(file, i);
  }

  /** In a file with no more distinct prefixes than that, every phrase is reached. */
  lemma SmallFileReached(file: File, i: nat)
    requires |Longer(file, 0, |file|, [])| <= 4_194_304 && i < |file| && file[i].Data?
    ensures i in Reached(file)
  {
    LongerShrinks(file, 0, |file|, [], file[i].phrase);
    ReachedIff(file, i);
  }

  lemma SmallFileStored(docs: Docs, file: File, k: nat)
    requires |Longer(file, 0, |file|, [])| <= 4_194_304 && Stored(docs, file, Reached(file), k)
    ensures forall q :: HasTopOfAll(docs, file, k, q)
  {
    forall q
      ensures HasTopOfAll(docs, file, k, q)
    {
      assert StoredAt(docs, file, Reached(file), k, q);
      forall i | 0 <= i < |file| && Extends(file, i, q)
        ensures i in Reached(file) <==> i in LineSet(0, |file|)
      {
        SmallFileReached(file, i);
      }
      PoolSame(file, |file|, Reached(file), LineSet(0, |file|), q);
      PoolEmptyIff(file, |file|, LineSet(0, |file|), q);
    }
  }

  /** Split the file, build every leaf, merge the results in whatever order they arrive: each stored
      list is the top k over all phrases of its prefix that are not over budget. */
  method Seed(file: File, k: nat) returns (coll: Collection)
    requires WellFormed(file) && Sorted(file) && k >= 1
    ensures fresh(coll) && Stored(coll.docs, file, Reached(file), k)
    ensures |Longer(file, 0, |file|, [])| <= 4_194_304 ==> forall q :: HasTopOfAll(coll.docs, file, k, q)
  {
    coll := new Collection();
    WholeFile(file);
    var jobs := ProcessBucket(file, [], 0, Off(file, |file|), 0, |file|);
    ghost var spans :| Split(file, jobs, spans, 0, |file|);
    var remaining: set<nat> := Indices(|jobs|);
    NothingStored(file, spans, remaining, k);
    while remaining != {}
      invariant forall m :: m in remaining ==> m < |jobs|
      invariant Stored(coll.docs, file, LinesDone(file, spans, remaining), k)
      decreases |remaining|
    {
      var m := AnyOf(remaining);
      assert JobAt(file, jobs, spans, m);
      MoreLinesDone(file, jobs, spans, remaining, m);
      StoreLeaf(file, coll, jobs[m], k, spans[m], LinesDone(file, spans, remaining));
      remaining := remaining - {m};
    }
    forall q
      ensures StoredAt(coll.docs, file, Reached(file), k, q)
    {
      assert StoredAt(coll.docs, file, LinesDone(file, spans, {}), k, q);
      AllLinesDone(file, jobs, spans, q);
    }
    if |Longer(file, 0, |file|, [])| <= 4_194_304 {
      SmallFileStored(coll.docs, file, k);
    }
  }

  lemma WholeFile(file: File)
    ensures Bucket(file, [], 0, |file|)
  {
  }

  // ---------------------------------------------------------------- phrases the seeder loses

  lemma {:induction false} PoolHas(file: File, n: nat, sel: set<int>, q: Str, r: Reco)
    requires n <= |file|
    ensures r in PoolSel(file, n, sel, q) <==>
      exists i :: 0 <= i < n && i in sel && Extends(file, i, q) && Entry(file[i]) == r
  {
    if n > 0 {
      PoolHas(file, n - 1, sel, q, r);
      if i :| 0 <= i < n && i in sel && Extends(file, i, q) && Entry(file[i]) == r {
        assert i == n - 1 || i < n - 1;
      }
    }
  }

  /** With room for every entry, the list stored under a phrase's own text contains the phrase
      exactly when the phrase is not over budget: a split bucket loses its own prefix. */
  lemma StoredIffInBudget(docs: Docs, file: File, k: nat, i: nat)
    requires i < |file| && file[i].Data? && file[i].phrase != []
    requires Stored(docs, file, Reached(file), k)
    requires |Pooled(file, Reached(file), file[i].phrase)| <= k
    ensures (file[i].phrase in docs && Entry(file[i]) in docs[file[i].phrase]) <==> !OverBudget(file, file[i].phrase)
  {
    var q, r := file[i].phrase, Entry(file[i]);
    var pool := Pooled(file, Reached(file), q);
    assert StoredAt(docs, file, Reached(file), k, q) && Extends(file, i, q);
    PoolHas(file, |file|, Reached(file), q, r);
    if q in docs {
      EqualSizeSubBag(multiset(docs[q]), pool);
      assert r in docs[q] <==> r in multiset(docs[q]);
    }
    if IsReached(file, i) {
      assert i in Reached(file);
    }
    if j :| 0 <= j < |file| && j in Reached(file) && Extends(file, j, q) && Entry(file[j]) == r {
      assert IsReached(file, j) && file[j].phrase == q;
    }
  }

  /** A phrase that is over budget is in no stored list at all. */
  lemma OverBudgetIsNowhere(docs: Docs, file: File, k: nat, i: nat)
    requires i < |file| && file[i].Data? && OverBudget(file, file[i].phrase)
    requires Stored(docs, file, Reached(file), k)
    ensures forall q :: q in docs ==> Entry(file[i]) !in docs[q]
  {
    forall q | q in docs
      ensures Entry(file[i]) !in docs[q]
    {
      assert StoredAt(docs, file, Reached(file), k, q);
      PoolHas(file, |file|, Reached(file), q, Entry(file[i]));
      assert Entry(file[i]) in docs[q] <==> Entry(file[i]) in multiset(docs[q]);
    }
  }

  /** A file with the one-rune phrase c, and m phrases that start with c and go on with n copies of one
      rune, another one on each line.  A size counts the runes, a tab, a digit and the newline. */
  function WideFile(c: Rune, first: int, m: nat, n: nat): File {
    [Data([c], 1, 4)] + seq(m, i => Data([c] + Repeat(Rune(first + i), n), 1, n + 4))
  }

  /** Two lines of it share just the first rune. */
  lemma WideLines(c: Rune, first: int, m: nat, n: nat, i: nat, j: nat)
    requires i < j <= m
    ensures var file := WideFile(c, first, m, n);
      && file[i].phrase[0] == file[j].phrase[0] == c && |file[j].phrase| == n + 1
      && Leq(file[i].phrase, file[j].phrase) && IsLcp(file[j].phrase, file[i].phrase, 1)
  {
    var file := WideFile(c, first, m, n);
    var a, b := file[i].phrase, file[j].phrase;
    assert b == [c] + Repeat(Rune(first + j - 1), n);
    assert a == if i == 0 then [c] else [c] + Repeat(Rune(first + i - 1), n);
    assert b[1..] == Repeat(Rune(first + j - 1), n);
    assert a[1..] == if i == 0 then [] else Repeat(Rune(first + i - 1), n);
    assert Leq(a[1..], b[1..]);
    assert a[..1] == [c] == b[..1];
  }

  lemma WideFileSorted(c: Rune, first: int, m: nat, n: nat)
    ensures WellFormed(WideFile(c, first, m, n)) && Sorted(WideFile(c, first, m, n))
  {
    var file := WideFile(c, first, m, n);
    forall i, j
      ensures InOrder(file, i, j)
    {
      if 0 <= i < j < |file| {
        WideLines(c, first, m, n, i, j);
      }
    }
  }

  /** Every line after the first adds n prefixes longer than c. */
  lemma {:induction false} WideFileCount(c: Rune, first: int, m: nat, n: nat, hi: nat)
    requires 1 <= hi <= m + 1
    ensures |Longer(WideFile(c, first, m, n), 0, hi, [c])| == (hi - 1) * n
    decreases hi
  {
    var file := WideFile(c, first, m, n);
    if hi == 1 {
      assert Extends(file, 0, [c]);
      FirstLineAdds(file, 0, [c]);
    } else {
      var i := hi - 1;
      WideFileCount(c, first, m, n, i);
      WideFileSorted(c, first, m, n);
      WideLines(c, first, m, n, i - 1, i);
      assert [c] <= file[i].phrase && Extends(file, i, [c]);
      LineAdds(file, 0, i - 1, i, [c], 1);
      assert (hi - 1) * n == (i - 1) * n + n;
    }
  }

  /** Its first phrase is over budget when the others together are long enough. */
  lemma WideFileLosesFirst(c: Rune, first: int, m: nat, n: nat)
    requires m * n * BYTES_PER_PREFIX > MEMORY_BUDGET
    ensures var file := WideFile(c, first, m, n);
      file[0].phrase == [c] && OverBudget(file, [c]) && 0 !in Reached(file)
  {
    WideFileCount(c, first, m, n, m + 1);
    assert !IsReached(WideFile(c, first, m, n), 0);
  }

  const TOKEN_LIMIT := 64 * 1024

  /** A sorted file of 71 lines, none over the scanner's token limit, whose first phrase is lost: no list
      that a run of the seeder stores has it. */
  lemma LostPhrase(docs: Docs, k: nat)
    ensures var file := WideFile(Rune(97), 33, 70, 60000);
      && WellFormed(file) && Sorted(file) && file[0] == Data([Rune(97)], 1, 4)
      && (forall i :: 0 <= i < |file| ==> file[i].size < TOKEN_LIMIT)
      && OverBudget(file, file[0].phrase) && 0 !in Reached(file)
      && (Stored(docs, file, Reached(file), k) ==> forall q :: q in docs ==> Entry(file[0]) !in docs[q])
  {
    var file := WideFile(Rune(97), 33, 70, 60000);
    WideFileSorted(Rune(97), 33, 70, 60000);
    WideFileLosesFirst(Rune(97), 33, 70, 60000);
    if Stored(docs, file, Reached(file), k) {
      OverBudgetIsNowhere(docs, file, k, 0);
    }
  }
}
