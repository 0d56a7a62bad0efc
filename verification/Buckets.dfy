/** Splitting the sorted file into buckets that fit the memory budget: Scan and processBucket. */
module Buckets {
  import opened Recos
  import opened Files

  const BYTES_PER_PREFIX := 125
  const MEMORY_BUDGET := 500 * 1024 * 1024

  datatype BucketMetrics = BucketMetrics(prefix: Str, start: nat, end: nat, distinctPrefixes: nat)

  /** The lines a bucket covers. */
  datatype Span = Span(lo: nat, hi: nat)

  /** Every phrase between the lines lo and hi extends p. */
  ghost predicate Within(file: File, lo: nat, hi: nat, p: Str) {
    forall i :: lo <= i < hi && i < |file| && file[i].Data? ==> Extends(file, i, p)
  }

  /** Every line whose phrase extends p lies between lo and hi. */
  ghost predicate Holds(file: File, lo: nat, hi: nat, p: Str) {
    forall i :: Extends(file, i, p) ==> lo <= i < hi
  }

  // ---------------------------------------------------------------- one scan

  /** A child bucket covering the lines from a up to z: all of them extend its prefix, and its
      count is the number of distinct prefixes strictly longer than its own. */
  ghost predicate PieceOk(file: File, prefix: Str, b: BucketMetrics, a: nat, z: nat) {
    && a < z <= |file| && file[a].Data?
    && b.start == Off(file, a) && b.end == Off(file, z)
    && |b.prefix| == |prefix| + 1 && prefix <= b.prefix
    && Within(file, a, z, b.prefix)
    && b.distinctPrefixes == |Longer(file, a, z, b.prefix)|
  }

  ghost predicate PieceAt(file: File, prefix: Str, children: seq<BucketMetrics>, cuts: seq<nat>, m: int) {
    0 <= m < |children| && m + 1 < |cuts| ==> PieceOk(file, prefix, children[m], cuts[m], cuts[m + 1])
  }

  ghost predicate PrefixChanges(children: seq<BucketMetrics>, m: int) {
    0 <= m && m + 1 < |children| ==> children[m].prefix != children[m + 1].prefix
  }

  /** Consecutive pieces, each starting at the line where the one before ends. */
  ghost predicate Pieces(file: File, prefix: Str, children: seq<BucketMetrics>, cuts: seq<nat>) {
    && |cuts| == |children| + 1
    && (forall m :: PieceAt(file, prefix, children, cuts, m))
    && (forall m :: PrefixChanges(children, m))
  }

  lemma MorePieces(file: File, prefix: Str, children: seq<BucketMetrics>, cuts: seq<nat>, b: BucketMetrics, z: nat)
    requires Pieces(file, prefix, children, cuts)
    requires PieceOk(file, prefix, b, cuts[|children|], z)
    requires children != [] ==> children[|children| - 1].prefix != b.prefix
    ensures Pieces(file, prefix, children + [b], cuts + [z])
  {
    var children', cuts' := children + [b], cuts + [z];
    forall m
      ensures PieceAt(file, prefix, children', cuts', m)
    {
      assert PieceAt(file, prefix, children, cuts, m);
    }
    forall m
      ensures PrefixChanges(children', m)
    {
      assert PrefixChanges(children, m);
    }
  }

  /** The child bucket the scan is in: it starts at line a, the scan stands before line i, and the
      last phrase seen is on line j. */
  ghost predicate OpenChild(file: File, prefix: Str, child: Str, a: nat, j: nat, i: nat,
                            childStart: int, childDP: int, prevPhrase: Str) {
    && a <= j < i <= |file| && file[a].Data? && LastData(file, j, i) && file[j].phrase == prevPhrase
    && |child| == |prefix| + 1 && prefix <= child
    && Within(file, a, i, child)
    && childStart == Off(file, a) && childDP == |Longer(file, a, i, child)|
  }

  /** No phrase seen so far goes beyond the prefix. */
  ghost predicate NothingYet(file: File, lo: nat, i: nat, prefix: Str) {
    forall e :: lo <= e < i && e < |file| && file[e].Data? ==> |file[e].phrase| <= |prefix|
  }

  lemma OpenedChild(file: File, prefix: Str, child: Str, i: nat)
    requires i < |file| && Extends(file, i, child) && |child| == |prefix| + 1 && prefix <= child
    ensures OpenChild(file, prefix, child, i, i, i + 1, Off(file, i), |file[i].phrase| - |child|, file[i].phrase)
  {
    FirstLineAdds(file, i, child);
  }

  lemma GrownChild(file: File, prefix: Str, child: Str, a: nat, j: nat, i: nat,
                   childStart: int, childDP: int, prevPhrase: Str, n: nat)
    requires Sorted(file) && OpenChild(file, prefix, child, a, j, i, childStart, childDP, prevPhrase)
    requires i < |file| && Extends(file, i, child) && IsLcp(file[i].phrase, prevPhrase, n)
    ensures OpenChild(file, prefix, child, a, i, i + 1, childStart,
                      childDP + |file[i].phrase| - Max(|prefix| + 1, n), file[i].phrase)
  {
    LineAdds(file, a, j, i, child, n);
  }

  lemma SkippedJunk(file: File, prefix: Str, child: Str, a: nat, j: nat, i: nat,
                    childStart: int, childDP: int, prevPhrase: Str)
    requires OpenChild(file, prefix, child, a, j, i, childStart, childDP, prevPhrase)
    requires i < |file| && !file[i].Data?
    ensures OpenChild(file, prefix, child, a, j, i + 1, childStart, childDP, prevPhrase)
  {
    JunkAddsNone(file, a, i, child);
  }

  /** After a phrase beyond the prefix, every phrase of a sorted bucket goes beyond it. */
  lemma NoShortAfter(file: File, prefix: Str, a: nat, i: nat)
    requires Sorted(file) && a < i < |file| && file[i].Data?
    requires Extends(file, a, prefix) && Extends(file, i, prefix) && |file[a].phrase| > |prefix|
    ensures |file[i].phrase| > |prefix|
  {
    if |file[i].phrase| <= |prefix| {
      assert file[i].phrase == prefix;
      assert InOrder(file, a, i);
      PrefixFirst(prefix, file[a].phrase);
    }
  }

  /** Where a scan stands before line i; cuts are the first lines of the children so far. */
  ghost predicate Scanning(file: File, prefix: Str, lo: nat, i: nat, children: seq<BucketMetrics>, cuts: seq<nat>,
                           child: Str, j: nat, childStart: int, childDP: int, prevPhrase: Str) {
    if child == [] then
      children == [] && cuts == [] && NothingYet(file, lo, i, prefix)
    else
      && Pieces(file, prefix, children, cuts)
      && lo <= cuts[0] && NothingYet(file, lo, cuts[0], prefix)
      && OpenChild(file, prefix, child, cuts[|children|], j, i, childStart, childDP, prevPhrase)
      && (children != [] ==> children[|children| - 1].prefix != child)
  }

  /** What a scan of the lines from lo to hi returns. */
  ghost predicate Scanned(file: File, prefix: Str, lo: nat, hi: nat, children: seq<BucketMetrics>, cuts: seq<nat>) {
    if children == [] then
      NothingYet(file, lo, hi, prefix)
    else
      && Pieces(file, prefix, children, cuts)
      && lo <= cuts[0] && NothingYet(file, lo, cuts[0], prefix)
      && cuts[|children|] == hi
  }

  /** Complete the child the scan is in at line z. */
  method CloseChild(ghost file: File, ghost prefix: Str, ghost lo: nat, ghost z: nat,
                    children: seq<BucketMetrics>, ghost cuts: seq<nat>, child: Str, ghost j: nat,
                    childStart: int, end: int, childDP: int, ghost prevPhrase: Str)
    returns (children': seq<BucketMetrics>)
    requires Scanning(file, prefix, lo, z, children, cuts, child, j, childStart, childDP, prevPhrase)
    requires z <= |file| && end == Off(file, z)
    ensures child == [] ==> children' == children
    ensures child != [] ==>
      && |children'| == |children| + 1 && children'[|children|].prefix == child
      && Pieces(file, prefix, children', cuts + [z])
    ensures Scanned(file, prefix, lo, z, children', if child == [] then cuts else cuts + [z])
  {
    children' := children;
    if child != [] {
      var b := BucketMetrics(child, childStart, end, childDP);
      MorePieces(file, prefix, children, cuts, b, z);
      children' := children + [b];
    }
  }

  lemma ScanStarts(file: File, prefix: Str, lo: nat, childDP: int)
    ensures Scanning(file, prefix, lo, lo, [], [], [], lo, 0, childDP, [])
  {
  }

  /** A line without a phrase changes nothing but the position. */
  lemma ScanSkips(file: File, prefix: Str, lo: nat, i: nat, children: seq<BucketMetrics>, cuts: seq<nat>,
                  child: Str, j: nat, childStart: int, childDP: int, prevPhrase: Str)
    requires Scanning(file, prefix, lo, i, children, cuts, child, j, childStart, childDP, prevPhrase)
    requires i < |file| && !file[i].Data?
    ensures Scanning(file, prefix, lo, i + 1, children, cuts, child, j, childStart, childDP, prevPhrase)
  {
    if child != [] {
      SkippedJunk(file, prefix, child, cuts[|children|], j, i, childStart, childDP, prevPhrase);
    }
  }

  method Scan(file: File, prefix: Str, start: nat, end: nat, ghost lo: nat, ghost hi: nat)
    returns (children: seq<BucketMetrics>)
    requires WellFormed(file) && Sorted(file)
    requires lo <= hi <= |file| && start == Off(file, lo) && end == Off(file, hi)
    requires Within(file, lo, hi, prefix)
    ensures exists cuts :: Scanned(file, prefix, lo, hi, children, cuts)
  {
    hide Scanning, Scanned;
    ReadRangeIsSlice(file, 0, lo, hi);
    var lines := ReadRange(file, 0, start, end);
    assert lines == file[lo..hi];
    children := [];
    ghost var cuts: seq<nat> := [];
    var currentChild: Str := [];
    var childStart, childDP := 0, 1;
    var prevPhrase: Str := [];
    var offset := 0;
    ghost var j := lo;
    ScanStarts(file, prefix, lo, childDP);
    var n := 0;
    while n < |lines|
      invariant 0 <= n <= |lines| && start + offset == Off(file, lo + n)
      invariant Scanning(file, prefix, lo, lo + n, children, cuts, currentChild, j, childStart, childDP, prevPhrase)
    {
      ghost var i := lo + n;
      var line := lines[n];
      assert line == file[i];
      var lineSize := line.size;
      offset := offset + lineSize;
      if line.Junk? {
        ScanSkips(file, prefix, lo, i, children, cuts, currentChild, j, childStart, childDP, prevPhrase);
      } else {
        children, cuts, currentChild, j, childStart, childDP, prevPhrase :=
          ScanPhrase(file, prefix, start + offset - lineSize, line.phrase, lo, i, children, cuts,
                     currentChild, j, childStart, childDP, prevPhrase);
      }
      n := n + 1;
    }
    children := CloseChild(file, prefix, lo, hi, children, cuts, currentChild, j, childStart,
                           start + offset, childDP, prevPhrase);
  }

  /** One parsed phrase of the scan. */
  method ScanPhrase(ghost file: File, prefix: Str, lineStart: int, phrase: Str, ghost lo: nat, ghost i: nat,
                    children: seq<BucketMetrics>, ghost cuts: seq<nat>, currentChild: Str, ghost j: nat,
                    childStart: int, childDP: int, prevPhrase: Str)
    returns (children': seq<BucketMetrics>, ghost cuts': seq<nat>, currentChild': Str, ghost j': nat,
             childStart': int, childDP': int, prevPhrase': Str)
    requires Sorted(file) && lo <= i < |file| && file[i].Data? && file[i].phrase == phrase
    requires Extends(file, i, prefix) && lineStart == Off(file, i)
    requires Scanning(file, prefix, lo, i, children, cuts, currentChild, j, childStart, childDP, prevPhrase)
    ensures Scanning(file, prefix, lo, i + 1, children', cuts', currentChild', j', childStart', childDP', prevPhrase')
  {
    children', cuts', currentChild', j', childStart', childDP', prevPhrase' :=
      children, cuts, currentChild, j, childStart, childDP, prevPhrase;
    if currentChild != [] {
      ghost var a := cuts[|children|];
      assert Extends(file, a, currentChild);
      NoShortAfter(file, prefix, a, i);
    }
    if |phrase| <= |prefix| {
      return;
    }
    if |prefix| > 0 && !(prefix <= phrase) {
      assert false;
    }
    var child := phrase[..|prefix| + 1];
    if child != currentChild {
      children' := CloseChild(file, prefix, lo, i, children, cuts, currentChild, j, childStart,
                              lineStart, childDP, prevPhrase);
      cuts' := cuts + [i];
      j' := i;
      currentChild', childStart', childDP', prevPhrase' := child, lineStart, 0, [];
      OpenedChild(file, prefix, child, i);
    }
    var shared := LongestCommonPrefix(phrase, prevPhrase');
    childDP' := childDP' + |phrase| - Max(|prefix| + 1, shared);
    if child == currentChild {
      GrownChild(file, prefix, child, cuts[|children|], j, i, childStart, childDP, prevPhrase, shared);
      j' := i;
    }
    prevPhrase' := phrase;
  }

  // ---------------------------------------------------------------- the pieces of a scan are complete

  /** Every line of the file that extends a child's prefix lies inside that child's piece. */
  lemma PieceHolds(file: File, prefix: Str, lo: nat, hi: nat, children: seq<BucketMetrics>, cuts: seq<nat>, m: nat)
    requires Sorted(file) && Within(file, lo, hi, prefix) && Holds(file, lo, hi, prefix)
    requires children != [] && Scanned(file, prefix, lo, hi, children, cuts) && hi <= |file| && m < |children|
    ensures Holds(file, cuts[m], cuts[m + 1], children[m].prefix)
  {
    var p := children[m].prefix;
    assert PieceAt(file, prefix, children, cuts, m);
    forall e | Extends(file, e, p)
      ensures cuts[m] <= e < cuts[m + 1]
    {
      assert Extends(file, e, prefix);
      CutsGrow(file, prefix, children, cuts, 0, m);
      if cuts[0] <= e {
        var l := PieceOf(file, prefix, children, cuts, e);
        assert PieceAt(file, prefix, children, cuts, l);
        SamePrefix(p, children[l].prefix, file[e].phrase);
        if l < m {
          NextPieceShares(file, prefix, children, cuts, l, m, e);
        } else if m < l {
          NextPieceShares(file, prefix, children, cuts, m, l, cuts[m]);
        }
      }
    }
  }

  lemma SamePrefix(p: Str, q: Str, s: Str)
    requires p <= s && q <= s && |p| == |q|
    ensures p == q
  {
  }

  lemma {:induction false} CutsGrow(file: File, prefix: Str, children: seq<BucketMetrics>, cuts: seq<nat>,
                                    l: nat, m: nat)
    requires Pieces(file, prefix, children, cuts) && l <= m <= |children|
    ensures cuts[l] <= cuts[m] && (l < m ==> cuts[l] < cuts[m])
    decreases m
  {
    if l < m {
      CutsGrow(file, prefix, children, cuts, l, m - 1);
      assert PieceAt(file, prefix, children, cuts, m - 1);
    }
  }

  lemma {:induction false} PieceOf(file: File, prefix: Str, children: seq<BucketMetrics>, cuts: seq<nat>, e: nat)
    returns (l: nat)
    requires Pieces(file, prefix, children, cuts) && children != []
    requires cuts[0] <= e < cuts[|children|]
    ensures l < |children| && cuts[l] <= e < cuts[l + 1]
  {
    l := 0;
    while cuts[l + 1] <= e
      invariant l < |children| && cuts[l] <= e
      decreases |children| - l
    {
      l := l + 1;
    }
  }

  /** Two pieces with the same prefix would make all pieces between them share it. */
  lemma NextPieceShares(file: File, prefix: Str, children: seq<BucketMetrics>, cuts: seq<nat>, l: nat, m: nat, e: nat)
    requires Sorted(file) && Pieces(file, prefix, children, cuts) && l < m < |children|
    requires cuts[l] <= e < cuts[l + 1] && Extends(file, e, children[l].prefix)
    ensures children[l].prefix != children[m].prefix
  {
    var p := children[l].prefix;
    assert PrefixChanges(children, l);
    if p == children[m].prefix {
      assert PieceAt(file, prefix, children, cuts, l + 1) && PieceAt(file, prefix, children, cuts, m);
      assert PieceAt(file, prefix, children, cuts, l);
      CutsGrow(file, prefix, children, cuts, l + 1, m);
      assert Extends(file, cuts[m], p);
      BetweenLines(file, p, e, cuts[l + 1], cuts[m]);
      assert Extends(file, cuts[l + 1], children[l + 1].prefix);
      SamePrefix(p, children[l + 1].prefix, file[cuts[l + 1]].phrase);
    }
  }

  // ---------------------------------------------------------------- the recursive split

  /** The stretch of the file a bucket is responsible for: exactly the phrases extending p. */
  ghost predicate Bucket(file: File, p: Str, lo: nat, hi: nat) {
    lo <= hi <= |file| && Within(file, lo, hi, p) && Holds(file, lo, hi, p)
  }

  /** A phrase is over budget when too many distinct prefixes go beyond it; it is then the prefix
      of a bucket that gets split. */
  ghost predicate OverBudget(file: File, w: Str) {
    |Longer(file, 0, |file|, w)| * BYTES_PER_PREFIX > MEMORY_BUDGET
  }

  /** A queued build job: it covers whole lines, exactly those extending its prefix, and its count
      of distinct longer prefixes is exact and fits the budget. */
  ghost predicate JobOk(file: File, job: BucketMetrics, span: Span) {
    && span.lo < span.hi && Bucket(file, job.prefix, span.lo, span.hi)
    && file[span.lo].Data? && job.prefix != []
    && job.start == Off(file, span.lo) && job.end == Off(file, span.hi)
    && job.distinctPrefixes == |Longer(file, span.lo, span.hi, job.prefix)|
    && job.distinctPrefixes * BYTES_PER_PREFIX <= MEMORY_BUDGET
  }

  ghost predicate JobAt(file: File, jobs: seq<BucketMetrics>, spans: seq<Span>, m: int) {
    0 <= m < |jobs| && m < |spans| ==> JobOk(file, jobs[m], spans[m])
  }

  /** The spans come in file order and do not overlap. */
  ghost predicate SpansApart(spans: seq<Span>, l: int, m: int) {
    0 <= l < m < |spans| ==> spans[l].hi <= spans[m].lo
  }

  ghost predicate SpanInside(spans: seq<Span>, lo: nat, hi: nat, m: int) {
    0 <= m < |spans| ==> lo <= spans[m].lo && spans[m].hi <= hi
  }

  ghost predicate InSpan(spans: seq<Span>, m: int, i: int) {
    0 <= m < |spans| && spans[m].lo <= i < spans[m].hi
  }

  ghost predicate Covered(spans: seq<Span>, i: int) {
    exists m :: InSpan(spans, m, i)
  }

  /** A phrase line reaches a job exactly when its phrase is not over budget. */
  ghost predicate CoveredAt(file: File, spans: seq<Span>, lo: nat, hi: nat, i: int) {
    lo <= i < hi && i < |file| && file[i].Data? ==> (Covered(spans, i) <==> !OverBudget(file, file[i].phrase))
  }

  /** Jobs for the lines from lo to hi. */
  ghost predicate Split(file: File, jobs: seq<BucketMetrics>, spans: seq<Span>, lo: nat, hi: nat) {
    && |jobs| == |spans|
    && (forall m :: JobAt(file, jobs, spans, m))
    && (forall l, m :: SpansApart(spans, l, m))
    && (forall m :: SpanInside(spans, lo, hi, m))
    && (forall i :: CoveredAt(file, spans, lo, hi, i))
  }

  lemma LongerInBucket(file: File, p: Str, lo: nat, hi: nat, w: Str)
    requires Bucket(file, p, lo, hi) && p <= w
    ensures Longer(file, 0, |file|, w) == Longer(file, lo, hi, w)
  {
    forall q
      ensures q in Longer(file, 0, |file|, w) <==> q in Longer(file, lo, hi, w)
    {
      LongerMember(file, 0, |file|, w, q);
      LongerMember(file, lo, hi, w, q);
      if w <= q {
        forall i | Extends(file, i, q)
          ensures lo <= i < hi
        {
          assert Extends(file, i, p);
        }
      }
    }
  }

  lemma SubsetSize<T>(a: set<T>, b: set<T>)
    requires a <= b
    ensures |a| <= |b|
  {
    assert b == a + (b - a);
  }

  /** Longer phrases have fewer prefixes beyond them. */
  lemma LongerShrinks(file: File, lo: nat, hi: nat, p: Str, w: Str)
    requires p <= w
    ensures |Longer(file, lo, hi, w)| <= |Longer(file, lo, hi, p)|
  {
    forall q | q in Longer(file, lo, hi, w)
      ensures q in Longer(file, lo, hi, p)
    {
      LongerMember(file, lo, hi, w, q);
      LongerMember(file, lo, hi, p, q);
    }
    SubsetSize(Longer(file, lo, hi, w), Longer(file, lo, hi, p));
  }

  lemma OneJob(file: File, job: BucketMetrics, span: Span)
    requires JobOk(file, job, span)
    ensures Split(file, [job], [span], span.lo, span.hi)
  {
    forall i
      ensures CoveredAt(file, [span], span.lo, span.hi, i)
    {
      if span.lo <= i < span.hi && file[i].Data? {
        var w := file[i].phrase;
        assert Extends(file, i, job.prefix);
        LongerInBucket(file, job.prefix, span.lo, span.hi, w);
        LongerShrinks(file, span.lo, span.hi, job.prefix, w);
        assert InSpan([span], 0, i);
      }
    }
  }

  lemma NoJobs(file: File, lo: nat, hi: nat)
    requires forall i :: lo <= i < hi && i < |file| && file[i].Data? ==> OverBudget(file, file[i].phrase)
    ensures Split(file, [], [], lo, hi)
  {
  }

  lemma JoinSplits(file: File, jobs: seq<BucketMetrics>, spans: seq<Span>, lo: nat, mid: nat,
                   more: seq<BucketMetrics>, moreSpans: seq<Span>, hi: nat)
    requires lo <= mid <= hi
    requires Split(file, jobs, spans, lo, mid) && Split(file, more, moreSpans, mid, hi)
    ensures Split(file, jobs + more, spans + moreSpans, lo, hi)
  {
    var js, ss, n := jobs + more, spans + moreSpans, |spans|;
    forall m
      ensures JobAt(file, js, ss, m) && SpanInside(ss, lo, hi, m)
    {
      assert JobAt(file, jobs, spans, m) && JobAt(file, more, moreSpans, m - n);
      assert SpanInside(spans, lo, mid, m) && SpanInside(moreSpans, mid, hi, m - n);
    }
    forall l, m
      ensures SpansApart(ss, l, m)
    {
      assert SpansApart(spans, l, m) && SpansApart(moreSpans, l - n, m - n);
      assert SpanInside(spans, lo, mid, l) && SpanInside(moreSpans, mid, hi, m - n);
    }
    forall i
      ensures CoveredAt(file, ss, lo, hi, i)
    {
      assert CoveredAt(file, spans, lo, mid, i) && CoveredAt(file, moreSpans, mid, hi, i);
      JoinedCover(spans, moreSpans, lo, mid, hi, i);
    }
  }

  lemma JoinedCover(a: seq<Span>, b: seq<Span>, lo: nat, mid: nat, hi: nat, i: int)
    requires forall m :: SpanInside(a, lo, mid, m)
    requires forall m :: SpanInside(b, mid, hi, m)
    ensures lo <= i < mid ==> (Covered(a + b, i) <==> Covered(a, i))
    ensures mid <= i < hi ==> (Covered(a + b, i) <==> Covered(b, i))
  {
    if m :| InSpan(a, m, i) {
      assert InSpan(a + b, m, i);
    }
    if m :| InSpan(b, m, i) {
      assert InSpan(a + b, |a| + m, i);
    }
    if m :| InSpan(a + b, m, i) {
      assert SpanInside(a, lo, mid, m) && SpanInside(b, mid, hi, m - |a|);
      assert m < |a| ==> InSpan(a, m, i);
      assert m >= |a| ==> InSpan(b, m - |a|, i);
    }
  }

  function MaxLength(file: File): nat {
    if file == [] then 0
    else
      var rest := MaxLength(file[..|file| - 1]);
      var last := file[|file| - 1];
      if last.Data? then Max(rest, |last.phrase|) else rest
  }

  lemma {:induction false} LengthAtMost(file: File, i: nat)
    requires i < |file| && file[i].Data?
    ensures |file[i].phrase| <= MaxLength(file)
    decreases |file|
  {
    if i < |file| - 1 {
      LengthAtMost(file[..|file| - 1], i);
    }
  }

  /** Some phrase is longer than the prefix of a child that is counted to have longer prefixes. */
  lemma ChildShorter(file: File, a: nat, z: nat, p: Str)
    requires |Longer(file, a, z, p)| > 0
    ensures |p| < MaxLength(file)
  {
    var q :| q in Longer(file, a, z, p);
    LongerMember(file, a, z, p, q);
    var i :| a <= i < z && Extends(file, i, q);
    LengthAtMost(file, i);
  }

  /** Split a bucket: queue every child that fits the budget, split the others further. */
  method ProcessBucket(file: File, prefix: Str, start: nat, end: nat, ghost lo: nat, ghost hi: nat)
    returns (jobs: seq<BucketMetrics>)
    requires WellFormed(file) && Sorted(file) && Bucket(file, prefix, lo, hi)
    requires start == Off(file, lo) && end == Off(file, hi)
    requires prefix != [] ==> OverBudget(file, prefix)
    requires |prefix| <= MaxLength(file)
    ensures exists spans :: Split(file, jobs, spans, lo, hi)
    decreases MaxLength(file) - |prefix|, 1
  {
    var children := Scan(file, prefix, start, end, lo, hi);
    ghost var cuts :| Scanned(file, prefix, lo, hi, children, cuts);
    jobs := [];
    ghost var spans: seq<Span> := [];
    ghost var from := if children == [] then hi else cuts[0];
    if children != [] {
      CutsGrow(file, prefix, children, cuts, 0, |children|);
    }
    ShortLines(file, prefix, lo, hi, from);
    var m := 0;
    while m < |children|
      invariant 0 <= m <= |children|
      invariant children != [] ==> lo <= cuts[m] && Split(file, jobs, spans, lo, cuts[m])
      invariant children == [] ==> Split(file, jobs, spans, lo, hi)
    {
      PieceHolds(file, prefix, lo, hi, children, cuts, m);
      assert PieceAt(file, prefix, children, cuts, m);
      CutsGrow(file, prefix, children, cuts, m + 1, |children|);
      var more := ProcessChild(file, prefix, children[m], cuts[m], cuts[m + 1]);
      ghost var moreSpans :| Split(file, more, moreSpans, cuts[m], cuts[m + 1]);
      JoinSplits(file, jobs, spans, lo, cuts[m], more, moreSpans, cuts[m + 1]);
      jobs, spans := jobs + more, spans + moreSpans;
      m := m + 1;
    }
  }

  /** The lines before the first child hold only the bucket's own prefix, which is lost. */
  lemma ShortLines(file: File, prefix: Str, lo: nat, hi: nat, from: nat)
    requires WellFormed(file) && Within(file, lo, hi, prefix) && lo <= from <= hi <= |file|
    requires NothingYet(file, lo, from, prefix)
    requires prefix != [] ==> OverBudget(file, prefix)
    ensures Split(file, [], [], lo, from)
  {
    forall i | lo <= i < from && file[i].Data?
      ensures OverBudget(file, file[i].phrase)
    {
      assert Extends(file, i, prefix);
      assert file[i].phrase == prefix;
    }
    NoJobs(file, lo, from);
  }

  method ProcessChild(file: File, ghost prefix: Str, child: BucketMetrics, ghost a: nat, ghost z: nat)
    returns (jobs: seq<BucketMetrics>)
    requires WellFormed(file) && Sorted(file) && |prefix| <= MaxLength(file)
    requires PieceOk(file, prefix, child, a, z) && Bucket(file, child.prefix, a, z)
    ensures exists spans :: Split(file, jobs, spans, a, z)
    decreases MaxLength(file) - |prefix|, 0
  {
    LongerInBucket(file, child.prefix, a, z, child.prefix);
    var estimated := child.distinctPrefixes * BYTES_PER_PREFIX;
    if estimated <= MEMORY_BUDGET {
      OneJob(file, child, Span(a, z));
      return [child];
    }
    ChildShorter(file, a, z, child.prefix);
    jobs := ProcessBucket(file, child.prefix, child.start, child.end, a, z);
  }
}
