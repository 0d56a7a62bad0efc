/** Building the per-node top lists: cache.go, sequential and parallel. */
module TopCaches {
  import opened Basics
  import opened Recos
  import opened TopLists
  import opened Completions
  import opened Tries
  import opened WrittenPools

  // ---------------------------------------------------------------- one node's list from its candidates

  ghost predicate CandidateOk(cands: seq<seq<Reco>>, pool: multiset<Reco>, k: nat, i: int) {
    0 <= i < |cands| ==> SortedDesc(cands[i]) && |cands[i]| <= k && (cands[i] != [] ==> |pool| > 0)
  }

  /** The candidate lists gathered at a node: each a usable top list, together standing for pool. */
  ghost predicate Candidates(cands: seq<seq<Reco>>, pool: multiset<Reco>, k: nat) {
    && Represents(cands, pool, k)
    && (cands == [] ==> pool == multiset{})
    && (forall i :: CandidateOk(cands, pool, k, i))
  }

  lemma NoCandidates(k: nat)
    ensures Candidates([], multiset{}, k)
  {
  }

  lemma MoreCandidates(cands: seq<seq<Reco>>, pool: multiset<Reco>, top: seq<Reco>, more: multiset<Reco>, k: nat)
    requires Candidates(cands, pool, k) && IsTopK(top, more, k)
    ensures Candidates(cands + [top], pool + more, k)
  {
    RepresentsMore(cands, pool, top, more, k);
    SubBagSize(multiset(top), more);
    forall i
      ensures CandidateOk(cands + [top], pool + more, k, i)
    {
      assert CandidateOk(cands, pool, k, i);
    }
  }

  lemma OwnWordIsTop(r: Reco, k: nat)
    requires k >= 1
    ensures IsTopK([r], multiset{r}, k)
  {
  }

  lemma OneCandidate(cands: seq<seq<Reco>>, pool: multiset<Reco>, k: nat)
    requires Candidates(cands, pool, k) && |cands| == 1
    ensures IsTopK(cands[0], pool, k)
  {
    var list := cands[0];
    assert cands[..0] == [] && CandidateOk(cands, pool, k, 0);
    assert Total(cands) == multiset(list);
    assert multiset(list) - multiset(list) == multiset{};
    RepresentsAnswer(cands, pool, list, k);
  }

  /** No candidates: no list.  One: it is the list.  More: merge them. */
  method ChooseTop(cands: seq<seq<Reco>>, k: nat, ghost pool: multiset<Reco>) returns (top: Option<seq<Reco>>)
    requires k >= 1 && Candidates(cands, pool, k)
    ensures top == None <==> cands == []
    ensures top == None ==> pool == multiset{}
    ensures top.Some? ==> IsTopK(top.value, pool, k)
  {
    if |cands| == 0 {
      top := None;
    } else if |cands| == 1 {
      OneCandidate(cands, pool, k);
      top := Some(cands[0]);
    } else {
      AllSorted(cands, pool, k);
      var merged := MergeTopK(cands, k);
      RepresentsAnswer(cands, pool, merged, k);
      top := Some(merged);
    }
  }

  // ---------------------------------------------------------------- the recursive build

  /** The entries below q when the path to p was written down as path. */
  ghost function PoolFrom(words: Words, p: Str, path: Str, q: Str): multiset<Reco>
    requires p <= q
  {
    multiset(Labelled(words, q, path + q[|p|..]))
  }

  /** The rune count of the written-down path to q. */
  function DepthFrom(p: Str, path: Str, q: Str): int
    requires p <= q
  {
    |path| + |q| - |p|
  }

  ghost function PartPool(words: Words, p: Str, path: Str, done: set<Rune>): multiset<Reco> {
    multiset(LabelledPart(words, p, path, done))
  }

  lemma AllParts(t: Trie, p: Str, path: Str)
    requires t.Shape() && p in t.nodes
    ensures PartPool(t.words, p, path, t.nodes[p].children.Keys) == PoolFrom(t.words, p, path, p)
        == multiset(Labelled(t.words, p, path))
  {
    assert path + p[|p|..] == path;
    forall w | w in t.words && p <= w && w != p
      ensures w[|p|] in t.nodes[p].children
    {
      assert t.WordOk(w);
      t.ChildTowards(p, w);
    }
    assert LabelledPart(t.words, p, path, t.nodes[p].children.Keys) == Labelled(t.words, p, path);
  }

  lemma ChildPool(words: Words, p: Str, path: Str, c: Rune, q: Str)
    requires Ext(p, c) <= q
    ensures p <= q
    ensures PoolFrom(words, Ext(p, c), Ext(path, c), q) == PoolFrom(words, p, path, q)
    ensures DepthFrom(Ext(p, c), Ext(path, c), q) == DepthFrom(p, path, q)
  {
    assert q[|p|..] == [c] + q[|p| + 1..];
    assert Ext(path, c) + q[|Ext(p, c)|..] == path + q[|p|..];
  }

  type Tops = map<Str, Option<seq<Reco>>>

  /** The lists currently stored in the nodes. */
  ghost function TopsOf(t: Trie): Tops
    requires t.Owned()
    reads t`nodes, t`repr, t.repr`top
  {
    map q | q in t.nodes :: t.nodes[q].top
  }

  /** What the build leaves at q: a fresh answer within the cache depth, the earlier list beyond. */
  ghost predicate BuiltAt(now: Tops, was: Tops, words: Words, k: nat, cacheDepth: int, p: Str, path: Str, q: Str)
    requires p <= q && q in now && q in was
  {
    if DepthFrom(p, path, q) <= cacheDepth
    then IsAnswer(now[q], PoolFrom(words, p, path, q), k)
    else now[q] == was[q]
  }

  /** Everything below p has been built, nothing else has been touched. */
  ghost predicate BuiltBelow(now: Tops, was: Tops, words: Words, k: nat, cacheDepth: int, p: Str, path: Str)
  {
    forall q :: Built(now, was, words, k, cacheDepth, p, path, q)
  }

  ghost predicate Built(now: Tops, was: Tops, words: Words, k: nat, cacheDepth: int, p: Str, path: Str, q: Str)
  {
    q in now && q in was ==> if p <= q then BuiltAt(now, was, words, k, cacheDepth, p, path, q) else now[q] == was[q]
  }

  /** Part way through the children of p: those in remaining, and p itself, are still untouched. */
  ghost predicate BuildingBelow(now: Tops, was: Tops, words: Words, k: nat, cacheDepth: int, p: Str, path: Str,
                                remaining: set<Rune>)
  {
    forall q :: Building(now, was, words, k, cacheDepth, p, path, remaining, q)
  }

  ghost predicate Building(now: Tops, was: Tops, words: Words, k: nat, cacheDepth: int, p: Str, path: Str,
                           remaining: set<Rune>, q: Str)
  {
    q in now && q in was ==>
      if p <= q && q != p && q[|p|] !in remaining
      then BuiltAt(now, was, words, k, cacheDepth, p, path, q)
      else now[q] == was[q]
  }

  lemma ChildBuilt(now: Tops, mid: Tops, was: Tops, words: Words, k: nat, cacheDepth: int, p: Str, path: Str,
                   remaining: set<Rune>, c: Rune)
    requires now.Keys == mid.Keys == was.Keys
    requires c in remaining
    requires BuildingBelow(mid, was, words, k, cacheDepth, p, path, remaining)
    requires BuiltBelow(now, mid, words, k, cacheDepth, Ext(p, c), Ext(path, c))
    ensures BuildingBelow(now, was, words, k, cacheDepth, p, path, remaining - {c})
  {
    forall q
      ensures Building(now, was, words, k, cacheDepth, p, path, remaining - {c}, q)
    {
      assert Building(mid, was, words, k, cacheDepth, p, path, remaining, q);
      assert Built(now, mid, words, k, cacheDepth, Ext(p, c), Ext(path, c), q);
      if Ext(p, c) <= q {
        ChildPool(words, p, path, c, q);
        assert q[|p|] == c;
      } else {
        assert p <= q && q != p && q[|p|] == c ==> Ext(p, c) <= q;
      }
    }
  }

  lemma AllBuilt(now: Tops, mid: Tops, was: Tops, words: Words, k: nat, cacheDepth: int, p: Str, path: Str)
    requires p in was && mid.Keys == was.Keys && p in now
    requires BuildingBelow(mid, was, words, k, cacheDepth, p, path, {})
    requires now == mid[p := now[p]] && BuiltAt(now, was, words, k, cacheDepth, p, path, p)
    ensures BuiltBelow(now, was, words, k, cacheDepth, p, path)
  {
    forall q
      ensures Built(now, was, words, k, cacheDepth, p, path, q)
    {
      assert Building(mid, was, words, k, cacheDepth, p, path, {}, q);
    }
  }

  ghost predicate NonEmpty(cands: seq<seq<Reco>>) {
    forall i :: 0 <= i < |cands| ==> cands[i] != []
  }

  /** A map iteration under way: the keys already yielded and those still to come. */
  ghost predicate Iterating(keys: set<Rune>, done: set<Rune>, remaining: set<Rune>) {
    done !! remaining && done + remaining == keys
  }

  /** The next key of a map iteration; the order is arbitrary. */
  method NextKey(remaining: set<Rune>, ghost keys: set<Rune>, ghost done: set<Rune>)
    returns (key: Rune, remaining': set<Rune>)
    requires remaining != {} && Iterating(keys, done, remaining)
    ensures key in keys && key in remaining && key !in done
    ensures remaining' == remaining - {key} && |remaining'| < |remaining|
    ensures Iterating(keys, done + {key}, remaining')
  {
    key :| key in remaining;
    remaining' := remaining - {key};
  }

  lemma IterationStarts(keys: set<Rune>)
    ensures Iterating(keys, {}, keys)
  {
  }

  lemma IterationEnds(keys: set<Rune>, done: set<Rune>)
    requires Iterating(keys, done, {})
    ensures done == keys
  {
  }

  /** The slice of the first n units of the buffer. */
  predicate Spells(buf: array<Rune>, n: nat, path: Str)
    reads buf
  {
    n <= buf.Length && buf[..n] == path
  }

  /** append on a slice of n units: in place while there is room, otherwise into a larger array. */
  method AppendUnit(buf: array<Rune>, n: nat, x: Rune) returns (buf': array<Rune>)
    requires n <= buf.Length
    modifies buf
    ensures n < buf'.Length && buf'[..n + 1] == Ext(old(buf[..n]), x)
    ensures buf[..n] == old(buf[..n])
    ensures buf' == buf || fresh(buf')
  {
    if n < buf.Length {
      buf[n] := x;
      buf' := buf;
    } else {
      buf' := new Rune[2 * n + 1](i requires 0 <= i < 2 * n + 1 reads buf => if i < n then buf[i] else x);
    }
  }

  /** Build below a node whose path is in the first n units of the buffer; whatever lies after them may
      be overwritten, the path itself is left as it was. */
  method TraverseAndBuild(t: Trie, node: Node, buf: array<Rune>, n: nat, ghost path: Str, ghost p: Str)
    returns (top: Option<seq<Reco>>)
    requires t.Shape() && p in t.nodes && t.nodes[p] == node && t.k >= 1
    requires Spells(buf, n, path)
    modifies t.repr`top, buf
    ensures t.Shape() && Spells(buf, n, path)
    ensures IsAnswer(top, PoolFrom(t.words, p, path, p), t.k)
    ensures BuiltBelow(TopsOf(t), old(TopsOf(t)), t.words, t.k, t.cacheDepth, p, path)
    decreases t.Below(p), 4
  {
    var cands := GatherCandidates(t, node, buf, n, path, p);
    top := ChooseTop(cands, t.k, PoolFrom(t.words, p, path, p));
    assert cands != [] ==> cands[0] != [] && CandidateOk(cands, PoolFrom(t.words, p, path, p), t.k, 0);
    assert path + p[|p|..] == path;
    ghost var mid := TopsOf(t);
    if n <= t.cacheDepth {
      SetTop(t, p, node, top);
    }
    assert Building(mid, old(TopsOf(t)), t.words, t.k, t.cacheDepth, p, path, {}, p);
    AllBuilt(TopsOf(t), mid, old(TopsOf(t)), t.words, t.k, t.cacheDepth, p, path);
  }

  /** Part way through the children of p: the lists gathered stand for the children in done, and those in
      remaining have not been built. */
  ghost predicate Gathering(t: Trie, was: Tops, p: Str, path: Str, cands: seq<seq<Reco>>,
                            done: set<Rune>, remaining: set<Rune>)
    reads t, t.repr
  {
    && t.Shape() && p in t.nodes && t.k >= 1 && t.nodes.Keys == was.Keys
    && Candidates(cands, PartPool(t.words, p, path, done), t.k) && NonEmpty(cands)
    && BuildingBelow(TopsOf(t), was, t.words, t.k, t.cacheDepth, p, path, remaining)
  }

  /** The node's own word, then the list of every child in whatever order the map yields them. */
  method GatherCandidates(t: Trie, node: Node, buf: array<Rune>, n: nat, ghost path: Str, ghost p: Str)
    returns (cands: seq<seq<Reco>>)
    requires t.Shape() && p in t.nodes && t.nodes[p] == node && t.k >= 1
    requires Spells(buf, n, path)
    modifies t.repr`top, buf
    ensures t.Shape() && Spells(buf, n, path)
    ensures Candidates(cands, PoolFrom(t.words, p, path, p), t.k) && NonEmpty(cands)
    ensures BuildingBelow(TopsOf(t), old(TopsOf(t)), t.words, t.k, t.cacheDepth, p, path, {})
    decreases t.Below(p), 3
  {
    cands := OwnCandidate(t, node, buf[..n], p);
    ghost var was := TopsOf(t);
    AllRemaining(t, p, path);
    cands := GatherChildren(t, node, buf, n, path, p, cands, was);
    AllParts(t, p, path);
  }

  method GatherChildren(t: Trie, node: Node, buf: array<Rune>, n: nat, ghost path: Str, ghost p: Str,
                        own: seq<seq<Reco>>, ghost was: Tops)
    returns (cands: seq<seq<Reco>>)
    requires Gathering(t, was, p, path, own, {}, node.children.Keys) && t.nodes[p] == node
    requires Spells(buf, n, path)
    modifies t.repr`top, buf
    ensures Gathering(t, was, p, path, cands, node.children.Keys, {}) && Spells(buf, n, path)
    decreases t.Below(p), 2
  {
    hide Gathering, Spells;
    cands := own;
    var slice := buf;
    var remaining := node.children.Keys;
    ghost var done: set<Rune> := {};
    ghost var keys := remaining;
    IterationStarts(keys);
    while remaining != {}
      invariant keys == node.children.Keys && Iterating(keys, done, remaining)
      invariant (slice == buf || fresh(slice)) && Spells(slice, n, path) && Spells(buf, n, path)
      invariant Gathering(t, was, p, path, cands, done, remaining)
      decreases |remaining|
    {
      var key, remaining' := NextKey(remaining, keys, done);
      cands, slice := VisitNext(t, node, key, node.children[key], slice, n, p, path, cands, done, remaining, was);
      done := done + {key};
      remaining := remaining';
    }
    IterationEnds(keys, done);
  }

  lemma AllRemaining(t: Trie, p: Str, path: Str)
    requires t.Shape() && p in t.nodes && t.k >= 0
    ensures t.Owned()
    ensures BuildingBelow(TopsOf(t), TopsOf(t), t.words, t.k, t.cacheDepth, p, path, t.nodes[p].children.Keys)
  {
    var tops := TopsOf(t);
    forall q
      ensures Building(tops, tops, t.words, t.k, t.cacheDepth, p, path, t.nodes[p].children.Keys, q)
    {
      if q in t.nodes && p <= q && q != p {
        t.ChildTowards(p, q);
      }
    }
  }

  method SetTop(t: Trie, ghost p: Str, node: Node, top: Option<seq<Reco>>)
    requires t.Shape() && p in t.nodes && t.nodes[p] == node
    modifies node`top
    ensures t.Shape()
    ensures TopsOf(t) == old(TopsOf(t))[p := top]
  {
    node.top := top;
    forall q | q in t.nodes && t.nodes[q] == node
      ensures q == p
    {
      assert t.Apart(p, q);
    }
    assert TopsOf(t) == old(TopsOf(t))[p := top];
  }

  method OwnCandidate(t: Trie, node: Node, path: Str, ghost p: Str) returns (cands: seq<seq<Reco>>)
    requires t.Shape() && p in t.nodes && t.nodes[p] == node && t.k >= 1
    ensures Candidates(cands, PartPool(t.words, p, path, {}), t.k) && NonEmpty(cands)
  {
    cands := [];
    assert t.WordOk(p);
    NoCandidates(t.k);
    OwnPart(t.words, p, path);
    if node.isWord {
      var own := Reco(path, node.freq);
      OwnWordIsTop(own, t.k);
      MoreCandidates(cands, multiset{}, [own], multiset{own}, t.k);
      assert cands + [[own]] == [[own]];
      assert multiset{} + multiset{own} == PartPool(t.words, p, path, {});
      cands := [[own]];
    }
  }

  /** One turn of the loop: the path grows by the child's rune and is cut back afterwards; when the buffer
      was full the slice lies in a new one from then on. */
  method VisitNext(t: Trie, node: Node, key: Rune, child: Node, slice: array<Rune>, n: nat, ghost p: Str,
                   ghost path: Str, cands: seq<seq<Reco>>, ghost done: set<Rune>, ghost remaining: set<Rune>,
                   ghost was: Tops)
    returns (cands': seq<seq<Reco>>, slice': array<Rune>)
    requires Gathering(t, was, p, path, cands, done, remaining) && t.nodes[p] == node
    requires key in node.children && child == node.children[key]
    requires key in remaining && key !in done && Spells(slice, n, path)
    modifies t.repr`top, slice
    ensures (slice' == slice || fresh(slice')) && Spells(slice', n, path) && Spells(slice, n, path)
    ensures Gathering(t, was, p, path, cands', done + {key}, remaining - {key})
    decreases t.Below(p), 1
  {
    ghost var mid := TopsOf(t);
    assert t.Shape();
    hide Candidates, NonEmpty, BuildingBelow, Trie.Shape;
    slice' := AppendUnit(slice, n, key);
    cands' := VisitChild(t, key, child, slice', n + 1, Ext(path, key), p, cands, PartPool(t.words, p, path, done));
    assert slice'[..n] == slice'[..n + 1][..n] == path;
    ChildPart(t.words, p, path, done, key);
    ChildBuilt(TopsOf(t), mid, was, t.words, t.k, t.cacheDepth, p, path, remaining, key);
  }

  /** One turn of the loop over the children: build below the child, keep its list if non-empty. */
  method VisitChild(t: Trie, key: Rune, child: Node, buf: array<Rune>, n: nat, ghost path: Str, ghost p: Str,
                    cands: seq<seq<Reco>>, ghost pool: multiset<Reco>) returns (cands': seq<seq<Reco>>)
    requires t.Shape() && p in t.nodes && key in t.nodes[p].children && child == t.nodes[p].children[key]
    requires t.k >= 1 && Spells(buf, n, path)
    requires Candidates(cands, pool, t.k) && NonEmpty(cands)
    modifies t.repr`top, buf
    ensures t.Shape() && Spells(buf, n, path)
    ensures Candidates(cands', pool + multiset(Labelled(t.words, Ext(p, key), path)), t.k) && NonEmpty(cands')
    ensures BuiltBelow(TopsOf(t), old(TopsOf(t)), t.words, t.k, t.cacheDepth, Ext(p, key), path)
    decreases t.Below(p), 0
  {
    t.ChildBelow(p, key);
    var childTop := TraverseAndBuild(t, child, buf, n, path, Ext(p, key));
    ghost var more := multiset(Labelled(t.words, Ext(p, key), path));
    assert path + Ext(p, key)[|Ext(p, key)|..] == path;
    cands' := cands;
    if childTop.Some? && |childTop.value| > 0 {
      MoreCandidates(cands, pool, childTop.value, more, t.k);
      cands' := cands + [childTop.value];
    } else {
      assert pool + more == pool;
    }
  }

  // ---------------------------------------------------------------- BuildCache

  /** The list stored at q, if any, is the top k of the completions of q. */
  ghost predicate SoundAt(tops: Tops, words: Words, k: nat, q: Str) {
    q in tops && tops[q].Some? ==> IsTopK(tops[q].value, Pool(words, q), k)
  }

  /** Every stored list is right. */
  ghost predicate CacheSound(tops: Tops, words: Words, k: nat) {
    forall q :: SoundAt(tops, words, k, q)
  }

  ghost predicate SoundBeyond(tops: Tops, words: Words, k: nat, depth: int) {
    forall q :: depth < |q| ==> SoundAt(tops, words, k, q)
  }

  /** A node at most cacheDepth deep has the top k of its completions stored, if it has any; a deeper one
      has what it had. */
  ghost predicate CachedAt(now: Tops, was: Tops, words: Words, k: nat, cacheDepth: int, q: Str) {
    && (q in now <==> q in was)
    && (q in now && |q| <= cacheDepth ==>
          && (now[q].Some? ==> IsTopK(now[q].value, Pool(words, q), k))
          && (now[q] == None ==> CompletionsOf(words, q) == {}))
    && (q in now && |q| > cacheDepth ==> now[q] == was[q])
  }

  lemma CachedFromRoot(now: Tops, was: Tops, words: Words, k: nat, cacheDepth: int)
    requires now.Keys == was.Keys && BuiltBelow(now, was, words, k, cacheDepth, [], [])
    ensures forall q :: CachedAt(now, was, words, k, cacheDepth, q)
  {
    forall q
      ensures CachedAt(now, was, words, k, cacheDepth, q)
    {
      assert Built(now, was, words, k, cacheDepth, [], [], q);
      assert [] + q[0..] == q;
      PoolSize(words, q);
    }
  }

  lemma BuiltFromRoot(now: Tops, was: Tops, words: Words, k: nat, cacheDepth: int)
    requires now.Keys == was.Keys
    requires BuiltBelow(now, was, words, k, cacheDepth, [], [])
    ensures CacheSound(now, words, k) <==> SoundBeyond(was, words, k, cacheDepth)
  {
    forall q
      ensures |q| <= cacheDepth ==> SoundAt(now, words, k, q)
      ensures cacheDepth < |q| ==> SoundAt(now, words, k, q) == SoundAt(was, words, k, q)
    {
      assert Built(now, was, words, k, cacheDepth, [], [], q);
      assert [] + q[0..] == q;
    }
  }

  /** Afterwards the cache is right for every node exactly when the lists that the build did not
      reach, below the cache depth, were already right: always so on a freshly built trie. */
  method BuildCache(t: Trie)
    requires t.Valid() && t.k >= 0
    modifies t`k, t.repr`top
    ensures t.Valid() && t.k == if old(t.k) == 0 then 10 else old(t.k)
    ensures CacheSound(TopsOf(t), t.words, t.k)
       <==> old(SoundBeyond(TopsOf(t), t.words, if t.k == 0 then 10 else t.k, t.cacheDepth))
    ensures forall q :: CachedAt(TopsOf(t), old(TopsOf(t)), t.words, t.k, t.cacheDepth, q)
  {
    if t.k == 0 {
      t.k := DEFAULT_K;
    }
    var buf := new Rune[32](_ => Rune(0));
    var top := TraverseAndBuild(t, t.root, buf, 0, [], []);
    BuiltFromRoot(TopsOf(t), old(TopsOf(t)), t.words, t.k, t.cacheDepth);
    CachedFromRoot(TopsOf(t), old(TopsOf(t)), t.words, t.k, t.cacheDepth);
  }

  // ---------------------------------------------------------------- BuildCacheParallel

  /** The children of the root outside remaining have been built, nothing else touched. */
  ghost predicate Spread(now: Tops, was: Tops, words: Words, k: nat, cacheDepth: int, remaining: set<Rune>, q: Str)
  {
    q in now && q in was ==>
      if q != [] && q[0] !in remaining && |q| <= cacheDepth
      then IsAnswer(now[q], multiset(Labelled(words, q, Written(q))), k)
      else now[q] == was[q]
  }

  ghost predicate SpreadBelow(now: Tops, was: Tops, words: Words, k: nat, cacheDepth: int, remaining: set<Rune>)
  {
    forall q :: Spread(now, was, words, k, cacheDepth, remaining, q)
  }

  lemma SpreadMore(now: Tops, mid: Tops, was: Tops, words: Words, k: nat, cacheDepth: int,
                   remaining: set<Rune>, c: Rune)
    requires now.Keys == mid.Keys == was.Keys
    requires SpreadBelow(mid, was, words, k, cacheDepth, remaining) && c in remaining
    requires BuiltBelow(now, mid, words, k, cacheDepth, [c], [FirstUnit(c)])
    ensures SpreadBelow(now, was, words, k, cacheDepth, remaining - {c})
  {
    forall q
      ensures Spread(now, was, words, k, cacheDepth, remaining - {c}, q)
    {
      assert Spread(mid, was, words, k, cacheDepth, remaining, q);
      assert Built(now, mid, words, k, cacheDepth, [c], [FirstUnit(c)], q);
      if [c] <= q {
        assert q[0] == c;
      } else {
        assert q != [] ==> q[0] != c;
      }
    }
  }

  /** The results received so far from the channel, and the pool they stand for. */
  ghost predicate Received(cands: seq<seq<Reco>>, pool: multiset<Reco>, words: Words, k: nat, done: set<Rune>) {
    Candidates(cands, pool, k) && pool == WrittenBag(words, StartingIn(words, done))
  }

  method BuildRootChildren(t: Trie) returns (cands: seq<seq<Reco>>)
    requires t.Valid() && t.k >= 1 && [] !in t.words
    modifies t.repr`top
    ensures t.Valid()
    ensures Candidates(cands, WrittenBag(t.words, t.words.Keys), t.k)
    ensures SortedLists(cands)
    ensures SpreadBelow(TopsOf(t), old(TopsOf(t)), t.words, t.k, t.cacheDepth, {})
  {
    hide Candidates, Received, SortedLists, SpreadBelow;
    cands := [];
    var remaining := t.root.children.Keys;
    ghost var done: set<Rune> := {};
    ghost var pool := multiset{};
    ghost var keys := remaining;
    ghost var was := TopsOf(t);
    NothingReceived(t.words, t.k);
    RootSpread(t);
    IterationStarts(keys);
    while remaining != {}
      invariant keys == t.root.children.Keys && Iterating(keys, done, remaining)
      invariant t.Valid()
      invariant Received(cands, pool, t.words, t.k, done)
      invariant SpreadBelow(TopsOf(t), was, t.words, t.k, t.cacheDepth, remaining)
      decreases |remaining|
    {
      var key, remaining' := NextKey(remaining, keys, done);
      cands, pool := ReceiveChild(t, key, cands, pool, done, remaining, was);
      done := done + {key};
      remaining := remaining';
    }
    IterationEnds(keys, done);
    AllReceived(t, cands, pool);
  }

  lemma NothingReceived(words: Words, k: nat)
    ensures Received([], multiset{}, words, k, {})
  {
    assert StartingIn(words, {}) == {};
  }

  lemma AllReceived(t: Trie, cands: seq<seq<Reco>>, pool: multiset<Reco>)
    requires t.Shape() && t.k >= 0 && [] !in t.words
    requires Received(cands, pool, t.words, t.k, t.root.children.Keys)
    ensures Candidates(cands, WrittenBag(t.words, t.words.Keys), t.k)
    ensures SortedLists(cands)
  {
    forall w | w in t.words
      ensures w[0] in t.root.children
    {
      assert t.WordOk(w);
      t.ChildTowards([], w);
    }
    assert StartingIn(t.words, t.root.children.Keys) == t.words.Keys;
    AllSorted(cands, pool, t.k);
  }

  lemma AllSorted(cands: seq<seq<Reco>>, pool: multiset<Reco>, k: nat)
    requires Candidates(cands, pool, k)
    ensures SortedLists(cands)
  {
    forall i | 0 <= i < |cands|
      ensures SortedDesc(cands[i])
    {
      assert CandidateOk(cands, pool, k, i);
    }
  }

  /** One worker of the parallel build. */
  method VisitRootChild(t: Trie, key: Rune, ghost remaining: set<Rune>, ghost was: Tops)
    returns (top: Option<seq<Reco>>)
    requires t.Valid() && t.k >= 1 && key in t.root.children && key in remaining
    requires t.nodes.Keys == was.Keys
    requires SpreadBelow(TopsOf(t), was, t.words, t.k, t.cacheDepth, remaining)
    modifies t.repr`top
    ensures t.Valid()
    ensures IsAnswer(top, PoolFrom(t.words, [key], [FirstUnit(key)], [key]), t.k)
    ensures SpreadBelow(TopsOf(t), was, t.words, t.k, t.cacheDepth, remaining - {key})
  {
    ghost var mid := TopsOf(t);
    t.ChildBelow([], key);
    assert Ext([], key) == [key];
    var buf := new Rune[1](_ => FirstUnit(key));
    assert buf[..1] == [FirstUnit(key)];
    top := TraverseAndBuild(t, t.root.children[key], buf, 1, [FirstUnit(key)], [key]);
    SpreadMore(TopsOf(t), mid, was, t.words, t.k, t.cacheDepth, remaining, key);
  }

  /** Start one worker and receive its result. */
  method ReceiveChild(t: Trie, key: Rune, cands: seq<seq<Reco>>, ghost pool: multiset<Reco>,
                      ghost done: set<Rune>, ghost remaining: set<Rune>, ghost was: Tops)
    returns (cands': seq<seq<Reco>>, ghost pool': multiset<Reco>)
    requires t.Valid() && t.k >= 1 && key in t.root.children && key in remaining && key !in done
    requires t.nodes.Keys == was.Keys
    requires Received(cands, pool, t.words, t.k, done)
    requires SpreadBelow(TopsOf(t), was, t.words, t.k, t.cacheDepth, remaining)
    modifies t.repr`top
    ensures t.Valid()
    ensures Received(cands', pool', t.words, t.k, done + {key})
    ensures SpreadBelow(TopsOf(t), was, t.words, t.k, t.cacheDepth, remaining - {key})
  {
    var top := VisitRootChild(t, key, remaining, was);
    cands', pool' := AddChildList(t, cands, pool, done, key, top);
  }

  lemma RootSpread(t: Trie)
    requires t.Shape() && t.k >= 0
    ensures SpreadBelow(TopsOf(t), TopsOf(t), t.words, t.k, t.cacheDepth, t.root.children.Keys)
  {
    var tops := TopsOf(t);
    forall q
      ensures Spread(tops, tops, t.words, t.k, t.cacheDepth, t.root.children.Keys, q)
    {
      if q in t.nodes && q != [] {
        t.ChildTowards([], q);
      }
    }
  }

  /** Receive one child's result from the channel. */
  method AddChildList(t: Trie, cands: seq<seq<Reco>>, ghost pool: multiset<Reco>, ghost done: set<Rune>, key: Rune,
                      top: Option<seq<Reco>>)
    returns (cands': seq<seq<Reco>>, ghost pool': multiset<Reco>)
    requires t.k >= 1 && key !in done
    requires Received(cands, pool, t.words, t.k, done)
    requires IsAnswer(top, PoolFrom(t.words, [key], [FirstUnit(key)], [key]), t.k)
    ensures Received(cands', pool', t.words, t.k, done + {key})
  {
    ghost var more := PoolFrom(t.words, [key], [FirstUnit(key)], [key]);
    var list: seq<Reco> := if top.Some? then top.value else [];
    MoreCandidates(cands, pool, list, more, t.k);
    cands', pool' := cands + [list], pool + more;
    assert [FirstUnit(key)] + [key][|[key]|..] == [FirstUnit(key)];
    StartingMore(t.words, done, key);
  }

  /** Load's cache build.  Every list within the cache depth, and the root list at any depth, is a top k
      of the completions as the build writes them down, with the first rune cut to one byte. */
  method BuildCacheParallel(t: Trie)
    requires t.Valid() && t.k >= 1 && [] !in t.words && RuneStarts(t.words)
    modifies t.repr`top
    ensures t.Valid()
    ensures ParallelBuilt(TopsOf(t), old(TopsOf(t)), t.words, t.k, t.cacheDepth)
    ensures old(SoundBeyond(TopsOf(t), t.words, t.k, t.cacheDepth)) ==>
      && (AsciiStarts(t.words) ==> CacheSound(TopsOf(t), t.words, t.k))
      && (t.cacheDepth >= 1 ==> (CacheSound(TopsOf(t), t.words, t.k) <==> AsciiStarts(t.words)))
      && (t.cacheDepth < 1 && RootSafe(t.words, t.k) ==> CacheSound(TopsOf(t), t.words, t.k))
  {
    hide AsciiStarts, RuneStarts, CacheSound, SoundBeyond, RootSafe, SpreadBelow, Candidates, SortedLists, WrittenBag;
    var cands := BuildRootChildren(t);
    ghost var mid := TopsOf(t);
    var merged := MergeTopK(cands, t.k);
    CandidatesAnswer(cands, WrittenBag(t.words, t.words.Keys), merged, t.k);
    SetTop(t, [], t.root, Some(merged));
    AfterRoot(TopsOf(t), mid, old(TopsOf(t)), t.words, t.k, t.cacheDepth);
    if old(SoundBeyond(TopsOf(t), t.words, t.k, t.cacheDepth)) {
      WordStartsAreNodes(t);
      ParallelSound(TopsOf(t), old(TopsOf(t)), t.words, t.k, t.cacheDepth);
    }
  }

  lemma CandidatesAnswer(cands: seq<seq<Reco>>, pool: multiset<Reco>, merged: seq<Reco>, k: nat)
    requires Candidates(cands, pool, k) && IsTopK(merged, Total(cands), k)
    ensures IsTopK(merged, pool, k)
  {
    RepresentsAnswer(cands, pool, merged, k);
  }

  /** What the parallel build leaves, against what is right. */
  lemma ParallelSound(now: Tops, was: Tops, words: Words, k: nat, cacheDepth: int)
    requires RuneStarts(words) && (forall w :: w in words && w != [] ==> [w[0]] in now)
    requires ParallelBuilt(now, was, words, k, cacheDepth) && SoundBeyond(was, words, k, cacheDepth)
    ensures AsciiStarts(words) ==> CacheSound(now, words, k)
    ensures cacheDepth >= 1 ==> (CacheSound(now, words, k) <==> AsciiStarts(words))
    ensures cacheDepth < 1 && RootSafe(words, k) ==> CacheSound(now, words, k)
  {
    hide AsciiStarts, RuneStarts, CacheSound, SoundBeyond, RootSafe;
    if AsciiStarts(words) {
      AsciiSound(now, was, words, k, cacheDepth);
    }
    if cacheDepth >= 1 {
      ParallelSoundIff(now, was, words, k, cacheDepth);
    } else if RootSafe(words, k) {
      RootAlwaysRightIff(words, k);
      ShallowSoundIff(now, was, words, k, cacheDepth);
    }
  }

  lemma WordStartsAreNodes(t: Trie)
    requires t.Shape()
    ensures forall w :: w in t.words && w != [] ==> [w[0]] in t.nodes
  {
    forall w | w in t.words && w != []
      ensures [w[0]] in t.nodes
    {
      assert t.WordOk(w);
      t.PrefixesAreNodes([w[0]], w);
    }
  }

  /** What the parallel build leaves at the node for q. */
  ghost predicate ParallelAt(now: Tops, was: Tops, words: Words, k: nat, cacheDepth: int, q: Str)
    requires q != [] && q in now && q in was
  {
    if |q| <= cacheDepth
    then IsAnswer(now[q], multiset(Labelled(words, q, Written(q))), k)
    else now[q] == was[q]
  }

  ghost predicate ParallelBuilt(now: Tops, was: Tops, words: Words, k: nat, cacheDepth: int) {
    && now.Keys == was.Keys && [] in now && now[[]].Some? && [] !in words
    && IsTopK(now[[]].value, WrittenBag(words, words.Keys), k)
    && forall q :: q in now && q != [] ==> ParallelAt(now, was, words, k, cacheDepth, q)
  }

  lemma AfterRoot(now: Tops, mid: Tops, was: Tops, words: Words, k: nat, cacheDepth: int)
    requires now.Keys == mid.Keys == was.Keys && [] in now && now == mid[[] := now[[]]]
    requires SpreadBelow(mid, was, words, k, cacheDepth, {})
    ensures forall q :: q in now && q != [] ==> ParallelAt(now, was, words, k, cacheDepth, q)
  {
    forall q | q in now && q != []
      ensures ParallelAt(now, was, words, k, cacheDepth, q)
    {
      assert Spread(mid, was, words, k, cacheDepth, {}, q);
    }
  }

  lemma WrittenInAscii(words: Words, q: Str)
    requires AsciiStarts(words) && RuneStarts(words) && q != []
    ensures |multiset(Labelled(words, q, Written(q)))| > 0 ==> Written(q) == q
  {
  }

  lemma AnswerHasMembers(top: Option<seq<Reco>>, pool: multiset<Reco>, k: nat)
    requires IsAnswer(top, pool, k)
    ensures top.Some? ==> |pool| > 0 && top.value[0] in pool
  {
  }

  /** A word whose first rune does not fit in a byte spoils the list of its one-rune prefix. */
  lemma SpoiltList(now: Tops, was: Tops, words: Words, k: nat, cacheDepth: int, w: Str)
    requires RuneStarts(words) && cacheDepth >= 1
    requires w in words && w != [] && ASCII_LIMIT <= w[0].code && [w[0]] in now && [w[0]] in was
    requires ParallelAt(now, was, words, k, cacheDepth, [w[0]])
    ensures !SoundAt(now, words, k, [w[0]])
  {
    var q := [w[0]];
    var pool := multiset(Labelled(words, q, Written(q)));
    assert Reco(Written(q) + w[|q|..], words[w]) in Labelled(words, q, Written(q));
    AnswerHasMembers(now[q], pool, k);
    var r := now[q].value[0];
    assert Written(q) <= r.word;
    FirstUnitKeepsAscii(w[0]);
    assert r.word[0] != w[0];
    PoolMembers(words, q, r);
    assert r in multiset(now[q].value);
  }

  /** When every word starts with a rune below 0x80 every list is right, whatever the cache depth. */
  lemma AsciiSound(now: Tops, was: Tops, words: Words, k: nat, cacheDepth: int)
    requires RuneStarts(words) && AsciiStarts(words)
    requires ParallelBuilt(now, was, words, k, cacheDepth) && SoundBeyond(was, words, k, cacheDepth)
    ensures CacheSound(now, words, k)
  {
    BagInAscii(words);
    forall q
      ensures SoundAt(now, words, k, q)
    {
      if q in now && q != [] {
        assert ParallelAt(now, was, words, k, cacheDepth, q);
        if |q| <= cacheDepth {
          AnswerHasMembers(now[q], multiset(Labelled(words, q, Written(q))), k);
          WrittenInAscii(words, q);
        } else {
          assert SoundAt(was, words, k, q);
        }
      }
    }
  }

  /** With caching beyond the root, the parallel build is right exactly when every word starts with
      a rune below 0x80. */
  lemma ParallelSoundIff(now: Tops, was: Tops, words: Words, k: nat, cacheDepth: int)
    requires RuneStarts(words) && cacheDepth >= 1
    requires forall w :: w in words && w != [] ==> [w[0]] in now
    requires ParallelBuilt(now, was, words, k, cacheDepth)
    requires SoundBeyond(was, words, k, cacheDepth)
    ensures CacheSound(now, words, k) <==> AsciiStarts(words)
  {
    if AsciiStarts(words) {
      AsciiSound(now, was, words, k, cacheDepth);
    } else {
      var w: Str :| w in words && w != [] && ASCII_LIMIT <= w[0].code;
      assert ParallelAt(now, was, words, k, cacheDepth, [w[0]]);
      SpoiltList(now, was, words, k, cacheDepth, w);
    }
  }

  /** With no caching beyond the root the root list is stored all the same, and the cache is right exactly
      when that list is made of words with their frequencies, each listed once. */
  lemma ShallowSoundIff(now: Tops, was: Tops, words: Words, k: nat, cacheDepth: int)
    requires cacheDepth < 1
    requires ParallelBuilt(now, was, words, k, cacheDepth) && SoundBeyond(was, words, k, cacheDepth)
    ensures CacheSound(now, words, k) <==> IsTopK(now[[]].value, Pool(words, []), k)
    ensures CacheSound(now, words, k) <==> multiset(now[[]].value) <= Pool(words, [])
  {
    hide IsTopK, Pool, WrittenBag;
    RootListRightIff(now[[]].value, words, k);
    assert CacheSound(now, words, k) ==> SoundAt(now, words, k, []);
    forall q
      ensures SoundAt(now, words, k, q) <== q != [] || IsTopK(now[[]].value, Pool(words, []), k)
    {
      if q in now && q != [] {
        assert ParallelAt(now, was, words, k, cacheDepth, q);
        assert SoundAt(was, words, k, q);
      }
    }
  }

  /** Within the cache depth a lone word is stored, at each of its prefixes, as it is written. */
  lemma LoneList(now: Tops, was: Tops, w: Str, freq: int, k: nat, cacheDepth: int, q: Str)
    requires q != [] && q <= w && |q| <= cacheDepth && k >= 1 && q in now && q in was
    requires ParallelAt(now, was, map[w := freq], k, cacheDepth, q)
    ensures now[q] == Some([Reco(Written(w), freq)])
  {
    var words := map[w := freq];
    assert Written(q) + w[|q|..] == Written(w);
    forall r
      ensures r in Labelled(words, q, Written(q)) <==> r == Reco(Written(w), freq)
    {
      assert Reco(Written(q) + w[|q|..], words[w]) in Labelled(words, q, Written(q));
    }
    assert Labelled(words, q, Written(q)) == {Reco(Written(w), freq)};
    assert multiset(Labelled(words, q, Written(q))) == multiset{Reco(Written(w), freq)};
    assert now[q].Some?;
    var list := now[q].value;
    assert |list| == 1 && list[0] in multiset(list);
    assert list == [list[0]];
  }

  /** A lone word that starts with a rune from 0x80 up gets a wrong root list at every cache depth. */
  lemma LoneWordIsSpoilt(now: Tops, was: Tops, w: Str, freq: int, k: nat, cacheDepth: int)
    requires w != [] && IsRune(w[0]) && ASCII_LIMIT <= w[0].code && k >= 1
    requires ParallelBuilt(now, was, map[w := freq], k, cacheDepth)
    ensures now[[]] == Some([Reco(Written(w), freq)]) && !SoundAt(now, map[w := freq], k, [])
  {
    assert (map[w := freq]).Keys == {w};
    LoneWordSpoilsRoot(w, freq, k, now[[]].value);
  }
}
