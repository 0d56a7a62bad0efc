/** Loading a file into a trie, and the one answer that the trie, the flat index and the seeded
    collection share. */
module Agreement {
  import opened Basics
  import opened Recos
  import opened TopLists
  import opened Completions
  import opened Files
  import opened PhrasePools
  import opened Buckets
  import opened Tries
  import opened WrittenPools
  import opened TopCaches
  import opened Suggests
  import opened Seeding

  /** Insert every parsed line; no empty phrase is ever inserted. */
  method BuildTrie(file: File) returns (t: Trie)
    requires WellFormed(file)
    ensures fresh(t) && fresh(t.repr) && t.Valid()
    ensures t.words == WordsIn(file, |file|) && [] !in t.words
    ensures forall q :: q in t.nodes ==> t.nodes[q].top == None
  {
    t := new Trie();
    var i := 0;
    while i < |file|
      invariant 0 <= i <= |file|
      invariant fresh(t) && fresh(t.repr) && t.Valid()
      invariant t.words == WordsIn(file, i) && [] !in t.words
      invariant forall q :: q in t.nodes ==> t.nodes[q].top == None
    {
      if file[i].Data? {
        t.Insert(file[i].phrase, file[i].freq);
      }
      i := i + 1;
    }
  }

  /** Load for the trie.  At any cache depth the cached lists are right when every phrase starts with a rune
      below 0x80; with lists cached beyond the root only then; and with no more than the root list, exactly
      when that list holds words with their frequencies, which is certain when the word list is safe. */
  method LoadTrie(file: File, k: nat, cacheDepth: int) returns (t: Trie)
    requires WellFormed(file) && k >= 1 && RuneStarts(WordsIn(file, |file|))
    ensures t.Valid() && t.words == WordsIn(file, |file|) && t.k == k && t.cacheDepth == cacheDepth
    ensures AsciiStarts(t.words) ==> CacheSound(TopsOf(t), t.words, k)
    ensures cacheDepth >= 1 ==> (CacheSound(TopsOf(t), t.words, k) <==> AsciiStarts(t.words))
    ensures [] in t.nodes && t.nodes[[]].top.Some? && [] !in t.words
    ensures IsTopK(t.nodes[[]].top.value, WrittenBag(t.words, t.words.Keys), k)
    ensures cacheDepth < 1 ==>
      (CacheSound(TopsOf(t), t.words, k) <==> multiset(t.nodes[[]].top.value) <= Pool(t.words, []))
    ensures cacheDepth < 1 && RootSafe(t.words, k) ==> CacheSound(TopsOf(t), t.words, k)
    ensures ParallelBuilt(TopsOf(t), map q | q in t.nodes :: None, t.words, k, cacheDepth)
  {
    t := BuildTrie(file);
    t.k := k;
    t.cacheDepth := cacheDepth;
    assert forall q :: cacheDepth < |q| ==> SoundAt(TopsOf(t), t.words, k, q);
    ghost var was := TopsOf(t);
    assert was == map q | q in t.nodes :: None;
    BuildCacheParallel(t);
    assert TopsOf(t)[[]] == t.nodes[[]].top;
    if cacheDepth < 1 {
      ShallowSoundIff(TopsOf(t), was, t.words, k, cacheDepth);
    }
  }

  /** Loading the one-line file with the phrase U+00E9: the cache is wrong at every depth, 0 included. */
  method LoadSpoilt(k: nat, cacheDepth: int) returns (t: Trie)
    requires k >= 1
    ensures t.Valid() && t.words == map[[Rune(0xE9)] := 1] && t.cacheDepth == cacheDepth
    ensures !CacheSound(TopsOf(t), t.words, k)
  {
    var file := [Data([Rune(0xE9)], 1, 5)];
    assert WordsIn(file, 0) == map[] && WordsIn(file, 1) == map[[Rune(0xE9)] := 1];
    t := LoadTrie(file, k, cacheDepth);
    assert t.words.Keys == {[Rune(0xE9)]};
    LoneWordSpoilsRoot([Rune(0xE9)], 1, k, t.nodes[[]].top.value);
    assert TopsOf(t)[[]] == t.nodes[[]].top;
    assert !SoundAt(TopsOf(t), t.words, k, []);
  }

  /** A file with a single phrase: at the root, and at every prefix within the cache depth, the list has
      the phrase with its first rune cut to one byte; deeper there is no list. */
  method LoadLone(w: Str, freq: int, size: nat, k: nat, cacheDepth: int) returns (t: Trie)
    requires w != [] && IsRune(w[0]) && size > 0 && k >= 1
    ensures t.Valid() && t.words == map[w := freq] && t.k == k && t.cacheDepth == cacheDepth
    ensures [] in t.nodes && t.nodes[[]].top == Some([Reco(Written(w), freq)])
    ensures forall q :: q != [] && q <= w ==>
      q in t.nodes && t.nodes[q].top == if |q| <= cacheDepth then Some([Reco(Written(w), freq)]) else None
  {
    hide ParallelBuilt, ParallelAt, IsTopK, WrittenBag, CacheSound;
    var file := [Data(w, freq, size)];
    assert WordsIn(file, 0) == map[] && WordsIn(file, 1) == map[w := freq];
    t := LoadTrie(file, k, cacheDepth);
    assert t.words.Keys == {w};
    LoneRootList(w, freq, k, t.nodes[[]].top.value);
    ghost var tops: Tops := TopsOf(t);
    forall q | q != [] && q <= w
      ensures q in t.nodes
        && t.nodes[q].top == if |q| <= cacheDepth then Some([Reco(Written(w), freq)]) else None
    {
      PrefixNode(t, q, w);
      LoneTop(tops, map p | p in t.nodes :: None, w, freq, k, cacheDepth, q);
      assert tops[q] == t.nodes[q].top;
    }
  }

  lemma LoneTop(now: Tops, was: Tops, w: Str, freq: int, k: nat, cacheDepth: int, q: Str)
    requires q != [] && q <= w && k >= 1 && q in now && q in was && was[q] == None
    requires ParallelBuilt(now, was, map[w := freq], k, cacheDepth)
    ensures now[q] == if |q| <= cacheDepth then Some([Reco(Written(w), freq)]) else None
  {
    assert ParallelAt(now, was, map[w := freq], k, cacheDepth, q);
    if |q| <= cacheDepth {
      LoneList(now, was, w, freq, k, cacheDepth, q);
    }
  }

  /** With the one phrase U+0141 'x', and lists cached beyond the root, a request for U+0141 is answered
      with the word "Ax", which is not in the file. */
  method SuggestSpoilt(k: nat, cacheDepth: int) returns (t: Trie, result: seq<Str>)
    requires k >= 1
    ensures t.Valid() && t.words == map[[Rune(0x141), Rune(120)] := 5] && t.cacheDepth == cacheDepth
    ensures [] in t.nodes && t.nodes[[]].top == Some([Reco([Rune(0x41), Rune(120)], 5)])
    ensures cacheDepth >= 1 ==> result == [[Rune(0x41), Rune(120)]]
    ensures cacheDepth < 1 ==> result == [[Rune(0x141), Rune(120)]]
  {
    hide CompletionsOf, IsTopCompletions, IsTopK;
    var w, q := [Rune(0x141), Rune(120)], [Rune(0x141)];
    t := LoadLone(w, 5, 6, k, cacheDepth);
    UnitOf(w[0]);
    assert Written(w) == [Rune(0x41), Rune(120)];
    assert q <= w;
    result := Suggest(t, q);
    if cacheDepth < 1 {
      assert SoundAt(TopsOf(t), t.words, k, q);
      LoneAnswer(result, w, 5, q, k);
    }
  }

  lemma PrefixNode(t: Trie, q: Str, w: Str)
    requires t.Valid() && w in t.words && q <= w
    ensures q in t.nodes
  {
    t.NodeIffPrefix(q);
  }

  lemma LoneAnswer(result: seq<Str>, w: Str, freq: int, q: Str, k: nat)
    requires k >= 1 && q <= w && IsTopCompletions(result, map[w := freq], q, k)
    ensures result == [w]
  {
    assert CompletionsOf(map[w := freq], q) == {w};
  }

  /** The answer with every cached list ignored: a walk below the node, then the k best. */
  method Uncached(t: Trie, s: Str) returns (result: seq<Str>)
    requires t.Valid() && t.k >= 1
    ensures IsTopCompletions(result, t.words, s, t.k)
  {
    var prefixExists, _, _, node := t.Search(s);
    if !prefixExists {
      t.NodeIffPrefix(s);
      NoCompletions(t.words, s, t.k);
      return [];
    }
    var cands := DFS(t, s, node, []);
    assert multiset(cands) == Pool(t.words, s);
    var recos := TopK(cands, t.k);
    result := ResultWords(recos);
    TopListIsAnswer(recos, t.words, s, t.k);
  }

  /** With the sequential build the cache is right whatever its depth. */
  method LoadCached(file: File, k: nat, cacheDepth: int) returns (t: Trie)
    requires WellFormed(file) && k >= 1
    ensures t.Valid() && t.words == WordsIn(file, |file|) && t.k == k && CacheSound(TopsOf(t), t.words, k)
  {
    t := BuildTrie(file);
    t.k := k;
    t.cacheDepth := cacheDepth;
    assert forall q :: cacheDepth < |q| ==> SoundAt(TopsOf(t), t.words, k, q);
    BuildCache(t);
  }

  /** For every loaded file, limit, cache depth and request: the answer with the sequentially built
      cache and the answer without any cache are both right, and have the same frequencies. */
  method CachedEqualsUncached(file: File, k: nat, cacheDepth: int, s: Str)
    returns (cached: seq<Str>, uncached: seq<Str>)
    requires WellFormed(file) && k >= 1
    ensures IsTopCompletions(cached, WordsIn(file, |file|), s, k)
    ensures IsTopCompletions(uncached, WordsIn(file, |file|), s, k)
    ensures FreqsOf(cached, WordsIn(file, |file|)) == FreqsOf(uncached, WordsIn(file, |file|))
  {
    var t := LoadCached(file, k, cacheDepth);
    cached := Suggest(t, s);
    uncached := Uncached(t, s);
    AnswersAgree(cached, uncached, t.words, s, k);
  }

  /** The suggestions stored for a prefix. */
  function StoredWords(docs: Docs, q: Str): seq<Str> {
    if q in docs then WordsOf(docs[q]) else []
  }

  /** No completion of q is over budget. */
  ghost predicate InBudget(file: File, q: Str) {
    forall i :: Extends(file, i, q) ==> !OverBudget(file, file[i].phrase)
  }

  lemma ReachedPool(file: File, q: Str)
    requires DistinctPhrases(file) && InBudget(file, q)
    ensures Pooled(file, Reached(file), q) == Pool(WordsIn(file, |file|), q)
  {
    forall i | 0 <= i < |file| && Extends(file, i, q)
      ensures i in Reached(file) <==> i in LineSet(0, |file|)
    {
      assert IsReached(file, i);
    }
    PoolSame(file, |file|, Reached(file), LineSet(0, |file|), q);
    PoolOfAllLines(file, |file|, q);
  }

  /** When no completion of the request is over budget and no phrase is repeated, the seeded collection
      answers the request with the frequencies that any right answer from the trie has. */
  lemma SeededAgreesWithTrie(docs: Docs, file: File, k: nat, q: Str, answer: seq<Str>)
    requires DistinctPhrases(file) && q != [] && InBudget(file, q)
    requires Stored(docs, file, Reached(file), k)
    requires IsTopCompletions(answer, WordsIn(file, |file|), q, k)
    ensures IsTopCompletions(StoredWords(docs, q), WordsIn(file, |file|), q, k)
    ensures FreqsOf(StoredWords(docs, q), WordsIn(file, |file|)) == FreqsOf(answer, WordsIn(file, |file|))
  {
    StoredAnswer(docs, file, k, q);
    AnswersAgree(StoredWords(docs, q), answer, WordsIn(file, |file|), q, k);
  }

  lemma StoredAnswer(docs: Docs, file: File, k: nat, q: Str)
    requires DistinctPhrases(file) && q != [] && InBudget(file, q)
    requires Stored(docs, file, Reached(file), k)
    ensures IsTopCompletions(StoredWords(docs, q), WordsIn(file, |file|), q, k)
  {
    var words := WordsIn(file, |file|);
    assert StoredAt(docs, file, Reached(file), k, q);
    ReachedPool(file, q);
    if q in docs {
      TopListIsAnswer(docs[q], words, q, k);
    } else {
      PoolSize(words, q);
      assert CompletionsOf(words, q) == {};
    }
  }

  /** As many distinct members as the set has are all of them. */
  lemma {:induction false} AllListed(result: seq<Str>, all: set<Str>)
    requires |result| == |all| && forall i :: 0 <= i < |result| ==> result[i] in all
    requires forall i, j :: 0 <= i < j < |result| ==> result[i] != result[j]
    ensures forall w :: w in all ==> w in result
  {
    if result == [] {
      assert all == {};
    } else {
      var front, last := result[..|result| - 1], result[|result| - 1];
      AllListed(front, all - {last});
      assert result == front + [last];
      assert forall w :: w in all ==> w == last || w in all - {last};
    }
  }

  /** An answer with room for every completion lists every completion. */
  lemma AnswerListsAll(result: seq<Str>, words: Words, q: Str, k: nat, w: Str)
    requires IsTopCompletions(result, words, q, k) && k >= |CompletionsOf(words, q)|
    requires w in words && q <= w
    ensures w in result
  {
    AllListed(result, CompletionsOf(words, q));
  }

  /** A completion that is over budget is missing from an answer with room for it. */
  lemma MissingCompletion(docs: Docs, file: File, k: nat, q: Str, i: nat)
    requires DistinctPhrases(file) && Extends(file, i, q) && OverBudget(file, file[i].phrase)
    requires Stored(docs, file, Reached(file), k)
    requires k >= |CompletionsOf(WordsIn(file, |file|), q)|
    ensures !IsTopCompletions(StoredWords(docs, q), WordsIn(file, |file|), q, k)
  {
    hide IsTopCompletions, CompletionsOf, Stored, OverBudget, DistinctPhrases;
    WordFromLine(file, |file|, file[i].phrase);
    WordIsNowhere(docs, file, k, q, i);
    assert file[i].phrase !in StoredWords(docs, q);
    if IsTopCompletions(StoredWords(docs, q), WordsIn(file, |file|), q, k) {
      AnswerListsAll(StoredWords(docs, q), WordsIn(file, |file|), q, k, file[i].phrase);
    }
  }

  lemma WordIsNowhere(docs: Docs, file: File, k: nat, q: Str, i: nat)
    requires i < |file| && file[i].Data? && OverBudget(file, file[i].phrase)
    requires Stored(docs, file, Reached(file), k)
    ensures q in docs ==> forall l :: 0 <= l < |docs[q]| ==> docs[q][l].word != file[i].phrase
  {
    if q in docs {
      assert StoredAt(docs, file, Reached(file), k, q);
      forall l | 0 <= l < |docs[q]|
        ensures docs[q][l].word != file[i].phrase
      {
        assert docs[q][l] in multiset(docs[q]);
        PoolHas(file, |file|, Reached(file), q, docs[q][l]);
      }
    }
  }

  /** Whatever is seeded for each k: the answers to q are right for every k if and only if no completion
      of q is over budget. */
  lemma SeededRightIff(seeded: nat -> Docs, file: File, q: Str)
    requires DistinctPhrases(file) && q != []
    requires forall k :: k >= 1 ==> Stored(seeded(k), file, Reached(file), k)
    ensures (forall k :: k >= 1 ==> IsTopCompletions(StoredWords(seeded(k), q), WordsIn(file, |file|), q, k))
       <==> InBudget(file, q)
  {
    if InBudget(file, q) {
      forall k: nat | k >= 1
        ensures IsTopCompletions(StoredWords(seeded(k), q), WordsIn(file, |file|), q, k)
      {
        StoredAnswer(seeded(k), file, k, q);
      }
    } else {
      var i :| Extends(file, i, q) && OverBudget(file, file[i].phrase);
      var k := |CompletionsOf(WordsIn(file, |file|), q)| + 1;
      MissingCompletion(seeded(k), file, k, q, i);
    }
  }
}
