/** The flat index from prefix to top list: prefix_index.go and walkForIndex. */
module PrefixIndexes {
  import opened Recos
  import opened Completions
  import opened Tries
  import opened TopCaches
  import opened Suggests

  class PrefixIndex {
    var entries: map<Str, seq<Reco>>

    constructor ()
      ensures entries == map[]
    {
      entries := map[];
    }

    method Suggest(prefix: Str) returns (result: seq<Str>)
      ensures result == if prefix in entries then WordsOf(entries[prefix]) else []
    {
      if prefix !in entries {
        return [];
      }
      result := ResultWords(entries[prefix]);
    }
  }

  type Entries = map<Str, seq<Reco>>

  /** At q the index has what it had before, or, for paths in the filled set, the top list of q. */
  ghost predicate FilledAt(now: Entries, was: Entries, words: Words, k: nat, filled: set<Str>, q: Str) {
    if q in filled
    then q in now && IsTopK(now[q], Pool(words, q), k)
    else (q in now <==> q in was) && (q in now ==> now[q] == was[q])
  }

  ghost predicate Filled(now: Entries, was: Entries, words: Words, k: nat, filled: set<Str>) {
    forall q :: FilledAt(now, was, words, k, filled, q)
  }

  lemma FilledNone(now: Entries, words: Words, k: nat)
    ensures Filled(now, now, words, k, {})
  {
  }

  lemma FilledMore(now: Entries, mid: Entries, was: Entries, words: Words, k: nat, a: set<Str>, b: set<Str>)
    requires Filled(mid, was, words, k, a) && Filled(now, mid, words, k, b)
    ensures Filled(now, was, words, k, a + b)
  {
    forall q
      ensures FilledAt(now, was, words, k, a + b, q)
    {
      assert FilledAt(mid, was, words, k, a, q) && FilledAt(now, mid, words, k, b, q);
    }
  }

  /** The paths through the children already visited. */
  ghost function BelowPart(t: Trie, p: Str, done: set<Rune>): set<Str>
    reads t`nodes
  {
    set q | q in t.nodes && p <= q && q != p && q[|p|] in done
  }

  lemma BelowMore(t: Trie, p: Str, done: set<Rune>, c: Rune)
    ensures BelowPart(t, p, done + {c}) == BelowPart(t, p, done) + t.Below(Ext(p, c))
  {
  }

  lemma BelowAll(t: Trie, p: Str)
    requires t.Shape() && p in t.nodes
    ensures BelowPart(t, p, t.nodes[p].children.Keys) + {p} == t.Below(p)
  {
    forall q | q in t.Below(p) && q != p
      ensures q[|p|] in t.nodes[p].children
    {
      t.ChildTowards(p, q);
    }
  }

  method WalkForIndex(t: Trie, node: Node, prefix: Str, pi: PrefixIndex) returns (top: seq<Reco>)
    requires t.Shape() && prefix in t.nodes && t.nodes[prefix] == node && t.k >= 1
    modifies pi
    ensures IsTopK(top, Pool(t.words, prefix), t.k)
    ensures Filled(pi.entries, old(pi.entries), t.words, t.k, t.Below(prefix))
    decreases t.Below(prefix), 1
  {
    var cands := WalkChildren(t, node, prefix, pi);
    ghost var mid := pi.entries;
    var chosen := ChooseTop(cands, t.k, Pool(t.words, prefix));
    top := if chosen.Some? then chosen.value else [];
    pi.entries := pi.entries[prefix := top];
    assert Filled(pi.entries, mid, t.words, t.k, {prefix});
    BelowAll(t, prefix);
    FilledMore(pi.entries, mid, old(pi.entries), t.words, t.k, BelowPart(t, prefix, node.children.Keys), {prefix});
  }

  method WalkChildren(t: Trie, node: Node, prefix: Str, pi: PrefixIndex) returns (cands: seq<seq<Reco>>)
    requires t.Shape() && prefix in t.nodes && t.nodes[prefix] == node && t.k >= 1
    modifies pi
    ensures Candidates(cands, Pool(t.words, prefix), t.k)
    ensures Filled(pi.entries, old(pi.entries), t.words, t.k, BelowPart(t, prefix, node.children.Keys))
    decreases t.Below(prefix), 0
  {
    hide Candidates, Filled, LabelledPart, Trie.Shape;
    cands := OwnCandidate(t, node, prefix, prefix);
    var remaining := node.children.Keys;
    ghost var done: set<Rune> := {};
    ghost var keys := remaining;
    IterationStarts(keys);
    FilledNone(pi.entries, t.words, t.k);
    assert BelowPart(t, prefix, {}) == {};
    while remaining != {}
      invariant keys == node.children.Keys && Iterating(keys, done, remaining)
      invariant Candidates(cands, PartPool(t.words, prefix, prefix, done), t.k)
      invariant Filled(pi.entries, old(pi.entries), t.words, t.k, BelowPart(t, prefix, done))
      decreases |remaining|
    {
      var key, remaining' := NextKey(remaining, keys, done);
      ghost var mid := pi.entries;
      t.ChildBelow(prefix, key);
      var top := WalkForIndex(t, node.children[key], prefix + [key], pi);
      MoreCandidates(cands, PartPool(t.words, prefix, prefix, done), top, Pool(t.words, Ext(prefix, key)), t.k);
      cands := cands + [top];
      ChildPart(t.words, prefix, prefix, done, key);
      BelowMore(t, prefix, done, key);
      FilledMore(pi.entries, mid, old(pi.entries), t.words, t.k, BelowPart(t, prefix, done), t.Below(Ext(prefix, key)));
      done := done + {key};
      remaining := remaining';
    }
    IterationEnds(keys, done);
    AllParts(t, prefix, prefix);
  }

  /** The keys are "" and every prefix of a word, and each key has its top list. */
  method BuildPrefixIndex(t: Trie) returns (pi: PrefixIndex)
    requires t.Valid() && t.k >= 1
    ensures fresh(pi)
    ensures forall s :: s in pi.entries <==> s == [] || IsPrefixOfWord(t.words, s)
    ensures forall s :: s in pi.entries ==> IsTopK(pi.entries[s], Pool(t.words, s), t.k)
  {
    pi := new PrefixIndex();
    var top := WalkForIndex(t, t.root, [], pi);
    forall s
      ensures s in pi.entries <==> s == [] || IsPrefixOfWord(t.words, s)
      ensures s in pi.entries ==> IsTopK(pi.entries[s], Pool(t.words, s), t.k)
    {
      assert FilledAt(pi.entries, map[], t.words, t.k, t.Below([]), s);
      t.NodeIffPrefix(s);
    }
  }

  /** The flat index refines the trie: for every string both give a right answer, so the same
      frequency list. */
  method BothSuggest(t: Trie, pi: PrefixIndex, s: Str) returns (fromTrie: seq<Str>, fromIndex: seq<Str>)
    requires t.Valid() && t.k >= 1 && SoundAt(TopsOf(t), t.words, t.k, s)
    requires s in pi.entries <==> s == [] || IsPrefixOfWord(t.words, s)
    requires s in pi.entries ==> IsTopK(pi.entries[s], Pool(t.words, s), t.k)
    ensures IsTopCompletions(fromTrie, t.words, s, t.k) && IsTopCompletions(fromIndex, t.words, s, t.k)
    ensures FreqsOf(fromTrie, t.words) == FreqsOf(fromIndex, t.words)
  {
    fromTrie := Suggests.Suggest(t, s);
    fromIndex := pi.Suggest(s);
    if s in pi.entries {
      TopListIsAnswer(pi.entries[s], t.words, s, t.k);
    } else {
      NoCompletions(t.words, s, t.k);
    }
    AnswersAgree(fromTrie, fromIndex, t.words, s, t.k);
  }
}
