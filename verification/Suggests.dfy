/** Answering a request from the trie: suggest.go. */
module Suggests {
  import opened Basics
  import opened Recos
  import opened TopLists
  import opened Completions
  import opened Tries
  import opened TopCaches

  method AppendOwn(t: Trie, prefix: Str, node: Node, out: seq<Reco>) returns (out': seq<Reco>)
    requires t.Shape() && prefix in t.nodes && t.nodes[prefix] == node
    ensures multiset(out') == multiset(out) + PartPool(t.words, prefix, prefix, {})
  {
    out' := out;
    assert t.WordOk(prefix);
    OwnPart(t.words, prefix, prefix);
    if node.isWord {
      out' := out' + [Reco(prefix, node.freq)];
    }
  }

  lemma AppendedChild(words: Words, prefix: Str, done: set<Rune>, c: Rune,
                      out: multiset<Reco>, before: multiset<Reco>, after: multiset<Reco>)
    requires c !in done
    requires before == out + PartPool(words, prefix, prefix, done)
    requires after == before + Pool(words, Ext(prefix, c))
    ensures after == out + PartPool(words, prefix, prefix, done + {c})
  {
    ChildPart(words, prefix, prefix, done, c);
  }

  /** Append every word below the node, in whatever order the child maps are walked. */
  method DFS(t: Trie, prefix: Str, node: Node, out: seq<Reco>) returns (out': seq<Reco>)
    requires t.Shape() && prefix in t.nodes && t.nodes[prefix] == node
    ensures multiset(out') == multiset(out) + Pool(t.words, prefix)
    decreases t.Below(prefix)
  {
    out' := AppendOwn(t, prefix, node, out);
    var remaining := node.children.Keys;
    ghost var done: set<Rune> := {};
    ghost var keys := remaining;
    IterationStarts(keys);
    while remaining != {}
      invariant keys == node.children.Keys && Iterating(keys, done, remaining)
      invariant multiset(out') == multiset(out) + PartPool(t.words, prefix, prefix, done)
      decreases |remaining|
    {
      var key, remaining' := NextKey(remaining, keys, done);
      t.ChildBelow(prefix, key);
      ghost var before := multiset(out');
      out' := DFS(t, Ext(prefix, key), node.children[key], out');
      AppendedChild(t.words, prefix, done, key, multiset(out), before, multiset(out'));
      done := done + {key};
      remaining := remaining';
    }
    IterationEnds(keys, done);
    AllParts(t, prefix, prefix);
  }

  method ResultWords(recos: seq<Reco>) returns (result: seq<Str>)
    ensures result == WordsOf(recos)
  {
    result := [];
    var i := 0;
    while i < |recos|
      invariant 0 <= i <= |recos| && |result| == i
      invariant forall j :: 0 <= j < i ==> result[j] == recos[j].word
    {
      result := result + [recos[i].word];
      i := i + 1;
    }
  }

  lemma NoCompletions(words: Words, s: Str, k: nat)
    requires !IsPrefixOfWord(words, s)
    ensures IsTopCompletions([], words, s, k)
  {
  }

  /** The stored list if there is one, otherwise the top k of a walk below the node. */
  method Recommend(t: Trie, s: Str, node: Node) returns (recos: seq<Reco>)
    requires t.Shape() && s in t.nodes && t.nodes[s] == node && t.k >= 1
    ensures node.top == None ==> IsTopK(recos, Pool(t.words, s), t.k)
    ensures node.top.Some? ==> recos == node.top.value
  {
    if node.top.None? {
      recos := DFS(t, s, node, []);
      assert multiset(recos) == Pool(t.words, s);
      recos := TopK(recos, t.k);
    } else {
      recos := node.top.value;
    }
  }

  /** Whatever was cached: if the list stored for s is right (or there is none), so is the answer. */
  method Suggest(t: Trie, s: Str) returns (result: seq<Str>)
    requires t.Valid()
    ensures t.k <= 0 ==> result == []
    ensures t.k >= 1 && SoundAt(TopsOf(t), t.words, t.k, s) ==> IsTopCompletions(result, t.words, s, t.k)
    ensures t.k >= 1 && s in t.nodes && t.nodes[s].top.Some? ==> result == WordsOf(t.nodes[s].top.value)
  {
    if t.k <= 0 {
      return [];
    }
    var prefixExists, _, _, node := t.Search(s);
    if !prefixExists {
      t.NodeIffPrefix(s);
      NoCompletions(t.words, s, t.k);
      return [];
    }
    var recos := Recommend(t, s, node);
    result := ResultWords(recos);
    if SoundAt(TopsOf(t), t.words, t.k, s) {
      assert TopsOf(t)[s] == node.top;
      TopListIsAnswer(recos, t.words, s, t.k);
    }
  }
}
