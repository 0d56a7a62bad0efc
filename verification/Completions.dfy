/** What a suggestion request promises in terms of the word list alone: the completions of a
    prefix, and what makes a list of words a right answer. */
module Completions {
  import opened Basics
  import opened Recos

  type Words = map<Str, int>

  function Ext(p: Str, c: Rune): Str {
    p + [c]
  }

  /** The prefixes of s of length at most n. */
  ghost function PrefixesUpTo(s: Str, n: nat): set<Str>
    requires n <= |s|
  {
    set m | 0 <= m <= n :: s[..m]
  }

  lemma PrefixesStep(s: Str, n: nat)
    requires n < |s|
    ensures PrefixesUpTo(s, n + 1) == PrefixesUpTo(s, n) + {Ext(s[..n], s[n])}
  {
    assert Ext(s[..n], s[n]) == s[..n + 1];
  }

  lemma PrefixesAll(s: Str, p: Str)
    ensures p in PrefixesUpTo(s, |s|) <==> p <= s
  {
    if p <= s {
      assert s[..|p|] == p;
    }
  }

  ghost predicate IsPrefixOfWord(words: Words, p: Str) {
    exists w :: w in words && p <= w
  }

  ghost function CompletionsOf(words: Words, q: Str): set<Str> {
    set w | w in words && q <= w
  }

  /** The entries of the words extending p, written with p replaced by path. */
  ghost function Labelled(words: Words, p: Str, path: Str): set<Reco> {
    set w | w in words && p <= w :: Reco(path + w[|p|..], words[w])
  }

  /** The part of Labelled made of p itself and of the words that go on with a rune in done. */
  ghost function LabelledPart(words: Words, p: Str, path: Str, done: set<Rune>): set<Reco> {
    set w | w in words && p <= w && (w == p || w[|p|] in done) :: Reco(path + w[|p|..], words[w])
  }

  ghost function Pool(words: Words, q: Str): multiset<Reco> {
    multiset(Labelled(words, q, q))
  }

  /** A right answer to a request for the k best completions of q: distinct completions in
      descending frequency, as many as possible up to k, none left out that is more frequent. */
  ghost predicate IsTopCompletions(result: seq<Str>, words: Words, q: Str, k: nat) {
    && (forall i :: 0 <= i < |result| ==> result[i] in CompletionsOf(words, q))
    && (forall i, j :: 0 <= i < j < |result| ==> result[i] != result[j])
    && (forall i, j :: 0 <= i < j < |result| ==> words[result[j]] <= words[result[i]])
    && |result| == Min(k, |CompletionsOf(words, q)|)
    && (forall i, w :: 0 <= i < |result| && w in CompletionsOf(words, q) && w !in result
         ==> words[w] <= words[result[i]])
  }

  // ---------------------------------------------------------------- children partition the completions

  lemma DisjointBags<T>(a: set<T>, b: set<T>)
    requires a !! b
    ensures multiset(a + b) == multiset(a) + multiset(b)
  {
  }

  lemma ChildPartCovers(words: Words, p: Str, path: Str, done: set<Rune>, c: Rune)
    ensures LabelledPart(words, p, path, done + {c})
         == LabelledPart(words, p, path, done) + Labelled(words, Ext(p, c), Ext(path, c))
  {
    forall r | r in LabelledPart(words, p, path, done + {c})
      ensures r in LabelledPart(words, p, path, done) + Labelled(words, Ext(p, c), Ext(path, c))
    {
      var w :| w in words && p <= w && (w == p || w[|p|] in done + {c}) && r == Reco(path + w[|p|..], words[w]);
      if !(w == p || w[|p|] in done) {
        assert Ext(p, c) <= w;
        assert w[|p|..] == [c] + w[|p| + 1..];
        assert Ext(path, c) + w[|Ext(p, c)|..] == path + w[|p|..];
      }
    }
    forall r | r in Labelled(words, Ext(p, c), Ext(path, c))
      ensures r in LabelledPart(words, p, path, done + {c})
    {
      var w :| w in words && Ext(p, c) <= w && r == Reco(Ext(path, c) + w[|Ext(p, c)|..], words[w]);
      assert p <= w && w[|p|] == c;
      assert w[|p|..] == [c] + w[|p| + 1..];
      assert Ext(path, c) + w[|Ext(p, c)|..] == path + w[|p|..];
    }
  }

  /** Entries of the part are path itself or go on after path with a rune in done. */
  lemma PartGoesOn(words: Words, p: Str, path: Str, done: set<Rune>, r: Reco)
    requires r in LabelledPart(words, p, path, done)
    ensures path <= r.word
    ensures |r.word| > |path| ==> r.word[|path|] in done
  {
  }

  lemma ChildGoesOn(words: Words, p: Str, path: Str, c: Rune, r: Reco)
    requires r in Labelled(words, Ext(p, c), Ext(path, c))
    ensures |r.word| > |path| && r.word[|path|] == c
  {
  }

  lemma ChildPart(words: Words, p: Str, path: Str, done: set<Rune>, c: Rune)
    requires c !in done
    ensures multiset(LabelledPart(words, p, path, done + {c}))
         == multiset(LabelledPart(words, p, path, done)) + multiset(Labelled(words, Ext(p, c), Ext(path, c)))
  {
    var part := LabelledPart(words, p, path, done);
    var child := Labelled(words, Ext(p, c), Ext(path, c));
    ChildPartCovers(words, p, path, done, c);
    forall r | r in child
      ensures r !in part
    {
      ChildGoesOn(words, p, path, c, r);
      if r in part {
        PartGoesOn(words, p, path, done, r);
      }
    }
    DisjointBags(part, child);
  }

  lemma OwnPart(words: Words, p: Str, path: Str)
    ensures LabelledPart(words, p, path, {}) == if p in words then {Reco(path, words[p])} else {}
  {
    if p in words {
      assert path + p[|p|..] == path;
      assert Reco(path + p[|p|..], words[p]) in LabelledPart(words, p, path, {});
    }
    forall r | r in LabelledPart(words, p, path, {})
      ensures p in words && r == Reco(path, words[p])
    {
      assert path + p[|p|..] == path;
    }
  }

  // ---------------------------------------------------------------- from entries to words

  lemma PoolMembers(words: Words, q: Str, r: Reco)
    ensures r in Pool(words, q) <==> r.word in CompletionsOf(words, q) && r.freq == words[r.word]
    ensures Pool(words, q)[r] <= 1
  {
    forall w | w in words && q <= w
      ensures q + w[|q|..] == w
    {
    }
    if r.word in CompletionsOf(words, q) && r.freq == words[r.word] {
      assert Reco(q + r.word[|q|..], words[r.word]) in Labelled(words, q, q);
    }
  }

  lemma PoolSize(words: Words, q: Str)
    ensures |Pool(words, q)| == |CompletionsOf(words, q)|
  {
    var recos, ws := Labelled(words, q, q), CompletionsOf(words, q);
    forall r | r in recos
      ensures r.word in ws && r.freq == words[r.word]
    {
      assert r in Pool(words, q);
      PoolMembers(words, q, r);
    }
    forall w | w in ws
      ensures Reco(w, words[w]) in recos
    {
      PoolMembers(words, q, Reco(w, words[w]));
      assert Reco(w, words[w]) in Pool(words, q);
    }
    SameSize(recos, ws, words);
  }

  lemma {:induction false} SameSize(recos: set<Reco>, ws: set<Str>, words: Words)
    requires ws <= words.Keys
    requires forall r :: r in recos ==> r.word in ws && r.freq == words[r.word]
    requires forall w :: w in ws ==> Reco(w, words[w]) in recos
    ensures |recos| == |ws|
    decreases ws
  {
    if ws == {} {
      assert recos == {};
    } else {
      var w :| w in ws;
      SameSize(recos - {Reco(w, words[w])}, ws - {w}, words);
    }
  }

  lemma TopWords(recos: seq<Reco>, words: Words, q: Str, k: nat)
    requires IsTopK(recos, Pool(words, q), k)
    ensures forall i :: 0 <= i < |recos| ==>
      recos[i].word in CompletionsOf(words, q) && recos[i].freq == words[recos[i].word]
    ensures forall i, j :: 0 <= i < j < |recos| ==> recos[i].word != recos[j].word
  {
    forall i | 0 <= i < |recos|
      ensures recos[i].word in CompletionsOf(words, q) && recos[i].freq == words[recos[i].word]
    {
      assert recos[i] in multiset(recos);
      PoolMembers(words, q, recos[i]);
    }
    forall i, j | 0 <= i < j < |recos|
      ensures recos[i].word != recos[j].word
    {
      if recos[i].word == recos[j].word {
        TwoCopies(recos, i, j);
        PoolMembers(words, q, recos[i]);
      }
    }
  }

  lemma TwoCopies<T>(s: seq<T>, i: nat, j: nat)
    requires i < j < |s| && s[i] == s[j]
    ensures multiset(s)[s[i]] >= 2
  {
    assert s == s[..j] + [s[j]] + s[j + 1..];
    assert s[..j][i] in multiset(s[..j]);
  }

  lemma NoneBetter(recos: seq<Reco>, words: Words, q: Str, k: nat, i: nat, w: Str)
    requires IsTopK(recos, Pool(words, q), k)
    requires i < |recos| && w in CompletionsOf(words, q) && w !in WordsOf(recos)
    ensures words[w] <= recos[i].freq
  {
    var r := Reco(w, words[w]);
    PoolMembers(words, q, r);
    forall m | 0 <= m < |recos|
      ensures recos[m] != r
    {
      assert WordsOf(recos)[m] == recos[m].word;
    }
    assert r in Pool(words, q) - multiset(recos);
    assert recos[i] in multiset(recos);
  }

  /** The words of a top list of entries are a right answer. */
  lemma TopListIsAnswer(recos: seq<Reco>, words: Words, q: Str, k: nat)
    requires IsTopK(recos, Pool(words, q), k)
    ensures IsTopCompletions(WordsOf(recos), words, q, k)
  {
    var result := WordsOf(recos);
    TopWords(recos, words, q, k);
    PoolSize(words, q);
    forall i, w | 0 <= i < |result| && w in CompletionsOf(words, q) && w !in result
      ensures words[w] <= words[result[i]]
    {
      NoneBetter(recos, words, q, k, i, w);
    }
  }

  function FreqsOf(result: seq<Str>, words: Words): seq<int>
    requires forall i :: 0 <= i < |result| ==> result[i] in words
  {
    seq(|result|, i requires 0 <= i < |result| => words[result[i]])
  }

  function Entries(result: seq<Str>, words: Words): seq<Reco>
    requires forall i :: 0 <= i < |result| ==> result[i] in words
  {
    seq(|result|, i requires 0 <= i < |result| => Reco(result[i], words[result[i]]))
  }

  lemma {:induction false} DistinctBag(s: seq<Reco>)
    requires forall i, j :: 0 <= i < j < |s| ==> s[i] != s[j]
    ensures multiset(s) == multiset(set r | r in s)
  {
    if s != [] {
      var n := |s| - 1;
      DistinctBag(s[..n]);
      assert s == s[..n] + [s[n]];
      assert (set r | r in s) == (set r | r in s[..n]) + {s[n]};
    }
  }

  lemma AnswerIsTopList(result: seq<Str>, words: Words, q: Str, k: nat)
    requires IsTopCompletions(result, words, q, k)
    ensures IsTopK(Entries(result, words), Pool(words, q), k)
  {
    var recos := Entries(result, words);
    DistinctBag(recos);
    PoolSize(words, q);
    forall r | r in recos
      ensures r in Labelled(words, q, q)
    {
      PoolMembers(words, q, r);
      assert r in Pool(words, q);
    }
    forall x: Reco, y: Reco | x in multiset(recos) && y in Pool(words, q) - multiset(recos)
      ensures y.freq <= x.freq
    {
      assert y in Pool(words, q);
      PoolMembers(words, q, y);
      var i :| 0 <= i < |recos| && recos[i] == x;
      assert y !in multiset(recos);
      forall j | 0 <= j < |result|
        ensures result[j] != y.word
      {
        assert recos[j] in multiset(recos);
      }
    }
  }

  lemma EntryFreqs(result: seq<Str>, words: Words)
    requires forall i :: 0 <= i < |result| ==> result[i] in words
    ensures FreqsOf(result, words) == Freqs(Entries(result, words))
  {
  }

  /** Two right answers to the same request have the same frequency list. */
  lemma AnswersAgree(a: seq<Str>, b: seq<Str>, words: Words, q: Str, k: nat)
    requires IsTopCompletions(a, words, q, k) && IsTopCompletions(b, words, q, k)
    ensures FreqsOf(a, words) == FreqsOf(b, words)
  {
    AnswerIsTopList(a, words, q, k);
    AnswerIsTopList(b, words, q, k);
    TopKIsUnique(Entries(a, words), Entries(b, words), Pool(words, q), k);
    EntryFreqs(a, words);
    EntryFreqs(b, words);
  }
}
