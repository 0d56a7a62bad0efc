/** The entries contributed by a selection of lines to a prefix, and how they relate to a word list. */
module PhrasePools {
  import opened Recos
  import opened Completions
  import opened Files

  function Entry(line: Line): Reco
    requires line.Data?
  {
    Reco(line.phrase, line.freq)
  }

  /** The entries of the selected lines among the first n whose phrase extends q. */
  ghost function PoolSel(file: File, n: nat, sel: set<int>, q: Str): multiset<Reco>
    requires n <= |file|
  {
    if n == 0 then multiset{}
    else PoolSel(file, n - 1, sel, q)
         + if n - 1 in sel && Extends(file, n - 1, q) then multiset{Entry(file[n - 1])} else multiset{}
  }

  ghost function Pooled(file: File, sel: set<int>, q: Str): multiset<Reco> {
    PoolSel(file, |file|, sel, q)
  }

  /** The line numbers from lo up to hi. */
  ghost function LineSet(lo: nat, hi: nat): (lines: set<int>)
    ensures forall i :: i in lines <==> lo <= i < hi
  {
    if hi <= lo then {} else LineSet(lo, hi - 1) + {hi - 1}
  }

  lemma {:induction false} PoolUnion(file: File, n: nat, a: set<int>, b: set<int>, q: Str)
    requires n <= |file| && a !! b
    ensures PoolSel(file, n, a + b, q) == PoolSel(file, n, a, q) + PoolSel(file, n, b, q)
  {
    if n > 0 {
      PoolUnion(file, n - 1, a, b, q);
    }
  }

  lemma {:induction false} PoolOfOne(file: File, n: nat, i: int, q: Str)
    requires n <= |file|
    ensures PoolSel(file, n, {i}, q) == if i < n && Extends(file, i, q) then multiset{Entry(file[i])} else multiset{}
  {
    if n > 0 {
      PoolOfOne(file, n - 1, i, q);
      assert n - 1 in {i} <==> i == n - 1;
    }
  }

  /** Only selected lines whose phrase extends q matter. */
  lemma {:induction false} PoolSame(file: File, n: nat, a: set<int>, b: set<int>, q: Str)
    requires n <= |file|
    requires forall i :: 0 <= i < n && Extends(file, i, q) ==> (i in a <==> i in b)
    ensures PoolSel(file, n, a, q) == PoolSel(file, n, b, q)
  {
    if n > 0 {
      PoolSame(file, n - 1, a, b, q);
    }
  }

  lemma {:induction false} PoolEmptyIff(file: File, n: nat, sel: set<int>, q: Str)
    requires n <= |file|
    ensures PoolSel(file, n, sel, q) == multiset{} <==> forall i :: 0 <= i < n && i in sel ==> !Extends(file, i, q)
  {
    if n > 0 {
      PoolEmptyIff(file, n - 1, sel, q);
      if n - 1 in sel && Extends(file, n - 1, q) {
        assert Entry(file[n - 1]) in PoolSel(file, n, sel, q);
      }
    }
  }

  // ---------------------------------------------------------------- the word list of a file

  /** Inserting the lines one by one: the last frequency of a phrase wins. */
  function WordsIn(file: File, n: nat): Words
    requires n <= |file|
  {
    if n == 0 then map[]
    else
      var line := file[n - 1];
      if line.Data? then WordsIn(file, n - 1)[line.phrase := line.freq] else WordsIn(file, n - 1)
  }

  ghost predicate DistinctPhrases(file: File) {
    forall i, j :: 0 <= i < j < |file| && file[i].Data? && file[j].Data? ==> file[i].phrase != file[j].phrase
  }

  lemma {:induction false} WordFromLine(file: File, n: nat, w: Str)
    requires n <= |file|
    ensures w in WordsIn(file, n) <==> exists i :: 0 <= i < n && file[i].Data? && file[i].phrase == w
  {
    if n > 0 {
      WordFromLine(file, n - 1, w);
      if file[n - 1].Data? && file[n - 1].phrase == w {
        assert w in WordsIn(file, n);
      }
    }
  }

  lemma AddedWord(words: Words, w: Str, freq: int, q: Str)
    requires w !in words
    ensures Pool(words[w := freq], q) == Pool(words, q) + if q <= w then multiset{Reco(w, freq)} else multiset{}
  {
    var words' := words[w := freq];
    forall r
      ensures Pool(words', q)[r] == (Pool(words, q) + if q <= w then multiset{Reco(w, freq)} else multiset{})[r]
    {
      PoolMembers(words', q, r);
      PoolMembers(words, q, r);
    }
  }

  /** With distinct phrases, the entries of all lines are the entries of the word list. */
  lemma {:induction false} PoolOfAllLines(file: File, n: nat, q: Str)
    requires n <= |file| && DistinctPhrases(file)
    ensures PoolSel(file, n, LineSet(0, |file|), q) == Pool(WordsIn(file, n), q)
  {
    if n == 0 {
      assert Labelled(map[], q, q) == {};
    } else {
      PoolOfAllLines(file, n - 1, q);
      if file[n - 1].Data? {
        WordFromLine(file, n - 1, file[n - 1].phrase);
        AddedWord(WordsIn(file, n - 1), file[n - 1].phrase, file[n - 1].freq, q);
      }
    }
  }
}
