/** The entries that the parallel cache build gathers at the root, where every path has its first rune
    cut to one byte, and when they still give the right list. */
module WrittenPools {
  import opened Recos
  import opened Completions
  import opened Selections

  const ASCII_LIMIT := 0x80
  const MAX_RUNE := 0x10FFFF

  /** The path that []byte{byte(key)} spells: the low eight bits of the rune.  A byte from 0x80 up
      is not valid UTF-8 on its own, and stays apart from what follows because no encoded rune
      starts with a continuation byte; such a unit is numbered above every rune. */
  function FirstUnit(key: Rune): Rune {
    var b := key.code % 256;
    if b < ASCII_LIMIT then Rune(b) else Rune(MAX_RUNE + 1 + b)
  }

  /** A byte below 0x80 is read back as that rune; any other byte is no rune at all. */
  lemma UnitOf(key: Rune)
    ensures key.code % 256 < 0x80 ==> FirstUnit(key) == Rune(key.code % 256)
    ensures key.code % 256 >= 0x80 ==> FirstUnit(key).code > 0x10FFFF
  {
  }

  /** Two runes are cut to one unit exactly when they agree in their low eight bits. */
  lemma SameUnitIff(c: Rune, d: Rune)
    ensures FirstUnit(c) == FirstUnit(d) <==> c.code % 256 == d.code % 256
  {
  }

  ghost predicate IsRune(c: Rune) {
    0 <= c.code <= MAX_RUNE
  }

  lemma FirstUnitKeepsAscii(key: Rune)
    requires IsRune(key)
    ensures FirstUnit(key) == key <==> key.code < ASCII_LIMIT
  {
  }

  /** How the parallel build writes down the path to q. */
  function Written(q: Str): Str
    requires q != []
  {
    [FirstUnit(q[0])] + q[1..]
  }

  /** Every word starts with a rune that one byte can spell. */
  ghost predicate AsciiStarts(words: Words) {
    forall w: Str :: w in words && w != [] ==> w[0].code < ASCII_LIMIT
  }

  ghost predicate RuneStarts(words: Words) {
    forall w :: w in words && w != [] ==> IsRune(w[0])
  }

  /** Two words are written alike exactly when their first runes agree in the low eight bits and their
      tails agree. */
  lemma WrittenAlikeIff(v: Str, w: Str)
    requires v != [] && w != []
    ensures Written(v) == Written(w) <==> v[0].code % 256 == w[0].code % 256 && v[1..] == w[1..]
  {
    SameUnitIff(v[0], w[0]);
    assert Written(v)[0] == FirstUnit(v[0]) && Written(w)[0] == FirstUnit(w[0]);
    assert Written(v)[1..] == v[1..] && Written(w)[1..] == w[1..];
  }

  // ---------------------------------------------------------------- all words as they are written down

  ghost function WrittenEntry(words: Words, w: Str): Reco
    requires w in words && w != []
  {
    Reco(Written(w), words[w])
  }

  /** The words of ws that are written down as r; there may be several. */
  ghost function SpeltAs(words: Words, ws: set<Str>, r: Reco): set<Str> {
    set w | w in ws && w in words && w != [] && WrittenEntry(words, w) == r
  }

  ghost function WrittenBag(words: Words, ws: set<Str>): (bag: multiset<Reco>)
    requires ws <= words.Keys && [] !in ws
    ensures forall r :: bag[r] == |SpeltAs(words, ws, r)|
  {
    if ws == {} then multiset{}
    else
      var w :| w in ws;
      OneMoreSpelt(words, ws, w);
      WrittenBag(words, ws - {w}) + multiset{WrittenEntry(words, w)}
  }

  lemma OneMoreSpelt(words: Words, ws: set<Str>, w: Str)
    requires ws <= words.Keys && [] !in ws && w in ws
    ensures forall r :: |SpeltAs(words, ws, r)|
                     == |SpeltAs(words, ws - {w}, r)| + if WrittenEntry(words, w) == r then 1 else 0
  {
    forall r
      ensures |SpeltAs(words, ws, r)|
           == |SpeltAs(words, ws - {w}, r)| + if WrittenEntry(words, w) == r then 1 else 0
    {
      assert SpeltAs(words, ws, r) == SpeltAs(words, ws - {w}, r) + if WrittenEntry(words, w) == r then {w} else {};
    }
  }

  lemma WrittenUnion(words: Words, a: set<Str>, b: set<Str>)
    requires a + b <= words.Keys && [] !in a + b && a !! b
    ensures WrittenBag(words, a + b) == WrittenBag(words, a) + WrittenBag(words, b)
  {
    forall r
      ensures WrittenBag(words, a + b)[r] == WrittenBag(words, a)[r] + WrittenBag(words, b)[r]
    {
      assert SpeltAs(words, a + b, r) == SpeltAs(words, a, r) + SpeltAs(words, b, r);
    }
  }

  /** The words that start with a rune in done. */
  ghost function StartingIn(words: Words, done: set<Rune>): set<Str> {
    set w | w in words && w != [] && w[0] in done
  }

  /** Below one child of the root no two words are written alike. */
  lemma WrittenBelow(words: Words, c: Rune)
    ensures WrittenBag(words, StartingIn(words, {c})) == multiset(Labelled(words, [c], [FirstUnit(c)]))
  {
    var ws, below := StartingIn(words, {c}), Labelled(words, [c], [FirstUnit(c)]);
    forall r
      ensures |SpeltAs(words, ws, r)| == multiset(below)[r]
    {
      if w :| w in words && [c] <= w && r == Reco([FirstUnit(c)] + w[|[c]|..], words[w]) {
        forall v
          ensures v in SpeltAs(words, ws, r) <==> v == w
        {
          assert v in SpeltAs(words, ws, r) ==> v == [c] + v[1..] && v[1..] == r.word[1..];
          assert w == [c] + w[1..] && w[1..] == r.word[1..];
        }
        assert SpeltAs(words, ws, r) == {w};
      } else {
        forall v
          ensures v !in SpeltAs(words, ws, r)
        {
          assert v in ws ==> [c] <= v;
        }
      }
    }
  }

  lemma StartingMore(words: Words, done: set<Rune>, c: Rune)
    requires c !in done
    ensures WrittenBag(words, StartingIn(words, done + {c}))
         == WrittenBag(words, StartingIn(words, done)) + multiset(Labelled(words, [c], [FirstUnit(c)]))
  {
    assert StartingIn(words, done + {c}) == StartingIn(words, done) + StartingIn(words, {c});
    WrittenUnion(words, StartingIn(words, done), StartingIn(words, {c}));
    WrittenBelow(words, c);
  }

  lemma AsciiSpelling(words: Words, r: Reco)
    requires [] !in words && AsciiStarts(words) && RuneStarts(words)
    ensures SpeltAs(words, words.Keys, r) == if r.word in words && words[r.word] == r.freq then {r.word} else {}
  {
    forall w | w in words
      ensures WrittenEntry(words, w) == Reco(w, words[w])
    {
      FirstUnitKeepsAscii(w[0]);
    }
  }

  /** When every first rune fits in a byte, the words are written as they are. */
  lemma BagInAscii(words: Words)
    requires [] !in words && AsciiStarts(words) && RuneStarts(words)
    ensures WrittenBag(words, words.Keys) == Pool(words, [])
  {
    forall r
      ensures WrittenBag(words, words.Keys)[r] == Pool(words, [])[r]
    {
      PoolMembers(words, [], r);
      AsciiSpelling(words, r);
    }
  }

  // ---------------------------------------------------------------- when the root list is right

  ghost function MoreFrequent(words: Words, ws: set<Str>, f: int): set<Str> {
    set w | w in ws && w in words && words[w] > f
  }

  ghost function PlainBag(words: Words, ws: set<Str>): multiset<Reco>
    requires ws <= words.Keys
  {
    multiset(set w | w in ws :: Reco(w, words[w]))
  }

  /** As many entries lie above a frequency as there are words, however the words are written. */
  ghost predicate SameCounts(words: Words, ws: set<Str>, f: int)
    requires ws <= words.Keys && [] !in ws
  {
    && |Above(WrittenBag(words, ws), f)| == |MoreFrequent(words, ws, f)| == |Above(PlainBag(words, ws), f)|
    && |WrittenBag(words, ws)| == |ws| == |PlainBag(words, ws)|
  }

  lemma CountsMore(words: Words, ws: set<Str>, w: Str, f: int)
    requires ws <= words.Keys && [] !in ws && w in words && w != [] && w !in ws
    ensures SameCounts(words, ws, f) ==> SameCounts(words, ws + {w}, f)
  {
    hide Above, MoreFrequent, PlainBag, WrittenBag;
    WrittenMore(words, ws, w);
    PlainMore(words, ws, w);
    AboveAdd(WrittenBag(words, ws), WrittenEntry(words, w), f);
    AboveAdd(PlainBag(words, ws), Reco(w, words[w]), f);
    MoreFrequentMore(words, ws, w, f);
  }

  lemma NothingToCount(words: Words, f: int)
    ensures SameCounts(words, {}, f)
  {
    assert PlainBag(words, {}) == multiset{};
  }

  lemma {:induction false} CountsAbove(words: Words, ws: set<Str>, f: int)
    requires ws <= words.Keys && [] !in ws
    ensures SameCounts(words, ws, f)
  {
    hide SameCounts;
    if ws == {} {
      NothingToCount(words, f);
    } else {
      var w :| w in ws;
      CountsAbove(words, ws - {w}, f);
      CountsMore(words, ws - {w}, w, f);
      assert ws == (ws - {w}) + {w};
    }
  }

  lemma MoreFrequentMore(words: Words, ws: set<Str>, w: Str, f: int)
    requires w in words && w !in ws
    ensures |MoreFrequent(words, ws + {w}, f)| == |MoreFrequent(words, ws, f)| + if words[w] > f then 1 else 0
  {
    assert MoreFrequent(words, ws + {w}, f) == MoreFrequent(words, ws, f) + if words[w] > f then {w} else {};
  }

  lemma WrittenMore(words: Words, ws: set<Str>, w: Str)
    requires ws <= words.Keys && [] !in ws && w in words && w != [] && w !in ws
    ensures WrittenBag(words, ws + {w}) == WrittenBag(words, ws) + multiset{WrittenEntry(words, w)}
  {
    WrittenUnion(words, ws, {w});
    WrittenOne(words, w);
  }

  lemma WrittenOne(words: Words, w: Str)
    requires w in words && w != []
    ensures WrittenBag(words, {w}) == multiset{WrittenEntry(words, w)}
  {
    OneMoreSpelt(words, {w}, w);
    assert {w} - {w} == {};
  }

  lemma PlainMore(words: Words, ws: set<Str>, w: Str)
    requires ws <= words.Keys && w in words && w !in ws
    ensures PlainBag(words, ws + {w}) == PlainBag(words, ws) + multiset{Reco(w, words[w])}
  {
    var before := set v | v in ws :: Reco(v, words[v]);
    assert (set v | v in ws + {w} :: Reco(v, words[v])) == before + {Reco(w, words[w])};
    assert Reco(w, words[w]) !in before;
  }

  lemma PlainIsPool(words: Words)
    ensures PlainBag(words, words.Keys) == Pool(words, [])
  {
    forall w | w in words
      ensures [] + w[0..] == w
    {
    }
    assert (set w | w in words.Keys :: Reco(w, words[w])) == Labelled(words, [], []);
  }

  /** A root list is right exactly when each of its entries is a word with its frequency, listed once. */
  lemma RootListRightIff(list: seq<Reco>, words: Words, k: nat)
    requires [] !in words && IsTopK(list, WrittenBag(words, words.Keys), k)
    ensures IsTopK(list, Pool(words, []), k) <==> multiset(list) <= Pool(words, [])
  {
    var bag, pool := WrittenBag(words, words.Keys), Pool(words, []);
    PlainIsPool(words);
    forall f
      ensures |Above(pool, f)| == |Above(bag, f)| && |pool| == |bag|
    {
      CountsAbove(words, words.Keys, f);
    }
    CountsAbove(words, words.Keys, 0);
    if multiset(list) <= pool {
      SelectionMoves(multiset(list), bag, pool, k);
    }
  }

  /** The word cannot make a root list wrong: k words are more frequent, or it is written as a word of its
      frequency, and as no other word is, unless there is room for one such entry only. */
  ghost predicate Harmless(words: Words, k: nat, w: Str)
    requires w in words && w != []
  {
    |MoreFrequent(words, words.Keys, words[w])| < k ==>
      && Written(w) in words && words[Written(w)] == words[w]
      && (|SpeltAs(words, words.Keys, WrittenEntry(words, w))| == 1
          || |MoreFrequent(words, words.Keys, words[w])| == k - 1)
  }

  ghost predicate RootSafe(words: Words, k: nat) {
    forall w :: w in words && w != [] ==> Harmless(words, k, w)
  }

  ghost predicate RootAlwaysRight(words: Words, k: nat)
    requires [] !in words
  {
    forall list :: IsTopK(list, WrittenBag(words, words.Keys), k) ==> IsTopK(list, Pool(words, []), k)
  }

  lemma SafeEntry(list: seq<Reco>, words: Words, k: nat, r: Reco)
    requires [] !in words && r in multiset(list)
    ensures RootSafe(words, k) && IsTopK(list, WrittenBag(words, words.Keys), k) ==>
      multiset(list)[r] <= Pool(words, [])[r]
  {
    hide Above, MoreFrequent, Pool, RootSafe, WrittenBag;
    var bag := WrittenBag(words, words.Keys);
    if RootSafe(words, k) && IsTopK(list, bag, k) {
      assert r in bag && multiset(list)[r] <= bag[r] == |SpeltAs(words, words.Keys, r)|;
      var w :| w in SpeltAs(words, words.Keys, r);
      HoldsAbove(multiset(list), bag, k, r);
      AboveAndCopies(multiset(list), r, multiset(list)[r]);
      CountsAbove(words, words.Keys, r.freq);
      SafeWord(words, k, w);
      PoolMembers(words, [], r);
    }
  }

  lemma SafeWord(words: Words, k: nat, w: Str)
    requires RootSafe(words, k) && w in words && w != []
    ensures Harmless(words, k, w)
  {
  }

  lemma SafeList(list: seq<Reco>, words: Words, k: nat)
    requires [] !in words && RootSafe(words, k) && IsTopK(list, WrittenBag(words, words.Keys), k)
    ensures multiset(list) <= Pool(words, [])
  {
    hide IsTopK, Pool, RootSafe;
    forall r | r in multiset(list)
      ensures multiset(list)[r] <= Pool(words, [])[r]
    {
      SafeEntry(list, words, k, r);
    }
  }

  lemma UnsafeList(words: Words, k: nat, w: Str) returns (list: seq<Reco>)
    requires [] !in words && w in words && !Harmless(words, k, w)
    ensures IsTopK(list, WrittenBag(words, words.Keys), k) && !(multiset(list) <= Pool(words, []))
  {
    var bag, r := WrittenBag(words, words.Keys), WrittenEntry(words, w);
    CountsAbove(words, words.Keys, r.freq);
    assert w in SpeltAs(words, words.Keys, r);
    PoolMembers(words, [], r);
    var n := if r in Pool(words, []) then 2 else 1;
    list := Preferred(bag, r, n, k);
  }

  /** However ties are broken the root list is right, if and only if every word is harmless. */
  lemma RootAlwaysRightIff(words: Words, k: nat)
    requires [] !in words
    ensures RootAlwaysRight(words, k) <==> RootSafe(words, k)
  {
    if RootSafe(words, k) {
      forall list | IsTopK(list, WrittenBag(words, words.Keys), k)
        ensures IsTopK(list, Pool(words, []), k)
      {
        SafeList(list, words, k);
        RootListRightIff(list, words, k);
      }
    } else {
      var w :| w in words && w != [] && !Harmless(words, k, w);
      var list := UnsafeList(words, k, w);
      RootListRightIff(list, words, k);
    }
  }

  /** The root list of a single word has the word as it is written. */
  lemma LoneRootList(w: Str, freq: int, k: nat, list: seq<Reco>)
    requires w != [] && k >= 1
    requires IsTopK(list, WrittenBag(map[w := freq], {w}), k)
    ensures list == [Reco(Written(w), freq)]
    ensures w[0].code % 256 < 0x80 ==> list == [Reco([Rune(w[0].code % 256)] + w[1..], freq)]
  {
    WrittenOne(map[w := freq], w);
    assert |list| == 1 && list[0] in multiset(list);
    UnitOf(w[0]);
  }

  /** A single word that starts with a rune from 0x80 up always makes the root list wrong. */
  lemma LoneWordSpoilsRoot(w: Str, freq: int, k: nat, list: seq<Reco>)
    requires w != [] && IsRune(w[0]) && ASCII_LIMIT <= w[0].code && k >= 1
    requires IsTopK(list, WrittenBag(map[w := freq], {w}), k)
    ensures list == [Reco(Written(w), freq)] && !IsTopK(list, Pool(map[w := freq], []), k)
  {
    var words := map[w := freq];
    assert words.Keys == {w};
    LoneRootList(w, freq, k, list);
    FirstUnitKeepsAscii(w[0]);
    assert list[0] in multiset(list);
    PoolMembers(words, [], list[0]);
  }
}
