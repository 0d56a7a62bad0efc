/** The phrase file: lines with byte sizes, lexicographic order, and counting the distinct prefixes
    of a sorted stretch by comparing neighbours only. */
module Files {
  import opened Basics
  import opened Recos

  /** A line as ParseLine sees it; size includes the newline. */
  datatype Line = Data(phrase: Str, freq: int, size: nat) | Junk(size: nat)

  type File = seq<Line>

  /** No line is empty of bytes (there is always the newline), no parsed phrase is empty. */
  ghost predicate WellFormed(file: File) {
    forall i :: 0 <= i < |file| ==> file[i].size >= 1 && (file[i].Data? ==> file[i].phrase != [])
  }

  // ---------------------------------------------------------------- byte offsets

  function Off(file: File, i: nat): nat
    requires i <= |file|
  {
    if i == 0 then 0 else Off(file, i - 1) + file[i - 1].size
  }

  lemma {:induction false} OffGrows(file: File, i: nat, j: nat)
    requires WellFormed(file) && i < j <= |file|
    ensures Off(file, i) < Off(file, j)
    decreases j
  {
    if i < j - 1 {
      OffGrows(file, i, j - 1);
    }
  }

  /** The lines a scanner yields from byte start up to byte end. */
  function ReadRange(file: File, at: nat, start: int, end: int): seq<Line>
    requires at <= |file|
    decreases |file| - at
  {
    if at == |file| then []
    else
      var rest := ReadRange(file, at + 1, start, end);
      if start <= Off(file, at) < end then [file[at]] + rest else rest
  }

  lemma {:induction false} ReadRangeIsSlice(file: File, at: nat, lo: nat, hi: nat)
    requires WellFormed(file) && at <= |file| && lo <= hi <= |file|
    ensures ReadRange(file, at, Off(file, lo), Off(file, hi))
         == if at < lo then file[lo..hi] else if at < hi then file[at..hi] else []
    decreases |file| - at
  {
    if at < |file| {
      ReadRangeIsSlice(file, at + 1, lo, hi);
      if at < lo { OffGrows(file, at, lo); }
      if lo < at { OffGrows(file, lo, at); }
      if at < hi { OffGrows(file, at, hi); }
      if hi < at { OffGrows(file, hi, at); }
    }
  }

  // ---------------------------------------------------------------- lexicographic order

  ghost predicate Leq(a: Str, b: Str) {
    a == [] || (b != [] && (a[0].code < b[0].code || (a[0] == b[0] && Leq(a[1..], b[1..]))))
  }

  /** What lies between two extensions of p extends p. */
  lemma {:induction false} Between(p: Str, a: Str, b: Str, c: Str)
    requires Leq(a, b) && Leq(b, c) && p <= a && p <= c
    ensures p <= b
    decreases |p|
  {
    if p != [] {
      assert p[0] == a[0] == c[0];
      assert a[0].code <= b[0].code <= c[0].code;
      assert b[0] == Rune(b[0].code) == p[0];
      Between(p[1..], a[1..], b[1..], c[1..]);
      assert p == [p[0]] + p[1..] && b == [b[0]] + b[1..];
    }
  }

  /** A proper extension does not come before its prefix. */
  lemma {:induction false} PrefixFirst(p: Str, a: Str)
    requires p <= a && Leq(a, p)
    ensures a == p
    decreases |p|
  {
    if p != [] {
      PrefixFirst(p[1..], a[1..]);
      assert p == [p[0]] + p[1..] && a == [a[0]] + a[1..];
    }
  }

  ghost predicate InOrder(file: File, i: int, j: int) {
    0 <= i < j < |file| && file[i].Data? && file[j].Data? ==> Leq(file[i].phrase, file[j].phrase)
  }

  ghost predicate Sorted(file: File) {
    forall i, j :: InOrder(file, i, j)
  }

  lemma BetweenLines(file: File, p: Str, i: nat, j: nat, l: nat)
    requires Sorted(file) && i <= j <= l < |file|
    requires file[i].Data? && file[j].Data? && file[l].Data?
    requires p <= file[i].phrase && p <= file[l].phrase
    ensures p <= file[j].phrase
  {
    assert InOrder(file, i, j) && InOrder(file, j, l);
    if i < j < l {
      Between(p, file[i].phrase, file[j].phrase, file[l].phrase);
    }
  }

  // ---------------------------------------------------------------- longest common prefix

  ghost predicate IsLcp(a: Str, b: Str, n: nat) {
    && n <= |a| && n <= |b| && a[..n] == b[..n]
    && (n < |a| && n < |b| ==> a[n] != b[n])
  }

  method LongestCommonPrefix(a: Str, b: Str) returns (i: nat)
    ensures IsLcp(a, b, i)
  {
    var n := Min(|a|, |b|);
    i := 0;
    while i < n && a[i] == b[i]
      invariant 0 <= i <= n && a[..i] == b[..i]
    {
      assert a[..i + 1] == a[..i] + [a[i]] && b[..i + 1] == b[..i] + [b[i]];
      i := i + 1;
    }
  }

  lemma LcpBounds(a: Str, b: Str, n: nat, m: nat)
    requires IsLcp(a, b, n) && m <= |a|
    ensures a[..m] <= b <==> m <= n
  {
  }

  // ---------------------------------------------------------------- distinct prefixes

  ghost predicate Extends(file: File, i: int, p: Str) {
    0 <= i < |file| && file[i].Data? && p <= file[i].phrase
  }

  /** The distinct strings that properly extend p and begin some phrase of the lines from lo to hi. */
  ghost function Longer(file: File, lo: nat, hi: nat, p: Str): set<Str> {
    set i, n | lo <= i < hi && Extends(file, i, p) && |p| < n <= |file[i].phrase| :: file[i].phrase[..n]
  }

  lemma LongerMember(file: File, lo: nat, hi: nat, p: Str, q: Str)
    ensures q in Longer(file, lo, hi, p) <==> p <= q && |p| < |q| && exists i :: lo <= i < hi && Extends(file, i, q)
  {
    if i :| p <= q && |p| < |q| && lo <= i < hi && Extends(file, i, q) {
      assert file[i].phrase[..|q|] == q;
      assert Extends(file, i, p);
    }
    if q in Longer(file, lo, hi, p) {
      var i, n :| lo <= i < hi && Extends(file, i, p) && |p| < n <= |file[i].phrase| && q == file[i].phrase[..n];
      assert Extends(file, i, q);
    }
  }

  ghost function Tails(s: Str, m: nat): set<Str>
    requires m <= |s|
  {
    set n | m < n <= |s| :: s[..n]
  }

  lemma {:induction false} TailsCount(s: Str, m: nat)
    requires m <= |s|
    ensures |Tails(s, m)| == |s| - m
    decreases |s| - m
  {
    if m == |s| {
      assert Tails(s, m) == {};
    } else {
      TailsCount(s, m + 1);
      assert Tails(s, m) == Tails(s, m + 1) + {s[..m + 1]};
      forall q | q in Tails(s, m + 1)
        ensures |q| > m + 1
      {
      }
    }
  }

  lemma JunkAddsNone(file: File, lo: nat, i: nat, p: Str)
    requires lo <= i < |file| && !Extends(file, i, p)
    ensures Longer(file, lo, i + 1, p) == Longer(file, lo, i, p)
  {
  }

  /** No Data line strictly between j and i. */
  ghost predicate LastData(file: File, j: nat, i: nat) {
    j < i <= |file| && file[j].Data? && forall e :: j < e < i ==> !file[e].Data?
  }

  lemma SeenBefore(file: File, lo: nat, j: nat, i: nat, q: Str, n: nat)
    requires Sorted(file) && lo <= j && i < |file| && file[i].Data? && LastData(file, j, i)
    requires IsLcp(file[i].phrase, file[j].phrase, n) && q <= file[i].phrase
    ensures (exists e :: lo <= e < i && Extends(file, e, q)) <==> |q| <= n
  {
    assert q == file[i].phrase[..|q|];
    LcpBounds(file[i].phrase, file[j].phrase, n, |q|);
    if |q| <= n {
      assert Extends(file, j, q);
    }
    if e :| lo <= e < i && Extends(file, e, q) {
      assert e <= j;
      BetweenLines(file, q, e, j, i);
    }
  }

  /** One more line of a sorted stretch: the prefixes it adds are those longer than what it shares
      with the line before. */
  lemma LineAdds(file: File, lo: nat, j: nat, i: nat, p: Str, n: nat)
    requires Sorted(file) && lo <= j && i < |file| && LastData(file, j, i)
    requires Extends(file, i, p) && IsLcp(file[i].phrase, file[j].phrase, n)
    ensures |Longer(file, lo, i + 1, p)| == |Longer(file, lo, i, p)| + |file[i].phrase| - Max(|p|, n)
  {
    var s := file[i].phrase;
    var m := Max(|p|, n);
    var before, added := Longer(file, lo, i, p), Tails(s, m);
    forall q
      ensures q in Longer(file, lo, i + 1, p) <==> q in before || q in added
      ensures !(q in before && q in added)
    {
      LongerMember(file, lo, i + 1, p, q);
      LongerMember(file, lo, i, p, q);
      if q <= s {
        SeenBefore(file, lo, j, i, q, n);
        assert s[..|q|] == q;
        assert Extends(file, i, q);
      }
    }
    assert Longer(file, lo, i + 1, p) == before + added;
    TailsCount(s, m);
  }

  lemma FirstLineAdds(file: File, i: nat, p: Str)
    requires Extends(file, i, p)
    ensures |Longer(file, i, i + 1, p)| == |file[i].phrase| - |p|
  {
    var s := file[i].phrase;
    assert Longer(file, i, i + 1, p) == Tails(s, |p|);
    TailsCount(s, |p|);
  }

  function Max(a: int, b: int): int {
    if a <= b then b else a
  }
}
