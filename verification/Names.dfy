/** The names that servers and their virtual nodes are hashed by, and why no two of them are the same. */
module Names {

  /** fmt's %d for non-negative numbers. */
  function Decimal(n: nat): string {
    if n < 10 then ["0123456789"[n]] else Decimal(n / 10) + ["0123456789"[n % 10]]
  }

  function ServerName(id: nat): string {
    "Server_" + Decimal(id)
  }

  function NodeName(serverName: string, i: nat): string {
    serverName + "#VN_" + Decimal(i)
  }

  // ---------------------------------------------------------------- numerals

  predicate IsDigit(c: char) {
    '0' <= c <= '9'
  }

  /** The number that a row of digits spells, read from the left after the number acc. */
  function Read(digits: string, acc: int): int {
    if digits == [] then acc else Read(digits[1..], 10 * acc + (digits[0] as int - '0' as int))
  }

  lemma {:induction false} ReadJoin(a: string, b: string, acc: int)
    ensures Read(a + b, acc) == Read(b, Read(a, acc))
  {
    if a == [] {
      assert a + b == b;
    } else {
      assert (a + b)[1..] == a[1..] + b;
      ReadJoin(a[1..], b, 10 * acc + (a[0] as int - '0' as int));
    }
  }

  lemma DigitReads(n: nat, acc: int)
    requires n < 10
    ensures IsDigit("0123456789"[n]) && Read(["0123456789"[n]], acc) == 10 * acc + n
  {
    var c := "0123456789"[n];
    assert c as int == '0' as int + n;
    assert [c][1..] == [];
    assert Read([], 10 * acc + n) == 10 * acc + n;
  }

  /** A numeral is made of digits, spells its number, and has no leading zero. */
  lemma {:induction false} DecimalReads(n: nat)
    ensures Decimal(n) != [] && forall i :: 0 <= i < |Decimal(n)| ==> IsDigit(Decimal(n)[i])
    ensures Read(Decimal(n), 0) == n
    ensures Decimal(n)[0] == '0' ==> n == 0 && |Decimal(n)| == 1
  {
    if n < 10 {
      DigitReads(n, 0);
    } else {
      DecimalReads(n / 10);
      DigitReads(n % 10, n / 10);
      ReadJoin(Decimal(n / 10), ["0123456789"[n % 10]], 0);
    }
  }

  // ---------------------------------------------------------------- names

  lemma FirstNames()
    ensures ServerName(0) == "Server_0" && NodeName(ServerName(0), 1) == "Server_0#VN_1"
    ensures ServerName(1) == "Server_1" && NodeName(ServerName(1), 1) == "Server_1#VN_1"
    ensures ServerName(2) == "Server_2" && NodeName(ServerName(2), 1) == "Server_2#VN_1"
  {
  }

  lemma DecimalInjective(a: nat, b: nat)
    requires Decimal(a) == Decimal(b)
    ensures a == b
  {
    DecimalReads(a);
    DecimalReads(b);
  }

  /** No two servers have the same name. */
  lemma ServerNamesDiffer(a: nat, b: nat)
    requires ServerName(a) == ServerName(b)
    ensures a == b
  {
    assert Decimal(a) == ServerName(a)[7..] && Decimal(b) == ServerName(b)[7..];
    DecimalInjective(a, b);
  }

  /** Two strings cut at their first mark are the same string only if the parts are. */
  lemma SamePieces(a: string, b: string, c: string, d: string, mark: char)
    requires mark !in a && mark !in c && a + [mark] + b == c + [mark] + d
    ensures a == c && b == d
  {
    var s := a + [mark] + b;
    assert s[|a|] == mark && s[|c|] == mark;
    assert forall l :: 0 <= l < |a| ==> s[l] == a[l] != mark;
    assert forall l :: 0 <= l < |c| ==> s[l] == c[l] != mark;
    assert |a| == |c|;
    assert a == s[..|a|] && c == s[..|c|] && b == s[|a| + 1..] && d == s[|c| + 1..];
  }

  lemma NoMark(id: nat)
    ensures '#' !in ServerName(id)
  {
    DecimalReads(id);
    assert '#' !in "Server_";
  }

  /** No two virtual nodes have the same name, of one server or of two. */
  lemma NodeNamesDiffer(a: nat, i: nat, b: nat, j: nat)
    requires NodeName(ServerName(a), i) == NodeName(ServerName(b), j)
    ensures a == b && i == j
  {
    NoMark(a);
    NoMark(b);
    assert NodeName(ServerName(a), i) == ServerName(a) + ['#'] + ("VN_" + Decimal(i));
    assert NodeName(ServerName(b), j) == ServerName(b) + ['#'] + ("VN_" + Decimal(j));
    SamePieces(ServerName(a), "VN_" + Decimal(i), ServerName(b), "VN_" + Decimal(j), '#');
    ServerNamesDiffer(a, b);
    assert Decimal(i) == ("VN_" + Decimal(i))[3..] && Decimal(j) == ("VN_" + Decimal(j))[3..];
    DecimalInjective(i, j);
  }
}
