/**
 * Natural ("alphanumeric") ordering of keys and the three dictionary diffs of
 * `LawnStringsComparer`. The ordering is written once, over a digit predicate,
 * because the root `LawnStringsHelper` repeats the same scan with
 * `char.IsDigit` in place of the ASCII test.
 */
module LawnStringsComparer {
  import opened Wrappers
  import opened KeyValues

  // ---------------------------------------------------------------------------
  // 64-bit accumulation
  // ---------------------------------------------------------------------------

  const TwoTo63: int := 0x8000_0000_0000_0000
  const TwoTo64: int := 0x1_0000_0000_0000_0000

  /** Two's-complement wrap-around of unchecked C# `long` arithmetic. */
  function Wrap64(x: int): (r: int)
    ensures -TwoTo63 <= r < TwoTo63
    ensures -TwoTo63 <= x < TwoTo63 ==> r == x
  {
    (x + TwoTo63) % TwoTo64 - TwoTo63
  }

  /** `IsDigit`: an ASCII decimal digit. */
  predicate IsDigit(c: char) {
    '0' <= c <= '9'
  }

  /** `AppendDigit`: `val * 10 + (digit - '0')` in `long`. */
  function AppendDigit(val: int, digit: char): (r: int)
    ensures IsDigit(digit) && 0 <= val && val * 10 + 9 < TwoTo63 ==>
      r == val * 10 + (digit as int - '0' as int) && 0 <= r
  {
    Wrap64(val * 10 + (digit as int - '0' as int))
  }

  /** The `long` left in the accumulator after reading the digits of `s`. */
  function Accumulate(s: string): int
    decreases |s|
  {
    if s == [] then 0 else AppendDigit(Accumulate(s[..|s| - 1]), s[|s| - 1])
  }

  function Pow10(n: nat): (r: nat)
    ensures r >= 1
  {
    if n == 0 then 1 else 10 * Pow10(n - 1)
  }

  /** The mathematical value of a string of decimal digits. */
  function DecimalValue(s: string): nat
    requires forall k :: 0 <= k < |s| ==> IsDigit(s[k])
    decreases |s|
  {
    if s == [] then 0
    else
      assert IsDigit(s[|s| - 1]);
      10 * DecimalValue(s[..|s| - 1]) + (s[|s| - 1] as int - '0' as int)
  }

  lemma Pow10Monotone(m: nat, n: nat)
    requires m <= n
    ensures Pow10(m) <= Pow10(n)
    decreases n
  {
    if m < n { Pow10Monotone(m, n - 1); }
  }

  lemma Pow10Of17()
    ensures Pow10(17) == 100000000000000000
  {
    assert Pow10(1) == 10;
    assert Pow10(2) == 100;
    assert Pow10(3) == 1000;
    assert Pow10(4) == 10000;
    assert Pow10(5) == 100000;
    assert Pow10(6) == 1000000;
    assert Pow10(7) == 10000000;
    assert Pow10(8) == 100000000;
    assert Pow10(9) == 1000000000;
    assert Pow10(10) == 10000000000;
    assert Pow10(11) == 100000000000;
    assert Pow10(12) == 1000000000000;
    assert Pow10(13) == 10000000000000;
    assert Pow10(14) == 100000000000000;
    assert Pow10(15) == 1000000000000000;
    assert Pow10(16) == 10000000000000000;
  }

  /** A run of at most 18 digits never overflows the `long` accumulator, so
      the accumulator holds the run's value. */
  lemma {:induction false} AccumulateIsValue(s: string)
    requires forall k :: 0 <= k < |s| ==> IsDigit(s[k])
    requires |s| <= 18
    ensures Accumulate(s) == DecimalValue(s) < Pow10(|s|)
    decreases |s|
  {
    if s != [] {
      var init := s[..|s| - 1];
      AccumulateIsValue(init);
      Pow10Monotone(|init|, 17);
      Pow10Of17();
      assert DecimalValue(init) * 10 + 9 < TwoTo63;
    }
  }

  // ---------------------------------------------------------------------------
  // The alphanumeric scan
  // ---------------------------------------------------------------------------

  /** End of the maximal digit run that starts at `i`. */
  function RunEnd(s: string, i: nat, isDigit: char -> bool): (e: nat)
    requires i <= |s|
    ensures i <= e <= |s|
    ensures forall k :: i <= k < e ==> isDigit(s[k])
    ensures e == |s| || !isDigit(s[e])
    ensures i < |s| && isDigit(s[i]) ==> i < e
    decreases |s| - i
  {
    if i < |s| && isDigit(s[i]) then RunEnd(s, i + 1, isDigit) else i
  }

  /** `long.CompareTo` and `int.CompareTo`: -1, 0 or 1. */
  function CompareInt(x: int, y: int): (r: int)
    ensures r == -1 || r == 0 || r == 1
    ensures r < 0 <==> x < y
    ensures r > 0 <==> x > y
  {
    if x < y then -1 else if x > y then 1 else 0
  }

  /** `char.CompareTo`: the difference of the two characters. A Dafny `char`
      is a Unicode scalar value, so this is the code-unit difference only
      inside the Basic Multilingual Plane. */
  function CompareChar(x: char, y: char): (r: int)
    ensures r == 0 <==> x == y
    ensures r < 0 <==> x < y
  {
    x as int - y as int
  }

  /** What the scan returns from cursors `i` in `a` and `j` in `b`: aligned digit
      runs compare by accumulated value, other characters by `CompareChar`, and
      when either side is exhausted the full lengths decide. */
  function NaturalCompareFrom(a: string, b: string, i: nat, j: nat, isDigit: char -> bool): int
    requires i <= |a| && j <= |b|
    decreases |a| - i + |b| - j
  {
    if i < |a| && j < |b| then
      if isDigit(a[i]) && isDigit(b[j]) then
        var ei := RunEnd(a, i, isDigit);
        var ej := RunEnd(b, j, isDigit);
        var diff := CompareInt(Accumulate(a[i..ei]), Accumulate(b[j..ej]));
        if diff != 0 then diff else NaturalCompareFrom(a, b, ei, ej, isDigit)
      else
        var diff := CompareChar(a[i], b[j]);
        if diff != 0 then diff else NaturalCompareFrom(a, b, i + 1, j + 1, isDigit)
    else
      CompareInt(|a|, |b|)
  }

  function NaturalCompare(a: string, b: string, isDigit: char -> bool): int {
    NaturalCompareFrom(a, b, 0, 0, isDigit)
  }

  /** The inner loops of `AlphanumCompare`: consume the digit run at `start`
      and accumulate its value. */
  method ReadRun(s: string, start: nat, isDigit: char -> bool) returns (e: nat, num: int)
    requires start <= |s|
    ensures e == RunEnd(s, start, isDigit)
    ensures num == Accumulate(s[start..e])
  {
    e, num := start, 0;
    while e < |s| && isDigit(s[e])
      invariant start <= e <= |s|
      invariant RunEnd(s, e, isDigit) == RunEnd(s, start, isDigit)
      invariant num == Accumulate(s[start..e])
      decreases |s| - e
    {
      ghost var next := s[start..e + 1];
      assert next[..|next| - 1] == s[start..e] && next[|next| - 1] == s[e];
      assert Accumulate(next) == AppendDigit(num, s[e]);
      num := AppendDigit(num, s[e]);
      e := e + 1;
    }
  }

  /** `AlphanumCompare`: the lock-step cursor scan. */
  method AlphanumCompare(a: string, b: string) returns (r: int)
    ensures r == NaturalCompare(a, b, IsDigit)
  {
    var i: nat, j: nat := 0, 0;
    var lenA, lenB := |a|, |b|;
    while i < lenA && j < lenB
      invariant i <= lenA && j <= lenB
      invariant NaturalCompareFrom(a, b, i, j, IsDigit) == NaturalCompare(a, b, IsDigit)
      decreases lenA - i + lenB - j
    {
      var cA, cB := a[i], b[j];
      if IsDigit(cA) && IsDigit(cB) {
        var numA, numB;
        i, numA := ReadRun(a, i, IsDigit);
        j, numB := ReadRun(b, j, IsDigit);
        var diff := CompareInt(numA, numB);
        if diff != 0 {
          return diff;
        }
      } else {
        var diff := CompareChar(cA, cB);
        if diff != 0 {
          return diff;
        }
        i, j := i + 1, j + 1;
      }
    }
    r := CompareInt(lenA, lenB);
  }

  // ---------------------------------------------------------------------------
  // Properties of the ordering
  // ---------------------------------------------------------------------------

  lemma {:induction false} CompareFromSelf(s: string, i: nat, isDigit: char -> bool)
    requires i <= |s|
    ensures NaturalCompareFrom(s, s, i, i, isDigit) == 0
    decreases |s| - i
  {
    if i < |s| {
      if isDigit(s[i]) {
        CompareFromSelf(s, RunEnd(s, i, isDigit), isDigit);
      } else {
        CompareFromSelf(s, i + 1, isDigit);
      }
    }
  }

  /** Every string compares equal to itself. */
  lemma CompareReflexive(s: string, isDigit: char -> bool)
    ensures NaturalCompare(s, s, isDigit) == 0
  {
    CompareFromSelf(s, 0, isDigit);
  }

  lemma {:induction false} CompareFromSwap(a: string, b: string, i: nat, j: nat, isDigit: char -> bool)
    requires i <= |a| && j <= |b|
    ensures NaturalCompareFrom(a, b, i, j, isDigit) == -NaturalCompareFrom(b, a, j, i, isDigit)
    decreases |a| - i + |b| - j
  {
    if i < |a| && j < |b| {
      if isDigit(a[i]) && isDigit(b[j]) {
        CompareFromSwap(a, b, RunEnd(a, i, isDigit), RunEnd(b, j, isDigit), isDigit);
      } else {
        CompareFromSwap(a, b, i + 1, j + 1, isDigit);
      }
    }
  }

  /** Swapping the arguments negates the result, so the signs are opposite. */
  lemma CompareAntisymmetric(a: string, b: string, isDigit: char -> bool)
    ensures NaturalCompare(a, b, isDigit) == -NaturalCompare(b, a, isDigit)
  {
    CompareFromSwap(a, b, 0, 0, isDigit);
  }

  /** Cursor `k` of `s` sits where the scan can stand: not inside a digit run. */
  predicate Boundary(s: string, k: nat, isDigit: char -> bool)
    requires k <= |s|
  {
    k == 0 || k == |s| || !isDigit(s[k - 1]) || !isDigit(s[k])
  }

  lemma {:induction false} RunEndIs(s: string, i: nat, e: nat, isDigit: char -> bool)
    requires i <= e <= |s|
    requires forall k :: i <= k < e ==> isDigit(s[k])
    requires e == |s| || !isDigit(s[e])
    ensures RunEnd(s, i, isDigit) == e
    decreases e - i
  {
    if i < e { RunEndIs(s, i + 1, e, isDigit); }
  }

  /** A shared prefix between two boundaries is scanned without effect. */
  lemma {:induction false} SkipCommonPrefix(a: string, b: string, i: nat, k: nat, isDigit: char -> bool)
    requires i <= k <= |a| && k <= |b|
    requires a[..k] == b[..k]
    requires Boundary(a, i, isDigit) && Boundary(b, i, isDigit)
    requires Boundary(a, k, isDigit) && Boundary(b, k, isDigit)
    ensures NaturalCompareFrom(a, b, i, i, isDigit) == NaturalCompareFrom(a, b, k, k, isDigit)
    decreases k - i
  {
    if i < k {
      assert a[i] == a[..k][i] == b[..k][i] == b[i];
      if isDigit(a[i]) {
        var e := RunEnd(a, i, isDigit);
        var e' := if e < k then e else k;
        forall m | i <= m < e' ensures isDigit(b[m]) {
          assert a[m] == a[..k][m] == b[..k][m] == b[m];
        }
        if e < k {
          assert a[e] == a[..k][e] == b[..k][e] == b[e];
        } else {
          assert a[k - 1] == a[..k][k - 1] == b[..k][k - 1] == b[k - 1];
          RunEndIs(a, i, k, isDigit);
        }
        RunEndIs(b, i, e', isDigit);
        assert a[i..e'] == b[i..e'] by {
          forall m | 0 <= m < e' - i ensures a[i..e'][m] == b[i..e'][m] {
            assert a[i + m] == a[..k][i + m] == b[..k][i + m] == b[i + m];
          }
        }
        SkipCommonPrefix(a, b, e', k, isDigit);
      } else {
        SkipCommonPrefix(a, b, i + 1, k, isDigit);
      }
    }
  }

  /** At the first differing position, when that position is not inside a
      digit run on both sides, the result is the difference of the two
      characters (`CompareChar`). */
  lemma FirstDifference(p: string, x: char, y: char, s: string, t: string, isDigit: char -> bool)
    requires x != y
    requires !isDigit(x) || !isDigit(y)
    requires p == [] || !isDigit(p[|p| - 1]) || (!isDigit(x) && !isDigit(y))
    ensures NaturalCompare(p + [x] + s, p + [y] + t, isDigit) == x as int - y as int
  {
    var a, b := p + [x] + s, p + [y] + t;
    assert a[..|p|] == p == b[..|p|];
    assert a[|p|] == x && b[|p|] == y;
    SkipCommonPrefix(a, b, 0, |p|, isDigit);
  }

  /** A string sorts before any longer string it is a prefix of, unless the
      extension continues a digit run of the prefix. */
  lemma ProperPrefixFirst(p: string, s: string, isDigit: char -> bool)
    requires s != []
    requires p == [] || !isDigit(p[|p| - 1]) || !isDigit(s[0])
    ensures NaturalCompare(p, p + s, isDigit) == -1
  {
    var b := p + s;
    assert p[..|p|] == p == b[..|p|];
    assert b[|p|] == s[0];
    SkipCommonPrefix(p, b, 0, |p|, isDigit);
  }

  predicate AllDigits(s: string) {
    forall k :: 0 <= k < |s| ==> IsDigit(s[k])
  }

  /** Two digit runs with different values decide the comparison. */
  lemma RunsDecide(a: string, b: string, i: nat, j: nat, ei: nat, ej: nat, isDigit: char -> bool)
    requires i < |a| && j < |b| && isDigit(a[i]) && isDigit(b[j])
    requires ei == RunEnd(a, i, isDigit) && ej == RunEnd(b, j, isDigit)
    requires Accumulate(a[i..ei]) != Accumulate(b[j..ej])
    ensures NaturalCompareFrom(a, b, i, j, isDigit) == CompareInt(Accumulate(a[i..ei]), Accumulate(b[j..ej]))
  {
  }

  /** After a shared prefix that does not end in a digit, maximal digit runs
      `a[k..ea]` and `b[k..eb]` of at most 18 digits with different values
      order the strings by those values. */
  lemma RunsByValue(a: string, b: string, k: nat, ea: nat, eb: nat)
    requires k < ea <= |a| && k < eb <= |b|
    requires a[..k] == b[..k] && (k == 0 || !IsDigit(a[k - 1]))
    requires AllDigits(a[k..ea]) && AllDigits(b[k..eb])
    requires ea == |a| || !IsDigit(a[ea])
    requires eb == |b| || !IsDigit(b[eb])
    requires ea - k <= 18 && eb - k <= 18
    requires DecimalValue(a[k..ea]) != DecimalValue(b[k..eb])
    ensures NaturalCompare(a, b, IsDigit) < 0 <==> DecimalValue(a[k..ea]) < DecimalValue(b[k..eb])
    ensures NaturalCompare(a, b, IsDigit) != 0
  {
    assert k > 0 ==> a[k - 1] == a[..k][k - 1] == b[..k][k - 1] == b[k - 1];
    SkipCommonPrefix(a, b, 0, k, IsDigit);
    RunValue(a, k, ea);
    RunValue(b, k, eb);
    RunsDecide(a, b, k, k, ea, eb, IsDigit);
  }

  /** A maximal run of at most 18 digits: where it ends and what it is worth. */
  lemma RunValue(a: string, k: nat, e: nat)
    requires k < e <= |a|
    requires AllDigits(a[k..e]) && (e == |a| || !IsDigit(a[e]))
    requires e - k <= 18
    ensures IsDigit(a[k]) && RunEnd(a, k, IsDigit) == e
    ensures Accumulate(a[k..e]) == DecimalValue(a[k..e])
  {
    var x := a[k..e];
    forall m | k <= m < e ensures IsDigit(a[m]) { assert a[m] == x[m - k]; }
    RunEndIs(a, k, e, IsDigit);
    AccumulateIsValue(x);
  }

  /** Concrete orderings: numeric runs, character order and the length tie-break. */
  lemma Examples()
    ensures NaturalCompare("item2", "item10", IsDigit) < 0
    ensures NaturalCompare("a10", "a9", IsDigit) > 0
    ensures NaturalCompare("B", "a", IsDigit) < 0
    ensures NaturalCompare("abc", "abc ", IsDigit) < 0
    ensures NaturalCompare("a01", "a1", IsDigit) > 0
  {
    assert "item2"[4..5] == "2" && "item10"[4..6] == "10";
    RunsByValue("item2", "item10", 4, 5, 6);
    assert "a10"[1..3] == "10" && "a9"[1..2] == "9";
    RunsByValue("a10", "a9", 1, 3, 2);
    FirstDifference("", 'B', 'a', "", "", IsDigit);
    assert "" + ['B'] + "" == "B" && "" + ['a'] + "" == "a";
    ProperPrefixFirst("abc", " ", IsDigit);
    assert "abc" + " " == "abc ";
    A01VersusA1();
  }

  lemma A01VersusA1()
    ensures NaturalCompare("a01", "a1", IsDigit) == 1
  {
    var a, b := "a01", "a1";
    assert RunEnd(a, 1, IsDigit) == 3 by { RunEndIs(a, 1, 3, IsDigit); }
    assert RunEnd(b, 1, IsDigit) == 2 by { RunEndIs(b, 1, 2, IsDigit); }
    assert a[1..3] == "01" && b[1..2] == "1";
    assert Accumulate("01") == 1 by { assert "01"[..1] == "0"; assert "0"[..0] == ""; }
    assert Accumulate("1") == 1 by { assert "1"[..0] == ""; }
  }

  /** The ordering is not a strict weak ordering: "01" ties with both "1a" and
      "1b", which differ from each other, because after equal runs the scan
      stops when one side is exhausted and only the lengths are compared. */
  lemma TiesAreNotTransitive()
    ensures NaturalCompare("01", "1a", IsDigit) == 0
    ensures NaturalCompare("01", "1b", IsDigit) == 0
    ensures NaturalCompare("1a", "1b", IsDigit) < 0
  {
    assert RunEnd("01", 0, IsDigit) == 2 by { RunEndIs("01", 0, 2, IsDigit); }
    assert RunEnd("1a", 0, IsDigit) == 1 by { RunEndIs("1a", 0, 1, IsDigit); }
    assert RunEnd("1b", 0, IsDigit) == 1 by { RunEndIs("1b", 0, 1, IsDigit); }
    assert "01"[0..2] == "01" && "1a"[0..1] == "1" && "1b"[0..1] == "1";
    assert Accumulate("01") == 1 by { assert "01"[..1] == "0"; assert "0"[..0] == ""; }
    assert Accumulate("1") == 1 by { assert "1"[..0] == ""; }
    FirstDifference("1", 'a', 'b', "", "", IsDigit);
    assert "1" + ['a'] + "" == "1a" && "1" + ['b'] + "" == "1b";
  }

  // ---------------------------------------------------------------------------
  // Dictionary diffs
  // ---------------------------------------------------------------------------

  /** `excludeList ??= new()`: a null exclude list is the empty set. */
  function ExcludeSet(excludeList: Option<set<string>>): set<string> {
    excludeList.GetOr({})
  }

  /** `FindAdded`: the entries of `b`, in `b`'s order, whose key is neither
      excluded nor a key of `a`. */
  function FindAdded(a: Dict, b: Dict, excludeList: Option<set<string>>): (r: seq<Pair>)
    ensures forall q :: q in r <==> q in b && q.key !in ExcludeSet(excludeList) && q.key !in KeysOf(a)
    ensures IsSubsequence(r, b)
  {
    var exclude := ExcludeSet(excludeList);
    var keep := (q: Pair) => q.key !in exclude && !ContainsKey(a, q.key);
    WhereOrder(b, keep);
    Where(b, keep)
  }

  /** `FindChanged`: the entries of `b`, in `b`'s order, whose key is in `a`,
      not excluded, and whose value differs ordinally from `a`'s; the value
      reported is `b`'s. */
  function FindChanged(a: Dict, b: Dict, excludeList: Option<set<string>>): (r: seq<Pair>)
    ensures forall q :: q in r <==>
      q in b && q.key !in ExcludeSet(excludeList) && q.key in KeysOf(a) && Lookup(a, q.key) != Some(q.value)
    ensures IsSubsequence(r, b)
  {
    var exclude := ExcludeSet(excludeList);
    var keep := (q: Pair) => q.key !in exclude && Lookup(a, q.key).Some? && Lookup(a, q.key).value != q.value;
    WhereOrder(b, keep);
    Where(b, keep)
  }

  /** `FullDiff`: the added entries followed by the changed ones. Together they
      are exactly the entries of `b` whose key is not excluded and whose value
      `a` does not hold. */
  function FullDiff(a: Dict, b: Dict, excludeList: Option<set<string>>): (r: seq<Pair>)
    ensures forall q :: q in r <==> q in b && q.key !in ExcludeSet(excludeList) && Lookup(a, q.key) != Some(q.value)
  {
    FindAdded(a, b, excludeList) + FindChanged(a, b, excludeList)
  }

  /** No key is both added and changed. */
  lemma FullDiffDisjoint(a: Dict, b: Dict, excludeList: Option<set<string>>)
    ensures KeysOf(FindAdded(a, b, excludeList)) !! KeysOf(FindChanged(a, b, excludeList))
  {
    var added, changed := FindAdded(a, b, excludeList), FindChanged(a, b, excludeList);
    forall i | 0 <= i < |added| ensures added[i].key !in KeysOf(a) { assert added[i] in added; }
    forall i | 0 <= i < |changed| ensures changed[i].key in KeysOf(a) { assert changed[i] in changed; }
  }

  /** The three examples of the diff contract. */
  lemma DiffExamples()
    ensures FindAdded([], [Pair("x", "1")], Some({})) == [Pair("x", "1")]
    ensures FindChanged([Pair("x", "1")], [Pair("x", "2")], Some({})) == [Pair("x", "2")]
    ensures FindAdded([Pair("x", "1")], [Pair("x", "1")], Some({"x"})) == []
    ensures FindAdded([], [Pair("x", "1")], None) == [Pair("x", "1")]
  {
  }
}
