/**
 * The list shape of a string table (`LawnStrings`): one `List<string>` whose
 * even slots hold keys and whose odd slots hold the values that follow them.
 * Reshaping to a dictionary, the in-place quicksort over pairs, and the three
 * comparisons, each a loop over the pairs `i, i + 1` for even `i < Count - 1`.
 */
module LawnStrings {
  import opened Wrappers
  import opened KeyValues
  import LawnStringsComparer

  // ---------------------------------------------------------------------------
  // Reshaping
  // ---------------------------------------------------------------------------

  /** The pairs read before slot `2n`, and the one read there. */
  lemma PairsPrefixStep(lst: seq<string>, n: nat)
    requires 2 * n + 1 < |lst|
    ensures Pairs(lst)[..n + 1] == Pairs(lst)[..n] + [Pair(lst[2 * n], lst[2 * n + 1])]
  {
  }

  /** The loop `for i = 0; i < Count - 1; i += 2` has visited every pair when
      it stops. */
  lemma PairsDone(lst: seq<string>, n: nat)
    requires 2 * n <= |lst| && !(2 * n < |lst| - 1)
    ensures Pairs(lst)[..n] == Pairs(lst)
  {
  }

  /** One more pair read by `ToMap`: kept when its key is new, skipped
      otherwise. */
  lemma ToMapStep(lst: seq<string>, n: nat, dict: Dict, seen: set<string>)
    requires 2 * n + 1 < |lst| && dict == DedupFirst(Pairs(lst)[..n]) && seen == KeysOf(dict)
    ensures lst[2 * n] in seen ==> DedupFirst(Pairs(lst)[..n + 1]) == dict
    ensures lst[2 * n] !in seen ==>
      DedupFirst(Pairs(lst)[..n + 1]) == dict + [Pair(lst[2 * n], lst[2 * n + 1])]
      && KeysOf(dict + [Pair(lst[2 * n], lst[2 * n + 1])]) == seen + {lst[2 * n]}
  {
    var p := Pair(lst[2 * n], lst[2 * n + 1]);
    PairsPrefixStep(lst, n);
    DedupFirstSnoc(Pairs(lst)[..n], p);
    KeysOfAppend(dict, p);
  }

  /** `ToMap`: the pairs of the list added to a fresh dictionary, a key that
      was already seen being skipped, so that `Dictionary.Add` never meets a
      duplicate. The first occurrence of every key wins and a trailing
      unpaired slot is ignored. */
  method ToMap(lst: seq<string>) returns (dict: Dict)
    ensures dict == DedupFirst(Pairs(lst))
  {
    var seen: set<string> := {};
    dict := [];
    var strCount := |lst| - 1;
    var i := 0;
    ghost var n := 0;
    assert Pairs(lst)[..n] == [];
    while i < strCount
      invariant 0 <= i <= |lst| && i == 2 * n
      invariant dict == DedupFirst(Pairs(lst)[..n])
      invariant seen == KeysOf(dict)
    {
      var key := lst[i];
      var val := lst[i + 1];
      ToMapStep(lst, n, dict, seen);
      if key !in seen {
        seen := seen + {key};
        dict := dict + [Pair(key, val)];
      }
      i, n := i + 2, n + 1;
    }
    PairsDone(lst, n);
  }

  /** What `ToMap` keeps for a key is the value of its first pair. */
  lemma ToMapKeepsFirst(lst: seq<string>, k: string)
    requires k in KeysOf(Pairs(lst))
    ensures Lookup(DedupFirst(Pairs(lst)), k) == Some(Pairs(lst)[IndexOfKey(Pairs(lst), k)].value)
  {
    DedupFirstIsFirst(Pairs(lst), k);
  }

  /** A repeated key keeps its first value; a trailing odd slot is dropped. */
  lemma ToMapExamples(k: string, u: string, v: string, w: string)
    ensures DedupFirst(Pairs([k, u, k, v])) == [Pair(k, u)]
    ensures DedupFirst(Pairs([k, u, w])) == [Pair(k, u)]
  {
    var first := Pair(k, u);
    assert DedupFirst([first]) == [first] by {
      assert [first] == [] + [first];
      DedupFirstSnoc([], first);
    }
    assert KeysOf([first]) == {k} by { KeysOfAppend([], first); }
    assert Pairs([k, u, k, v]) == [first] + [Pair(k, v)];
    DedupFirstSnoc([first], Pair(k, v));
    assert Pairs([k, u, w]) == [first];
  }

  // ---------------------------------------------------------------------------
  // Sorter
  // ---------------------------------------------------------------------------

  /** `le(x, y) := cmp(x, y) <= 0` is total and transitive on all strings, as
      the culture-aware `CompareInfo.Compare` is. */
  ghost predicate TotalPreorder(cmp: (string, string) -> int) {
    (forall x, y :: cmp(x, y) <= 0 || cmp(y, x) <= 0)
    && (forall x, y, z :: cmp(x, y) <= 0 && cmp(y, z) <= 0 ==> cmp(x, z) <= 0)
  }

  /** Every key of `s` compares at most equal to `pivot`. */
  ghost predicate AllBelow(s: seq<Pair>, pivot: string, cmp: (string, string) -> int) {
    forall q :: q in s ==> cmp(q.key, pivot) <= 0
  }

  /** Every key of `s` compares greater than `pivot`. */
  ghost predicate AllAbove(s: seq<Pair>, pivot: string, cmp: (string, string) -> int) {
    forall q :: q in s ==> cmp(q.key, pivot) > 0
  }

  /** The multiset of `s`, built one element at a time. Being recursive, it
      is unfolded only on demand, which keeps the permutation facts of the
      sorting loops cheap; `BagIsMultiset` connects it to `multiset`. */
  ghost function Bag(s: seq<Pair>): multiset<Pair>
    decreases |s|
  {
    if s == [] then multiset{} else Bag(s[..|s| - 1]) + multiset{s[|s| - 1]}
  }

  lemma {:induction false} BagIsMultiset(s: seq<Pair>)
    ensures Bag(s) == multiset(s)
    decreases |s|
  {
    if s != [] {
      BagIsMultiset(s[..|s| - 1]);
      assert s == s[..|s| - 1] + [s[|s| - 1]];
    }
  }

  /** `after` is `before` with the elements `left..right` permuted among
      themselves and every other element where it was. */
  ghost predicate Permuted(before: seq<Pair>, after: seq<Pair>, left: int, right: int) {
    |after| == |before| && 0 <= left <= right + 1 <= |before|
    && (forall k :: 0 <= k < |before| && !(left <= k <= right) ==> after[k] == before[k])
    && Bag(after) == Bag(before)
  }

  /** The permuted range holds the same elements as before. */
  lemma PermutedRange(before: seq<Pair>, after: seq<Pair>, left: int, right: int)
    requires Permuted(before, after, left, right)
    ensures multiset(after[left..right + 1]) == multiset(before[left..right + 1])
  {
    BagIsMultiset(before);
    BagIsMultiset(after);
    MultisetRange(before, after, left, right);
  }

  lemma MultisetRange(before: seq<Pair>, after: seq<Pair>, left: int, right: int)
    requires |after| == |before| && 0 <= left <= right + 1 <= |before|
    requires forall k :: 0 <= k < |before| && !(left <= k <= right) ==> after[k] == before[k]
    requires multiset(after) == multiset(before)
    ensures multiset(after[left..right + 1]) == multiset(before[left..right + 1])
  {
    var a, b, c := before[..left], before[left..right + 1], before[right + 1..];
    var a', b', c' := after[..left], after[left..right + 1], after[right + 1..];
    assert before == a + b + c;
    assert after == a' + b' + c';
    assert a' == a;
    assert c' == c;
    calc {
      multiset(b');
      multiset(after) - multiset(a) - multiset(c);
      multiset(before) - multiset(a) - multiset(c);
      multiset(b);
    }
  }

  /** The list `after` is the list `before` with the pairs `left..right`
      permuted among themselves; every other pair and a trailing unpaired slot
      are as they were. */
  ghost predicate Rearranged(before: seq<string>, after: seq<string>, left: int, right: int) {
    |after| == |before| && Permuted(Pairs(before), Pairs(after), left, right)
    && (|before| % 2 == 1 ==> after[|after| - 1] == before[|before| - 1])
  }

  lemma PermutedTrans(s1: seq<Pair>, s2: seq<Pair>, s3: seq<Pair>, left: int, right: int, lo: int, hi: int)
    requires Permuted(s1, s2, left, right) && Permuted(s2, s3, lo, hi)
    requires left <= lo && hi <= right
    ensures Permuted(s1, s3, left, right)
  {
  }

  /** A permutation of `left..mid` is one of `left..right` for `mid <= right`. */
  lemma PermutedWiden(s1: seq<Pair>, s2: seq<Pair>, left: int, mid: int, right: int)
    requires Permuted(s1, s2, left, mid) && mid <= right < |s1|
    ensures Permuted(s1, s2, left, right)
  {
  }

  /** Exchanging two elements permutes a sequence. */
  lemma SwapMultiset(s: seq<Pair>, x: nat, y: nat)
    requires x < |s| && y < |s|
    ensures multiset(s[x := s[y]][y := s[x]]) == multiset(s)
  {
    if x < y {
      SwapOrdered(s, x, y);
    } else if y < x {
      SwapOrdered(s, y, x);
      assert s[x := s[y]][y := s[x]] == s[y := s[x]][x := s[y]];
    }
  }

  lemma SwapOrdered(s: seq<Pair>, x: nat, y: nat)
    requires x < y < |s|
    ensures multiset(s[x := s[y]][y := s[x]]) == multiset(s)
  {
    var a, b, c := s[..x], s[x + 1..y], s[y + 1..];
    assert s == a + [s[x]] + b + [s[y]] + c;
    assert s[x := s[y]][y := s[x]] == a + [s[y]] + b + [s[x]] + c;
  }

  /** Exchanging two elements of `left..right` keeps a permutation of that
      range a permutation of it. */
  lemma SwapStep(s0: seq<Pair>, s: seq<Pair>, x: nat, y: nat, left: int, right: int)
    requires Permuted(s0, s, left, right) && left <= x <= right && left <= y <= right
    ensures Permuted(s0, s[x := s[y]][y := s[x]], left, right)
  {
    SwapPermutes(s, x, y, left, right);
    PermutedTrans(s0, s, s[x := s[y]][y := s[x]], left, right, left, right);
  }

  /** Exchanging two elements of `left..right` permutes that range. */
  lemma SwapPermutes(s: seq<Pair>, x: nat, y: nat, left: int, right: int)
    requires 0 <= left <= x <= right && left <= y <= right && right < |s|
    ensures Permuted(s, s[x := s[y]][y := s[x]], left, right)
  {
    SwapMultiset(s, x, y);
    BagIsMultiset(s);
    BagIsMultiset(s[x := s[y]][y := s[x]]);
  }

  /** The list with pair `a` (slots `2a`, `2a + 1`) and pair `b` exchanged. */
  function SwapSlots(s: seq<string>, a: nat, b: nat): seq<string>
    requires 2 * a + 1 < |s| && 2 * b + 1 < |s|
  {
    s[2 * a := s[2 * b]][2 * a + 1 := s[2 * b + 1]][2 * b := s[2 * a]][2 * b + 1 := s[2 * a + 1]]
  }

  /** Exchanging two pairs' slots exchanges the two pairs in the pair view
      and leaves every other slot, a trailing unpaired one included, where
      it was. */
  lemma SwapSlotsFacts(s: seq<string>, a: nat, b: nat)
    requires 2 * a + 1 < |s| && 2 * b + 1 < |s|
    ensures |SwapSlots(s, a, b)| == |s|
    ensures Pairs(SwapSlots(s, a, b)) == Pairs(s)[a := Pairs(s)[b]][b := Pairs(s)[a]]
    ensures forall k ::
      (0 <= k < |s| && k != 2 * a && k != 2 * a + 1 && k != 2 * b && k != 2 * b + 1)
      ==> SwapSlots(s, a, b)[k] == s[k]
    ensures |s| % 2 == 1 ==> SwapSlots(s, a, b)[|s| - 1] == s[|s| - 1]
  {
    var t := SwapSlots(s, a, b);
    var ps, pt := Pairs(s), Pairs(t);
    var want := ps[a := ps[b]][b := ps[a]];
    forall i | 0 <= i < |pt| ensures pt[i] == want[i] {
      assert pt[i] == Pair(t[2 * i], t[2 * i + 1]);
      if i == b {
        assert t[2 * b] == s[2 * a] && t[2 * b + 1] == s[2 * a + 1];
      } else if i == a {
        assert t[2 * a] == s[2 * b] && t[2 * a + 1] == s[2 * b + 1];
      } else {
        assert t[2 * i] == s[2 * i] && t[2 * i + 1] == s[2 * i + 1];
      }
    }
  }

  /** `SwapPairs`: exchanges slots `2a`, `2a + 1` with slots `2b`, `2b + 1`,
      that is, pair `a` with pair `b`; `SwapSlotsFacts` says that no other
      slot changes. */
  method SwapPairs(list: array<string>, indexA: nat, indexB: nat)
    requires 2 * indexA + 1 < list.Length && 2 * indexB + 1 < list.Length
    modifies list
    ensures list[2 * indexA] == old(list[2 * indexB]) && list[2 * indexA + 1] == old(list[2 * indexB + 1])
    ensures list[2 * indexB] == old(list[2 * indexA]) && list[2 * indexB + 1] == old(list[2 * indexA + 1])
    ensures list[..] == SwapSlots(old(list[..]), indexA, indexB)
  {
    var iA := indexA * 2;
    var iB := indexB * 2;
    var tempKey := list[iA];
    var tempVal := list[iA + 1];
    list[iA] := list[iB];
    list[iA + 1] := list[iB + 1];
    list[iB] := tempKey;
    list[iB + 1] := tempVal;
  }

  /** `Partition`: Lomuto partitioning of the pairs `left..right` around the
      key of pair `right`. The returned `p` is where the pivot pair ends up;
      the pairs before it compare at most equal to the pivot key and the pairs
      after it greater. */
  method Partition(list: array<string>, left: nat, right: nat, cmp: (string, string) -> int) returns (p: nat)
    requires left <= right && 2 * right + 1 < list.Length
    modifies list
    ensures left <= p <= right
    ensures Rearranged(old(list[..]), list[..], left, right)
    ensures Pairs(list[..])[p] == old(Pairs(list[..])[right])
    ensures AllBelow(Pairs(list[..])[left..p], old(list[2 * right]), cmp)
    ensures AllAbove(Pairs(list[..])[p + 1..right + 1], old(list[2 * right]), cmp)
  {
    ghost var s0 := list[..];
    var pivotKey := list[right * 2];
    var i, ps := PartitionScan(list, left, right, pivotKey, cmp);
    ghost var s1 := list[..];
    SwapPairs(list, i + 1, right);
    SwapSlotsFacts(s1, i + 1, right);
    p := i + 1;
    PartitionDone(s0, list[..], Pairs(s0), ps, left, p, right, pivotKey, cmp);
  }

  /** The scanning loop of `Partition`: pairs `left..right - 1` are visited in
      order and each one whose key compares at most equal to `pivotKey` is
      exchanged to the front. On return the pairs `left..i` compare at most
      equal and the pairs `i + 1..right - 1` greater; `ps` is the new pair
      view of the list. */
  method PartitionScan(list: array<string>, left: nat, right: nat, pivotKey: string, cmp: (string, string) -> int)
    returns (i: int, ghost ps: seq<Pair>)
    requires left <= right && 2 * right + 1 < list.Length
    modifies list
    ensures left - 1 <= i < right
    ensures ps == Pairs(list[..])
    ensures list.Length % 2 == 1 ==> list[list.Length - 1] == old(list[list.Length - 1])
    ensures Permuted(old(Pairs(list[..])), ps, left, right - 1)
    ensures forall k :: left <= k <= i ==> cmp(ps[k].key, pivotKey) <= 0
    ensures forall k :: i < k < right ==> cmp(ps[k].key, pivotKey) > 0
  {
    ghost var s0 := list[..];
    ScanStart(s0, left, right, pivotKey, cmp);
    i := left - 1;
    var j := left;
    while j < right
      invariant Scanned(s0, list[..], left, right, i, j, pivotKey, cmp)
      invariant list.Length == |s0|
    {
      i := ScanStep(list, left, right, i, j, pivotKey, cmp, s0);
      j := j + 1;
    }
    ps := Pairs(list[..]);
    ScanEnd(s0, list[..], left, right, i, pivotKey, cmp);
  }

  /** One turn of the `Partition` scan: pair `j` is exchanged with pair
      `i + 1` when its key compares at most equal to the pivot key. */
  method ScanStep(list: array<string>, left: nat, right: nat, i: int, j: int, pivotKey: string,
                  cmp: (string, string) -> int, ghost s0: seq<string>) returns (i': int)
    requires Scanned(s0, list[..], left, right, i, j, pivotKey, cmp) && j < right
    modifies list
    ensures Scanned(s0, list[..], left, right, i', j + 1, pivotKey, cmp)
  {
    ScanKey(s0, list[..], left, right, i, j, pivotKey, cmp);
    var currentKey := list[j * 2];
    var c := cmp(currentKey, pivotKey);
    if c <= 0 {
      ScanSwap(list, left, right, i, j, pivotKey, cmp, s0);
      i' := i + 1;
    } else {
      ScanAbove(s0, list[..], left, right, i, j, pivotKey, cmp);
      i' := i;
    }
  }

  /** The exchange of one scan turn, for a pair `j` at most equal to the
      pivot key. */
  method ScanSwap(list: array<string>, left: nat, right: nat, i: int, j: int, pivotKey: string,
                  cmp: (string, string) -> int, ghost s0: seq<string>)
    requires Scanned(s0, list[..], left, right, i, j, pivotKey, cmp) && j < right
    requires cmp(list[2 * j], pivotKey) <= 0
    modifies list
    ensures Scanned(s0, list[..], left, right, i + 1, j + 1, pivotKey, cmp)
  {
    ghost var s := list[..];
    SwapPairs(list, i + 1, j);
    SwapSlotsFacts(s, i + 1, j);
    ScanBelow(s0, s, list[..], left, right, i, j, pivotKey, cmp);
  }

  /** The invariant of the `Partition` scan: the list `s` is `s0` with pairs
      `left..right - 1` permuted, a trailing unpaired slot untouched, pairs
      `left..i` at most equal to the pivot key and pairs `i + 1..j - 1`
      greater. */
  ghost predicate Scanned(s0: seq<string>, s: seq<string>, left: int, right: int, i: int, j: int,
                          pivotKey: string, cmp: (string, string) -> int)
  {
    |s| == |s0| && 0 <= left <= j <= right && left - 1 <= i < j && 2 * right + 1 < |s0|
    && (|s0| % 2 == 1 ==> s[|s| - 1] == s0[|s0| - 1])
    && Permuted(Pairs(s0), Pairs(s), left, right - 1)
    && (forall k :: left <= k <= i ==> cmp(Pairs(s)[k].key, pivotKey) <= 0)
    && (forall k :: i < k < j ==> cmp(Pairs(s)[k].key, pivotKey) > 0)
  }

  /** `Scanned` from its parts, stated on the pair view `ps` of `s`. */
  lemma ScannedIntro(s0: seq<string>, s: seq<string>, ps: seq<Pair>, left: int, right: int, i: int, j: int,
                     pivotKey: string, cmp: (string, string) -> int)
    requires |s| == |s0| && 0 <= left <= j <= right && left - 1 <= i < j && 2 * right + 1 < |s0|
    requires ps == Pairs(s)
    requires |s0| % 2 == 1 ==> s[|s| - 1] == s0[|s0| - 1]
    requires Permuted(Pairs(s0), ps, left, right - 1)
    requires forall k :: left <= k <= i ==> cmp(ps[k].key, pivotKey) <= 0
    requires forall k :: i < k < j ==> cmp(ps[k].key, pivotKey) > 0
    ensures Scanned(s0, s, left, right, i, j, pivotKey, cmp)
  {
  }

  lemma ScanStart(s0: seq<string>, left: nat, right: nat, pivotKey: string, cmp: (string, string) -> int)
    requires left <= right && 2 * right + 1 < |s0|
    ensures Scanned(s0, s0, left, right, left - 1, left, pivotKey, cmp)
  {
    BagIsMultiset(Pairs(s0));
  }

  /** The key the scan reads at slot `2j` is the key of pair `j`. */
  lemma ScanKey(s0: seq<string>, s: seq<string>, left: int, right: int, i: int, j: int,
                pivotKey: string, cmp: (string, string) -> int)
    requires Scanned(s0, s, left, right, i, j, pivotKey, cmp) && j < right
    ensures s[2 * j] == Pairs(s)[j].key
  {
  }

  /** Exchanging pair `j`, at most equal to the pivot, with pair `i + 1`
      (giving the list `t`) extends the block of smaller pairs by one. */
  lemma ScanBelow(s0: seq<string>, s: seq<string>, t: seq<string>, left: int, right: int, i: int, j: int,
                  pivotKey: string, cmp: (string, string) -> int)
    requires Scanned(s0, s, left, right, i, j, pivotKey, cmp) && j < right
    requires cmp(s[2 * j], pivotKey) <= 0
    requires |t| == |s| && Pairs(t) == Pairs(s)[i + 1 := Pairs(s)[j]][j := Pairs(s)[i + 1]]
    requires |s| % 2 == 1 ==> t[|t| - 1] == s[|s| - 1]
    ensures Scanned(s0, t, left, right, i + 1, j + 1, pivotKey, cmp)
  {
    var ps := Pairs(s);
    var next := ps[i + 1 := ps[j]][j := ps[i + 1]];
    PartitionStepBelow(ps, next, left, i, j, pivotKey, cmp);
    SwapStep(Pairs(s0), ps, i + 1, j, left, right - 1);
    ScannedIntro(s0, t, next, left, right, i + 1, j + 1, pivotKey, cmp);
  }

  /** Passing over pair `j`, greater than the pivot, extends the block of
      greater pairs by one. */
  lemma ScanAbove(s0: seq<string>, s: seq<string>, left: int, right: int, i: int, j: int,
                  pivotKey: string, cmp: (string, string) -> int)
    requires Scanned(s0, s, left, right, i, j, pivotKey, cmp) && j < right
    requires cmp(s[2 * j], pivotKey) > 0
    ensures Scanned(s0, s, left, right, i, j + 1, pivotKey, cmp)
  {
    PartitionStepAbove(Pairs(s), i, j, pivotKey, cmp);
  }

  /** When the scan has visited every pair, its invariant is what
      `PartitionScan` promises. */
  lemma ScanEnd(s0: seq<string>, s: seq<string>, left: int, right: int, i: int,
                pivotKey: string, cmp: (string, string) -> int)
    requires Scanned(s0, s, left, right, i, right, pivotKey, cmp)
    ensures left - 1 <= i < right
    ensures |s0| % 2 == 1 ==> s[|s| - 1] == s0[|s0| - 1]
    ensures Permuted(Pairs(s0), Pairs(s), left, right - 1)
    ensures forall k :: left <= k <= i ==> cmp(Pairs(s)[k].key, pivotKey) <= 0
    ensures forall k :: i < k < right ==> cmp(Pairs(s)[k].key, pivotKey) > 0
  {
  }

  /** One step of the `Partition` loop when pair `j` compares at most equal
      to the pivot: exchanging it with pair `i + 1` extends the block of
      pairs at most equal to the pivot by one and shifts the greater block. */
  lemma PartitionStepBelow(ps: seq<Pair>, next: seq<Pair>, left: nat, i: int, j: nat,
                           pivotKey: string, cmp: (string, string) -> int)
    requires left - 1 <= i < j < |ps|
    requires next == ps[i + 1 := ps[j]][j := ps[i + 1]]
    requires cmp(ps[j].key, pivotKey) <= 0
    requires forall k :: left <= k <= i ==> cmp(ps[k].key, pivotKey) <= 0
    requires forall k :: i < k < j ==> cmp(ps[k].key, pivotKey) > 0
    ensures forall k :: left <= k <= i + 1 ==> cmp(next[k].key, pivotKey) <= 0
    ensures forall k :: i + 1 < k < j + 1 ==> cmp(next[k].key, pivotKey) > 0
  {
    assert next[i + 1] == ps[j];
    forall k | left <= k <= i ensures cmp(next[k].key, pivotKey) <= 0 {
      assert next[k] == ps[k];
    }
    forall k | i + 1 < k < j + 1 ensures cmp(next[k].key, pivotKey) > 0 {
      if k == j {
        assert next[k] == ps[i + 1];
      } else {
        assert next[k] == ps[k];
      }
    }
  }

  /** One step of the `Partition` loop when pair `j` compares greater than
      the pivot: nothing moves and the greater block grows by one. */
  lemma PartitionStepAbove(ps: seq<Pair>, i: int, j: nat, pivotKey: string, cmp: (string, string) -> int)
    requires -1 <= i < j < |ps| && cmp(ps[j].key, pivotKey) > 0
    requires forall k :: i < k < j ==> cmp(ps[k].key, pivotKey) > 0
    ensures forall k :: i < k < j + 1 ==> cmp(ps[k].key, pivotKey) > 0
  {
  }

  /** The state `Partition` returns in: after its loop and the last exchange
      the pivot pair sits at `p`, between the pairs that compare at most equal
      to it and those that compare greater. */
  lemma PartitionDone(s0: seq<string>, fin: seq<string>, ps0: seq<Pair>, ps: seq<Pair>,
                      left: nat, p: nat, right: nat, pivotKey: string, cmp: (string, string) -> int)
    requires left <= p <= right && |fin| == |s0| && 2 * right + 1 < |s0|
    requires ps0 == Pairs(s0) && Permuted(ps0, ps, left, right - 1)
    requires Pairs(fin) == ps[p := ps[right]][right := ps[p]]
    requires |s0| % 2 == 1 ==> fin[|fin| - 1] == s0[|s0| - 1]
    requires forall k :: left <= k < p ==> cmp(ps[k].key, pivotKey) <= 0
    requires forall k :: p <= k < right ==> cmp(ps[k].key, pivotKey) > 0
    ensures Rearranged(s0, fin, left, right)
    ensures Pairs(fin)[p] == ps0[right]
    ensures AllBelow(Pairs(fin)[left..p], pivotKey, cmp)
    ensures AllAbove(Pairs(fin)[p + 1..right + 1], pivotKey, cmp)
  {
    var f := ps[p := ps[right]][right := ps[p]];
    assert ps[right] == ps0[right];
    PermutedWiden(ps0, ps, left, right - 1, right);
    SwapPermutes(ps, p, right, left, right);
    PermutedTrans(ps0, ps, f, left, right, left, right);
    PartitionSides(ps, f, left, p, right, pivotKey, cmp);
  }

  /** The last exchange of `Partition` puts the pivot pair between the pairs
      that compare at most equal to it and those that compare greater. */
  lemma PartitionSides(mid: seq<Pair>, fin: seq<Pair>, left: nat, p: nat, right: nat,
                       pivotKey: string, cmp: (string, string) -> int)
    requires left <= p <= right < |mid|
    requires fin == mid[p := mid[right]][right := mid[p]]
    requires forall k :: left <= k < p ==> cmp(mid[k].key, pivotKey) <= 0
    requires forall k :: p <= k < right ==> cmp(mid[k].key, pivotKey) > 0
    ensures AllBelow(fin[left..p], pivotKey, cmp)
    ensures AllAbove(fin[p + 1..right + 1], pivotKey, cmp)
  {
    forall q | q in fin[left..p] ensures cmp(q.key, pivotKey) <= 0 {
      var k :| 0 <= k < p - left && fin[left..p][k] == q;
      assert fin[left + k] == mid[left + k];
    }
    forall q | q in fin[p + 1..right + 1] ensures cmp(q.key, pivotKey) > 0 {
      var k :| 0 <= k < right - p && fin[p + 1..right + 1][k] == q;
      if p + 1 + k == right {
        assert fin[right] == mid[p];
      } else {
        assert fin[p + 1 + k] == mid[p + 1 + k];
      }
    }
  }

  /** A permutation keeps every key on its side of a pivot. */
  lemma BelowPermuted(s: seq<Pair>, t: seq<Pair>, pivot: string, cmp: (string, string) -> int)
    requires multiset(s) == multiset(t)
    ensures AllBelow(s, pivot, cmp) ==> AllBelow(t, pivot, cmp)
    ensures AllAbove(s, pivot, cmp) ==> AllAbove(t, pivot, cmp)
  {
    forall q | q in t ensures q in s {
      assert q in multiset(t);
    }
  }

  /** Two sorted runs on either side of a pivot make one sorted run. */
  lemma SortedAround(lo: seq<Pair>, pv: Pair, hi: seq<Pair>, cmp: (string, string) -> int)
    requires TotalPreorder(cmp)
    requires SortedByKey(lo, cmp) && SortedByKey(hi, cmp)
    requires AllBelow(lo, pv.key, cmp) && AllAbove(hi, pv.key, cmp)
    ensures SortedByKey(lo + [pv] + hi, cmp)
  {
    var r := lo + [pv] + hi;
    forall i, j | 0 <= i < j < |r| ensures cmp(r[i].key, r[j].key) <= 0 {
      if j < |lo| {
      } else if j == |lo| {
        assert r[i] in lo;
      } else if i > |lo| {
        assert r[i] == hi[i - |lo| - 1] && r[j] == hi[j - |lo| - 1];
      } else {
        assert r[j] in hi;
        assert cmp(pv.key, r[j].key) <= 0;
        if i < |lo| {
          assert r[i] in lo;
        }
      }
    }
  }

  /** `QuickSort`: sorts the pairs `left..right` in place. Whatever `cmp`
      is, the pairs of that range are only permuted; when it is a total
      preorder they end up in non-decreasing key order. */
  method QuickSort(list: array<string>, left: int, right: int, cmp: (string, string) -> int)
    requires 0 <= left <= right + 1 <= list.Length / 2
    modifies list
    ensures Rearranged(old(list[..]), list[..], left, right)
    ensures TotalPreorder(cmp) ==> SortedByKey(Pairs(list[..])[left..right + 1], cmp)
    decreases right - left
  {
    if left >= right {
      QuickSortShort(list[..], left, right, cmp);
      return;
    }
    ghost var s0 := list[..];
    var pivotIndex: int := Partition(list, left, right, cmp);
    ghost var s1 := list[..];
    QuickSort(list, left, pivotIndex - 1, cmp);
    ghost var s2 := list[..];
    QuickSort(list, pivotIndex + 1, right, cmp);
    QuickSortDone(s0, s1, s2, list[..], left, pivotIndex, right, cmp);
  }

  /** A range of at most one pair is already sorted. */
  lemma QuickSortShort(s: seq<string>, left: int, right: int, cmp: (string, string) -> int)
    requires 0 <= left <= right + 1 <= |s| / 2 && left >= right
    ensures Rearranged(s, s, left, right)
    ensures SortedByKey(Pairs(s)[left..right + 1], cmp)
  {
    BagIsMultiset(Pairs(s));
  }

  /** Partitioning around pair `p` and then sorting the pairs on either side
      of it sorts the whole range. */
  lemma QuickSortDone(s0: seq<string>, s1: seq<string>, s2: seq<string>, s3: seq<string>,
                      left: int, p: int, right: int, cmp: (string, string) -> int)
    requires 0 <= left <= p <= right < |s0| / 2
    requires Rearranged(s0, s1, left, right)
    requires Pairs(s1)[p] == Pairs(s0)[right]
    requires AllBelow(Pairs(s1)[left..p], s0[2 * right], cmp)
    requires AllAbove(Pairs(s1)[p + 1..right + 1], s0[2 * right], cmp)
    requires Rearranged(s1, s2, left, p - 1)
    requires TotalPreorder(cmp) ==> SortedByKey(Pairs(s2)[left..p], cmp)
    requires Rearranged(s2, s3, p + 1, right)
    requires TotalPreorder(cmp) ==> SortedByKey(Pairs(s3)[p + 1..right + 1], cmp)
    ensures Rearranged(s0, s3, left, right)
    ensures TotalPreorder(cmp) ==> SortedByKey(Pairs(s3)[left..right + 1], cmp)
  {
    QuickSortSteps(s0, s1, s2, s3, left, p, right);
    if TotalPreorder(cmp) {
      QuickSortSorted(Pairs(s1), Pairs(s2), Pairs(s3), left, p, right, s0[2 * right], cmp);
    }
  }

  /** Partitioning and sorting both sides rearranges the whole range. */
  lemma QuickSortSteps(s0: seq<string>, s1: seq<string>, s2: seq<string>, s3: seq<string>, left: int, p: int, right: int)
    requires left <= p <= right
    requires Rearranged(s0, s1, left, right) && Rearranged(s1, s2, left, p - 1) && Rearranged(s2, s3, p + 1, right)
    ensures Rearranged(s0, s3, left, right)
  {
    PermutedWiden(Pairs(s1), Pairs(s2), left, p - 1, right);
    PermutedTrans(Pairs(s1), Pairs(s2), Pairs(s3), left, right, p + 1, right);
    PermutedTrans(Pairs(s0), Pairs(s1), Pairs(s3), left, right, left, right);
  }

  /** After partitioning and sorting both sides, the whole range is sorted. */
  lemma QuickSortSorted(p1: seq<Pair>, p2: seq<Pair>, p3: seq<Pair>, left: int, p: int, right: int,
                        pivot: string, cmp: (string, string) -> int)
    requires TotalPreorder(cmp)
    requires left <= p <= right
    requires Permuted(p1, p2, left, p - 1) && Permuted(p2, p3, p + 1, right)
    requires p1[p].key == pivot
    requires AllBelow(p1[left..p], pivot, cmp) && AllAbove(p1[p + 1..right + 1], pivot, cmp)
    requires SortedByKey(p2[left..p], cmp) && SortedByKey(p3[p + 1..right + 1], cmp)
    ensures SortedByKey(p3[left..right + 1], cmp)
  {
    PermutedRange(p1, p2, left, p - 1);
    PermutedRange(p2, p3, p + 1, right);
    assert p3[left..p] == p2[left..p];
    assert p2[p + 1..right + 1] == p1[p + 1..right + 1];
    assert p3[p] == p1[p];
    SortedPieces(p1[left..p], p3[left..p], p1[p + 1..right + 1], p3[p + 1..right + 1], p3[p], pivot, cmp);
    SplitAround(p3, left, p, right);
  }

  /** Permutations of the two sides of a pivot, each sorted, make one sorted
      run around the pivot. */
  lemma SortedPieces(lo0: seq<Pair>, lo: seq<Pair>, hi0: seq<Pair>, hi: seq<Pair>, pv: Pair,
                     pivot: string, cmp: (string, string) -> int)
    requires TotalPreorder(cmp) && pv.key == pivot
    requires multiset(lo) == multiset(lo0) && multiset(hi) == multiset(hi0)
    requires AllBelow(lo0, pivot, cmp) && AllAbove(hi0, pivot, cmp)
    requires SortedByKey(lo, cmp) && SortedByKey(hi, cmp)
    ensures SortedByKey(lo + [pv] + hi, cmp)
  {
    BelowPermuted(lo0, lo, pivot, cmp);
    BelowPermuted(hi0, hi, pivot, cmp);
    SortedAround(lo, pv, hi, cmp);
  }

  lemma SplitAround(s: seq<Pair>, left: int, p: int, right: int)
    requires 0 <= left <= p <= right < |s|
    ensures s[left..right + 1] == s[left..p] + [s[p]] + s[p + 1..right + 1]
  {
  }

  /** `Sort`: the pairs of the list sorted by key with the culture comparer.
      Each key stays next to its value, the pairs are a permutation of the
      original ones, and a trailing unpaired slot is not moved. */
  method Sort(list: array<string>, cmp: (string, string) -> int)
    modifies list
    ensures multiset(Pairs(list[..])) == multiset(Pairs(old(list[..])))
    ensures list.Length % 2 == 1 ==> list[list.Length - 1] == old(list[list.Length - 1])
    ensures TotalPreorder(cmp) ==> SortedByKey(Pairs(list[..]), cmp)
  {
    ghost var before := Pairs(list[..]);
    QuickSort(list, 0, list.Length / 2 - 1, cmp);
    BagIsMultiset(before);
    BagIsMultiset(Pairs(list[..]));
    assert Pairs(list[..])[0..list.Length / 2] == Pairs(list[..]);
    assert Pairs(old(list[..]))[0..list.Length / 2] == Pairs(old(list[..]));
  }

  // ---------------------------------------------------------------------------
  // Comparer
  // ---------------------------------------------------------------------------

  /** What `FindAdded` keeps: a key neither excluded nor among the base keys. */
  function AddedKeep(exclude: set<string>, baseKeys: set<string>): Pair -> bool {
    (q: Pair) => q.key !in exclude && q.key !in baseKeys
  }

  /** What `FindChanged` reports: a key not excluded, present in the base
      dictionary with a value that differs ordinally. */
  function ChangedKeep(exclude: set<string>, baseDict: map<string, string>): Pair -> bool {
    (q: Pair) => q.key !in exclude && q.key in baseDict && baseDict[q.key] != q.value
  }

  /** What `FindFullDiff` reports: a key not excluded that the base
      dictionary lacks or maps to a different value. */
  function DiffKeep(exclude: set<string>, baseDict: map<string, string>): Pair -> bool {
    (q: Pair) => q.key !in exclude && (q.key !in baseDict || baseDict[q.key] != q.value)
  }

  /** The pairs `FindAdded` returns: every pair of `b`, in order and with
      repeated keys repeated, whose key is not excluded and is no key of `a`. */
  function AddedPairs(a: seq<string>, b: seq<string>, excludeList: Option<set<string>>): (r: seq<Pair>)
    ensures forall q :: q in r <==>
      q in Pairs(b) && q.key !in LawnStringsComparer.ExcludeSet(excludeList) && q.key !in KeysOf(Pairs(a))
  {
    Where(Pairs(b), AddedKeep(LawnStringsComparer.ExcludeSet(excludeList), KeysOf(Pairs(a))))
  }

  /** The pairs `FindChanged` returns. The base value of a key is that of its
      last pair in `a`; of the pairs of `b` whose value differs from it, the
      first one per key is reported. */
  function ChangedPairs(a: seq<string>, b: seq<string>, excludeList: Option<set<string>>): (r: Dict)
    ensures UniqueKeys(r)
    ensures forall q :: q in r ==>
      (q in Pairs(b) && q.key !in LawnStringsComparer.ExcludeSet(excludeList)
       && q.key in KeysOf(Pairs(a)) && LastWins(Pairs(a))[q.key] != q.value)
    ensures forall q ::
      (q in Pairs(b) && q.key !in LawnStringsComparer.ExcludeSet(excludeList)
       && q.key in KeysOf(Pairs(a)) && LastWins(Pairs(a))[q.key] != q.value) ==> q.key in KeysOf(r)
  {
    FirstReported(Pairs(b), ChangedKeep(LawnStringsComparer.ExcludeSet(excludeList), LastWins(Pairs(a))))
  }

  /** The pairs `FindFullDiff` returns: of the pairs of `b` whose key `a`
      lacks or maps to another value, the first one per key. */
  function FullDiffPairs(a: seq<string>, b: seq<string>, excludeList: Option<set<string>>): (r: Dict)
    ensures UniqueKeys(r)
    ensures forall q :: q in r ==>
      (q in Pairs(b) && q.key !in LawnStringsComparer.ExcludeSet(excludeList)
       && (q.key !in KeysOf(Pairs(a)) || LastWins(Pairs(a))[q.key] != q.value))
    ensures forall q ::
      (q in Pairs(b) && q.key !in LawnStringsComparer.ExcludeSet(excludeList)
       && (q.key !in KeysOf(Pairs(a)) || LastWins(Pairs(a))[q.key] != q.value)) ==> q.key in KeysOf(r)
  {
    FirstReported(Pairs(b), DiffKeep(LawnStringsComparer.ExcludeSet(excludeList), LastWins(Pairs(a))))
  }

  /** All three results come in `b`'s order. */
  lemma DiffOrder(a: seq<string>, b: seq<string>, excludeList: Option<set<string>>)
    ensures IsSubsequence(AddedPairs(a, b, excludeList), Pairs(b))
    ensures IsSubsequence(ChangedPairs(a, b, excludeList), Pairs(b))
    ensures IsSubsequence(FullDiffPairs(a, b, excludeList), Pairs(b))
  {
    var exclude, baseDict := LawnStringsComparer.ExcludeSet(excludeList), LastWins(Pairs(a));
    WhereOrder(Pairs(b), AddedKeep(exclude, KeysOf(Pairs(a))));
    FirstReportedOrder(Pairs(b), ChangedKeep(exclude, baseDict));
    FirstReportedOrder(Pairs(b), DiffKeep(exclude, baseDict));
  }

  /** The full diff reports exactly the keys that are added or changed. */
  lemma FullDiffKeys(a: seq<string>, b: seq<string>, excludeList: Option<set<string>>)
    ensures KeysOf(FullDiffPairs(a, b, excludeList))
         == KeysOf(AddedPairs(a, b, excludeList)) + KeysOf(ChangedPairs(a, b, excludeList))
  {
    var full := FullDiffPairs(a, b, excludeList);
    var added := AddedPairs(a, b, excludeList);
    var changed := ChangedPairs(a, b, excludeList);
    forall k | k in KeysOf(full) ensures k in KeysOf(added) + KeysOf(changed) {
      var i :| 0 <= i < |full| && full[i].key == k;
      assert full[i] in full;
      if full[i].key !in KeysOf(Pairs(a)) {
        assert full[i] in added;
        var j :| 0 <= j < |added| && added[j] == full[i];
      }
    }
    forall k | k in KeysOf(added) ensures k in KeysOf(full) {
      var i :| 0 <= i < |added| && added[i].key == k;
      assert added[i] in added;
    }
    forall k | k in KeysOf(changed) ensures k in KeysOf(full) {
      var i :| 0 <= i < |changed| && changed[i].key == k;
      assert changed[i] in changed;
    }
  }

  /** The base loops of the comparisons: the keys of `a`, and `a` folded into
      a dictionary with `dict[key] = value`. */
  method BaseOf(a: seq<string>) returns (baseKeys: set<string>, baseDict: map<string, string>)
    ensures baseKeys == KeysOf(Pairs(a))
    ensures baseDict == LastWins(Pairs(a))
  {
    baseKeys, baseDict := {}, map[];
    var i := 0;
    ghost var n := 0;
    assert Pairs(a)[..n] == [];
    while i < |a| - 1
      invariant 0 <= i <= |a| && i == 2 * n
      invariant baseKeys == KeysOf(Pairs(a)[..n])
      invariant baseDict == LastWins(Pairs(a)[..n])
    {
      PairsPrefixStep(a, n);
      KeysOfAppend(Pairs(a)[..n], Pair(a[i], a[i + 1]));
      LastWinsSnoc(Pairs(a)[..n], Pair(a[i], a[i + 1]));
      baseKeys := baseKeys + {a[i]};
      baseDict := baseDict[a[i] := a[i + 1]];
      i, n := i + 2, n + 1;
    }
    PairsDone(a, n);
  }

  /** `FindAdded`: the keys and values of `b` whose key is neither excluded
      nor a key of `a`, as a list. */
  method FindAdded(a: seq<string>, b: seq<string>, excludeList: Option<set<string>>) returns (newStrs: seq<string>)
    ensures newStrs == Flatten(AddedPairs(a, b, excludeList))
  {
    var exclude := LawnStringsComparer.ExcludeSet(excludeList);
    var baseKeys, _ := BaseOf(a);
    ghost var keep := AddedKeep(exclude, baseKeys);
    ghost var ps := Pairs(b);
    ghost var out: seq<Pair> := [];
    newStrs := [];
    var i := 0;
    ghost var n := 0;
    assert ps[..n] == [];
    while i < |b| - 1
      invariant 0 <= i <= |b| && i == 2 * n
      invariant out == Where(ps[..n], keep)
      invariant newStrs == Flatten(out)
    {
      var key := b[i];
      var val := b[i + 1];
      assert ps[n] == Pair(key, val);
      WherePrefix(ps, n, keep);
      if !(key in exclude || key in baseKeys) {
        FlattenSnoc(out, Pair(key, val));
        newStrs := newStrs + [key, val];
        out := out + [Pair(key, val)];
      } else {
        assert out + [] == out;
      }
      i, n := i + 2, n + 1;
    }
    PairsDone(b, n);
  }

  /** `FindChanged`: the first pair of `b` per key whose key is not excluded
      and whose value differs from the base value in `a`, as a list. */
  method FindChanged(a: seq<string>, b: seq<string>, excludeList: Option<set<string>>) returns (changedStrs: seq<string>)
    ensures changedStrs == Flatten(ChangedPairs(a, b, excludeList))
  {
    var exclude := LawnStringsComparer.ExcludeSet(excludeList);
    var _, baseDict := BaseOf(a);
    ghost var report := ChangedKeep(exclude, baseDict);
    ghost var ps := Pairs(b);
    ghost var out: Dict := [];
    var seen: set<string> := {};
    changedStrs := [];
    var i := 0;
    ghost var n := 0;
    assert ps[..n] == [];
    while i < |b| - 1
      invariant 0 <= i <= |b| && i == 2 * n
      invariant out == FirstReported(ps[..n], report)
      invariant changedStrs == Flatten(out) && seen == KeysOf(out)
    {
      var key := b[i];
      var val := b[i + 1];
      assert ps[n] == Pair(key, val);
      FirstReportedPrefix(ps, n, report);
      if key in exclude || key !in baseDict {
      } else if key in seen {
      } else if baseDict[key] != val {
        FlattenSnoc(out, Pair(key, val));
        KeysOfAppend(out, Pair(key, val));
        changedStrs := changedStrs + [key, val];
        seen := seen + {key};
        out := out + [Pair(key, val)];
      }
      i, n := i + 2, n + 1;
    }
    PairsDone(b, n);
  }

  /** `FindFullDiff`: the first pair of `b` per key whose key is not excluded
      and which `a` lacks or maps to another value, as a list. */
  method FindFullDiff(a: seq<string>, b: seq<string>, excludeList: Option<set<string>>) returns (changedStrs: seq<string>)
    ensures changedStrs == Flatten(FullDiffPairs(a, b, excludeList))
  {
    var exclude := LawnStringsComparer.ExcludeSet(excludeList);
    var _, baseDict := BaseOf(a);
    ghost var report := DiffKeep(exclude, baseDict);
    ghost var ps := Pairs(b);
    ghost var out: Dict := [];
    var seen: set<string> := {};
    changedStrs := [];
    var i := 0;
    ghost var n := 0;
    assert ps[..n] == [];
    while i < |b| - 1
      invariant 0 <= i <= |b| && i == 2 * n
      invariant out == FirstReported(ps[..n], report)
      invariant changedStrs == Flatten(out) && seen == KeysOf(out)
    {
      var key := b[i];
      var val := b[i + 1];
      assert ps[n] == Pair(key, val);
      FirstReportedPrefix(ps, n, report);
      if key in exclude {
      } else if key in seen {
      } else if key !in baseDict || baseDict[key] != val {
        FlattenSnoc(out, Pair(key, val));
        KeysOfAppend(out, Pair(key, val));
        changedStrs := changedStrs + [key, val];
        seen := seen + {key};
        out := out + [Pair(key, val)];
      }
      i, n := i + 2, n + 1;
    }
    PairsDone(b, n);
  }

  /** A key repeated in `b` is added once per pair. */
  lemma AddedRepeatsExample(k: string, u: string, v: string)
    ensures AddedPairs([], [k, u, k, v], None) == [Pair(k, u), Pair(k, v)]
  {
    var p1, p2 := Pair(k, u), Pair(k, v);
    assert Pairs([k, u, k, v]) == [p1, p2];
    WhereAll([p1, p2], AddedKeep(LawnStringsComparer.ExcludeSet(None), KeysOf(Pairs([]))));
  }

  /** The full diff reports a repeated key once, with its first value. */
  lemma FullDiffOnceExample(k: string, u: string, v: string)
    ensures FullDiffPairs([], [k, u, k, v], None) == [Pair(k, u)]
  {
    var p1, p2 := Pair(k, u), Pair(k, v);
    assert Pairs([k, u, k, v]) == [p1] + [p2];
    assert [p1] == [] + [p1];
    var report := DiffKeep(LawnStringsComparer.ExcludeSet(None), LastWins(Pairs([])));
    FirstReportedSnoc([], p1, report);
    FirstReportedSnoc([p1], p2, report);
    assert k in KeysOf([p1]);
  }

  /** A change is reported even when an earlier pair of the key matched the
      base value: only reported keys are marked as seen. */
  lemma ChangeAfterMatchExample(k: string, u: string, v: string)
    requires u != v
    ensures ChangedPairs([k, u], [k, u, k, v], None) == [Pair(k, v)]
  {
    var p1, p2 := Pair(k, u), Pair(k, v);
    assert Pairs([k, u]) == [p1] == [] + [p1];
    LastWinsSnoc([], p1);
    var m := LastWins([p1]);
    assert m == map[k := u];
    assert Pairs([k, u, k, v]) == [p1, p2] == [p1] + [p2];
    var report := ChangedKeep(LawnStringsComparer.ExcludeSet(None), m);
    assert !report(p1) && report(p2);
    FirstReportedSnoc([], p1, report);
    assert FirstReported([p1], report) == [];
    FirstReportedSnoc([p1], p2, report);
    assert FirstReported([p1, p2], report) == [p2];
  }

  /** Reporting from two pairs with different keys. */
  lemma FirstReportedTwo(p: Pair, q: Pair, report: Pair -> bool)
    requires p.key != q.key
    ensures FirstReported([p, q], report) == (if report(p) then [p] else []) + (if report(q) then [q] else [])
  {
    assert [p, q] == [p] + [q];
    assert [p] == [] + [p];
    FirstReportedSnoc([], p, report);
    FirstReportedSnoc([p], q, report);
    KeysOfAppend([], p);
  }

  /** The full diff follows `b`'s order... */
  lemma FullDiffOrderExample(c: string, u: string, v: string, n: string, w: string)
    requires c != n && u != v
    ensures FullDiffPairs([c, u], [c, v, n, w], None) == [Pair(c, v), Pair(n, w)]
  {
    var p1, p2, p3 := Pair(c, u), Pair(c, v), Pair(n, w);
    assert Pairs([c, u]) == [p1] == [] + [p1];
    LastWinsSnoc([], p1);
    assert Pairs([c, v, n, w]) == [p2, p3];
    var report := DiffKeep(LawnStringsComparer.ExcludeSet(None), LastWins(Pairs([c, u])));
    assert report(p2) && report(p3);
    FirstReportedTwo(p2, p3, report);
  }

  /** ... whereas the added pairs followed by the changed ones come in another
      order. */
  lemma AddedThenChangedExample(c: string, u: string, v: string, n: string, w: string)
    requires c != n && u != v
    ensures AddedPairs([c, u], [c, v, n, w], None) + ChangedPairs([c, u], [c, v, n, w], None)
         == [Pair(n, w), Pair(c, v)]
  {
    var p1, p2, p3 := Pair(c, u), Pair(c, v), Pair(n, w);
    assert Pairs([c, v, n, w]) == [p2, p3];
    assert AddedPairs([c, u], [c, v, n, w], None) == [p3] by {
      assert Pairs([c, u]) == [p1] == [] + [p1];
      KeysOfAppend([], p1);
      var added := AddedKeep(LawnStringsComparer.ExcludeSet(None), KeysOf(Pairs([c, u])));
      assert !added(p2) && added(p3);
      assert [p2, p3][1..] == [p3] && [p3][1..] == [];
      assert Where([p3], added) == [p3];
      assert Where([p2, p3], added) == Where([p3], added);
    }
    assert ChangedPairs([c, u], [c, v, n, w], None) == [p2] by {
      assert Pairs([c, u]) == [p1] == [] + [p1];
      LastWinsSnoc([], p1);
      var changed := ChangedKeep(LawnStringsComparer.ExcludeSet(None), LastWins(Pairs([c, u])));
      assert changed(p2) && !changed(p3);
      FirstReportedTwo(p2, p3, changed);
    }
  }

  /** An excluded key is never added. */
  lemma ExcludedExample()
    ensures AddedPairs([], ["x", "1"], Some({"x"})) == []
  {
  }
}
