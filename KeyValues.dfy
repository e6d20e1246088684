/**
 * The two in-memory shapes of a string table and the library operations the
 * core performs on them. A .NET `Dictionary<string, string>` that is never
 * removed from enumerates in insertion order, so it is a key-unique sequence of
 * pairs; a `List<string>` of the list shape holds keys and values in
 * alternating slots.
 */
module KeyValues {
  import opened Wrappers

  /** `KeyValuePair<string, string>`. */
  datatype Pair = Pair(key: string, value: string)

  /** A dictionary: its pairs in enumeration order (keys unique, see `UniqueKeys`). */
  type Dict = seq<Pair>

  function KeysOf(s: seq<Pair>): set<string> {
    set i | 0 <= i < |s| :: s[i].key
  }

  predicate UniqueKeys(s: seq<Pair>) {
    forall i, j :: 0 <= i < j < |s| ==> s[i].key != s[j].key
  }

  lemma KeysOfAppend(s: seq<Pair>, p: Pair)
    ensures KeysOf(s + [p]) == KeysOf(s) + {p.key}
  {
    var t := s + [p];
    forall k | k in KeysOf(t) ensures k in KeysOf(s) + {p.key} {
      var i :| 0 <= i < |t| && t[i].key == k;
      if i < |s| { assert s[i].key == k; }
    }
    forall k | k in KeysOf(s) + {p.key} ensures k in KeysOf(t) {
      if k in KeysOf(s) {
        var i :| 0 <= i < |s| && s[i].key == k;
        assert t[i].key == k;
      } else {
        assert t[|s|].key == k;
      }
    }
  }

  lemma KeysOfConcat(s: seq<Pair>, t: seq<Pair>)
    ensures KeysOf(s + t) == KeysOf(s) + KeysOf(t)
  {
    var u := s + t;
    forall k | k in KeysOf(u) ensures k in KeysOf(s) + KeysOf(t) {
      var i :| 0 <= i < |u| && u[i].key == k;
      if i < |s| { assert s[i].key == k; } else { assert t[i - |s|].key == k; }
    }
    forall k | k in KeysOf(s) + KeysOf(t) ensures k in KeysOf(u) {
      if k in KeysOf(s) {
        var i :| 0 <= i < |s| && s[i].key == k;
        assert u[i].key == k;
      } else {
        var i :| 0 <= i < |t| && t[i].key == k;
        assert u[|s| + i].key == k;
      }
    }
  }

  /** Position of key `k` in `d`, or `|d|` when `d` has no such key. */
  function IndexOfKey(d: Dict, k: string): (r: nat)
    ensures r <= |d|
    ensures r < |d| ==> d[r].key == k
    ensures forall i :: 0 <= i < r ==> d[i].key != k
    ensures r == |d| <==> k !in KeysOf(d)
    decreases |d|
  {
    if d == [] then 0
    else if d[0].key == k then 0
    else
      var r := 1 + IndexOfKey(d[1..], k);
      assert k in KeysOf(d[1..]) ==> k in KeysOf(d) by {
        if k in KeysOf(d[1..]) {
          var i :| 0 <= i < |d[1..]| && d[1..][i].key == k;
          assert d[i + 1].key == k;
        }
      }
      assert k in KeysOf(d) ==> k in KeysOf(d[1..]) by {
        if k in KeysOf(d) {
          var i :| 0 <= i < |d| && d[i].key == k;
          assert d[1..][i - 1].key == k;
        }
      }
      r
  }

  /** `ContainsKey`. */
  predicate ContainsKey(d: Dict, k: string) {
    IndexOfKey(d, k) < |d|
  }

  /** `TryGetValue`: the value stored under `k`, if any. */
  function Lookup(d: Dict, k: string): (r: Option<string>)
    ensures r.Some? <==> k in KeysOf(d)
    ensures UniqueKeys(d) ==>
      forall i :: 0 <= i < |d| && d[i].key == k ==> r == Some(d[i].value)
  {
    var i := IndexOfKey(d, k);
    if i < |d| then Some(d[i].value) else None
  }

  /** The indexer assignment `d[k] = v`: replaces the value in place when `k`
      is present, appends the pair otherwise. */
  function Set(d: Dict, k: string, v: string): (r: Dict)
    ensures k in KeysOf(d) ==> |r| == |d| && r[IndexOfKey(d, k)] == Pair(k, v)
    ensures k in KeysOf(d) ==>
      forall i :: 0 <= i < |d| && i != IndexOfKey(d, k) ==> r[i] == d[i]
    ensures k !in KeysOf(d) ==> r == d + [Pair(k, v)]
    ensures KeysOf(r) == KeysOf(d) + {k}
    ensures UniqueKeys(d) ==> UniqueKeys(r)
  {
    var i := IndexOfKey(d, k);
    if i < |d| then
      var r := d[i := Pair(k, v)];
      assert KeysOf(r) == KeysOf(d) by {
        forall x | x in KeysOf(r) ensures x in KeysOf(d) {
          var j :| 0 <= j < |r| && r[j].key == x;
          assert d[j].key == x;
        }
        forall x | x in KeysOf(d) ensures x in KeysOf(r) {
          var j :| 0 <= j < |d| && d[j].key == x;
          assert r[j].key == x;
        }
      }
      r
    else
      KeysOfAppend(d, Pair(k, v));
      d + [Pair(k, v)]
  }

  /** The list shape read two slots at a time: pair `i` is slots `2i`, `2i+1`;
      a trailing unpaired slot belongs to no pair. */
  function Pairs(lst: seq<string>): (r: seq<Pair>)
    ensures |r| == |lst| / 2
    ensures forall i :: 0 <= i < |r| ==> r[i] == Pair(lst[2 * i], lst[2 * i + 1])
  {
    seq(|lst| / 2, i requires 0 <= i < |lst| / 2 => Pair(lst[2 * i], lst[2 * i + 1]))
  }

  /** The list shape of a sequence of pairs: key, value, key, value, ... */
  function Flatten(ps: seq<Pair>): (r: seq<string>)
    ensures |r| == 2 * |ps|
    ensures forall i :: 0 <= i < |ps| ==> r[2 * i] == ps[i].key && r[2 * i + 1] == ps[i].value
    decreases |ps|
  {
    if ps == [] then [] else Flatten(ps[..|ps| - 1]) + [ps[|ps| - 1].key, ps[|ps| - 1].value]
  }

  lemma PairsOfFlatten(ps: seq<Pair>)
    ensures Pairs(Flatten(ps)) == ps
  {
  }

  /** The list shape of a leading pair: its key and value, then the rest. */
  lemma FlattenCons(p: Pair, ps: seq<Pair>)
    ensures Flatten([p] + ps) == [p.key, p.value] + Flatten(ps)
  {
    var qs := [p] + ps;
    var l, r := Flatten(qs), [p.key, p.value] + Flatten(ps);
    forall k | 0 <= k < |l| ensures l[k] == r[k] {
      var i := k / 2;
      var f := Flatten(ps);
      if k % 2 == 0 {
        assert k == 2 * i && l[2 * i] == qs[i].key;
        if i > 0 { assert qs[i] == ps[i - 1] && r[k] == f[2 * (i - 1)]; }
      } else {
        assert k == 2 * i + 1 && l[2 * i + 1] == qs[i].value;
        if i > 0 { assert qs[i] == ps[i - 1] && r[k] == f[2 * (i - 1) + 1]; }
      }
    }
  }

  lemma FlattenOfPairs(lst: seq<string>)
    requires |lst| % 2 == 0
    ensures Flatten(Pairs(lst)) == lst
  {
    var ps := Pairs(lst);
    var f := Flatten(ps);
    forall k | 0 <= k < |lst| ensures f[k] == lst[k] {
      var i := k / 2;
      assert i < |ps| && ps[i] == Pair(lst[2 * i], lst[2 * i + 1]);
      if k % 2 == 0 { assert k == 2 * i; assert f[2 * i] == ps[i].key; }
      else { assert k == 2 * i + 1; assert f[2 * i + 1] == ps[i].value; }
    }
  }

  /** Building a dictionary with `Add` while skipping keys already seen: the
      first occurrence of every key wins. */
  function DedupFirst(ps: seq<Pair>): (r: Dict)
    ensures UniqueKeys(r)
    ensures KeysOf(r) == KeysOf(ps)
    ensures |r| <= |ps|
    decreases |ps|
  {
    if ps == [] then []
    else
      var prev := DedupFirst(ps[..|ps| - 1]);
      var p := ps[|ps| - 1];
      assert ps == ps[..|ps| - 1] + [p];
      KeysOfAppend(ps[..|ps| - 1], p);
      if p.key in KeysOf(prev) then prev
      else
        KeysOfAppend(prev, p);
        prev + [p]
  }

  /** One more pair: kept when its key is new, skipped otherwise. */
  lemma DedupFirstSnoc(ps: seq<Pair>, p: Pair)
    ensures DedupFirst(ps + [p]) == if p.key in KeysOf(ps) then DedupFirst(ps) else DedupFirst(ps) + [p]
  {
    assert (ps + [p])[..|ps|] == ps;
  }

  /** Every pair of the deduplicated dictionary is the first pair of the input
      with that key. */
  lemma {:induction false} DedupFirstIsFirst(ps: seq<Pair>, k: string)
    requires k in KeysOf(ps)
    ensures Lookup(DedupFirst(ps), k) == Some(ps[IndexOfKey(ps, k)].value)
    decreases |ps|
  {
    var init := ps[..|ps| - 1];
    var p := ps[|ps| - 1];
    assert ps == init + [p];
    KeysOfAppend(init, p);
    var prev := DedupFirst(init);
    if k in KeysOf(init) {
      DedupFirstIsFirst(init, k);
      assert IndexOfKey(ps, k) == IndexOfKey(init, k) by {
        IndexOfKeyPrefix(init, [p], k);
      }
      if p.key !in KeysOf(prev) {
        KeysOfAppend(prev, p);
        LookupAppendOther(prev, p, k);
      }
    } else {
      assert p.key == k;
      assert IndexOfKey(ps, k) == |init|;
      assert DedupFirst(ps) == prev + [p];
      KeysOfAppend(prev, p);
      LookupAppendNew(prev, p);
    }
  }

  lemma IndexOfKeyPrefix(s: seq<Pair>, t: seq<Pair>, k: string)
    requires k in KeysOf(s)
    ensures IndexOfKey(s + t, k) == IndexOfKey(s, k)
  {
    var i := IndexOfKey(s, k);
    var u := s + t;
    assert u[i].key == k;
    assert forall m :: 0 <= m < i ==> u[m].key != k by {
      forall m | 0 <= m < i ensures u[m].key != k { assert u[m] == s[m]; }
    }
  }

  lemma LookupAppendOther(d: Dict, p: Pair, k: string)
    requires k in KeysOf(d)
    ensures Lookup(d + [p], k) == Lookup(d, k)
  {
    IndexOfKeyPrefix(d, [p], k);
  }

  lemma LookupAppendNew(d: Dict, p: Pair)
    requires p.key !in KeysOf(d)
    ensures Lookup(d + [p], p.key) == Some(p.value)
  {
    var u := d + [p];
    assert u[|d|].key == p.key;
    assert forall m :: 0 <= m < |d| ==> u[m].key != p.key by {
      forall m | 0 <= m < |d| ensures u[m].key != p.key {
        assert u[m] == d[m] && d[m].key in KeysOf(d);
      }
    }
  }

  /** A key-unique sequence is its own deduplication. */
  lemma {:induction false} DedupFirstUnique(ps: seq<Pair>)
    requires UniqueKeys(ps)
    ensures DedupFirst(ps) == ps
    decreases |ps|
  {
    if ps != [] {
      var init := ps[..|ps| - 1];
      var p := ps[|ps| - 1];
      assert ps == init + [p];
      DedupFirstUnique(init);
      assert p.key !in KeysOf(init) by {
        forall i | 0 <= i < |init| ensures init[i].key != p.key {
          assert init[i] == ps[i];
        }
      }
    }
  }

  /** Folding pairs into a map with `dict[k] = v`: the last occurrence of every
      key wins. Used where only lookups follow, so enumeration order is moot. */
  function LastWins(ps: seq<Pair>): (m: map<string, string>)
    ensures m.Keys == KeysOf(ps)
    decreases |ps|
  {
    if ps == [] then map[]
    else
      var p := ps[|ps| - 1];
      assert ps == ps[..|ps| - 1] + [p];
      KeysOfAppend(ps[..|ps| - 1], p);
      LastWins(ps[..|ps| - 1])[p.key := p.value]
  }

  /** One more pair overwrites the value of its key. */
  lemma LastWinsSnoc(ps: seq<Pair>, p: Pair)
    ensures LastWins(ps + [p]) == LastWins(ps)[p.key := p.value]
  {
    assert (ps + [p])[..|ps|] == ps;
  }

  /** The value `LastWins` keeps for a key is that of its last pair. */
  lemma {:induction false} LastWinsIsLast(ps: seq<Pair>, i: nat)
    requires i < |ps|
    requires forall j :: i < j < |ps| ==> ps[j].key != ps[i].key
    ensures ps[i].key in LastWins(ps) && LastWins(ps)[ps[i].key] == ps[i].value
    decreases |ps|
  {
    if i < |ps| - 1 {
      var init := ps[..|ps| - 1];
      LastWinsIsLast(init, i);
    }
  }

  /** LINQ `Where` over a sequence of pairs. */
  function Where(s: seq<Pair>, keep: Pair -> bool): (r: seq<Pair>)
    ensures forall p :: p in r <==> p in s && keep(p)
    decreases |s|
  {
    if s == [] then []
    else if keep(s[0]) then [s[0]] + Where(s[1..], keep)
    else Where(s[1..], keep)
  }

  /** `Where` keeps the order of its input. */
  lemma {:induction false} WhereOrder(s: seq<Pair>, keep: Pair -> bool)
    ensures IsSubsequence(Where(s, keep), s)
    decreases |s|
  {
    if s != [] {
      WhereOrder(s[1..], keep);
      var r := Where(s, keep);
      if keep(s[0]) {
        assert r[1..] == Where(s[1..], keep);
      } else if r != [] {
        assert r[0] in r;
      }
    }
  }

  /** `r` is `s` with some elements left out, in `s`'s order. */
  predicate IsSubsequence(r: seq<Pair>, s: seq<Pair>)
    decreases |s|
  {
    if r == [] then true
    else if s == [] then false
    else if r[0] == s[0] then IsSubsequence(r[1..], s[1..])
    else IsSubsequence(r, s[1..])
  }

  /** Filtering one more element: it is kept exactly when `keep` holds. */
  lemma {:induction false} WhereSnoc(s: seq<Pair>, x: Pair, keep: Pair -> bool)
    ensures Where(s + [x], keep) == Where(s, keep) + (if keep(x) then [x] else [])
    decreases |s|
  {
    if s != [] {
      assert (s + [x])[1..] == s[1..] + [x];
      WhereSnoc(s[1..], x, keep);
    }
  }

  /** Filtering one more element of a prefix. */
  lemma WherePrefix(s: seq<Pair>, n: nat, keep: Pair -> bool)
    requires n < |s|
    ensures Where(s[..n + 1], keep) == Where(s[..n], keep) + (if keep(s[n]) then [s[n]] else [])
  {
    assert s[..n + 1] == s[..n] + [s[n]];
    WhereSnoc(s[..n], s[n], keep);
  }

  /** A filter that keeps everything is the identity, duplicates included. */
  lemma {:induction false} WhereAll(s: seq<Pair>, keep: Pair -> bool)
    requires forall i :: 0 <= i < |s| ==> keep(s[i])
    ensures Where(s, keep) == s
    decreases |s|
  {
    if s != [] {
      assert keep(s[0]);
      WhereAll(s[1..], keep);
    }
  }

  /** A subsequence stays one when the sequence grows. */
  lemma {:induction false} SubsequenceExtend(r: seq<Pair>, s: seq<Pair>, x: Pair)
    requires IsSubsequence(r, s)
    ensures IsSubsequence(r, s + [x])
    decreases |s|
  {
    if r != [] {
      assert (s + [x])[1..] == s[1..] + [x];
      if r[0] == s[0] {
        SubsequenceExtend(r[1..], s[1..], x);
      } else {
        SubsequenceExtend(r, s[1..], x);
      }
    }
  }

  lemma {:induction false} SubsequenceLast(s: seq<Pair>, x: Pair)
    ensures IsSubsequence([x], s + [x])
    decreases |s|
  {
    if s != [] {
      assert (s + [x])[1..] == s[1..] + [x];
      if x != s[0] {
        SubsequenceLast(s[1..], x);
      }
    }
  }

  /** Every element of a subsequence is an element of the sequence. */
  lemma {:induction false} SubsequenceMembers(r: seq<Pair>, s: seq<Pair>)
    requires IsSubsequence(r, s)
    ensures forall q :: q in r ==> q in s
    decreases |s|
  {
    if r != [] {
      if r[0] == s[0] {
        SubsequenceMembers(r[1..], s[1..]);
        forall q | q in r ensures q in s {
          if q != r[0] { assert q in r[1..]; }
        }
      } else {
        SubsequenceMembers(r, s[1..]);
      }
    }
  }

  /** Leaving elements out of a key-unique sequence keeps its keys unique. */
  lemma {:induction false} SubsequenceUnique(r: seq<Pair>, s: seq<Pair>)
    requires IsSubsequence(r, s) && UniqueKeys(s)
    ensures UniqueKeys(r)
    decreases |s|
  {
    if r != [] {
      assert s == [s[0]] + s[1..];
      assert UniqueKeys(s[1..]) by {
        forall i, j | 0 <= i < j < |s| - 1 ensures s[1..][i].key != s[1..][j].key {
          assert s[1..][i] == s[i + 1] && s[1..][j] == s[j + 1];
        }
      }
      if r[0] == s[0] {
        SubsequenceUnique(r[1..], s[1..]);
        SubsequenceMembers(r[1..], s[1..]);
        HeadNotInTail(s);
        assert r[0].key !in KeysOf(r[1..]) by {
          forall i | 0 <= i < |r| - 1 ensures r[1..][i].key != r[0].key {
            assert r[1..][i] in r[1..];
            var j :| 0 <= j < |s| - 1 && s[1..][j] == r[1..][i];
          }
        }
        ConsUnique(r[0], r[1..]);
        assert r == [r[0]] + r[1..];
      } else {
        SubsequenceUnique(r, s[1..]);
      }
    }
  }

  /** Two key-unique sequences with no key in common concatenate to one. */
  lemma ConcatUnique(s: seq<Pair>, t: seq<Pair>)
    requires UniqueKeys(s) && UniqueKeys(t) && KeysOf(s) !! KeysOf(t)
    ensures UniqueKeys(s + t)
  {
    var u := s + t;
    forall i, j | 0 <= i < j < |u| ensures u[i].key != u[j].key {
      if i < |s| && j >= |s| {
        assert u[i].key in KeysOf(s) && u[j] == t[j - |s|] && u[j].key in KeysOf(t);
      } else if i >= |s| {
        assert u[i] == t[i - |s|] && u[j] == t[j - |s|];
      }
    }
  }

  /** Both sequences growing by the same element keep the subsequence. */
  lemma {:induction false} SubsequenceSnoc(r: seq<Pair>, s: seq<Pair>, x: Pair)
    requires IsSubsequence(r, s)
    ensures IsSubsequence(r + [x], s + [x])
    decreases |s|
  {
    if r == [] {
      SubsequenceLast(s, x);
      assert r + [x] == [x];
    } else {
      assert (s + [x])[1..] == s[1..] + [x];
      assert (r + [x])[1..] == r[1..] + [x];
      if r[0] == s[0] {
        SubsequenceSnoc(r[1..], s[1..], x);
      } else {
        SubsequenceSnoc(r, s[1..], x);
      }
    }
  }

  /** A loop over `ps` that reports the pairs `report` accepts, skipping a key
      it has already reported: each reported key appears once, with its first
      accepted pair. */
  function FirstReported(ps: seq<Pair>, report: Pair -> bool): (r: Dict)
    ensures UniqueKeys(r)
    ensures forall q :: q in r ==> q in ps && report(q)
    ensures forall q :: q in ps && report(q) ==> q.key in KeysOf(r)
    decreases |ps|
  {
    if ps == [] then []
    else
      var prev := FirstReported(ps[..|ps| - 1], report);
      var p := ps[|ps| - 1];
      assert ps == ps[..|ps| - 1] + [p];
      if report(p) && p.key !in KeysOf(prev) then
        KeysOfAppend(prev, p);
        prev + [p]
      else prev
  }

  /** One more pair: reported when `report` accepts it and its key is new. */
  lemma FirstReportedSnoc(ps: seq<Pair>, p: Pair, report: Pair -> bool)
    ensures FirstReported(ps + [p], report) ==
      var prev := FirstReported(ps, report);
      if report(p) && p.key !in KeysOf(prev) then prev + [p] else prev
  {
    assert (ps + [p])[..|ps|] == ps;
  }

  /** One more element of a prefix. */
  lemma FirstReportedPrefix(ps: seq<Pair>, n: nat, report: Pair -> bool)
    requires n < |ps|
    ensures FirstReported(ps[..n + 1], report) ==
      var prev := FirstReported(ps[..n], report);
      if report(ps[n]) && ps[n].key !in KeysOf(prev) then prev + [ps[n]] else prev
  {
    assert ps[..n + 1] == ps[..n] + [ps[n]];
    FirstReportedSnoc(ps[..n], ps[n], report);
  }

  /** The reported pairs come in the order of `ps`. */
  lemma {:induction false} FirstReportedOrder(ps: seq<Pair>, report: Pair -> bool)
    ensures IsSubsequence(FirstReported(ps, report), ps)
    decreases |ps|
  {
    if ps != [] {
      var init, p := ps[..|ps| - 1], ps[|ps| - 1];
      assert ps == init + [p];
      FirstReportedOrder(init, report);
      var prev := FirstReported(init, report);
      if report(p) && p.key !in KeysOf(prev) {
        SubsequenceSnoc(prev, init, p);
      } else {
        SubsequenceExtend(prev, init, p);
      }
    }
  }

  /** An accepted pair whose key no earlier accepted pair has is reported. */
  lemma {:induction false} FirstReportedIsFirst(ps: seq<Pair>, report: Pair -> bool, i: nat)
    requires i < |ps| && report(ps[i])
    requires forall j :: 0 <= j < i && report(ps[j]) ==> ps[j].key != ps[i].key
    ensures ps[i] in FirstReported(ps, report)
    decreases |ps|
  {
    var init, p := ps[..|ps| - 1], ps[|ps| - 1];
    assert ps == init + [p];
    var prev := FirstReported(init, report);
    if i == |ps| - 1 {
      forall m | 0 <= m < |prev| ensures prev[m].key != p.key {
        assert prev[m] in prev;
      }
    } else {
      FirstReportedIsFirst(init, report, i);
    }
  }

  /** The list shape of one more pair. */
  lemma FlattenSnoc(ps: seq<Pair>, p: Pair)
    ensures Flatten(ps + [p]) == Flatten(ps) + [p.key, p.value]
  {
    assert (ps + [p])[..|ps|] == ps;
  }

  /** `le(x, y) := cmp(x, y) <= 0` is total and transitive on `keys`. */
  ghost predicate TotalPreorderOn(cmp: (string, string) -> int, keys: set<string>) {
    TotalOn(cmp, keys) && TransitiveOn(cmp, keys)
  }

  ghost predicate TotalOn(cmp: (string, string) -> int, keys: set<string>) {
    forall x, y :: x in keys && y in keys ==> cmp(x, y) <= 0 || cmp(y, x) <= 0
  }

  ghost predicate TransitiveOn(cmp: (string, string) -> int, keys: set<string>) {
    forall x, y, z :: x in keys && y in keys && z in keys && cmp(x, y) <= 0 && cmp(y, z) <= 0 ==> cmp(x, z) <= 0
  }

  /** Keys in non-decreasing `cmp` order. */
  ghost predicate SortedByKey(s: seq<Pair>, cmp: (string, string) -> int) {
    forall i, j :: 0 <= i < j < |s| ==> cmp(s[i].key, s[j].key) <= 0
  }

  /** A pair whose key is new keeps the keys unique when put in front. */
  lemma ConsUnique(p: Pair, s: seq<Pair>)
    requires UniqueKeys(s) && p.key !in KeysOf(s)
    ensures UniqueKeys([p] + s)
  {
    forall i, j | 0 <= i < j < |s| + 1 ensures ([p] + s)[i].key != ([p] + s)[j].key {
      assert s[j - 1].key in KeysOf(s);
    }
  }

  /** With unique keys, the first key does not occur in the rest. */
  lemma HeadNotInTail(s: seq<Pair>)
    requires s != [] && UniqueKeys(s)
    ensures s[0].key !in KeysOf(s[1..])
  {
    forall k | 0 <= k < |s| - 1 ensures s[1..][k].key != s[0].key {
      assert s[1..][k] == s[k + 1];
    }
  }

  function InsertByKey(p: Pair, s: seq<Pair>, cmp: (string, string) -> int): (r: seq<Pair>)
    ensures multiset(r) == multiset(s) + multiset{p}
    ensures KeysOf(r) == KeysOf(s) + {p.key}
    decreases |s|
  {
    if s == [] then [p]
    else if cmp(p.key, s[0].key) <= 0 then
      KeysOfConcat([p], s);
      [p] + s
    else
      var t := InsertByKey(p, s[1..], cmp);
      assert s == [s[0]] + s[1..];
      KeysOfConcat([s[0]], s[1..]);
      KeysOfConcat([s[0]], t);
      [s[0]] + t
  }

  /** Inserting a pair whose key is new keeps the keys unique. */
  lemma {:induction false} InsertByKeyUnique(p: Pair, s: seq<Pair>, cmp: (string, string) -> int)
    requires UniqueKeys(s) && p.key !in KeysOf(s)
    ensures UniqueKeys(InsertByKey(p, s, cmp))
    decreases |s|
  {
    if s == [] {
    } else if cmp(p.key, s[0].key) <= 0 {
      ConsUnique(p, s);
    } else {
      assert s == [s[0]] + s[1..];
      KeysOfConcat([s[0]], s[1..]);
      HeadNotInTail(s);
      InsertByKeyUnique(p, s[1..], cmp);
      ConsUnique(s[0], InsertByKey(p, s[1..], cmp));
    }
  }

  /** The pairs of the insertion are `p` and those of `s`. */
  lemma InsertByKeyMembers(p: Pair, s: seq<Pair>, cmp: (string, string) -> int)
    ensures forall x :: x in InsertByKey(p, s, cmp) <==> x == p || x in s
  {
    var r := InsertByKey(p, s, cmp);
    forall x ensures x in r <==> x == p || x in s {
      assert x in r <==> x in multiset(r);
      assert x in s <==> x in multiset(s);
    }
  }

  /** `List<KeyValuePair>.Sort` with a comparison on keys, written as a stable
      insertion sort. */
  function SortByKey(s: seq<Pair>, cmp: (string, string) -> int): (r: seq<Pair>)
    ensures multiset(r) == multiset(s)
    ensures KeysOf(r) == KeysOf(s)
    ensures UniqueKeys(s) ==> UniqueKeys(r)
    decreases |s|
  {
    if s == [] then []
    else
      assert s == [s[0]] + s[1..];
      KeysOfConcat([s[0]], s[1..]);
      var t := SortByKey(s[1..], cmp);
      if UniqueKeys(s) then
        HeadNotInTail(s);
        InsertByKeyUnique(s[0], t, cmp);
        InsertByKey(s[0], t, cmp)
      else
        InsertByKey(s[0], t, cmp)
  }

  lemma {:induction false} InsertSorted(p: Pair, s: seq<Pair>, cmp: (string, string) -> int, keys: set<string>)
    requires TotalPreorderOn(cmp, keys)
    requires p.key in keys && KeysOf(s) <= keys
    requires SortedByKey(s, cmp)
    ensures SortedByKey(InsertByKey(p, s, cmp), cmp)
    decreases |s|
  {
    if s != [] {
      assert s[0].key in KeysOf(s);
      if cmp(p.key, s[0].key) <= 0 {
        InsertFront(p, s, cmp, keys);
      } else {
        KeysOfConcat([s[0]], s[1..]);
        assert s == [s[0]] + s[1..];
        InsertSorted(p, s[1..], cmp, keys);
        InsertByKeyMembers(p, s[1..], cmp);
        InsertBehind(p, s, InsertByKey(p, s[1..], cmp), cmp, keys);
      }
    }
  }

  lemma InsertFront(p: Pair, s: seq<Pair>, cmp: (string, string) -> int, keys: set<string>)
    requires TotalPreorderOn(cmp, keys)
    requires p.key in keys && KeysOf(s) <= keys
    requires SortedByKey(s, cmp)
    requires s != [] && cmp(p.key, s[0].key) <= 0
    ensures SortedByKey([p] + s, cmp)
  {
    var r := [p] + s;
    forall j | 1 <= j < |r| ensures cmp(p.key, r[j].key) <= 0 {
      assert s[0].key in keys && s[j - 1].key in KeysOf(s);
      assert j - 1 > 0 ==> cmp(s[0].key, s[j - 1].key) <= 0;
    }
  }

  lemma InsertBehind(p: Pair, s: seq<Pair>, t: seq<Pair>, cmp: (string, string) -> int, keys: set<string>)
    requires TotalOn(cmp, keys)
    requires p.key in keys && KeysOf(s) <= keys
    requires SortedByKey(s, cmp) && SortedByKey(t, cmp)
    requires s != [] && cmp(p.key, s[0].key) > 0
    requires forall x :: x in t ==> x == p || x in s[1..]
    ensures SortedByKey([s[0]] + t, cmp)
  {
    assert s[0].key in KeysOf(s);
    assert cmp(s[0].key, p.key) <= 0;
    forall j | 0 <= j < |t| ensures cmp(s[0].key, t[j].key) <= 0 {
      HeadBelow(p, s, t[j], cmp);
    }
    var r := [s[0]] + t;
    forall i, j | 0 <= i < j < |r| ensures cmp(r[i].key, r[j].key) <= 0 {
      if i == 0 { assert r[j] == t[j - 1]; }
      else { assert r[i] == t[i - 1] && r[j] == t[j - 1]; }
    }
  }

  lemma HeadBelow(p: Pair, s: seq<Pair>, x: Pair, cmp: (string, string) -> int)
    requires SortedByKey(s, cmp)
    requires s != [] && cmp(s[0].key, p.key) <= 0
    requires x == p || x in s[1..]
    ensures cmp(s[0].key, x.key) <= 0
  {
    if x != p {
      var k :| 0 <= k < |s| - 1 && s[1..][k] == x;
      assert s[k + 1] == x;
    }
  }

  /** When `cmp` is a total preorder on the keys, the sorted sequence has
      non-decreasing keys. */
  lemma {:induction false} SortByKeySorted(s: seq<Pair>, cmp: (string, string) -> int)
    requires TotalPreorderOn(cmp, KeysOf(s))
    ensures SortedByKey(SortByKey(s, cmp), cmp)
    decreases |s|
  {
    if s != [] {
      assert s == [s[0]] + s[1..];
      KeysOfConcat([s[0]], s[1..]);
      SortByKeySorted(s[1..], cmp);
      InsertSorted(s[0], SortByKey(s[1..], cmp), cmp, KeysOf(s));
    }
  }
}
