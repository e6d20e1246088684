/**
 * The map shape of a string table (`LawnStringsMap`): one dictionary from keys
 * to values, enumerated in the order the keys were inserted. Converting to
 * and from plain text, flattening to the list shape, the clear-and-refill
 * sort, and the three comparisons.
 */
module LawnStringsMap {
  import opened Wrappers
  import opened KeyValues
  import opened LawnStringsTypes
  import opened Streams
  import LawnStringsPlain
  import LawnStringsComparer

  class LawnStringsMap {
    /** The dictionary the table wraps (`Objects[0].ObjData.LocStringValues`). */
    var dict: Dict

    /** A dictionary holds every key once. */
    ghost predicate Valid()
      reads this
    {
      UniqueKeys(dict)
    }

    /** A new table holds an empty dictionary. */
    constructor ()
      ensures Valid() && dict == []
    {
      dict := [];
    }

    /** `FromPlainText`: a new table whose dictionary `ReadDict` fills from
        the rest of `source`. */
    static method FromPlainText(source: LineReader, encodeFlags: LawnStringsEncoding) returns (m: LawnStringsMap)
      requires source.Valid()
      modifies source
      ensures fresh(m) && m.Valid()
      ensures m.dict == LawnStringsPlain.ReadDictOf(old(source.lines[source.pos..]), [], encodeFlags)
      ensures source.Valid() && source.lines == old(source.lines) && source.pos == |source.lines|
    {
      m := new LawnStringsMap();
      ghost var rest := source.lines[source.pos..];
      var d := LawnStringsPlain.ReadDict(source, m.dict, encodeFlags);
      LawnStringsPlain.ReadDictUnique(rest, LawnStringsPlain.DictState([], None, [], false),
                                      encodeFlags == LawnStringsEncoding.UTF8_BOM);
      m.dict := d;
    }

    /** `ToPlainText`: the dictionary written by `WriteDict`. */
    method ToPlainText(target: LineWriter, encodeFlags: LawnStringsEncoding)
      modifies target
      ensures target.lines == old(target.lines) + LawnStringsPlain.EncodeEntries(dict)
    {
      LawnStringsPlain.WriteDict(target, dict, encodeFlags);
    }

    /** `ToList`: every entry in enumeration order appended as its key and
        then its value, so that key `i` is at slot `2i` and its value at
        slot `2i + 1`. */
    method ToList() returns (lst: seq<string>)
      ensures |lst| == 2 * |dict|
      ensures forall i :: 0 <= i < |dict| ==> lst[2 * i] == dict[i].key && lst[2 * i + 1] == dict[i].value
      ensures Pairs(lst) == dict
    {
      lst := [];
      var i := 0;
      while i < |dict|
        invariant 0 <= i <= |dict|
        invariant lst == Flatten(dict[..i])
      {
        assert dict[..i + 1] == dict[..i] + [dict[i]];
        FlattenSnoc(dict[..i], dict[i]);
        lst := lst + [dict[i].key, dict[i].value];
        i := i + 1;
      }
      assert dict[..i] == dict;
      PairsOfFlatten(dict);
    }

    /** `Sort`: a dictionary of at most one entry is left alone; otherwise its
        entries are sorted by key with `AlphanumCompare` (through `List.Sort`),
        the dictionary is cleared, and the entries are stored again in sorted
        order. The mapping from keys to values does not change, and the keys
        come out in non-decreasing order whenever the comparison is a total
        preorder on them. */
    method Sort(isDigit: char -> bool)
      requires Valid()
      modifies this
      ensures Valid()
      ensures |old(dict)| <= 1 ==> dict == old(dict)
      ensures dict == SortByKey(old(dict), LawnStringsPlain.KeyOrder(isDigit))
      ensures |dict| == |old(dict)| && forall k :: Lookup(dict, k) == Lookup(old(dict), k)
      ensures TotalPreorderOn(LawnStringsPlain.KeyOrder(isDigit), KeysOf(old(dict)))
        ==> SortedByKey(dict, LawnStringsPlain.KeyOrder(isDigit))
    {
      ghost var before := dict;
      SortKeepsMapping(before, LawnStringsPlain.KeyOrder(isDigit));
      if TotalPreorderOn(LawnStringsPlain.KeyOrder(isDigit), KeysOf(before)) {
        SortByKeySorted(before, LawnStringsPlain.KeyOrder(isDigit));
      }
      if |dict| <= 1 {
        SortShort(dict, LawnStringsPlain.KeyOrder(isDigit));
        return;
      }
      var sorted := SortByKey(dict, LawnStringsPlain.KeyOrder(isDigit));
      Refill(sorted);
    }

    /** `dict.Clear()` and then `dict[pair.Key] = pair.Value` for every entry
        in turn: with keys that are new each time, every assignment appends. */
    method Refill(entries: Dict)
      requires UniqueKeys(entries)
      modifies this
      ensures dict == entries
    {
      dict := [];
      var i := 0;
      while i < |entries|
        invariant 0 <= i <= |entries|
        invariant dict == entries[..i]
      {
        NewKeyOfUnique(entries, i);
        dict := Set(dict, entries[i].key, entries[i].value);
        assert entries[..i + 1] == entries[..i] + [entries[i]];
        i := i + 1;
      }
      assert entries[..i] == entries;
    }
  }

  /** Under a key-unique prefix, the next key of a key-unique sequence is new. */
  lemma NewKeyOfUnique(s: seq<Pair>, i: nat)
    requires UniqueKeys(s) && i < |s|
    ensures s[i].key !in KeysOf(s[..i])
  {
    forall j | 0 <= j < i ensures s[..i][j].key != s[i].key {
      assert s[..i][j] == s[j];
    }
  }

  /** Sorting at most one entry changes nothing. */
  lemma SortShort(d: Dict, cmp: (string, string) -> int)
    requires |d| <= 1
    ensures SortByKey(d, cmp) == d
  {
    if |d| == 1 {
      assert d[1..] == [];
    }
  }

  /** Sorting a dictionary's entries keeps what every key maps to. */
  lemma SortKeepsMapping(d: Dict, cmp: (string, string) -> int)
    requires UniqueKeys(d)
    ensures |SortByKey(d, cmp)| == |d|
    ensures forall k :: Lookup(SortByKey(d, cmp), k) == Lookup(d, k)
  {
    var s := SortByKey(d, cmp);
    assert |s| == |multiset(s)| == |multiset(d)| == |d|;
    forall k ensures Lookup(s, k) == Lookup(d, k) {
      if k in KeysOf(d) {
        var i :| 0 <= i < |d| && d[i].key == k;
        assert d[i] in multiset(d);
        assert d[i] in s;
        var j :| 0 <= j < |s| && s[j] == d[i];
      }
    }
  }

  /** `LawnStrings.ToMap(m.ToList())`: the pairs of the flattened dictionary,
      deduplicated, are the dictionary again, because its keys are unique. */
  lemma ToMapOfToList(d: Dict)
    requires UniqueKeys(d)
    ensures DedupFirst(Pairs(Flatten(d))) == d
  {
    PairsOfFlatten(d);
    DedupFirstUnique(d);
  }

  // ---------------------------------------------------------------------------
  // Comparer
  // ---------------------------------------------------------------------------

  /** `FindAdded`: the entries of `b`, in `b`'s order, whose key is neither
      excluded nor a key of `a`; a null exclude list excludes nothing. */
  function FindAdded(a: LawnStringsMap, b: LawnStringsMap, excludeList: Option<set<string>>): (r: seq<Pair>)
    reads a, b
    ensures forall q :: q in r <==>
      q in b.dict && q.key !in LawnStringsComparer.ExcludeSet(excludeList) && q.key !in KeysOf(a.dict)
    ensures IsSubsequence(r, b.dict)
  {
    LawnStringsComparer.FindAdded(a.dict, b.dict, excludeList)
  }

  /** `FindChanged`: the entries of `b`, in `b`'s order, whose key is a key
      of `a`, not excluded, and whose value differs ordinally from `a`'s. */
  function FindChanged(a: LawnStringsMap, b: LawnStringsMap, excludeList: Option<set<string>>): (r: seq<Pair>)
    reads a, b
    ensures forall q :: q in r <==>
      q in b.dict && q.key !in LawnStringsComparer.ExcludeSet(excludeList)
      && q.key in KeysOf(a.dict) && Lookup(a.dict, q.key) != Some(q.value)
    ensures IsSubsequence(r, b.dict)
  {
    LawnStringsComparer.FindChanged(a.dict, b.dict, excludeList)
  }

  /** `FindFullDiff`: the added entries followed by the changed ones. No key
      is both, so when `b` is a dictionary every key of the result occurs
      once; the result is every entry of `b` that is not excluded and whose
      value `a` does not hold. */
  function FindFullDiff(a: LawnStringsMap, b: LawnStringsMap, excludeList: Option<set<string>>): (r: seq<Pair>)
    reads a, b
    ensures r == FindAdded(a, b, excludeList) + FindChanged(a, b, excludeList)
    ensures KeysOf(FindAdded(a, b, excludeList)) !! KeysOf(FindChanged(a, b, excludeList))
    ensures b.Valid() ==> UniqueKeys(r)
    ensures forall q :: q in r <==>
      q in b.dict && q.key !in LawnStringsComparer.ExcludeSet(excludeList) && Lookup(a.dict, q.key) != Some(q.value)
  {
    LawnStringsComparer.FullDiffDisjoint(a.dict, b.dict, excludeList);
    FullDiffUnique(a.dict, b.dict, excludeList);
    LawnStringsComparer.FullDiff(a.dict, b.dict, excludeList)
  }

  /** Both halves of the full diff are taken from `b` in order and share no
      key, so the whole keeps `b`'s keys unique. */
  lemma FullDiffUnique(a: Dict, b: Dict, excludeList: Option<set<string>>)
    ensures UniqueKeys(b) ==> UniqueKeys(LawnStringsComparer.FullDiff(a, b, excludeList))
  {
    if UniqueKeys(b) {
      var added := LawnStringsComparer.FindAdded(a, b, excludeList);
      var changed := LawnStringsComparer.FindChanged(a, b, excludeList);
      LawnStringsComparer.FullDiffDisjoint(a, b, excludeList);
      SubsequenceUnique(added, b);
      SubsequenceUnique(changed, b);
      ConcatUnique(added, changed);
    }
  }
}
