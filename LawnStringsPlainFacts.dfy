/**
 * What the plain-text readers do with the shapes a file can take: a section
 * whose key is new, a repeated header and its lookahead line, and a file the
 * writers produced, which reads back entry for entry.
 */
module LawnStringsPlainFacts {
  import opened Wrappers
  import opened Text
  import opened KeyValues
  import opened LawnStringsTypes
  import opened LawnStringsPlain
  import LawnStringsHelper
  import LawnStringsComparer

  // ---------------------------------------------------------------------------
  // Lines and blocks
  // ---------------------------------------------------------------------------

  /** The lines a reader gets back for one written line: its pieces between
      line feeds. */
  function SplitLines(s: string): (r: seq<string>)
    ensures |r| >= 1
    decreases |s|
  {
    if s == [] then [""]
    else
      var rest := SplitLines(s[1..]);
      if s[0] == '\n' then [""] + rest else [[s[0]] + rest[0]] + rest[1..]
  }

  /** The lines a reader gets back for a sequence of written lines. */
  function ReadBack(written: seq<string>): seq<string>
    decreases |written|
  {
    if written == [] then [] else SplitLines(written[0]) + ReadBack(written[1..])
  }

  /** The pending block after the content lines `ls` are read onto `block`. */
  function Joined(block: string, hasContent: bool, ls: seq<string>): string
    decreases |ls|
  {
    if ls == [] then block else Joined(AppendContent(block, hasContent, ls[0]), true, ls[1..])
  }

  /** No line of `ls` is taken for a header. */
  predicate NoHeaders(ls: seq<string>) {
    forall i :: 0 <= i < |ls| ==> !IsHeaderLine(Trim(ls[i]))
  }

  lemma {:induction false} JoinedPrefix(p: string, b: string, hc: bool, ls: seq<string>)
    ensures Joined(p + b, hc, ls) == p + Joined(b, hc, ls)
    decreases |ls|
  {
    if ls != [] {
      assert AppendContent(p + b, hc, ls[0]) == p + AppendContent(b, hc, ls[0]);
      JoinedPrefix(p, AppendContent(b, hc, ls[0]), true, ls[1..]);
    }
  }

  /** Joining the pieces of `s` with line feeds, as the readers do, gives `s`
      back. */
  lemma {:induction false} JoinSplit(s: string)
    ensures Joined([], false, SplitLines(s)) == s
    decreases |s|
  {
    if s == [] {
      assert AppendContent([], false, "") == "";
    } else {
      var rest := SplitLines(s[1..]);
      JoinSplit(s[1..]);
      assert AppendContent([], false, rest[0]) == rest[0];
      assert Joined([], false, rest) == Joined(rest[0], true, rest[1..]);
      if s[0] == '\n' {
        assert ([""] + rest)[1..] == rest;
        assert AppendContent([], false, "") == [];
        assert AppendContent([], true, rest[0]) == "\n" + rest[0];
        JoinedPrefix("\n", rest[0], true, rest[1..]);
        assert s == "\n" + s[1..];
      } else {
        var first := [s[0]] + rest[0];
        assert ([first] + rest[1..])[1..] == rest[1..];
        assert AppendContent([], false, first) == first;
        JoinedPrefix([s[0]], rest[0], true, rest[1..]);
        assert s == [s[0]] + s[1..];
      }
    }
  }

  /** A line without a line feed is read back as itself. */
  lemma {:induction false} SplitLinesOfLine(s: string)
    requires forall k :: 0 <= k < |s| ==> s[k] != '\n'
    ensures SplitLines(s) == [s]
    decreases |s|
  {
    if s != [] {
      SplitLinesOfLine(s[1..]);
      assert s == [s[0]] + s[1..];
    }
  }

  // ---------------------------------------------------------------------------
  // ReadDict, line by line
  // ---------------------------------------------------------------------------

  lemma ConcatAssoc<T>(a: seq<T>, b: seq<T>, c: seq<T>)
    ensures (a + b) + c == a + (b + c)
  {
  }

  /** A state with nothing pending once it is flushed. */
  predicate DictReady(st: DictState) {
    FlushValue(st).value == [] && !FlushValue(st).hasContent
  }

  /** A line that is not a header adds to the pending value. */
  lemma DictContentStep(lines: seq<string>, st: DictState)
    requires lines != [] && !IsHeaderLine(Trim(lines[0]))
    ensures DictStep(lines, st, false)
         == (1, st.(value := AppendContent(st.value, st.hasContent, lines[0]), hasContent := true))
  {
    assert LineTrim(lines[0], false) == Trim(lines[0]);
  }

  /** Content lines are joined onto the pending value. */
  lemma {:induction false} DictContent(ls: seq<string>, rest: seq<string>, st: DictState)
    requires ls != [] && NoHeaders(ls)
    ensures ReadDictFrom(ls + rest, st, false)
         == ReadDictFrom(rest, st.(value := Joined(st.value, st.hasContent, ls), hasContent := true), false)
    decreases |ls|
  {
    var lines := ls + rest;
    assert lines[0] == ls[0] && lines[1..] == ls[1..] + rest;
    DictContentStep(lines, st);
    var st1 := st.(value := AppendContent(st.value, st.hasContent, ls[0]), hasContent := true);
    assert ReadDictFrom(lines, st, false) == ReadDictFrom(ls[1..] + rest, st1, false);
    if |ls| == 1 {
      assert ls[1..] + rest == rest;
    } else {
      assert NoHeaders(ls[1..]) by {
        forall i | 0 <= i < |ls| - 1 ensures !IsHeaderLine(Trim(ls[1..][i])) {
          assert ls[1..][i] == ls[i + 1];
        }
      }
      DictContent(ls[1..], rest, st1);
    }
  }

  /** A header whose key is not stored yet stores the pending value and
      switches to that key. */
  lemma DictNewHeader(k: string, rest: seq<string>, st: DictState, usesBom: bool)
    requires k !in KeysOf(FlushValue(st).dict)
    ensures ReadDictFrom([WrapKey(k)] + rest, st, usesBom) == ReadDictFrom(rest, FlushValue(st).(key := Some(k)), false)
  {
    WrapKeyIsHeader(k, usesBom);
    var lines := [WrapKey(k)] + rest;
    assert lines[0] == WrapKey(k) && lines[1..] == rest;
    assert DictStep(lines, st, usesBom) == (1, FlushValue(st).(key := Some(k)));
  }

  /** A header whose key is stored already, followed by a content line: both
      lines are consumed, the pending value is stored, and the current key is
      kept. */
  lemma DictRepeatedHeader(k: string, next: string, rest: seq<string>, st: DictState, usesBom: bool)
    requires k in KeysOf(FlushValue(st).dict) && !IsHeaderLine(Trim(next))
    ensures ReadDictFrom([WrapKey(k), next] + rest, st, usesBom) == ReadDictFrom(rest, FlushValue(st), false)
  {
    var lines := [WrapKey(k), next] + rest;
    assert lines[0] == WrapKey(k) && lines[1] == next && lines[2..] == rest;
    WrapKeyIsHeader(k, usesBom);
    DictHeaderRepeated(lines, FlushValue(st).dict, k);
    DictStepAtHeader(lines, st, usesBom, k);
  }

  /** `DictStep` on a header line naming `name` whose look-ahead consumes two
      lines and sets no key. */
  lemma DictStepAtHeader(lines: seq<string>, st: DictState, usesBom: bool, name: string)
    requires lines != [] && IsHeaderLine(LineTrim(lines[0], usesBom))
    requires HeaderName(LineTrim(lines[0], usesBom)) == name
    requires DictHeader(lines, FlushValue(st).dict, name) == (2, None)
    ensures DictStep(lines, st, usesBom) == (2, FlushValue(st))
  {
  }

  /** A key stored already, followed by a line that is no header: two lines
      are consumed and no key becomes current. */
  lemma DictHeaderRepeated(lines: seq<string>, dict: Dict, k: string)
    requires |lines| >= 2 && k in KeysOf(dict) && !IsHeaderLine(Trim(lines[1]))
    ensures DictHeader(lines, dict, k) == (2, None)
  {
  }

  /** A header whose key is stored already, followed by another header: the
      second one's key becomes current without being checked itself. */
  lemma DictRepeatedThenHeader(k: string, h: string, rest: seq<string>, st: DictState, usesBom: bool)
    requires k in KeysOf(FlushValue(st).dict)
    ensures ReadDictFrom([WrapKey(k), WrapKey(h)] + rest, st, usesBom)
         == ReadDictFrom(rest, FlushValue(st).(key := Some(h)), false)
  {
    WrapKeyIsHeader(k, usesBom);
    WrapKeyIsHeader(h, false);
    var lines := [WrapKey(k), WrapKey(h)] + rest;
    assert lines[0] == WrapKey(k) && lines[1] == WrapKey(h) && lines[2..] == rest;
    assert DictHeader(lines, FlushValue(st).dict, k) == (2, Some(h));
  }

  // ---------------------------------------------------------------------------
  // ReadList, line by line
  // ---------------------------------------------------------------------------

  predicate ListReady(st: ListState) {
    FlushBlock(st).block == [] && !FlushBlock(st).hasContent
  }

  lemma ListContentStep(lines: seq<string>, st: ListState)
    requires lines != [] && !IsHeaderLine(Trim(lines[0]))
    ensures ListStep(lines, st, false)
         == (1, st.(block := AppendContent(st.block, st.hasContent, lines[0]), hasContent := true))
  {
    assert LineTrim(lines[0], false) == Trim(lines[0]);
  }

  /** Content lines are joined onto the pending block. */
  lemma {:induction false} ListContent(ls: seq<string>, rest: seq<string>, st: ListState)
    requires ls != [] && NoHeaders(ls)
    ensures ReadListFrom(ls + rest, st, false)
         == ReadListFrom(rest, st.(block := Joined(st.block, st.hasContent, ls), hasContent := true), false)
    decreases |ls|
  {
    var lines := ls + rest;
    assert lines[0] == ls[0] && lines[1..] == ls[1..] + rest;
    ListContentStep(lines, st);
    var st1 := st.(block := AppendContent(st.block, st.hasContent, ls[0]), hasContent := true);
    assert ReadListFrom(lines, st, false) == ReadListFrom(ls[1..] + rest, st1, false);
    if |ls| == 1 {
      assert ls[1..] + rest == rest;
    } else {
      assert NoHeaders(ls[1..]) by {
        forall i | 0 <= i < |ls| - 1 ensures !IsHeaderLine(Trim(ls[1..][i])) {
          assert ls[1..][i] == ls[i + 1];
        }
      }
      ListContent(ls[1..], rest, st1);
    }
  }

  /** A header not seen before flushes the block and adds the key. */
  lemma ListNewHeader(k: string, rest: seq<string>, st: ListState, usesBom: bool)
    requires k !in FlushBlock(st).seen
    ensures ReadListFrom([WrapKey(k)] + rest, st, usesBom) == ReadListFrom(rest, AddHeader(FlushBlock(st), k), false)
  {
    WrapKeyIsHeader(k, usesBom);
    var lines := [WrapKey(k)] + rest;
    assert lines[0] == WrapKey(k) && lines[1..] == rest;
    assert ListStep(lines, st, usesBom) == (1, AddHeader(FlushBlock(st), k));
  }

  /** A repeated header followed by a content line: that line is discarded
      and no key is added. */
  lemma ListRepeatedHeader(k: string, next: string, rest: seq<string>, st: ListState, usesBom: bool)
    requires k in FlushBlock(st).seen && !IsHeaderLine(Trim(next))
    ensures ReadListFrom([WrapKey(k), next] + rest, st, usesBom) == ReadListFrom(rest, FlushBlock(st), false)
  {
    var lines := [WrapKey(k), next] + rest;
    assert lines[0] == WrapKey(k) && lines[1] == next && lines[2..] == rest;
    WrapKeyIsHeader(k, usesBom);
    ListHeaderRepeated(lines, FlushBlock(st).seen, k);
    ListStepAtHeader(lines, st, usesBom, k);
  }

  /** `ListStep` on a header line naming `name` whose look-ahead consumes two
      lines and adds nothing. */
  lemma ListStepAtHeader(lines: seq<string>, st: ListState, usesBom: bool, name: string)
    requires lines != [] && IsHeaderLine(LineTrim(lines[0], usesBom))
    requires HeaderName(LineTrim(lines[0], usesBom)) == name
    requires ListHeader(lines, FlushBlock(st).seen, name) == (2, None)
    ensures ListStep(lines, st, usesBom) == (2, FlushBlock(st))
  {
  }

  /** A header seen already, followed by a line that is no header: two lines
      are consumed and nothing is added. */
  lemma ListHeaderRepeated(lines: seq<string>, seen: set<string>, k: string)
    requires |lines| >= 2 && k in seen && !IsHeaderLine(Trim(lines[1]))
    ensures ListHeader(lines, seen, k) == (2, None)
  {
  }

  /** A repeated header followed by another header: the second name is added
      in place of the repeat, without its own duplicate check. */
  lemma ListRepeatedThenHeader(k: string, h: string, rest: seq<string>, st: ListState, usesBom: bool)
    requires k in FlushBlock(st).seen
    ensures ReadListFrom([WrapKey(k), WrapKey(h)] + rest, st, usesBom)
         == ReadListFrom(rest, AddHeader(FlushBlock(st), h), false)
  {
    WrapKeyIsHeader(k, usesBom);
    WrapKeyIsHeader(h, false);
    var lines := [WrapKey(k), WrapKey(h)] + rest;
    assert lines[0] == WrapKey(k) && lines[1] == WrapKey(h) && lines[2..] == rest;
    assert ListHeader(lines, FlushBlock(st).seen, k) == (2, Some(h));
  }

  /** A section under a new key: the key is added, the content lines are
      joined with line feeds, and at the next flush the block is finished and
      added only if it is non-empty, so an empty section adds only its key. */
  lemma ListSection(k: string, ls: seq<string>, rest: seq<string>, st: ListState, usesBom: bool)
    requires k !in FlushBlock(st).seen && ListReady(st) && NoHeaders(ls)
    ensures var f := FlushBlock(st);
      ReadListFrom([WrapKey(k)] + ls + rest, st, usesBom)
      == ReadListFrom(rest, ListState(f.lst + [k], f.seen + {k}, Joined([], false, ls), ls != []), false)
  {
    var f := FlushBlock(st);
    assert [WrapKey(k)] + ls + rest == [WrapKey(k)] + (ls + rest);
    ListNewHeader(k, ls + rest, st, usesBom);
    assert AddHeader(f, k) == ListState(f.lst + [k], f.seen + {k}, [], false);
    if ls != [] {
      ListContent(ls, rest, AddHeader(f, k));
    } else {
      assert ls + rest == rest;
    }
  }

  // ---------------------------------------------------------------------------
  // Reading back what the writers wrote
  // ---------------------------------------------------------------------------

  /** What the readers store for a value the writers emitted: its cleaned
      form, finished like any block. */
  function StoredValue(v: string): string {
    Finish(LawnStringsHelper.Cleaned(v))
  }

  /** The entries with their values as the readers store them. */
  function Stored(es: seq<Pair>): (r: seq<Pair>)
    ensures |r| == |es|
    ensures forall i :: 0 <= i < |es| ==> r[i] == Pair(es[i].key, StoredValue(es[i].value))
    decreases |es|
  {
    if es == [] then [] else [Pair(es[0].key, StoredValue(es[0].value))] + Stored(es[1..])
  }

  /** An entry the readers take apart again: a key without a line feed, and
      no line of the cleaned value that reads as a header. */
  predicate Rereadable(p: Pair) {
    (forall k :: 0 <= k < |p.key| ==> p.key[k] != '\n')
    && NoHeaders(SplitLines(LawnStringsHelper.Cleaned(p.value)))
  }

  /** A value without backslashes, carriage returns or trailing whitespace is
      stored as it was written. */
  lemma StoredPlain(v: string)
    requires '\\' !in v && '\r' !in v
    requires v == [] || !IsWhiteSpace(v[|v| - 1])
    ensures StoredValue(v) == v
  {
    LawnStringsHelper.CleanedIdentity(v);
    assert LawnStringsHelper.Cleaned(v) == v + "\n";
    assert (v + "\n")[..|v|] == v;
    if v != [] {
      TrimUnchanged([v[|v| - 1]]);
      assert TrimEnd(v) == v;
    }
  }

  lemma WrappedKeyLine(key: string)
    requires forall k :: 0 <= k < |key| ==> key[k] != '\n'
    ensures SplitLines(WrapKey(key)) == [WrapKey(key)]
  {
    var w := WrapKey(key);
    forall k | 0 <= k < |w| ensures w[k] != '\n' {
      if 0 < k < |w| - 1 { assert w[k] == key[k - 1]; }
    }
    SplitLinesOfLine(w);
  }

  /** One written entry, read into a dictionary: its key becomes current and
      its cleaned value is pending. */
  lemma DictEntry(p: Pair, rest: seq<string>, st: DictState, usesBom: bool)
    requires Rereadable(p) && DictReady(st) && p.key !in KeysOf(FlushValue(st).dict)
    ensures var c := LawnStringsHelper.Cleaned(p.value);
      ReadDictFrom([WrapKey(p.key)] + (SplitLines(c) + rest), st, usesBom)
      == ReadDictFrom(rest, DictState(FlushValue(st).dict, Some(p.key), c, true), false)
  {
    var c := LawnStringsHelper.Cleaned(p.value);
    DictNewHeader(p.key, SplitLines(c) + rest, st, usesBom);
    var f := FlushValue(st);
    assert f.(key := Some(p.key)) == DictState(f.dict, Some(p.key), [], false);
    DictContent(SplitLines(c), rest, f.(key := Some(p.key)));
    JoinSplit(c);
  }

  /** What the written lines of an entry sequence read back as, split at the
      first entry. */
  lemma ReadBackCons(p: Pair, es: seq<Pair>)
    requires forall k :: 0 <= k < |p.key| ==> p.key[k] != '\n'
    ensures ReadBack(EncodeEntries([p] + es))
         == [WrapKey(p.key)] + (SplitLines(LawnStringsHelper.Cleaned(p.value)) + ReadBack(EncodeEntries(es)))
  {
    var c := LawnStringsHelper.Cleaned(p.value);
    var tail := EncodeEntries(es);
    var w := [WrapKey(p.key), c] + tail;
    assert ([p] + es)[1..] == es;
    assert EncodeEntries([p] + es) == w;
    assert w[1..] == [c] + tail && ([c] + tail)[1..] == tail;
    WrappedKeyLine(p.key);
  }

  /** The first entry of `es`, read into a dictionary: afterwards its stored
      pair ends the dictionary and nothing is pending. */
  lemma DictReadsBackStep(es: seq<Pair>, st: DictState, usesBom: bool)
    requires es != [] && UniqueKeys(es) && Rereadable(es[0])
    requires DictReady(st) && KeysOf(es) !! KeysOf(FlushValue(st).dict)
    ensures var q := Pair(es[0].key, StoredValue(es[0].value));
      var st1 := DictState(FlushValue(st).dict, Some(es[0].key), LawnStringsHelper.Cleaned(es[0].value), true);
      && ReadDictFrom(ReadBack(EncodeEntries(es)), st, usesBom) == ReadDictFrom(ReadBack(EncodeEntries(es[1..])), st1, false)
      && FlushValue(st1) == DictState(FlushValue(st).dict + [q], Some(es[0].key), [], false)
      && KeysOf(es[1..]) !! KeysOf(FlushValue(st).dict + [q])
  {
    var p, tail := es[0], es[1..];
    assert es == [p] + tail;
    var c := LawnStringsHelper.Cleaned(p.value);
    var d := FlushValue(st).dict;
    assert p.key in KeysOf(es);
    ReadBackCons(p, tail);
    DictEntry(p, ReadBack(EncodeEntries(tail)), st, usesBom);
    var q := Pair(p.key, Finish(c));
    KeysOfAppend(d, q);
    HeadNotInTail(es);
    KeysOfConcat([p], tail);
  }

  /** The tail of a key-unique sequence of rereadable entries is one too. */
  lemma TailRereadable(es: seq<Pair>)
    requires es != [] && UniqueKeys(es) && (forall i :: 0 <= i < |es| ==> Rereadable(es[i]))
    ensures UniqueKeys(es[1..]) && (forall i :: 0 <= i < |es[1..]| ==> Rereadable(es[1..][i]))
  {
    assert forall i :: 0 <= i < |es[1..]| ==> es[1..][i] == es[i + 1];
  }

  /** Storing the first entry, then the rest. */
  lemma StoredCons(d: Dict, es: seq<Pair>)
    requires es != []
    ensures (d + [Pair(es[0].key, StoredValue(es[0].value))]) + Stored(es[1..]) == d + Stored(es)
  {
    var q := Pair(es[0].key, StoredValue(es[0].value));
    assert Stored(es) == [q] + Stored(es[1..]);
    ConcatAssoc(d, [q], Stored(es[1..]));
  }

  /** Reading the lines written for `es` into a dictionary after state `st`
      appends the stored entries to what `st` holds. */
  lemma {:induction false} DictReadsBack(es: seq<Pair>, st: DictState, usesBom: bool)
    requires UniqueKeys(es) && (forall i :: 0 <= i < |es| ==> Rereadable(es[i]))
    requires DictReady(st) && KeysOf(es) !! KeysOf(FlushValue(st).dict)
    ensures ReadDictFrom(ReadBack(EncodeEntries(es)), st, usesBom) == FlushValue(st).dict + Stored(es)
    decreases |es|
  {
    if es == [] {
      assert ReadBack(EncodeEntries(es)) == [];
    } else {
      DictReadsBackStep(es, st, usesBom);
      TailRereadable(es);
      var st1 := DictState(FlushValue(st).dict, Some(es[0].key), LawnStringsHelper.Cleaned(es[0].value), true);
      DictReadsBack(es[1..], st1, false);
      StoredCons(FlushValue(st).dict, es);
    }
  }

  /** `WriteDict` then `ReadDict`: every entry comes back, in order, with its
      value as stored. */
  lemma WriteDictReadsBack(d: Dict, encodeFlags: LawnStringsEncoding)
    requires UniqueKeys(d) && forall i :: 0 <= i < |d| ==> Rereadable(d[i])
    ensures ReadDictOf(ReadBack(EncodeEntries(d)), [], encodeFlags) == Stored(d)
  {
    DictReadsBack(d, DictState([], None, [], false), encodeFlags == LawnStringsEncoding.UTF8_BOM);
  }

  /** One written entry, read into a list: its key is added and its cleaned
      value is pending. */
  lemma ListEntry(p: Pair, rest: seq<string>, st: ListState, usesBom: bool)
    requires Rereadable(p) && ListReady(st) && p.key !in FlushBlock(st).seen
    ensures var c := LawnStringsHelper.Cleaned(p.value);
      var f := FlushBlock(st);
      ReadListFrom([WrapKey(p.key)] + (SplitLines(c) + rest), st, usesBom)
      == ReadListFrom(rest, ListState(f.lst + [p.key], f.seen + {p.key}, c, true), false)
  {
    var c := LawnStringsHelper.Cleaned(p.value);
    assert [WrapKey(p.key)] + (SplitLines(c) + rest) == [WrapKey(p.key)] + SplitLines(c) + rest;
    ListSection(p.key, SplitLines(c), rest, st, usesBom);
    JoinSplit(c);
  }

  /** The first entry of `es`, read into a list: afterwards its key and
      stored value end the list and nothing is pending. */
  lemma ListReadsBackStep(es: seq<Pair>, st: ListState, usesBom: bool)
    requires es != [] && UniqueKeys(es) && Rereadable(es[0])
    requires ListReady(st) && KeysOf(es) !! FlushBlock(st).seen
    ensures var f := FlushBlock(st);
      var st1 := ListState(f.lst + [es[0].key], f.seen + {es[0].key}, LawnStringsHelper.Cleaned(es[0].value), true);
      && ReadListFrom(ReadBack(EncodeEntries(es)), st, usesBom) == ReadListFrom(ReadBack(EncodeEntries(es[1..])), st1, false)
      && FlushBlock(st1) == ListState(f.lst + [es[0].key, StoredValue(es[0].value)], f.seen + {es[0].key}, [], false)
      && KeysOf(es[1..]) !! f.seen + {es[0].key}
  {
    var p, tail := es[0], es[1..];
    assert es == [p] + tail;
    var f := FlushBlock(st);
    assert p.key in KeysOf(es);
    ReadBackCons(p, tail);
    ListEntry(p, ReadBack(EncodeEntries(tail)), st, usesBom);
    FlushEntry(f.lst, f.seen + {p.key}, p);
    HeadNotInTail(es);
    KeysOfConcat([p], tail);
  }

  /** Flushing the pending value of an entry just read appends its stored
      value after its key. */
  lemma FlushEntry(l: seq<string>, seen: set<string>, p: Pair)
    requires Rereadable(p)
    ensures FlushBlock(ListState(l + [p.key], seen, LawnStringsHelper.Cleaned(p.value), true))
         == ListState(l + [p.key, StoredValue(p.value)], seen, [], false)
  {
    assert l + [p.key] + [StoredValue(p.value)] == l + [p.key, StoredValue(p.value)];
  }

  /** Flattening the stored first entry, then the rest. */
  lemma FlatStoredCons(l: seq<string>, es: seq<Pair>)
    requires es != []
    ensures (l + [es[0].key, StoredValue(es[0].value)]) + Flatten(Stored(es[1..])) == l + Flatten(Stored(es))
  {
    var q := Pair(es[0].key, StoredValue(es[0].value));
    assert Stored(es) == [q] + Stored(es[1..]);
    FlattenCons(q, Stored(es[1..]));
    ConcatAssoc(l, [q.key, q.value], Flatten(Stored(es[1..])));
  }

  /** Reading the lines written for `es` into a list after state `st`
      appends the stored entries, key and value, to what `st` holds. */
  lemma {:induction false} ListReadsBack(es: seq<Pair>, st: ListState, usesBom: bool)
    requires UniqueKeys(es) && (forall i :: 0 <= i < |es| ==> Rereadable(es[i]))
    requires ListReady(st) && KeysOf(es) !! FlushBlock(st).seen
    ensures ReadListFrom(ReadBack(EncodeEntries(es)), st, usesBom) == FlushBlock(st).lst + Flatten(Stored(es))
    decreases |es|
  {
    if es == [] {
      assert ReadBack(EncodeEntries(es)) == [];
    } else {
      ListReadsBackStep(es, st, usesBom);
      TailRereadable(es);
      var f := FlushBlock(st);
      var st1 := ListState(f.lst + [es[0].key], f.seen + {es[0].key}, LawnStringsHelper.Cleaned(es[0].value), true);
      ListReadsBack(es[1..], st1, false);
      FlatStoredCons(f.lst, es);
    }
  }

  /** `WriteList` then `ReadList`: the list comes back as its first-occurrence
      pairs, key and value in turn, each value as stored. */
  lemma WriteListReadsBack(lst: seq<string>, encodeFlags: LawnStringsEncoding)
    requires forall i :: 0 <= i < |DedupFirst(Pairs(lst))| ==> Rereadable(DedupFirst(Pairs(lst))[i])
    ensures ReadListOf(ReadBack(EncodeEntries(DedupFirst(Pairs(lst)))), [], encodeFlags)
         == Flatten(Stored(DedupFirst(Pairs(lst))))
  {
    var es := DedupFirst(Pairs(lst));
    var st := ListState([], {}, [], false);
    assert FlushBlock(st) == st;
    ListReadsBack(es, st, encodeFlags == LawnStringsEncoding.UTF8_BOM);
    assert [] + Flatten(Stored(es)) == Flatten(Stored(es));
  }

  /** Values without escapes, carriage returns or trailing whitespace are
      stored exactly. */
  lemma {:induction false} StoredIdentity(es: seq<Pair>)
    requires forall i :: 0 <= i < |es| ==>
      '\\' !in es[i].value && '\r' !in es[i].value && (es[i].value == [] || !IsWhiteSpace(es[i].value[|es[i].value| - 1]))
    ensures Stored(es) == es
  {
    forall i | 0 <= i < |es| ensures Stored(es)[i] == es[i] {
      StoredPlain(es[i].value);
    }
  }

  // ---------------------------------------------------------------------------
  // Files the writers do not produce
  // ---------------------------------------------------------------------------

  /** A one-character content line that is not whitespace. */
  predicate IsWord(s: string) {
    |s| == 1 && !IsWhiteSpace(s[0])
  }

  lemma WordIsContent(s: string)
    requires IsWord(s)
    ensures !IsHeaderLine(Trim(s))
  {
    TrimUnchanged(s);
  }

  lemma WordFinished(s: string)
    requires IsWord(s)
    ensures Finish(s) == s
  {
    TrimUnchanged(s);
  }

  /** Both readers start from an empty state; a UTF16 stream has no mark to strip. */
  /** Reading a dictionary from the start, without the BOM strip. */
  lemma DictFromStart(lines: seq<string>)
    ensures ReadDictOf(lines, [], LawnStringsEncoding.UTF16) == ReadDictFrom(lines, DictState([], None, [], false), false)
  {
  }

  /** Reading a list from the start, without the BOM strip. */
  lemma ListFromStart(lines: seq<string>)
    ensures ReadListOf(lines, [], LawnStringsEncoding.UTF16) == ReadListFrom(lines, ListState([], {}, [], false), false)
  {
  }

  /** A two-line file as its first line followed by the rest. */
  lemma Split2<T>(x: T, y: T)
    ensures [x, y] == [x] + ([y] + [])
  {
  }

  /** A four-line file as one line, one line, and the last two. */
  lemma Split4<T>(x: T, y: T, z: T, w: T)
    ensures [x, y, z, w] == [x] + ([y] + ([z, w] + []))
  {
  }

  /** A five-line file as one line, one line, two lines, and the last. */
  lemma Split5<T>(x: T, y: T, z: T, w: T, v: T)
    ensures [x, y, z, w, v] == [x] + ([y] + ([z, w] + ([v] + [])))
  {
  }

  /** A content line read into a dictionary's pending value. */
  lemma DictLineRead(v: string, rest: seq<string>, st: DictState)
    requires !IsHeaderLine(Trim(v))
    ensures ReadDictFrom([v] + rest, st, false)
         == ReadDictFrom(rest, st.(value := AppendContent(st.value, st.hasContent, v), hasContent := true), false)
  {
    DictContentStep([v] + rest, st);
    assert ([v] + rest)[1..] == rest;
  }

  /** A content line read into a list's pending block. */
  lemma ListLineRead(v: string, rest: seq<string>, st: ListState)
    requires !IsHeaderLine(Trim(v))
    ensures ReadListFrom([v] + rest, st, false)
         == ReadListFrom(rest, st.(block := AppendContent(st.block, st.hasContent, v), hasContent := true), false)
  {
    ListContentStep([v] + rest, st);
    assert ([v] + rest)[1..] == rest;
  }

  /** A file of one section with a one-character value. */
  lemma OneEntryFrom(k: string, v: string)
    requires IsWord(v)
    ensures ReadDictFrom([WrapKey(k), v], DictState([], None, [], false), false) == [Pair(k, v)]
  {
    var st0 := DictState([], None, [], false);
    var st1 := DictState([], Some(k), [], false);
    calc {
      ReadDictFrom([WrapKey(k), v], st0, false);
      { Split2(WrapKey(k), v); }
      ReadDictFrom([WrapKey(k)] + ([v] + []), st0, false);
      { DictNewHeader(k, [v] + [], st0, false); }
      ReadDictFrom([v] + [], st1, false);
      { WordIsContent(v); DictLineRead(v, [], st1); assert AppendContent([], false, v) == v; }
      ReadDictFrom([], DictState([], Some(k), v, true), false);
      { WordFinished(v); }
      [Pair(k, v)];
    }
  }

  lemma OneEntry(k: string, v: string)
    requires IsWord(v)
    ensures ReadDictOf([WrapKey(k), v], [], LawnStringsEncoding.UTF16) == [Pair(k, v)]
  {
    OneEntryFrom(k, v);
    DictFromStart([WrapKey(k), v]);
  }

  /** The states both dictionary examples pass through. */
  lemma DictRepeatStates(k: string, a: string, c: string)
    requires IsWord(a) && IsWord(c)
    ensures FlushValue(DictState([], None, [], false)).(key := Some(k)) == DictState([], Some(k), [], false)
    ensures DictState([], Some(k), [], false).(value := AppendContent([], false, a), hasContent := true)
         == DictState([], Some(k), a, true)
    ensures FlushValue(DictState([], Some(k), a, true)) == DictState([Pair(k, a)], Some(k), [], false)
    ensures k in KeysOf([Pair(k, a)]) && KeysOf(FlushValue(DictState([], None, [], false)).dict) == {}
    ensures DictState([Pair(k, a)], Some(k), [], false).(value := AppendContent([], false, c), hasContent := true)
         == DictState([Pair(k, a)], Some(k), c, true)
    ensures FlushValue(DictState([Pair(k, a)], Some(k), c, true)).dict == [Pair(k, c)]
  {
    WordFinished(a);
    WordFinished(c);
    assert [Pair(k, a)][0].key == k;
    assert IndexOfKey([Pair(k, a)], k) == 0;
  }

  lemma DictRepeatKeepsFirstFrom(k: string, a: string, b: string)
    requires IsWord(a) && IsWord(b)
    ensures ReadDictFrom([WrapKey(k), a, WrapKey(k), b], DictState([], None, [], false), false) == [Pair(k, a)]
  {
    var st0 := DictState([], None, [], false);
    var st1 := DictState([], Some(k), [], false);
    var st2 := DictState([], Some(k), a, true);
    var st3 := DictState([Pair(k, a)], Some(k), [], false);
    var rest := [WrapKey(k), b] + [];
    DictRepeatStates(k, a, a);
    calc {
      ReadDictFrom([WrapKey(k), a, WrapKey(k), b], st0, false);
      { Split4(WrapKey(k), a, WrapKey(k), b); }
      ReadDictFrom([WrapKey(k)] + ([a] + rest), st0, false);
      { DictNewHeader(k, [a] + rest, st0, false); }
      ReadDictFrom([a] + rest, st1, false);
      { WordIsContent(a); DictLineRead(a, rest, st1); }
      ReadDictFrom(rest, st2, false);
      { WordIsContent(b); DictRepeatedHeader(k, b, [], st2, false); }
      ReadDictFrom([], st3, false);
    }
  }

  /** A repeated header with a content line after it: that line is dropped
      and the first value stays, so "[k]", "A", "[k]", "B" stores "A" under
      "k". */
  lemma DictRepeatKeepsFirst(k: string, a: string, b: string)
    requires IsWord(a) && IsWord(b)
    ensures ReadDictOf([WrapKey(k), a, WrapKey(k), b], [], LawnStringsEncoding.UTF16) == [Pair(k, a)]
  {
    DictRepeatKeepsFirstFrom(k, a, b);
    DictFromStart([WrapKey(k), a, WrapKey(k), b]);
  }

  lemma DictRepeatOverwritesFrom(k: string, a: string, b: string, c: string)
    requires IsWord(a) && IsWord(b) && IsWord(c)
    ensures ReadDictFrom([WrapKey(k), a, WrapKey(k), b, c], DictState([], None, [], false), false) == [Pair(k, c)]
  {
    var st0 := DictState([], None, [], false);
    var st1 := DictState([], Some(k), [], false);
    var st2 := DictState([], Some(k), a, true);
    var st3 := DictState([Pair(k, a)], Some(k), [], false);
    var st4 := DictState([Pair(k, a)], Some(k), c, true);
    var rest := [WrapKey(k), b] + ([c] + []);
    DictRepeatStates(k, a, c);
    calc {
      ReadDictFrom([WrapKey(k), a, WrapKey(k), b, c], st0, false);
      { Split5(WrapKey(k), a, WrapKey(k), b, c); }
      ReadDictFrom([WrapKey(k)] + ([a] + rest), st0, false);
      { DictNewHeader(k, [a] + rest, st0, false); }
      ReadDictFrom([a] + rest, st1, false);
      { WordIsContent(a); DictLineRead(a, rest, st1); }
      ReadDictFrom(rest, st2, false);
      { WordIsContent(b); DictRepeatedHeader(k, b, [c] + [], st2, false); }
      ReadDictFrom([c] + [], st3, false);
      { WordIsContent(c); DictLineRead(c, [], st3); }
      ReadDictFrom([], st4, false);
    }
  }

  /** Content after the dropped line is read under the key still current,
      and overwrites its value. */
  lemma DictRepeatOverwrites(k: string, a: string, b: string, c: string)
    requires IsWord(a) && IsWord(b) && IsWord(c)
    ensures ReadDictOf([WrapKey(k), a, WrapKey(k), b, c], [], LawnStringsEncoding.UTF16) == [Pair(k, c)]
  {
    DictRepeatOverwritesFrom(k, a, b, c);
    DictFromStart([WrapKey(k), a, WrapKey(k), b, c]);
  }

  /** The states both list examples pass through; `h` is the header after
      the repeat, if any. */
  lemma ListRepeatStates(k: string, h: string, x: string, z: string)
    requires IsWord(x) && IsWord(z)
    ensures AddHeader(FlushBlock(ListState([], {}, [], false)), k) == ListState([k], {k}, [], false)
    ensures ListState([k], {k}, [], false).(block := AppendContent([], false, x), hasContent := true)
         == ListState([k], {k}, x, true)
    ensures FlushBlock(ListState([k], {k}, x, true)) == ListState([k, x], {k}, [], false)
    ensures k in FlushBlock(ListState([k], {k}, x, true)).seen
    ensures ListState([k, x], {k}, [], false).(block := AppendContent([], false, z), hasContent := true)
         == ListState([k, x], {k}, z, true)
    ensures FlushBlock(ListState([k, x], {k}, z, true)).lst == [k, x, z]
    ensures AddHeader(FlushBlock(ListState([k], {k}, x, true)), h) == ListState([k, x, h], {k, h}, [], false)
    ensures ListState([k, x, h], {k, h}, [], false).(block := AppendContent([], false, z), hasContent := true)
         == ListState([k, x, h], {k, h}, z, true)
    ensures FlushBlock(ListState([k, x, h], {k, h}, z, true)).lst == [k, x, h, z]
  {
    WordFinished(x);
    WordFinished(z);
  }

  lemma ListRepeatDropsLineFrom(k: string, x: string, y: string, z: string)
    requires IsWord(x) && IsWord(y) && IsWord(z)
    ensures ReadListFrom([WrapKey(k), x, WrapKey(k), y, z], ListState([], {}, [], false), false) == [k, x, z]
  {
    var st0 := ListState([], {}, [], false);
    var st1 := ListState([k], {k}, [], false);
    var st2 := ListState([k], {k}, x, true);
    var st3 := ListState([k, x], {k}, [], false);
    var st4 := ListState([k, x], {k}, z, true);
    var rest := [WrapKey(k), y] + ([z] + []);
    ListRepeatStates(k, k, x, z);
    calc {
      ReadListFrom([WrapKey(k), x, WrapKey(k), y, z], st0, false);
      { Split5(WrapKey(k), x, WrapKey(k), y, z); }
      ReadListFrom([WrapKey(k)] + ([x] + rest), st0, false);
      { ListNewHeader(k, [x] + rest, st0, false); }
      ReadListFrom([x] + rest, st1, false);
      { WordIsContent(x); ListLineRead(x, rest, st1); }
      ReadListFrom(rest, st2, false);
      { WordIsContent(y); ListRepeatedHeader(k, y, [z] + [], st2, false); }
      ReadListFrom([z] + [], st3, false);
      { WordIsContent(z); ListLineRead(z, [], st3); }
      ReadListFrom([], st4, false);
    }
  }

  /** In a list, a repeated header drops the line after it and adds no key. */
  lemma ListRepeatDropsLine(k: string, x: string, y: string, z: string)
    requires IsWord(x) && IsWord(y) && IsWord(z)
    ensures ReadListOf([WrapKey(k), x, WrapKey(k), y, z], [], LawnStringsEncoding.UTF16) == [k, x, z]
  {
    ListRepeatDropsLineFrom(k, x, y, z);
    ListFromStart([WrapKey(k), x, WrapKey(k), y, z]);
  }

  lemma ListRepeatTakesNextHeaderFrom(k: string, h: string, x: string, y: string)
    requires IsWord(x) && IsWord(y)
    ensures ReadListFrom([WrapKey(k), x, WrapKey(k), WrapKey(h), y], ListState([], {}, [], false), false) == [k, x, h, y]
  {
    var st0 := ListState([], {}, [], false);
    var st1 := ListState([k], {k}, [], false);
    var st2 := ListState([k], {k}, x, true);
    var st3 := ListState([k, x, h], {k, h}, [], false);
    var st4 := ListState([k, x, h], {k, h}, y, true);
    var rest := [WrapKey(k), WrapKey(h)] + ([y] + []);
    ListRepeatStates(k, h, x, y);
    calc {
      ReadListFrom([WrapKey(k), x, WrapKey(k), WrapKey(h), y], st0, false);
      { Split5(WrapKey(k), x, WrapKey(k), WrapKey(h), y); }
      ReadListFrom([WrapKey(k)] + ([x] + rest), st0, false);
      { ListNewHeader(k, [x] + rest, st0, false); }
      ReadListFrom([x] + rest, st1, false);
      { WordIsContent(x); ListLineRead(x, rest, st1); }
      ReadListFrom(rest, st2, false);
      { ListRepeatedThenHeader(k, h, [y] + [], st2, false); }
      ReadListFrom([y] + [], st3, false);
      { WordIsContent(y); ListLineRead(y, [], st3); }
      ReadListFrom([], st4, false);
    }
  }

  /** In a list, a repeated header followed by a header is replaced by the
      second one, whose own repeat test is skipped: with `h == k` the list
      ends up holding `k` twice. */
  lemma ListRepeatTakesNextHeader(k: string, h: string, x: string, y: string)
    requires IsWord(x) && IsWord(y)
    ensures ReadListOf([WrapKey(k), x, WrapKey(k), WrapKey(h), y], [], LawnStringsEncoding.UTF16) == [k, x, h, y]
  {
    ListRepeatTakesNextHeaderFrom(k, h, x, y);
    ListFromStart([WrapKey(k), x, WrapKey(k), WrapKey(h), y]);
  }

  /** The states `ListEmptyLineCarriesFrom` passes through. */
  lemma ListEmptyLineStates(k: string, h: string, c: string)
    requires IsWord(c)
    ensures AddHeader(FlushBlock(ListState([], {}, [], false)), k) == ListState([k], {k}, [], false)
    ensures ListState([k], {k}, [], false).(block := AppendContent([], false, ""), hasContent := true) == ListState([k], {k}, [], true)
    ensures AddHeader(FlushBlock(ListState([k], {k}, [], true)), h) == ListState([k, h], {k, h}, [], true)
    ensures ListState([k, h], {k, h}, [], true).(block := AppendContent([], true, c), hasContent := true)
         == ListState([k, h], {k, h}, "\n" + c, true)
    ensures FlushBlock(ListState([k, h], {k, h}, "\n" + c, true)).lst == [k, h, "\n" + c]
    ensures !IsHeaderLine(Trim(""))
  {
    var nc := "\n" + c;
    assert nc[|nc| - 1] == c[0];
    assert Finish(nc) == nc;
    TrimUnchanged("");
  }

  lemma ListEmptyLineCarriesFrom(k: string, h: string, c: string)
    requires k != h && IsWord(c)
    ensures ReadListFrom([WrapKey(k), "", WrapKey(h), c], ListState([], {}, [], false), false) == [k, h, "\n" + c]
  {
    var st0 := ListState([], {}, [], false);
    var st1 := ListState([k], {k}, [], false);
    var st2 := ListState([k], {k}, [], true);
    var st3 := ListState([k, h], {k, h}, [], true);
    var st4 := ListState([k, h], {k, h}, "\n" + c, true);
    var rest := [WrapKey(h), c] + [];
    ListEmptyLineStates(k, h, c);
    calc {
      ReadListFrom([WrapKey(k), "", WrapKey(h), c], st0, false);
      { Split4(WrapKey(k), "", WrapKey(h), c); }
      ReadListFrom([WrapKey(k)] + ([""] + rest), st0, false);
      { ListNewHeader(k, [""] + rest, st0, false); }
      ReadListFrom([""] + rest, st1, false);
      { ListLineRead("", rest, st1); }
      ReadListFrom(rest, st2, false);
      { assert rest == [WrapKey(h)] + ([c] + []); ListNewHeader(h, [c] + [], st2, false); }
      ReadListFrom([c] + [], st3, false);
      { WordIsContent(c); ListLineRead(c, [], st3); }
      ReadListFrom([], st4, false);
    }
  }

  /** An empty content line leaves the block empty, so the next header does
      not flush it and the content flag stays set: the next section's value
      starts with a line feed. */
  lemma ListEmptyLineCarries(k: string, h: string, c: string)
    requires k != h && IsWord(c)
    ensures ReadListOf([WrapKey(k), "", WrapKey(h), c], [], LawnStringsEncoding.UTF16) == [k, h, "\n" + c]
  {
    ListEmptyLineCarriesFrom(k, h, c);
    ListFromStart([WrapKey(k), "", WrapKey(h), c]);
  }

  /** The as-written `FindFullDiff` on two one-entry files whose values
      differ: `FindAdded` reports nothing, while the added and changed
      entries together are the entry of `b`. */
  lemma FullDiffMissesChange(k: string, u: string, v: string)
    requires IsWord(u) && IsWord(v) && u != v
    ensures var da := ReadDictOf([WrapKey(k), u], [], LawnStringsEncoding.UTF16);
      var db := ReadDictOf([WrapKey(k), v], [], LawnStringsEncoding.UTF16);
      && LawnStringsComparer.FindAdded(da, db, None) == []
      && LawnStringsComparer.FullDiff(da, db, None) == [Pair(k, v)]
  {
    OneEntry(k, u);
    OneEntry(k, v);
    var da, db := [Pair(k, u)], [Pair(k, v)];
    assert da[0].key == k;
    assert Pair(k, v) in LawnStringsComparer.FullDiff(da, db, None);
    assert db[1..] == [];
    assert Lookup(da, k) == Some(u) by {
      assert da == [] + [Pair(k, u)];
      LookupAppendNew([], Pair(k, u));
    }
    assert LawnStringsComparer.FindAdded(da, db, None) == [];
    var changed := LawnStringsComparer.FindChanged(da, db, None);
    assert Pair(k, v) in changed;
    assert changed[0] in changed;
    assert IsSubsequence(changed[1..], db[1..]);
    assert changed == [changed[0]] + changed[1..];
  }
}
