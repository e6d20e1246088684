/**
 * The plain-text localisation format: a file of sections, each a `[key]`
 * header line followed by the lines of its value. The readers rebuild either a
 * flat key/value list or a dictionary from a stream of lines, the writers emit
 * a header and a cleaned value per entry, and the sorter and the three diffs
 * are built on top of them.
 */
module LawnStringsPlain {
  import opened Wrappers
  import opened Text
  import opened KeyValues
  import opened LawnStringsTypes
  import opened Streams
  import LawnStringsHelper
  import LawnStringsComparer

  // ---------------------------------------------------------------------------
  // Lines
  // ---------------------------------------------------------------------------

  /** `IsSectionHeader`: after right-trimming, at least two characters, an
      opening bracket first and a closing bracket last. */
  predicate IsSectionHeader(line: string) {
    var t := TrimEnd(line);
    |t| >= 2 && t[0] == '[' && t[|t| - 1] == ']'
  }

  /** The test both readers apply to a trimmed line. */
  predicate IsHeaderLine(trimmed: string) {
    |trimmed| > 0 && IsSectionHeader(trimmed)
  }

  /** `trimmed[1..^1]`: the name between the brackets. */
  function HeaderName(trimmed: string): string
    requires |trimmed| >= 2
  {
    trimmed[1..|trimmed| - 1]
  }

  /** The trimmed form of a line read: both ends trimmed, and on the first line
      of a UTF8_BOM stream, leading U+FEFF characters removed as well. */
  function LineTrim(raw: string, usesBom: bool): string {
    var trimmed := Trim(raw);
    if usesBom then TrimStartChar(trimmed, BOM) else trimmed
  }

  /** A block of content as it is stored: one trailing line feed dropped, then
      right-trimmed. */
  function Finish(block: string): string {
    var span := if |block| > 0 && block[|block| - 1] == '\n' then block[..|block| - 1] else block;
    TrimEnd(span)
  }

  /** The block after one more content line: a line feed first if the block
      already holds content, then the raw line. */
  function AppendContent(block: string, hasContent: bool, raw: string): string {
    (if hasContent then block + "\n" else block) + raw
  }

  // ---------------------------------------------------------------------------
  // ReadList, as a function of the lines still to be read
  // ---------------------------------------------------------------------------

  /** What `ReadList` holds between two lines: the list built so far, the
      headers seen, the pending block and whether it has content. */
  datatype ListState = ListState(lst: seq<string>, seen: set<string>, block: string, hasContent: bool)

  /** The state after the pending block is flushed, before a header and at
      the end: only a non-empty block is finished and appended, and the
      content flag is reset with it. */
  function FlushBlock(st: ListState): ListState {
    if |st.block| > 0 then ListState(st.lst + [Finish(st.block)], st.seen, [], false) else st
  }

  function AddHeader(st: ListState, header: string): ListState {
    st.(lst := st.lst + [header], seen := st.seen + {header})
  }

  /** What a header line does to `ReadList`'s list, given the headers seen:
      how many lines it consumes and the header it adds, if any. A repeated
      header looks one line ahead: at the end of the stream nothing is added;
      a header there is added in place of the repeat without being checked
      itself; a content line there is discarded. `lines` starts at the header
      line. */
  function ListHeader(lines: seq<string>, seen: set<string>, header: string): (r: (nat, Option<string>))
    requires lines != []
    ensures 1 <= r.0 <= |lines|
  {
    if header !in seen then (1, Some(header))
    else if |lines| == 1 then (1, None)
    else
      var next := Trim(lines[1]);
      if IsHeaderLine(next) then (2, Some(HeaderName(next))) else (2, None)
  }

  /** One step of `ReadList`: how many lines it consumes and the state it
      leaves. A header line flushes the pending block first. */
  function ListStep(lines: seq<string>, st: ListState, usesBom: bool): (r: (nat, ListState))
    requires lines != []
    ensures 1 <= r.0 <= |lines|
  {
    var trimmed := LineTrim(lines[0], usesBom);
    if IsHeaderLine(trimmed) then
      var st1 := FlushBlock(st);
      var h := ListHeader(lines, st1.seen, HeaderName(trimmed));
      (h.0, if h.1.Some? then AddHeader(st1, h.1.value) else st1)
    else
      (1, st.(block := AppendContent(st.block, st.hasContent, lines[0]), hasContent := true))
  }

  /** The list that reading `lines` from state `st` produces. */
  function ReadListFrom(lines: seq<string>, st: ListState, usesBom: bool): seq<string>
    decreases |lines|
  {
    if lines == [] then FlushBlock(st).lst
    else
      var step := ListStep(lines, st, usesBom);
      ReadListFrom(lines[step.0..], step.1, false)
  }

  /** `ReadList` on a stream holding `lines`, appending to `lst`. */
  function ReadListOf(lines: seq<string>, lst: seq<string>, encodeFlags: LawnStringsEncoding): seq<string> {
    ReadListFrom(lines, ListState(lst, {}, [], false), encodeFlags == LawnStringsEncoding.UTF8_BOM)
  }

  // ---------------------------------------------------------------------------
  // ReadDict, as a function of the lines still to be read
  // ---------------------------------------------------------------------------

  /** What `ReadDict` holds between two lines: the dictionary, the current key
      (null before the first header), the pending value and its content flag. */
  datatype DictState = DictState(dict: Dict, key: Option<string>, value: string, hasContent: bool)

  /** The state after the pending value is stored, before a header and at
      the end: only under a key and when the value is non-empty. */
  function FlushValue(st: DictState): DictState {
    if st.key.Some? && |st.value| > 0 then DictState(Set(st.dict, st.key.value, Finish(st.value)), st.key, [], false)
    else st
  }

  /** What a header line does to `ReadDict`'s current key, given the
      dictionary: how many lines it consumes and the key it switches to, if
      any. The repeat test asks the dictionary, and a discarded lookahead line
      leaves the current key as it was. `lines` starts at the header line. */
  function DictHeader(lines: seq<string>, dict: Dict, header: string): (r: (nat, Option<string>))
    requires lines != []
    ensures 1 <= r.0 <= |lines|
  {
    if !ContainsKey(dict, header) then (1, Some(header))
    else if |lines| == 1 then (1, None)
    else
      var next := Trim(lines[1]);
      if IsHeaderLine(next) then (2, Some(HeaderName(next))) else (2, None)
  }

  /** One step of `ReadDict`: how many lines it consumes and the state it
      leaves. A header line stores the pending value first. */
  function DictStep(lines: seq<string>, st: DictState, usesBom: bool): (r: (nat, DictState))
    requires lines != []
    ensures 1 <= r.0 <= |lines|
  {
    var trimmed := LineTrim(lines[0], usesBom);
    if IsHeaderLine(trimmed) then
      var st1 := FlushValue(st);
      var h := DictHeader(lines, st1.dict, HeaderName(trimmed));
      (h.0, if h.1.Some? then st1.(key := h.1) else st1)
    else
      (1, st.(value := AppendContent(st.value, st.hasContent, lines[0]), hasContent := true))
  }

  /** The dictionary that reading `lines` from state `st` produces. */
  function ReadDictFrom(lines: seq<string>, st: DictState, usesBom: bool): Dict
    decreases |lines|
  {
    if lines == [] then FlushValue(st).dict
    else
      var step := DictStep(lines, st, usesBom);
      ReadDictFrom(lines[step.0..], step.1, false)
  }

  /** `ReadDict` on a stream holding `lines`, into `dict`. */
  function ReadDictOf(lines: seq<string>, dict: Dict, encodeFlags: LawnStringsEncoding): Dict {
    ReadDictFrom(lines, DictState(dict, None, [], false), encodeFlags == LawnStringsEncoding.UTF8_BOM)
  }

  // ---------------------------------------------------------------------------
  // The growable buffer
  // ---------------------------------------------------------------------------

  function Max(a: int, b: int): int {
    if a >= b then a else b
  }

  /** `EnsureCapacity`: when `required` exceeds the capacity, reallocate to
      the larger of `required` and twice the capacity, keeping the contents. */
  method EnsureCapacity(str: array<char>, required: nat) returns (r: array<char>)
    ensures r.Length >= required && r.Length >= str.Length
    ensures required > str.Length ==> fresh(r) && r.Length == Max(required, 2 * str.Length)
    ensures required <= str.Length ==> r == str
    ensures r[..str.Length] == str[..]
  {
    if required > str.Length {
      var n := Max(required, 2 * str.Length);
      r := new char[n](k requires 0 <= k < n reads str => if k < str.Length then str[k] else ' ');
      assert r[..str.Length] == str[..];
    } else {
      r := str;
    }
  }

  /** `CopyFrom`: `s` copied into `buf` from position `at`. */
  method CopyFrom(buf: array<char>, at: nat, s: string)
    requires at + |s| <= buf.Length
    modifies buf
    ensures buf[..at + |s|] == old(buf[..at]) + s
  {
    var k := 0;
    while k < |s|
      invariant 0 <= k <= |s|
      invariant buf[..at + k] == old(buf[..at]) + s[..k]
      decreases |s| - k
    {
      buf[at + k] := s[k];
      assert s[..k + 1] == s[..k] + [s[k]];
      assert buf[..at + k + 1] == buf[..at + k] + [s[k]];
      k := k + 1;
    }
    assert s[..|s|] == s;
  }

  /** The content branch of both readers: grow the buffer as needed, write a
      separating line feed if there is content already, then the raw line. */
  method AppendLine(buf: array<char>, len: nat, hasContent: bool, raw: string) returns (nb: array<char>, nlen: nat)
    requires len <= buf.Length
    modifies buf
    ensures nlen <= nb.Length
    ensures nb == buf || fresh(nb)
    ensures nb[..nlen] == AppendContent(old(buf[..len]), hasContent, raw)
  {
    nb, nlen := buf, len;
    if hasContent {
      nb := EnsureCapacity(nb, nlen + 1);
      nb[nlen] := '\n';
      assert nb[..nlen + 1] == old(buf[..len]) + "\n";
      nlen := nlen + 1;
    }
    ghost var before := nb[..nlen];
    nb := EnsureCapacity(nb, nlen + |raw|);
    assert nb[..nlen] == before;
    CopyFrom(nb, nlen, raw);
    nlen := nlen + |raw|;
  }

  /** The flush both readers perform: the span of the buffer with one trailing
      line feed dropped, right-trimmed. */
  method FinishSpan(buf: array<char>, len: nat) returns (s: string)
    requires len <= buf.Length
    ensures s == Finish(buf[..len])
  {
    var span := buf[..len];
    if |span| > 0 && span[|span| - 1] == '\n' {
      span := span[..|span| - 1];
    }
    s := TrimEnd(span);
  }

  /** The flush `ReadList` performs before a header and at the end: a
      non-empty block is finished and appended, and the block emptied. */
  method FlushListBlock(buf: array<char>, len: nat, lst: seq<string>, ghost seen: set<string>, hasContent: bool)
    returns (lst': seq<string>, len': nat, hasContent': bool)
    requires len <= buf.Length
    ensures len' <= len
    ensures ListState(lst', seen, buf[..len'], hasContent') == FlushBlock(ListState(lst, seen, buf[..len], hasContent))
  {
    lst', len', hasContent' := lst, len, hasContent;
    if len > 0 {
      var finished := FinishSpan(buf, len);
      lst', len', hasContent' := lst + [finished], 0, false;
      assert buf[..0] == [];
    }
  }

  /** The flush `ReadDict` performs before a header and at the end: under a
      key, a non-empty value is finished and stored, and the value emptied. */
  method FlushDictValue(buf: array<char>, len: nat, dict: Dict, key: Option<string>, hasContent: bool)
    returns (dict': Dict, len': nat, hasContent': bool)
    requires len <= buf.Length
    ensures len' <= len
    ensures DictState(dict', key, buf[..len'], hasContent') == FlushValue(DictState(dict, key, buf[..len], hasContent))
  {
    dict', len', hasContent' := dict, len, hasContent;
    if key.Some? && len > 0 {
      var finished := FinishSpan(buf, len);
      dict', len', hasContent' := Set(dict, key.value, finished), 0, false;
      assert buf[..0] == [];
    }
  }

  // ---------------------------------------------------------------------------
  // The readers
  // ---------------------------------------------------------------------------

  /** `ReadList` on a header line whose block is already flushed: the header
      to add, reading one line ahead when it was seen before. `rest` holds the
      lines from the header on; `used` is how many of them were read. */
  method ListHeaderLine(reader: LineReader, seen: set<string>, header: string, ghost rest: seq<string>)
    returns (add: Option<string>, ghost used: nat)
    requires reader.Valid()
    requires rest != [] && rest[1..] == reader.lines[reader.pos..]
    modifies reader
    ensures reader.Valid() && reader.lines == old(reader.lines)
    ensures ListHeader(rest, seen, header) == (used, add)
    ensures rest[used..] == reader.lines[reader.pos..]
  {
    add, used := Some(header), 1;
    if header in seen {
      var nextLine := reader.ReadLine();
      if nextLine.None? {
        add := None;
        return;
      }
      used := 2;
      assert rest[1] == nextLine.value && rest[2..] == reader.lines[reader.pos..];
      var nextTrimmed := Trim(nextLine.value);
      if |nextTrimmed| > 0 && IsSectionHeader(nextTrimmed) {
        add := Some(HeaderName(nextTrimmed));
      } else {
        add := None;
      }
    }
  }

  /** `ReadList` on one line, whose trimmed form is `trimmed`: a header is
      handled as above after the pending block is flushed; any other line is
      appended to the block. */
  method ListLine(reader: LineReader, raw: string, trimmed: string, buf: array<char>, len: nat,
                  lst: seq<string>, seen: set<string>, hasContent: bool, ghost rest: seq<string>, ghost usesBom: bool)
    returns (buf': array<char>, len': nat, lst': seq<string>, seen': set<string>, hasContent': bool, ghost used: nat)
    requires reader.Valid() && len <= buf.Length
    requires rest != [] && rest[0] == raw && rest[1..] == reader.lines[reader.pos..]
    requires trimmed == LineTrim(raw, usesBom)
    modifies reader, buf
    ensures reader.Valid() && reader.lines == old(reader.lines)
    ensures len' <= buf'.Length && (buf' == buf || fresh(buf'))
    ensures ListStep(rest, ListState(lst, seen, old(buf[..len]), hasContent), usesBom)
         == (used, ListState(lst', seen', buf'[..len'], hasContent'))
    ensures rest[used..] == reader.lines[reader.pos..]
  {
    ghost var st := ListState(lst, seen, buf[..len], hasContent);
    if |trimmed| > 0 && IsSectionHeader(trimmed) {
      buf', seen' := buf, seen;
      lst', len', hasContent' := FlushListBlock(buf, len, lst, seen, hasContent);
      var add;
      add, used := ListHeaderLine(reader, seen, HeaderName(trimmed), rest);
      if add.Some? {
        lst' := lst' + [add.value];
        seen' := seen' + {add.value};
      }
    } else {
      lst', seen', used := lst, seen, 1;
      buf', len' := AppendLine(buf, len, hasContent, raw);
      hasContent' := true;
    }
  }

  /** `ReadList`: read every remaining line, appending keys and values to
      `lst0`. */
  method ReadList(reader: LineReader, lst0: seq<string>, encodeFlags: LawnStringsEncoding) returns (lst: seq<string>)
    requires reader.Valid()
    modifies reader
    ensures reader.Valid() && reader.lines == old(reader.lines) && reader.pos == |reader.lines|
    ensures lst == ReadListOf(old(reader.lines[reader.pos..]), lst0, encodeFlags)
  {
    ghost var target := ReadListOf(reader.lines[reader.pos..], lst0, encodeFlags);
    var currentBlock := new char[reader.bufferSize];
    var blockLength: nat := 0;
    var usesBom := encodeFlags == LawnStringsEncoding.UTF8_BOM;
    var hasContent := false;
    var seen: set<string> := {};
    lst := lst0;
    assert currentBlock[..0] == [];
    while true
      invariant reader.Valid() && reader.lines == old(reader.lines)
      invariant blockLength <= currentBlock.Length && fresh(currentBlock)
      invariant ReadListFrom(reader.lines[reader.pos..], ListState(lst, seen, currentBlock[..blockLength], hasContent), usesBom) == target
      decreases |reader.lines| - reader.pos
    {
      ghost var rest := reader.lines[reader.pos..];
      ghost var bom := usesBom;
      var line := reader.ReadLine();
      if line.None? {
        break;
      }
      assert rest[0] == line.value && rest[1..] == reader.lines[reader.pos..];
      var trimmed := Trim(line.value);
      if usesBom {
        trimmed := TrimStartChar(trimmed, BOM);
        usesBom := false;
      }
      ghost var used;
      currentBlock, blockLength, lst, seen, hasContent, used :=
        ListLine(reader, line.value, trimmed, currentBlock, blockLength, lst, seen, hasContent, rest, bom);
    }
    assert reader.lines[reader.pos..] == [];
    lst, blockLength, hasContent := FlushListBlock(currentBlock, blockLength, lst, seen, hasContent);
  }

  /** `ReadDict` on a header line whose value is already stored: the key to
      switch to, reading one line ahead when the dictionary already holds the
      header. */
  method DictHeaderLine(reader: LineReader, dict: Dict, header: string, ghost rest: seq<string>)
    returns (key: Option<string>, ghost used: nat)
    requires reader.Valid()
    requires rest != [] && rest[1..] == reader.lines[reader.pos..]
    modifies reader
    ensures reader.Valid() && reader.lines == old(reader.lines)
    ensures DictHeader(rest, dict, header) == (used, key)
    ensures rest[used..] == reader.lines[reader.pos..]
  {
    key, used := Some(header), 1;
    if ContainsKey(dict, header) {
      var nextLine := reader.ReadLine();
      if nextLine.None? {
        key := None;
        return;
      }
      used := 2;
      assert rest[1] == nextLine.value && rest[2..] == reader.lines[reader.pos..];
      var nextTrimmed := Trim(nextLine.value);
      if |nextTrimmed| > 0 && IsSectionHeader(nextTrimmed) {
        key := Some(HeaderName(nextTrimmed));
      } else {
        key := None;
      }
    }
  }

  /** `ReadDict` on one line, whose trimmed form is `trimmed`: a header is
      handled as above after the pending value is stored; any other line is
      appended to the value. */
  method DictLine(reader: LineReader, raw: string, trimmed: string, buf: array<char>, len: nat,
                  dict: Dict, key: Option<string>, hasContent: bool, ghost rest: seq<string>, ghost usesBom: bool)
    returns (buf': array<char>, len': nat, dict': Dict, key': Option<string>, hasContent': bool, ghost used: nat)
    requires reader.Valid() && len <= buf.Length
    requires rest != [] && rest[0] == raw && rest[1..] == reader.lines[reader.pos..]
    requires trimmed == LineTrim(raw, usesBom)
    modifies reader, buf
    ensures reader.Valid() && reader.lines == old(reader.lines)
    ensures len' <= buf'.Length && (buf' == buf || fresh(buf'))
    ensures DictStep(rest, DictState(dict, key, old(buf[..len]), hasContent), usesBom)
         == (used, DictState(dict', key', buf'[..len'], hasContent'))
    ensures rest[used..] == reader.lines[reader.pos..]
  {
    if |trimmed| > 0 && IsSectionHeader(trimmed) {
      buf', key' := buf, key;
      dict', len', hasContent' := FlushDictValue(buf, len, dict, key, hasContent);
      var next;
      next, used := DictHeaderLine(reader, dict', HeaderName(trimmed), rest);
      if next.Some? {
        key' := next;
      }
    } else {
      dict', key', used := dict, key, 1;
      buf', len' := AppendLine(buf, len, hasContent, raw);
      hasContent' := true;
    }
  }

  /** `ReadDict`: read every remaining line into `dict0`. */
  method ReadDict(reader: LineReader, dict0: Dict, encodeFlags: LawnStringsEncoding) returns (dict: Dict)
    requires reader.Valid()
    modifies reader
    ensures reader.Valid() && reader.lines == old(reader.lines) && reader.pos == |reader.lines|
    ensures dict == ReadDictOf(old(reader.lines[reader.pos..]), dict0, encodeFlags)
  {
    ghost var target := ReadDictOf(reader.lines[reader.pos..], dict0, encodeFlags);
    var currentValue := new char[reader.bufferSize];
    var strLen: nat := 0;
    var currentKey: Option<string> := None;
    var hasContent := false;
    var usesBom := encodeFlags == LawnStringsEncoding.UTF8_BOM;
    dict := dict0;
    assert currentValue[..0] == [];
    while true
      invariant reader.Valid() && reader.lines == old(reader.lines)
      invariant strLen <= currentValue.Length && fresh(currentValue)
      invariant ReadDictFrom(reader.lines[reader.pos..], DictState(dict, currentKey, currentValue[..strLen], hasContent), usesBom) == target
      decreases |reader.lines| - reader.pos
    {
      ghost var rest := reader.lines[reader.pos..];
      ghost var bom := usesBom;
      var line := reader.ReadLine();
      if line.None? {
        break;
      }
      assert rest[0] == line.value && rest[1..] == reader.lines[reader.pos..];
      var trimmed := Trim(line.value);
      if usesBom {
        trimmed := TrimStartChar(trimmed, BOM);
        usesBom := false;
      }
      ghost var used;
      currentValue, strLen, dict, currentKey, hasContent, used :=
        DictLine(reader, line.value, trimmed, currentValue, strLen, dict, currentKey, hasContent, rest, bom);
    }
    assert reader.lines[reader.pos..] == [];
    dict, strLen, hasContent := FlushDictValue(currentValue, strLen, dict, currentKey, hasContent);
  }

  // ---------------------------------------------------------------------------
  // Writers
  // ---------------------------------------------------------------------------

  /** `WrapKey`: the key between square brackets. */
  function WrapKey(key: string): string {
    "[" + key + "]"
  }

  /** A wrapped key reads back as a header naming that key, on the first line
      of a UTF8_BOM stream as on any other. */
  lemma WrapKeyIsHeader(key: string, usesBom: bool)
    ensures IsHeaderLine(LineTrim(WrapKey(key), usesBom))
    ensures HeaderName(LineTrim(WrapKey(key), usesBom)) == key
  {
    var w := WrapKey(key);
    TrimUnchanged(w);
    assert LineTrim(w, usesBom) == w;
    assert w[1..|w| - 1] == key;
  }

  /** The header tests on the three shapes the format describes. */
  lemma HeaderExamples()
    ensures IsHeaderLine(LineTrim("[]", false)) && HeaderName(LineTrim("[]", false)) == ""
  {
    TrimUnchanged("[]");
    assert LineTrim("[]", false) == "[]";
  }

  /** Trailing blanks do not stop a line from being a header, and are not
      part of its name: this holds for every name. */
  lemma TrimmedHeader(name: string)
    ensures IsSectionHeader("[" + name + "]" + " ")
    ensures LineTrim("[" + name + "]" + " ", false) == "[" + name + "]"
    ensures HeaderName("[" + name + "]") == name
  {
    var h := "[" + name + "]";
    var line := h + " ";
    assert line[..|line| - 1] == h && IsWhiteSpace(line[|line| - 1]);
    assert TrimEnd(line) == TrimEnd(h);
    TrimUnchanged(h);
    assert h[1..|h| - 1] == name;
  }

  /** A BOM in front of a header hides it, unless the reader strips it. */
  lemma BomHeaderExample()
    ensures !IsSectionHeader([BOM] + "[a]")
    ensures LineTrim([BOM] + "[a]", true) == "[a]"
  {
    assert TrimEnd([BOM] + "[a]") == [BOM] + "[a]";
    TrimUnchanged([BOM] + "[a]");
    assert Trim([BOM] + "[a]") == [BOM] + "[a]";
    assert ([BOM] + "[a]")[1..] == "[a]";
    assert TrimStartChar("[a]", BOM) == "[a]";
  }

  /** The lines the writers emit for a sequence of entries: per entry, its
      wrapped key and then its cleaned value. */
  function EncodeEntries(es: seq<Pair>): seq<string>
    decreases |es|
  {
    if es == [] then []
    else [WrapKey(es[0].key), LawnStringsHelper.Cleaned(es[0].value)] + EncodeEntries(es[1..])
  }

  lemma {:induction false} EncodeEntriesSnoc(es: seq<Pair>, p: Pair)
    ensures EncodeEntries(es + [p]) == EncodeEntries(es) + [WrapKey(p.key), LawnStringsHelper.Cleaned(p.value)]
    decreases |es|
  {
    if es != [] {
      assert (es + [p])[1..] == es[1..] + [p];
      EncodeEntriesSnoc(es[1..], p);
    } else {
      assert es + [p] == [p];
    }
  }

  /** One entry: the wrapped key, then the value through `CleanLine`. */
  method WriteEntry(writer: LineWriter, key: string, value: string)
    modifies writer
    ensures writer.lines == old(writer.lines) + [WrapKey(key), LawnStringsHelper.Cleaned(value)]
  {
    writer.WriteLine(WrapKey(key));
    var vOwner := LawnStringsHelper.CleanLine(value);
    writer.WriteLine(vOwner[..]);
  }

  /** `WriteKvp`: every entry in order, as a header line and a value line. */
  method WriteKvp(writer: LineWriter, entries: seq<Pair>, encodeFlags: LawnStringsEncoding)
    modifies writer
    ensures writer.lines == old(writer.lines) + EncodeEntries(entries)
  {
    var i := 0;
    while i < |entries|
      invariant i <= |entries|
      invariant writer.lines == old(writer.lines) + EncodeEntries(entries[..i])
    {
      WriteEntry(writer, entries[i].key, entries[i].value);
      assert entries[..i + 1] == entries[..i] + [entries[i]];
      EncodeEntriesSnoc(entries[..i], entries[i]);
      i := i + 1;
    }
    assert entries[..i] == entries;
  }

  /** `WriteDict`: the dictionary's entries in enumeration order; its loop is
      the one of `WriteKvp`. */
  method WriteDict(writer: LineWriter, dict: Dict, encodeFlags: LawnStringsEncoding)
    modifies writer
    ensures writer.lines == old(writer.lines) + EncodeEntries(dict)
  {
    WriteKvp(writer, dict, encodeFlags);
  }

  /** `WriteList`: the list read two slots at a time; a key already written is
      skipped together with its value, and a trailing unpaired key is dropped.
      What is written is therefore the first-occurrence dictionary of the
      pairs. */
  method WriteList(writer: LineWriter, lst: seq<string>, encodeFlags: LawnStringsEncoding)
    modifies writer
    ensures writer.lines == old(writer.lines) + EncodeEntries(DedupFirst(Pairs(lst)))
  {
    var seen: set<string> := {};
    var strCount := |lst|;
    var i := 0;
    ghost var written: seq<Pair> := [];
    while i < strCount
      invariant i % 2 == 0 && i <= strCount
      invariant seen == KeysOf(Pairs(lst[..i]))
      invariant written == DedupFirst(Pairs(lst[..i]))
      invariant writer.lines == old(writer.lines) + EncodeEntries(written)
    {
      if i + 1 >= strCount {
        break;
      }
      seen, written := WriteListPair(writer, lst, i, seen, written, old(writer.lines));
      i := i + 2;
    }
    PairsWhole(lst, i);
  }

  /** One turn of `WriteList`'s loop, at slot `i`: a key already seen is
      skipped with its value, a new one is recorded and written. */
  method WriteListPair(writer: LineWriter, lst: seq<string>, i: nat, seen: set<string>,
                       ghost written: seq<Pair>, ghost before: seq<string>)
    returns (seen': set<string>, ghost written': seq<Pair>)
    requires i % 2 == 0 && i + 1 < |lst|
    requires seen == KeysOf(Pairs(lst[..i])) && written == DedupFirst(Pairs(lst[..i]))
    requires writer.lines == before + EncodeEntries(written)
    modifies writer
    ensures seen' == KeysOf(Pairs(lst[..i + 2])) && written' == DedupFirst(Pairs(lst[..i + 2]))
    ensures writer.lines == before + EncodeEntries(written')
  {
    PairsStep(lst, i, written);
    var key := lst[i];
    if key in seen {
      seen', written' := seen, written;
    } else {
      seen' := seen + {key};
      WriteEntry(writer, key, lst[i + 1]);
      EncodeEntriesSnoc(written, Pair(key, lst[i + 1]));
      written' := written + [Pair(key, lst[i + 1])];
    }
  }

  /** Two more slots of the list are one more pair, kept by the
      first-occurrence dictionary exactly when its key is new. */
  lemma PairsStep(lst: seq<string>, i: nat, written: seq<Pair>)
    requires i % 2 == 0 && i + 1 < |lst|
    requires written == DedupFirst(Pairs(lst[..i]))
    ensures KeysOf(Pairs(lst[..i + 2])) == KeysOf(Pairs(lst[..i])) + {lst[i]}
    ensures DedupFirst(Pairs(lst[..i + 2]))
         == if lst[i] in KeysOf(Pairs(lst[..i])) then written else written + [Pair(lst[i], lst[i + 1])]
  {
    var ps, p := Pairs(lst[..i]), Pair(lst[i], lst[i + 1]);
    assert Pairs(lst[..i + 2]) == ps + [p];
    KeysOfAppend(ps, p);
    DedupFirstSnoc(ps, p);
  }

  /** A trailing unpaired slot adds no pair. */
  lemma PairsWhole(lst: seq<string>, i: nat)
    requires i % 2 == 0 && i <= |lst| <= i + 1
    ensures Pairs(lst[..i]) == Pairs(lst)
  {
  }

  // ---------------------------------------------------------------------------
  // Sorter
  // ---------------------------------------------------------------------------

  /** The comparison `Sort` hands to `List.Sort`: the root helper's
      `AlphanumCompare` on the keys. */
  function KeyOrder(isDigit: char -> bool): (string, string) -> int {
    (x: string, y: string) => LawnStringsComparer.NaturalCompare(x, y, isDigit)
  }

  /** `Sort`: read the input into a dictionary, sort its entries by key and
      write them out. */
  method Sort(input: LineReader, output: LineWriter, encodeFlags: LawnStringsEncoding, isDigit: char -> bool)
    requires input.Valid()
    modifies input, output
    ensures input.Valid() && input.lines == old(input.lines) && input.pos == |input.lines|
    ensures output.lines == old(output.lines)
      + EncodeEntries(SortByKey(ReadDictOf(old(input.lines[input.pos..]), [], encodeFlags), KeyOrder(isDigit)))
  {
    var map_ := ReadDict(input, [], encodeFlags);
    var sorted := SortByKey(map_, KeyOrder(isDigit));
    WriteKvp(output, sorted, encodeFlags);
  }

  /** What `ReadDict` builds has unique keys when it starts from a dictionary
      that has. */
  lemma {:induction false} ReadDictUnique(lines: seq<string>, st: DictState, usesBom: bool)
    requires UniqueKeys(st.dict)
    ensures UniqueKeys(ReadDictFrom(lines, st, usesBom))
    decreases |lines|
  {
    if lines != [] {
      var step := DictStep(lines, st, usesBom);
      ReadDictUnique(lines[step.0..], step.1, false);
    }
  }

  /** The entries `Sort` writes are exactly those `ReadDict` produces, each
      key once; their keys are in non-decreasing `AlphanumCompare` order
      whenever that comparison is a total preorder on them. */
  lemma SortWritesReadEntries(lines: seq<string>, encodeFlags: LawnStringsEncoding, isDigit: char -> bool)
    ensures var d := ReadDictOf(lines, [], encodeFlags);
      var sorted := SortByKey(d, KeyOrder(isDigit));
      multiset(sorted) == multiset(d) && UniqueKeys(sorted)
      && (TotalPreorderOn(KeyOrder(isDigit), KeysOf(d)) ==> SortedByKey(sorted, KeyOrder(isDigit)))
  {
    var d := ReadDictOf(lines, [], encodeFlags);
    ReadDictUnique(lines, DictState([], None, [], false), encodeFlags == LawnStringsEncoding.UTF8_BOM);
    if TotalPreorderOn(KeyOrder(isDigit), KeysOf(d)) {
      SortByKeySorted(d, KeyOrder(isDigit));
    }
  }

  // ---------------------------------------------------------------------------
  // Comparer
  // ---------------------------------------------------------------------------

  /** `FindAdded`: read `a`, then `b`, and keep the entries of `b` whose key is
      neither excluded nor in `a`. */
  method FindAdded(a: LineReader, b: LineReader, encodeFlags: LawnStringsEncoding, excludeList: Option<set<string>>)
    returns (r: seq<Pair>)
    requires a != b && a.Valid() && b.Valid()
    modifies a, b
    ensures a.Valid() && a.lines == old(a.lines) && a.pos == |a.lines|
    ensures b.Valid() && b.lines == old(b.lines) && b.pos == |b.lines|
    ensures r == LawnStringsComparer.FindAdded(ReadDictOf(old(a.lines[a.pos..]), [], encodeFlags),
                                               ReadDictOf(old(b.lines[b.pos..]), [], encodeFlags), excludeList)
  {
    var dictA := ReadDict(a, [], encodeFlags);
    var dictB := ReadDict(b, [], encodeFlags);
    r := LawnStringsComparer.FindAdded(dictA, dictB, excludeList);
  }

  /** `FindChanged`: read `a`, then `b`, and keep the entries of `b` whose key
      is in `a`, not excluded, with a different value. */
  method FindChanged(a: LineReader, b: LineReader, encodeFlags: LawnStringsEncoding, excludeList: Option<set<string>>)
    returns (r: seq<Pair>)
    requires a != b && a.Valid() && b.Valid()
    modifies a, b
    ensures a.Valid() && a.lines == old(a.lines) && a.pos == |a.lines|
    ensures b.Valid() && b.lines == old(b.lines) && b.pos == |b.lines|
    ensures r == LawnStringsComparer.FindChanged(ReadDictOf(old(a.lines[a.pos..]), [], encodeFlags),
                                                 ReadDictOf(old(b.lines[b.pos..]), [], encodeFlags), excludeList)
  {
    var dictA := ReadDict(a, [], encodeFlags);
    var dictB := ReadDict(b, [], encodeFlags);
    r := LawnStringsComparer.FindChanged(dictA, dictB, excludeList);
  }

  /** `FindFullDiff` as written: `FindAdded` reads both streams to their end,
      so the `FindChanged` that follows reads two empty dictionaries and the
      result is the added entries alone. */
  method FindFullDiff(a: LineReader, b: LineReader, encodeFlags: LawnStringsEncoding, excludeList: Option<set<string>>)
    returns (r: seq<Pair>)
    requires a != b && a.Valid() && b.Valid()
    modifies a, b
    ensures a.Valid() && a.lines == old(a.lines) && a.pos == |a.lines|
    ensures b.Valid() && b.lines == old(b.lines) && b.pos == |b.lines|
    ensures r == LawnStringsComparer.FindAdded(ReadDictOf(old(a.lines[a.pos..]), [], encodeFlags),
                                               ReadDictOf(old(b.lines[b.pos..]), [], encodeFlags), excludeList)
  {
    var addedStrs := FindAdded(a, b, encodeFlags, excludeList);
    assert a.lines[a.pos..] == [] && b.lines[b.pos..] == [];
    var changedStrs := FindChanged(a, b, encodeFlags, excludeList);
    assert changedStrs == [];
    r := addedStrs + changedStrs;
  }

  /** `FindFullDiff` with each stream sought back to where it started before
      the second read: the added entries followed by the changed ones. */
  method FindFullDiffRewound(a: LineReader, b: LineReader, encodeFlags: LawnStringsEncoding, excludeList: Option<set<string>>)
    returns (r: seq<Pair>)
    requires a != b && a.Valid() && b.Valid()
    modifies a, b
    ensures a.Valid() && a.lines == old(a.lines) && a.pos == |a.lines|
    ensures b.Valid() && b.lines == old(b.lines) && b.pos == |b.lines|
    ensures r == LawnStringsComparer.FullDiff(ReadDictOf(old(a.lines[a.pos..]), [], encodeFlags),
                                              ReadDictOf(old(b.lines[b.pos..]), [], encodeFlags), excludeList)
  {
    var startA, startB := a.pos, b.pos;
    var addedStrs := FindAdded(a, b, encodeFlags, excludeList);
    a.Rewind(startA);
    b.Rewind(startB);
    var changedStrs := FindChanged(a, b, encodeFlags, excludeList);
    r := addedStrs + changedStrs;
  }
}
