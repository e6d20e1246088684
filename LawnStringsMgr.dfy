/**
 * The manager (`LawnStringsMgr`): which routines `Convert`, `Sort` and
 * `Compare` run for each format. The JSON and RTON codecs are library calls,
 * so a JSON or RTON stream is represented by the value it holds, and each
 * conversion is returned as a plan of steps that `Run` carries out on such
 * representations.
 */
module LawnStringsMgr {
  import opened Wrappers
  import opened KeyValues
  import opened LawnStringsTypes
  import LawnStringsPlain
  import LawnStringsPlainFacts
  import LawnStringsComparer
  import LawnStrings
  import LawnStringsMap

  // ---------------------------------------------------------------------------
  // Streams as the manager sees them
  // ---------------------------------------------------------------------------

  /** The value a JSON or RTON document holds: a table of either shape, or
      the bare array of strings or of entries a comparison serializes. */
  datatype Value =
    | ListTable(lst: seq<string>)
    | MapTable(dict: Dict)
    | Strings(items: seq<string>)
    | Entries(entries: seq<Pair>)

  /** A stream: plain text (its decoded lines, and the encoding they are
      written in), a JSON document or an RTON document. */
  datatype Doc =
    | Text(lines: seq<string>, encoding: LawnStringsEncoding)
    | Json(value: Value)
    | Rton(value: Value)

  /** A stream that holds a table in `format`; the dictionary a map-shaped
      document deserializes to has every key once. */
  predicate Conforms(doc: Doc, format: LawnStringsFormat) {
    match format
    case PlainText => doc.Text?
    case JsonList => doc.Json? && doc.value.ListTable?
    case JsonMap => doc.Json? && doc.value.MapTable? && UniqueKeys(doc.value.dict)
    case RtonList => doc.Rton? && doc.value.ListTable?
    case RtonMap => doc.Rton? && doc.value.MapTable? && UniqueKeys(doc.value.dict)
  }

  /** The dictionary a structured table stands for: a list through its
      first-occurrence pairs (what `ToMap` and `WriteList` produce), a map as
      it is. */
  function Denoted(v: Value): Dict
    requires v.ListTable? || v.MapTable?
  {
    if v.ListTable? then DedupFirst(Pairs(v.lst)) else v.dict
  }

  /** The lines a reader of the stream finds after the plain-text writers
      (`WriteDict`, and `WriteList` on the first-occurrence pairs) wrote
      `entries` to it. */
  function Written(entries: Dict): seq<string> {
    LawnStringsPlainFacts.ReadBack(LawnStringsPlain.EncodeEntries(entries))
  }

  // ---------------------------------------------------------------------------
  // Converter
  // ---------------------------------------------------------------------------

  /** The routines a conversion is made of. */
  datatype Step =
    | Txt2JList(encodeFlags: LawnStringsEncoding)  // `LawnStrings.FromPlainText`, then serialize
    | Txt2JMap(encodeFlags: LawnStringsEncoding)   // `LawnStringsMap.FromPlainText`, then serialize
    | Utf8Bom2U16                                  // read a map as UTF-8 with BOM, write it as UTF-16
    | JList2Map                                    // deserialize a list, `ToMap`, serialize
    | JMap2List                                    // deserialize a map, `ToList`, serialize
    | JList2Txt(encodeFlags: LawnStringsEncoding)  // deserialize a list, `ToPlainText`
    | JMap2Txt(encodeFlags: LawnStringsEncoding)   // deserialize a map, `ToPlainText`
    | RtonEncode
    | RtonDecode

  /** One routine on a stream; `None` when the stream does not hold what the
      routine reads. Each result is what the routine's own model computes:
      `ReadList`/`ReadDict` for reading, `ToMap`, `ToList`, and `WriteList`/
      `WriteDict` for writing. */
  function Apply(step: Step, doc: Doc): Option<Doc> {
    match step
    case Txt2JList(encodeFlags) =>
      if doc.Text? then Some(Json(ListTable(LawnStringsPlain.ReadListOf(doc.lines, [], encodeFlags)))) else None
    case Txt2JMap(encodeFlags) =>
      if doc.Text? then Some(Json(MapTable(LawnStringsPlain.ReadDictOf(doc.lines, [], encodeFlags)))) else None
    case Utf8Bom2U16 =>
      if doc.Text? then
        Some(Text(Written(LawnStringsPlain.ReadDictOf(doc.lines, [], LawnStringsEncoding.UTF8_BOM)),
                  LawnStringsEncoding.UTF16))
      else None
    case JList2Map =>
      if doc.Json? && doc.value.ListTable? then Some(Json(MapTable(DedupFirst(Pairs(doc.value.lst))))) else None
    case JMap2List =>
      if doc.Json? && doc.value.MapTable? then Some(Json(ListTable(Flatten(doc.value.dict)))) else None
    case JList2Txt(encodeFlags) =>
      if doc.Json? && doc.value.ListTable? then
        Some(Text(Written(DedupFirst(Pairs(doc.value.lst))), encodeFlags))
      else None
    case JMap2Txt(encodeFlags) =>
      if doc.Json? && doc.value.MapTable? then
        Some(Text(Written(doc.value.dict), encodeFlags))
      else None
    case RtonEncode =>
      if doc.Json? then Some(Rton(doc.value)) else None
    case RtonDecode =>
      if doc.Rton? then Some(Json(doc.value)) else None
  }

  /** The steps in turn, each on the stream the previous one wrote. */
  function Run(steps: seq<Step>, doc: Doc): Option<Doc>
    decreases |steps|
  {
    if steps == [] then Some(doc)
    else
      match Apply(steps[0], doc)
      case None => None
      case Some(next) => Run(steps[1..], next)
  }

  /** `Txt2Rton`: plain text to JSON of the chosen shape, then to RTON. */
  function Txt2Rton(encodeFlags: LawnStringsEncoding, useMap: bool): seq<Step> {
    [if useMap then Txt2JMap(encodeFlags) else Txt2JList(encodeFlags), RtonEncode]
  }

  /** `FromPlain`: plain text to `destFormat`; plain text again is always
      re-read as UTF-8 with BOM and re-written as UTF-16. */
  function FromPlain(destFormat: LawnStringsFormat, encodeFlags: LawnStringsEncoding): seq<Step> {
    match destFormat
    case JsonList => [Txt2JList(encodeFlags)]
    case JsonMap => [Txt2JMap(encodeFlags)]
    case RtonList => Txt2Rton(encodeFlags, false)
    case RtonMap => Txt2Rton(encodeFlags, true)
    case _ => [Utf8Bom2U16]
  }

  /** `FromJList`: a JSON list to `destFormat`. */
  function FromJList(destFormat: LawnStringsFormat, encodeFlags: LawnStringsEncoding): seq<Step> {
    match destFormat
    case JsonMap => [JList2Map]
    case RtonList => [RtonEncode]
    case RtonMap => [JList2Map, RtonEncode]
    case _ => [JList2Txt(encodeFlags)]
  }

  /** `FromJMap`: a JSON map to `destFormat`. */
  function FromJMap(destFormat: LawnStringsFormat, encodeFlags: LawnStringsEncoding): seq<Step> {
    match destFormat
    case JsonList => [JMap2List]
    case RtonList => [JMap2List, RtonEncode]
    case RtonMap => [RtonEncode]
    case _ => [JMap2Txt(encodeFlags)]
  }

  /** `FromRList`: an RTON list to `destFormat`, always through its JSON. */
  function FromRList(destFormat: LawnStringsFormat, encodeFlags: LawnStringsEncoding): seq<Step> {
    match destFormat
    case JsonList => [RtonDecode]
    case JsonMap => [RtonDecode, JList2Map]
    case RtonMap => [RtonDecode, JList2Map, RtonEncode]
    case _ => [RtonDecode, JList2Txt(encodeFlags)]
  }

  /** `FromRMap`: an RTON map to `destFormat`, always through its JSON. */
  function FromRMap(destFormat: LawnStringsFormat, encodeFlags: LawnStringsEncoding): seq<Step> {
    match destFormat
    case JsonList => [RtonDecode, JMap2List]
    case JsonMap => [RtonDecode]
    case RtonList => [RtonDecode, JMap2List, RtonEncode]
    case _ => [RtonDecode, JMap2Txt(encodeFlags)]
  }

  /** What `Convert` does: nothing but a warning, or a plan. */
  datatype Conversion = Redundant | Plan(steps: seq<Step>)

  /** `Convert`: a conversion to the same format is redundant, except between
      plain texts of different encodings; otherwise the routine of the input
      format runs, handed `plainEncodeIn` whatever the direction. */
  function Convert(inFormat: LawnStringsFormat, outFormat: LawnStringsFormat,
                   plainEncodeIn: LawnStringsEncoding, plainEncodeOut: LawnStringsEncoding): (c: Conversion)
    ensures c.Plan? ==> c.steps != []
  {
    var sameFormat := inFormat == outFormat;
    var isPlainText := inFormat == PlainText;
    var sameEncoding := plainEncodeIn == plainEncodeOut;
    if sameFormat && (!isPlainText || sameEncoding) then Redundant
    else
      match inFormat
      case JsonList => Plan(FromJList(outFormat, plainEncodeIn))
      case JsonMap => Plan(FromJMap(outFormat, plainEncodeIn))
      case RtonList => Plan(FromRList(outFormat, plainEncodeIn))
      case RtonMap => Plan(FromRMap(outFormat, plainEncodeIn))
      case _ => Plan(FromPlain(outFormat, plainEncodeIn))
  }

  /** A conversion is skipped exactly when the formats agree and, for plain
      text, so do the encodings; any other conversion accepts every stream of
      its input format and yields a stream of its output format. */
  lemma ConvertWorks(inFormat: LawnStringsFormat, outFormat: LawnStringsFormat,
                     plainEncodeIn: LawnStringsEncoding, plainEncodeOut: LawnStringsEncoding, doc: Doc)
    requires Conforms(doc, inFormat)
    ensures Convert(inFormat, outFormat, plainEncodeIn, plainEncodeOut).Redundant?
        <==> inFormat == outFormat && (inFormat != PlainText || plainEncodeIn == plainEncodeOut)
    ensures var c := Convert(inFormat, outFormat, plainEncodeIn, plainEncodeOut);
      c.Plan? ==> Run(c.steps, doc).Some? && Conforms(Run(c.steps, doc).value, outFormat)
  {
    var c := Convert(inFormat, outFormat, plainEncodeIn, plainEncodeOut);
    if c.Plan? {
      RunConvert(inFormat, outFormat, plainEncodeIn, plainEncodeOut, doc);
    }
  }

  /** The result of every conversion, format by format. */
  lemma RunConvert(inFormat: LawnStringsFormat, outFormat: LawnStringsFormat,
                   plainEncodeIn: LawnStringsEncoding, plainEncodeOut: LawnStringsEncoding, doc: Doc)
    requires Conforms(doc, inFormat)
    requires Convert(inFormat, outFormat, plainEncodeIn, plainEncodeOut).Plan?
    ensures Run(Convert(inFormat, outFormat, plainEncodeIn, plainEncodeOut).steps, doc)
         == Some(Converted(inFormat, outFormat, plainEncodeIn, doc))
    ensures Conforms(Converted(inFormat, outFormat, plainEncodeIn, doc), outFormat)
  {
    match inFormat
    case PlainText => RunFromPlain(outFormat, plainEncodeIn, doc);
    case JsonList => RunFromJList(outFormat, plainEncodeIn, doc);
    case JsonMap => RunFromJMap(outFormat, plainEncodeIn, doc);
    case RtonList => RunFromRList(outFormat, plainEncodeIn, doc);
    case RtonMap => RunFromRMap(outFormat, plainEncodeIn, doc);
  }

  lemma RunFromPlain(outFormat: LawnStringsFormat, encodeFlags: LawnStringsEncoding, doc: Doc)
    requires Conforms(doc, PlainText)
    ensures Run(FromPlain(outFormat, encodeFlags), doc) == Some(Converted(PlainText, outFormat, encodeFlags, doc))
    ensures Conforms(Converted(PlainText, outFormat, encodeFlags, doc), outFormat)
  {
    match outFormat
    case PlainText => RunPlainToText(encodeFlags, doc);
    case JsonList => RunPlainToJList(encodeFlags, doc);
    case JsonMap => RunPlainToJMap(encodeFlags, doc);
    case RtonList => RunPlainToRList(encodeFlags, doc);
    case RtonMap => RunPlainToRMap(encodeFlags, doc);
  }

  lemma RunPlainToText(encodeFlags: LawnStringsEncoding, doc: Doc)
    requires Conforms(doc, PlainText)
    ensures Run(FromPlain(PlainText, encodeFlags), doc) == Some(Converted(PlainText, PlainText, encodeFlags, doc))
    ensures Conforms(Converted(PlainText, PlainText, encodeFlags, doc), PlainText)
  {
    RunOne(Utf8Bom2U16, doc);
  }

  lemma RunPlainToJList(encodeFlags: LawnStringsEncoding, doc: Doc)
    requires Conforms(doc, PlainText)
    ensures Run(FromPlain(JsonList, encodeFlags), doc) == Some(Converted(PlainText, JsonList, encodeFlags, doc))
    ensures Conforms(Converted(PlainText, JsonList, encodeFlags, doc), JsonList)
  {
    RunOne(Txt2JList(encodeFlags), doc);
  }

  lemma RunPlainToRList(encodeFlags: LawnStringsEncoding, doc: Doc)
    requires Conforms(doc, PlainText)
    ensures Run(FromPlain(RtonList, encodeFlags), doc) == Some(Converted(PlainText, RtonList, encodeFlags, doc))
    ensures Conforms(Converted(PlainText, RtonList, encodeFlags, doc), RtonList)
  {
    var table := ListTable(LawnStringsPlain.ReadListOf(doc.lines, [], encodeFlags));
    assert Apply(Txt2JList(encodeFlags), doc) == Some(Json(table));
    RunTwo(Txt2JList(encodeFlags), RtonEncode, doc);
    EncodeWraps(table);
  }

  lemma RunPlainToJMap(encodeFlags: LawnStringsEncoding, doc: Doc)
    requires Conforms(doc, PlainText)
    ensures Run(FromPlain(JsonMap, encodeFlags), doc) == Some(Converted(PlainText, JsonMap, encodeFlags, doc))
    ensures Conforms(Converted(PlainText, JsonMap, encodeFlags, doc), JsonMap)
  {
    var d := LawnStringsPlain.ReadDictOf(doc.lines, [], encodeFlags);
    RunPlainMapSteps(JsonMap, encodeFlags, doc);
    DictUnique(doc.lines, encodeFlags);
    assert Converted(PlainText, JsonMap, encodeFlags, doc) == Json(MapTable(d));
  }

  lemma RunPlainToRMap(encodeFlags: LawnStringsEncoding, doc: Doc)
    requires Conforms(doc, PlainText)
    ensures Run(FromPlain(RtonMap, encodeFlags), doc) == Some(Converted(PlainText, RtonMap, encodeFlags, doc))
    ensures Conforms(Converted(PlainText, RtonMap, encodeFlags, doc), RtonMap)
  {
    var d := LawnStringsPlain.ReadDictOf(doc.lines, [], encodeFlags);
    RunPlainMapSteps(RtonMap, encodeFlags, doc);
    DictUnique(doc.lines, encodeFlags);
    assert Converted(PlainText, RtonMap, encodeFlags, doc) == Rton(MapTable(d));
  }

  /** The plain-text-to-map plans produce the table of what `ReadDict` reads. */
  lemma RunPlainMapSteps(outFormat: LawnStringsFormat, encodeFlags: LawnStringsEncoding, doc: Doc)
    requires doc.Text? && (outFormat == JsonMap || outFormat == RtonMap)
    ensures Run(FromPlain(outFormat, encodeFlags), doc)
         == Some(Wrap(outFormat, MapTable(LawnStringsPlain.ReadDictOf(doc.lines, [], encodeFlags))))
  {
    var table := MapTable(LawnStringsPlain.ReadDictOf(doc.lines, [], encodeFlags));
    assert Apply(Txt2JMap(encodeFlags), doc) == Some(Json(table));
    if outFormat == JsonMap {
      RunOne(Txt2JMap(encodeFlags), doc);
    } else {
      RunTwo(Txt2JMap(encodeFlags), RtonEncode, doc);
      EncodeWraps(table);
    }
  }

  /** What `ReadDict` builds from a fresh dictionary has every key once. */
  lemma DictUnique(lines: seq<string>, encodeFlags: LawnStringsEncoding)
    ensures UniqueKeys(LawnStringsPlain.ReadDictOf(lines, [], encodeFlags))
  {
    LawnStringsPlain.ReadDictUnique(lines, LawnStringsPlain.DictState([], None, [], false),
                                    encodeFlags == LawnStringsEncoding.UTF8_BOM);
  }

  lemma RunFromJList(outFormat: LawnStringsFormat, encodeFlags: LawnStringsEncoding, doc: Doc)
    requires Conforms(doc, JsonList) && outFormat != JsonList
    ensures Run(FromJList(outFormat, encodeFlags), doc) == Some(Converted(JsonList, outFormat, encodeFlags, doc))
    ensures Conforms(Converted(JsonList, outFormat, encodeFlags, doc), outFormat)
  {
    var steps := FromJList(outFormat, encodeFlags);
    if |steps| == 1 {
      RunOne(steps[0], doc);
    } else {
      RunTwo(steps[0], steps[1], doc);
    }
  }

  lemma RunFromJMap(outFormat: LawnStringsFormat, encodeFlags: LawnStringsEncoding, doc: Doc)
    requires Conforms(doc, JsonMap) && outFormat != JsonMap
    ensures Run(FromJMap(outFormat, encodeFlags), doc) == Some(Converted(JsonMap, outFormat, encodeFlags, doc))
    ensures Conforms(Converted(JsonMap, outFormat, encodeFlags, doc), outFormat)
  {
    var steps := FromJMap(outFormat, encodeFlags);
    if |steps| == 1 {
      RunOne(steps[0], doc);
    } else {
      RunTwo(steps[0], steps[1], doc);
    }
  }

  /** An RTON route starts by decoding the stream to its JSON. */
  lemma RunDecoded(steps: seq<Step>, doc: Doc)
    requires steps != [] && steps[0] == RtonDecode && doc.Rton?
    ensures Run(steps, doc) == Run(steps[1..], Json(doc.value))
  {
  }

  lemma RunFromRList(outFormat: LawnStringsFormat, encodeFlags: LawnStringsEncoding, doc: Doc)
    requires Conforms(doc, RtonList) && outFormat != RtonList
    ensures Run(FromRList(outFormat, encodeFlags), doc) == Some(Converted(RtonList, outFormat, encodeFlags, doc))
    ensures Conforms(Converted(RtonList, outFormat, encodeFlags, doc), outFormat)
  {
    var steps := FromRList(outFormat, encodeFlags);
    RunDecoded(steps, doc);
    var j := Json(doc.value);
    if outFormat == JsonList {
      assert steps[1..] == [];
      assert Converted(RtonList, outFormat, encodeFlags, doc) == j;
    } else {
      assert steps[1..] == FromJList(outFormat, encodeFlags);
      RunFromJList(outFormat, encodeFlags, j);
      assert Converted(RtonList, outFormat, encodeFlags, doc) == Converted(JsonList, outFormat, encodeFlags, j);
    }
  }

  lemma RunFromRMap(outFormat: LawnStringsFormat, encodeFlags: LawnStringsEncoding, doc: Doc)
    requires Conforms(doc, RtonMap) && outFormat != RtonMap
    ensures Run(FromRMap(outFormat, encodeFlags), doc) == Some(Converted(RtonMap, outFormat, encodeFlags, doc))
    ensures Conforms(Converted(RtonMap, outFormat, encodeFlags, doc), outFormat)
  {
    var steps := FromRMap(outFormat, encodeFlags);
    RunDecoded(steps, doc);
    var j := Json(doc.value);
    if outFormat == JsonMap {
      assert steps[1..] == [];
      assert Converted(RtonMap, outFormat, encodeFlags, doc) == j;
    } else {
      assert steps[1..] == FromJMap(outFormat, encodeFlags);
      RunFromJMap(outFormat, encodeFlags, j);
      assert Converted(RtonMap, outFormat, encodeFlags, doc) == Converted(JsonMap, outFormat, encodeFlags, j);
    }
  }

  lemma RunOne(a: Step, doc: Doc)
    ensures Run([a], doc) == Apply(a, doc)
  {
    assert [a][1..] == [];
  }

  /** `RtonEncode` wraps any JSON value as RTON. */
  lemma EncodeWraps(v: Value)
    ensures Apply(RtonEncode, Json(v)) == Some(Rton(v))
  {
  }

  lemma RunTwo(a: Step, b: Step, doc: Doc)
    ensures Run([a, b], doc) == if Apply(a, doc).Some? then Apply(b, Apply(a, doc).value) else None
  {
    assert [a, b][1..] == [b];
    if Apply(a, doc).Some? {
      RunOne(b, Apply(a, doc).value);
    }
  }

  lemma RunThree(a: Step, b: Step, c: Step, doc: Doc)
    ensures Run([a, b, c], doc)
         == if Apply(a, doc).Some? then Run([b, c], Apply(a, doc).value) else None
  {
    assert [a, b, c][1..] == [b, c];
  }

  /** What a conversion writes, stated directly: plain text is read with the
      reader of the output's shape, tables are reshaped with `ToMap` or
      `ToList`, and plain text is written with `WriteList` or `WriteDict` in
      the input encoding; plain text to plain text re-reads as UTF-8 with BOM
      and writes UTF-16. */
  function Converted(inFormat: LawnStringsFormat, outFormat: LawnStringsFormat,
                     plainEncodeIn: LawnStringsEncoding, doc: Doc): Doc
    requires Conforms(doc, inFormat)
  {
    if inFormat == PlainText then
      if outFormat == PlainText then
        Text(Written(LawnStringsPlain.ReadDictOf(doc.lines, [], LawnStringsEncoding.UTF8_BOM)),
             LawnStringsEncoding.UTF16)
      else
        var table :=
          if outFormat.IsListShaped() then ListTable(LawnStringsPlain.ReadListOf(doc.lines, [], plainEncodeIn))
          else MapTable(LawnStringsPlain.ReadDictOf(doc.lines, [], plainEncodeIn));
        Wrap(outFormat, table)
    else if outFormat == PlainText then
      Text(Written(Denoted(doc.value)), plainEncodeIn)
    else if inFormat.IsListShaped() == outFormat.IsListShaped() then
      Wrap(outFormat, doc.value)
    else if outFormat.IsListShaped() then
      Wrap(outFormat, ListTable(Flatten(doc.value.dict)))
    else
      Wrap(outFormat, MapTable(DedupFirst(Pairs(doc.value.lst))))
  }

  /** A value as a JSON or an RTON document, by format. */
  function Wrap(format: LawnStringsFormat, v: Value): Doc
    requires format != PlainText
  {
    if format == JsonList || format == JsonMap then Json(v) else Rton(v)
  }

  /** Among the JSON and RTON formats a conversion keeps the dictionary a
      table stands for, and a list that stays a list, or a map that stays a
      map, is kept as it is. */
  lemma ConvertKeepsTable(inFormat: LawnStringsFormat, outFormat: LawnStringsFormat,
                          plainEncodeIn: LawnStringsEncoding, plainEncodeOut: LawnStringsEncoding, doc: Doc)
    requires inFormat != PlainText && outFormat != PlainText && inFormat != outFormat
    requires Conforms(doc, inFormat)
    ensures var c := Convert(inFormat, outFormat, plainEncodeIn, plainEncodeOut);
      c.Plan? && Run(c.steps, doc).Some? && Conforms(Run(c.steps, doc).value, outFormat)
      && Denoted(Run(c.steps, doc).value.value) == Denoted(doc.value)
      && (inFormat.IsListShaped() == outFormat.IsListShaped() ==> Run(c.steps, doc).value.value == doc.value)
  {
    RunConvert(inFormat, outFormat, plainEncodeIn, plainEncodeOut, doc);
    var out := Converted(inFormat, outFormat, plainEncodeIn, doc);
    if inFormat.IsListShaped() == outFormat.IsListShaped() {
      assert out.value == doc.value;
    } else if outFormat.IsListShaped() {
      assert out.value == ListTable(Flatten(doc.value.dict));
      LawnStringsMap.ToMapOfToList(doc.value.dict);
    } else {
      assert out.value == MapTable(DedupFirst(Pairs(doc.value.lst)));
    }
  }

  /** Converting there and back gives the stream back, except from a list to
      a map, where `ToMap` drops repeated keys and a trailing slot. */
  lemma RoundTrip(inFormat: LawnStringsFormat, outFormat: LawnStringsFormat,
                  plainEncodeIn: LawnStringsEncoding, plainEncodeOut: LawnStringsEncoding, doc: Doc)
    requires inFormat != PlainText && outFormat != PlainText && inFormat != outFormat
    requires !inFormat.IsListShaped() || outFormat.IsListShaped()
    requires Conforms(doc, inFormat)
    ensures var there := Convert(inFormat, outFormat, plainEncodeIn, plainEncodeOut);
      var back := Convert(outFormat, inFormat, plainEncodeIn, plainEncodeOut);
      there.Plan? && back.Plan? && Run(there.steps, doc).Some?
      && Run(back.steps, Run(there.steps, doc).value) == Some(doc)
  {
    RunConvert(inFormat, outFormat, plainEncodeIn, plainEncodeOut, doc);
    var mid := Converted(inFormat, outFormat, plainEncodeIn, doc);
    RunConvert(outFormat, inFormat, plainEncodeIn, plainEncodeOut, mid);
    ConvertedBack(inFormat, outFormat, plainEncodeIn, doc);
  }

  /** The tables of `RoundTrip`: converting there and back gives the
      document back. */
  lemma ConvertedBack(inFormat: LawnStringsFormat, outFormat: LawnStringsFormat,
                      plainEncodeIn: LawnStringsEncoding, doc: Doc)
    requires inFormat != PlainText && outFormat != PlainText && inFormat != outFormat
    requires !inFormat.IsListShaped() || outFormat.IsListShaped()
    requires Conforms(doc, inFormat)
    requires Conforms(Converted(inFormat, outFormat, plainEncodeIn, doc), outFormat)
    ensures Converted(outFormat, inFormat, plainEncodeIn, Converted(inFormat, outFormat, plainEncodeIn, doc)) == doc
  {
    var mid := Converted(inFormat, outFormat, plainEncodeIn, doc);
    var back := Converted(outFormat, inFormat, plainEncodeIn, mid);
    if inFormat.IsListShaped() == outFormat.IsListShaped() {
      assert mid.value == doc.value && back.value == mid.value;
    } else {
      assert mid.value == ListTable(Flatten(doc.value.dict));
      assert back.value == MapTable(DedupFirst(Pairs(Flatten(doc.value.dict))));
      LawnStringsMap.ToMapOfToList(doc.value.dict);
    }
  }

  /** A map written to plain text and read back into the same format: every
      entry returns, in order, with its value as the plain-text reader stores
      it, provided the entries survive the text format. */
  lemma PlainTextRoundTripMap(format: LawnStringsFormat, plainEncodeIn: LawnStringsEncoding,
                              plainEncodeOut: LawnStringsEncoding, doc: Doc)
    requires format == JsonMap || format == RtonMap
    requires Conforms(doc, format)
    requires forall i :: 0 <= i < |doc.value.dict| ==> LawnStringsPlainFacts.Rereadable(doc.value.dict[i])
    ensures Convert(format, PlainText, plainEncodeIn, plainEncodeOut).Plan?
    ensures Run(Convert(format, PlainText, plainEncodeIn, plainEncodeOut).steps, doc)
         == Some(Text(Written(doc.value.dict), plainEncodeIn))
    ensures Run(Convert(PlainText, format, plainEncodeIn, plainEncodeOut).steps, Text(Written(doc.value.dict), plainEncodeIn))
         == Some(Wrap(format, MapTable(LawnStringsPlainFacts.Stored(doc.value.dict))))
  {
    RunConvert(format, PlainText, plainEncodeIn, plainEncodeOut, doc);
    var text := Text(Written(doc.value.dict), plainEncodeIn);
    RunConvert(PlainText, format, plainEncodeIn, plainEncodeOut, text);
    LawnStringsPlainFacts.WriteDictReadsBack(doc.value.dict, plainEncodeIn);
  }

  /** A list written to plain text and read back into the same format: its
      first-occurrence pairs return, key and value in turn, each value as the
      plain-text reader stores it, provided the entries survive the text
      format. */
  lemma PlainTextRoundTripList(format: LawnStringsFormat, plainEncodeIn: LawnStringsEncoding,
                               plainEncodeOut: LawnStringsEncoding, doc: Doc)
    requires format == JsonList || format == RtonList
    requires Conforms(doc, format)
    requires forall i :: 0 <= i < |Denoted(doc.value)| ==> LawnStringsPlainFacts.Rereadable(Denoted(doc.value)[i])
    ensures Convert(format, PlainText, plainEncodeIn, plainEncodeOut).Plan?
    ensures Run(Convert(format, PlainText, plainEncodeIn, plainEncodeOut).steps, doc)
         == Some(Text(Written(Denoted(doc.value)), plainEncodeIn))
    ensures Run(Convert(PlainText, format, plainEncodeIn, plainEncodeOut).steps, Text(Written(Denoted(doc.value)), plainEncodeIn))
         == Some(Wrap(format, ListTable(Flatten(LawnStringsPlainFacts.Stored(Denoted(doc.value))))))
  {
    RunConvert(format, PlainText, plainEncodeIn, plainEncodeOut, doc);
    var text := Text(Written(Denoted(doc.value)), plainEncodeIn);
    RunConvert(PlainText, format, plainEncodeIn, plainEncodeOut, text);
    LawnStringsPlainFacts.WriteListReadsBack(doc.value.lst, plainEncodeIn);
  }

  /** `plainEncodeOut` only decides whether a conversion is redundant: any
      two conversions that run have the same plan whatever it is. */
  lemma EncodeOutIgnored(inFormat: LawnStringsFormat, outFormat: LawnStringsFormat,
                         plainEncodeIn: LawnStringsEncoding, out1: LawnStringsEncoding, out2: LawnStringsEncoding)
    requires Convert(inFormat, outFormat, plainEncodeIn, out1).Plan?
    requires Convert(inFormat, outFormat, plainEncodeIn, out2).Plan?
    ensures Convert(inFormat, outFormat, plainEncodeIn, out1) == Convert(inFormat, outFormat, plainEncodeIn, out2)
  {
  }

  // ---------------------------------------------------------------------------
  // Sorter
  // ---------------------------------------------------------------------------

  /** The sorting routines: deserialize, sort in place and serialize a JSON
      table of either shape (`SortJList` through `LawnStrings.Sort`,
      `SortJMap` through `LawnStringsMap.Sort`), or `LawnStringsPlain.Sort`. */
  datatype SortRoutine = SortJList | SortJMap | SortPlain(plainEncode: LawnStringsEncoding)

  /** A sort: the routine, run on the stream directly or, for RTON
      (`SortRton`), between decoding to JSON and encoding the result. */
  datatype SortPlan = SortPlan(throughRton: bool, routine: SortRoutine)

  /** `Sort`: RTON formats decode to JSON, run the JSON sort of their shape
      and re-encode; plain text is sorted by the plain-text sorter in the
      given encoding. */
  function Sort(format: LawnStringsFormat, plainEncode: LawnStringsEncoding): (p: SortPlan)
    ensures p.throughRton <==> format == RtonList || format == RtonMap
    ensures p.routine.SortJList? <==> format.IsListShaped()
    ensures p.routine.SortJMap? <==> format == JsonMap || format == RtonMap
    ensures p.routine.SortPlain? <==> format == PlainText
    ensures p.routine.SortPlain? ==> p.routine.plainEncode == plainEncode
  {
    match format
    case JsonList => SortPlan(false, SortJList)
    case JsonMap => SortPlan(false, SortJMap)
    case RtonList => SortPlan(true, SortJList)
    case RtonMap => SortPlan(true, SortJMap)
    case _ => SortPlan(false, SortPlain(plainEncode))
  }

  // ---------------------------------------------------------------------------
  // Comparer
  // ---------------------------------------------------------------------------

  /** The list comparison the mode selects (`LawnStrings.FindAdded`,
      `FindChanged` or `FindFullDiff`), as the pairs it returns. */
  function ListDiff(mode: LawnStringsCompareMode, a: seq<string>, b: seq<string>,
                    excludeList: Option<set<string>>): seq<Pair> {
    match mode
    case Changed => LawnStrings.ChangedPairs(a, b, excludeList)
    case FullDiff => LawnStrings.FullDiffPairs(a, b, excludeList)
    case _ => LawnStrings.AddedPairs(a, b, excludeList)
  }

  /** The dictionary comparison the mode selects. Plain text and the map
      shape filter alike; for plain text the full diff is the added entries
      followed by the changed ones of both streams read once (see
      `LawnStringsPlain.FindFullDiffRewound`). */
  function DictDiff(mode: LawnStringsCompareMode, a: Dict, b: Dict, excludeList: Option<set<string>>): seq<Pair> {
    match mode
    case Changed => LawnStringsComparer.FindChanged(a, b, excludeList)
    case FullDiff => LawnStringsComparer.FullDiff(a, b, excludeList)
    case _ => LawnStringsComparer.FindAdded(a, b, excludeList)
  }

  /** `CompareTxt`: both streams read into dictionaries, the selected
      comparison, and its entries written with `WriteKvp`. */
  function CompareTxt(a: Doc, b: Doc, mode: LawnStringsCompareMode, encodeFlags: LawnStringsEncoding,
                      excludeList: Option<set<string>>): Option<Doc> {
    if a.Text? && b.Text? then
      var result := DictDiff(mode, LawnStringsPlain.ReadDictOf(a.lines, [], encodeFlags),
                             LawnStringsPlain.ReadDictOf(b.lines, [], encodeFlags), excludeList);
      Some(Text(LawnStringsPlainFacts.ReadBack(LawnStringsPlain.EncodeEntries(result)), encodeFlags))
    else None
  }

  /** `CompareJList`: both lists deserialized, the selected comparison, and
      the strings it returns serialized as a JSON array. */
  function CompareJList(a: Doc, b: Doc, mode: LawnStringsCompareMode, excludeList: Option<set<string>>): Option<Doc> {
    if a.Json? && a.value.ListTable? && b.Json? && b.value.ListTable? then
      Some(Json(Strings(Flatten(ListDiff(mode, a.value.lst, b.value.lst, excludeList)))))
    else None
  }

  /** `CompareJMap`: both maps deserialized, the selected comparison, and the
      entries it returns serialized as a JSON array. */
  function CompareJMap(a: Doc, b: Doc, mode: LawnStringsCompareMode, excludeList: Option<set<string>>): Option<Doc> {
    if a.Json? && a.value.MapTable? && b.Json? && b.value.MapTable? then
      Some(Json(Entries(DictDiff(mode, a.value.dict, b.value.dict, excludeList))))
    else None
  }

  /** `CompareRton`: both streams decoded, the JSON comparison of the chosen
      shape, and the diff encoded. */
  function CompareRton(a: Doc, b: Doc, mode: LawnStringsCompareMode, useMap: bool,
                       excludeList: Option<set<string>>): Option<Doc> {
    if a.Rton? && b.Rton? then
      var jDiff := if useMap then CompareJMap(Json(a.value), Json(b.value), mode, excludeList)
                   else CompareJList(Json(a.value), Json(b.value), mode, excludeList);
      if jDiff.Some? && jDiff.value.Json? then Some(Rton(jDiff.value.value)) else None
    else None
  }

  /** `Compare`: the comparison of the format's shape. */
  function Compare(a: Doc, b: Doc, format: LawnStringsFormat, mode: LawnStringsCompareMode,
                   excludeList: Option<set<string>>, encodeFlags: LawnStringsEncoding): Option<Doc> {
    match format
    case JsonList => CompareJList(a, b, mode, excludeList)
    case JsonMap => CompareJMap(a, b, mode, excludeList)
    case RtonList => CompareRton(a, b, mode, false, excludeList)
    case RtonMap => CompareRton(a, b, mode, true, excludeList)
    case _ => CompareTxt(a, b, mode, encodeFlags, excludeList)
  }

  /** The entries a comparison reads from a stream in `format`: the
      dictionary `ReadDict` builds from plain text, a list's pairs, or a
      map's entries. */
  function EntriesOf(doc: Doc, format: LawnStringsFormat, encodeFlags: LawnStringsEncoding): seq<Pair>
    requires Conforms(doc, format)
  {
    if format == PlainText then LawnStringsPlain.ReadDictOf(doc.lines, [], encodeFlags)
    else if format.IsListShaped() then Pairs(doc.value.lst)
    else doc.value.dict
  }

  /** The entries a comparison reports, whatever the format, before they are
      written in the format's own way. */
  function Reported(a: Doc, b: Doc, format: LawnStringsFormat, mode: LawnStringsCompareMode,
                    excludeList: Option<set<string>>, encodeFlags: LawnStringsEncoding): seq<Pair>
    requires Conforms(a, format) && Conforms(b, format)
  {
    if format.IsListShaped() then ListDiff(mode, a.value.lst, b.value.lst, excludeList)
    else DictDiff(mode, EntriesOf(a, format, encodeFlags), EntriesOf(b, format, encodeFlags), excludeList)
  }

  /** Every comparison of two streams of its format succeeds and writes the
      reported entries: as plain text, as a JSON array of strings (lists) or
      of entries (maps), and for RTON as the encoding of that array. */
  lemma CompareWrites(a: Doc, b: Doc, format: LawnStringsFormat, mode: LawnStringsCompareMode,
                      excludeList: Option<set<string>>, encodeFlags: LawnStringsEncoding)
    requires Conforms(a, format) && Conforms(b, format)
    ensures var r := Reported(a, b, format, mode, excludeList, encodeFlags);
      Compare(a, b, format, mode, excludeList, encodeFlags) ==
        Some(match format
             case PlainText => Text(LawnStringsPlainFacts.ReadBack(LawnStringsPlain.EncodeEntries(r)), encodeFlags)
             case JsonList => Json(Strings(Flatten(r)))
             case JsonMap => Json(Entries(r))
             case RtonList => Rton(Strings(Flatten(r)))
             case RtonMap => Rton(Entries(r)))
  {
    if format.IsListShaped() {
      CompareWritesList(a, b, format, mode, excludeList, encodeFlags);
    } else if format != PlainText {
      CompareWritesMap(a, b, format, mode, excludeList, encodeFlags);
    }
  }

  /** `CompareWrites` for the two list formats. */
  lemma CompareWritesList(a: Doc, b: Doc, format: LawnStringsFormat, mode: LawnStringsCompareMode,
                          excludeList: Option<set<string>>, encodeFlags: LawnStringsEncoding)
    requires Conforms(a, format) && Conforms(b, format) && format.IsListShaped()
    ensures var r := Reported(a, b, format, mode, excludeList, encodeFlags);
      Compare(a, b, format, mode, excludeList, encodeFlags)
      == Some(if format == JsonList then Json(Strings(Flatten(r))) else Rton(Strings(Flatten(r))))
  {
    var j := CompareJList(Json(a.value), Json(b.value), mode, excludeList);
    assert j == Some(Json(Strings(Flatten(ListDiff(mode, a.value.lst, b.value.lst, excludeList)))));
    if format == RtonList {
      assert Compare(a, b, format, mode, excludeList, encodeFlags) == Some(Rton(j.value.value));
    } else {
      assert Compare(a, b, format, mode, excludeList, encodeFlags) == j;
    }
  }

  /** `CompareWrites` for the two map formats. */
  lemma CompareWritesMap(a: Doc, b: Doc, format: LawnStringsFormat, mode: LawnStringsCompareMode,
                         excludeList: Option<set<string>>, encodeFlags: LawnStringsEncoding)
    requires Conforms(a, format) && Conforms(b, format) && format != PlainText && !format.IsListShaped()
    ensures var r := Reported(a, b, format, mode, excludeList, encodeFlags);
      Compare(a, b, format, mode, excludeList, encodeFlags)
      == Some(if format == JsonMap then Json(Entries(r)) else Rton(Entries(r)))
  {
    if format == RtonMap {
      assert CompareJMap(Json(a.value), Json(b.value), mode, excludeList).value.Json?;
    }
  }

  /** What every comparison reports, in every format: entries of the second
      stream, none under an excluded key; the added ones have a key the first
      stream lacks, the changed ones a key it has; and the full diff reports
      each key once, exactly the keys of the added and the changed entries.
      For plain text and maps the full diff is the added entries followed by
      the changed ones; the plain-text program as written reports only the
      first part (see `LawnStringsPlain.FindFullDiff`). */
  lemma ReportedEntries(a: Doc, b: Doc, format: LawnStringsFormat, excludeList: Option<set<string>>,
                        encodeFlags: LawnStringsEncoding, mode: LawnStringsCompareMode)
    requires Conforms(a, format) && Conforms(b, format)
    ensures var r := Reported(a, b, format, mode, excludeList, encodeFlags);
      forall q :: q in r ==> q in EntriesOf(b, format, encodeFlags) && q.key !in LawnStringsComparer.ExcludeSet(excludeList)
    ensures forall q :: (q in Reported(a, b, format, LawnStringsCompareMode.Added, excludeList, encodeFlags)
      ==> q.key !in KeysOf(EntriesOf(a, format, encodeFlags)))
    ensures forall q :: (q in Reported(a, b, format, LawnStringsCompareMode.Changed, excludeList, encodeFlags)
      ==> q.key in KeysOf(EntriesOf(a, format, encodeFlags)))
    ensures UniqueKeys(Reported(a, b, format, LawnStringsCompareMode.FullDiff, excludeList, encodeFlags))
    ensures KeysOf(Reported(a, b, format, LawnStringsCompareMode.FullDiff, excludeList, encodeFlags))
         == KeysOf(Reported(a, b, format, LawnStringsCompareMode.Added, excludeList, encodeFlags))
          + KeysOf(Reported(a, b, format, LawnStringsCompareMode.Changed, excludeList, encodeFlags))
    ensures !format.IsListShaped() ==>
      Reported(a, b, format, LawnStringsCompareMode.FullDiff, excludeList, encodeFlags)
      == Reported(a, b, format, LawnStringsCompareMode.Added, excludeList, encodeFlags)
       + Reported(a, b, format, LawnStringsCompareMode.Changed, excludeList, encodeFlags)
  {
    if format.IsListShaped() {
      ReportedList(a, b, format, excludeList, encodeFlags, mode);
    } else {
      ReportedDict(a, b, format, excludeList, encodeFlags, mode);
    }
  }

  /** `ReportedEntries` for the two list formats. */
  lemma ReportedList(a: Doc, b: Doc, format: LawnStringsFormat, excludeList: Option<set<string>>,
                     encodeFlags: LawnStringsEncoding, mode: LawnStringsCompareMode)
    requires Conforms(a, format) && Conforms(b, format) && format.IsListShaped()
    ensures var r := Reported(a, b, format, mode, excludeList, encodeFlags);
      forall q :: q in r ==> q in EntriesOf(b, format, encodeFlags) && q.key !in LawnStringsComparer.ExcludeSet(excludeList)
    ensures forall q :: (q in Reported(a, b, format, LawnStringsCompareMode.Added, excludeList, encodeFlags)
      ==> q.key !in KeysOf(EntriesOf(a, format, encodeFlags)))
    ensures forall q :: (q in Reported(a, b, format, LawnStringsCompareMode.Changed, excludeList, encodeFlags)
      ==> q.key in KeysOf(EntriesOf(a, format, encodeFlags)))
    ensures UniqueKeys(Reported(a, b, format, LawnStringsCompareMode.FullDiff, excludeList, encodeFlags))
    ensures KeysOf(Reported(a, b, format, LawnStringsCompareMode.FullDiff, excludeList, encodeFlags))
         == KeysOf(Reported(a, b, format, LawnStringsCompareMode.Added, excludeList, encodeFlags))
          + KeysOf(Reported(a, b, format, LawnStringsCompareMode.Changed, excludeList, encodeFlags))
  {
    var la, lb := a.value.lst, b.value.lst;
    ListDiffFacts(la, lb, excludeList, mode);
    ListDiffKeys(la, lb, excludeList);
    assert EntriesOf(a, format, encodeFlags) == Pairs(la);
    assert EntriesOf(b, format, encodeFlags) == Pairs(lb);
    assert Reported(a, b, format, mode, excludeList, encodeFlags) == ListDiff(mode, la, lb, excludeList);
    assert Reported(a, b, format, LawnStringsCompareMode.Added, excludeList, encodeFlags)
        == ListDiff(LawnStringsCompareMode.Added, la, lb, excludeList);
    assert Reported(a, b, format, LawnStringsCompareMode.Changed, excludeList, encodeFlags)
        == ListDiff(LawnStringsCompareMode.Changed, la, lb, excludeList);
    assert Reported(a, b, format, LawnStringsCompareMode.FullDiff, excludeList, encodeFlags)
        == ListDiff(LawnStringsCompareMode.FullDiff, la, lb, excludeList);
  }

  /** The list comparisons: every mode reports pairs of `b` under keys that
      are not excluded. */
  lemma ListDiffFacts(la: seq<string>, lb: seq<string>, excludeList: Option<set<string>>, mode: LawnStringsCompareMode)
    ensures forall q :: (q in ListDiff(mode, la, lb, excludeList)
      ==> q in Pairs(lb) && q.key !in LawnStringsComparer.ExcludeSet(excludeList))
  {
    match mode
    case Changed =>
    case FullDiff =>
    case _ =>
  }

  /** Added keys are not in `a` and changed ones are; the full diff has
      unique keys, those of the added and the changed pairs together. */
  lemma ListDiffKeys(la: seq<string>, lb: seq<string>, excludeList: Option<set<string>>)
    ensures forall q :: (q in ListDiff(LawnStringsCompareMode.Added, la, lb, excludeList) ==> q.key !in KeysOf(Pairs(la)))
    ensures forall q :: (q in ListDiff(LawnStringsCompareMode.Changed, la, lb, excludeList) ==> q.key in KeysOf(Pairs(la)))
    ensures UniqueKeys(ListDiff(LawnStringsCompareMode.FullDiff, la, lb, excludeList))
    ensures KeysOf(ListDiff(LawnStringsCompareMode.FullDiff, la, lb, excludeList))
         == KeysOf(ListDiff(LawnStringsCompareMode.Added, la, lb, excludeList))
          + KeysOf(ListDiff(LawnStringsCompareMode.Changed, la, lb, excludeList))
  {
    LawnStrings.FullDiffKeys(la, lb, excludeList);
  }

  /** `ReportedEntries` for plain text and the two map formats, through
      `DictDiffFacts` on the two dictionaries read. */
  lemma ReportedDict(a: Doc, b: Doc, format: LawnStringsFormat, excludeList: Option<set<string>>,
                     encodeFlags: LawnStringsEncoding, mode: LawnStringsCompareMode)
    requires Conforms(a, format) && Conforms(b, format) && !format.IsListShaped()
    ensures var r := Reported(a, b, format, mode, excludeList, encodeFlags);
      forall q :: q in r ==> q in EntriesOf(b, format, encodeFlags) && q.key !in LawnStringsComparer.ExcludeSet(excludeList)
    ensures forall q :: (q in Reported(a, b, format, LawnStringsCompareMode.Added, excludeList, encodeFlags)
      ==> q.key !in KeysOf(EntriesOf(a, format, encodeFlags)))
    ensures forall q :: (q in Reported(a, b, format, LawnStringsCompareMode.Changed, excludeList, encodeFlags)
      ==> q.key in KeysOf(EntriesOf(a, format, encodeFlags)))
    ensures UniqueKeys(Reported(a, b, format, LawnStringsCompareMode.FullDiff, excludeList, encodeFlags))
    ensures KeysOf(Reported(a, b, format, LawnStringsCompareMode.FullDiff, excludeList, encodeFlags))
         == KeysOf(Reported(a, b, format, LawnStringsCompareMode.Added, excludeList, encodeFlags))
          + KeysOf(Reported(a, b, format, LawnStringsCompareMode.Changed, excludeList, encodeFlags))
    ensures Reported(a, b, format, LawnStringsCompareMode.FullDiff, excludeList, encodeFlags)
         == Reported(a, b, format, LawnStringsCompareMode.Added, excludeList, encodeFlags)
          + Reported(a, b, format, LawnStringsCompareMode.Changed, excludeList, encodeFlags)
  {
    var da, db := EntriesOf(a, format, encodeFlags), EntriesOf(b, format, encodeFlags);
    if format == PlainText {
      DictUnique(b.lines, encodeFlags);
    }
    DictDiffFacts(da, db, excludeList, mode);
    assert Reported(a, b, format, mode, excludeList, encodeFlags) == DictDiff(mode, da, db, excludeList);
    assert Reported(a, b, format, LawnStringsCompareMode.Added, excludeList, encodeFlags)
        == DictDiff(LawnStringsCompareMode.Added, da, db, excludeList);
    assert Reported(a, b, format, LawnStringsCompareMode.Changed, excludeList, encodeFlags)
        == DictDiff(LawnStringsCompareMode.Changed, da, db, excludeList);
    assert Reported(a, b, format, LawnStringsCompareMode.FullDiff, excludeList, encodeFlags)
        == DictDiff(LawnStringsCompareMode.FullDiff, da, db, excludeList);
  }

  /** The dictionary comparisons: every mode reports entries of `b` under
      keys that are not excluded; added keys are not in `a` and changed ones
      are; and the full diff is the added entries followed by the changed
      ones, with unique keys when `b` has them. */
  lemma DictDiffFacts(da: Dict, db: Dict, excludeList: Option<set<string>>, mode: LawnStringsCompareMode)
    ensures forall q :: (q in DictDiff(mode, da, db, excludeList)
      ==> q in db && q.key !in LawnStringsComparer.ExcludeSet(excludeList))
    ensures forall q :: (q in DictDiff(LawnStringsCompareMode.Added, da, db, excludeList) ==> q.key !in KeysOf(da))
    ensures forall q :: (q in DictDiff(LawnStringsCompareMode.Changed, da, db, excludeList) ==> q.key in KeysOf(da))
    ensures DictDiff(LawnStringsCompareMode.FullDiff, da, db, excludeList)
         == DictDiff(LawnStringsCompareMode.Added, da, db, excludeList)
          + DictDiff(LawnStringsCompareMode.Changed, da, db, excludeList)
    ensures UniqueKeys(db) ==> UniqueKeys(DictDiff(LawnStringsCompareMode.FullDiff, da, db, excludeList))
    ensures KeysOf(DictDiff(LawnStringsCompareMode.FullDiff, da, db, excludeList))
         == KeysOf(DictDiff(LawnStringsCompareMode.Added, da, db, excludeList))
          + KeysOf(DictDiff(LawnStringsCompareMode.Changed, da, db, excludeList))
  {
    LawnStringsMap.FullDiffUnique(da, db, excludeList);
    KeysOfConcat(LawnStringsComparer.FindAdded(da, db, excludeList), LawnStringsComparer.FindChanged(da, db, excludeList));
  }
}
