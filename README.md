# LawnStrings localisation tables, modelled in Dafny

LawnStrings is a tool for the string tables of a game's localisation files. A table is a set of
`key → text` entries and comes in two shapes:

- the **list** shape (`LawnStrings`): one flat list holding key, value, key, value, …;
- the **map** shape (`LawnStringsMap`): one dictionary, enumerated in insertion order.

Each shape is stored as JSON or as RTON, a binary encoding of JSON. A third format is **plain
text**: a sequence of sections, each a `[key]` header line followed by the lines of its value.

The tool does three things:

- it converts between the five formats;
- it sorts a table by key with a natural ("alphanumeric") comparison;
- it compares two tables and reports the added entries, the changed entries, or both.

The model follows the program's files, one module each:

| module | what it models |
|---|---|
| `Text` | .NET `Trim`, `TrimStart`, `TrimEnd` and `TrimStart(char)` on strings |
| `KeyValues` | key/value pairs and dictionaries as insertion-ordered sequences; the library behaviour the code relies on (`Dictionary` lookup and assignment, LINQ `Where`, `List.Sort`) |
| `Streams` | a text stream as a line reader (with seek) and a line writer |
| `LawnStringsComparer` | `Helpers/LawnStringsComparer.cs`: the natural comparison and the three dictionary diffs |
| `LawnStringsHelper` | `LawnStringsHelper.cs`: encodings, extensions, `CleanLine`, and the `char.IsDigit` comparison |
| `LawnStringsHelperLegacy` | `Helpers/LawnStringsHelper.cs`: the older copy, with `GetCleanLength` |
| `LawnStringsPlain` | `LawnStringsPlain.cs`: the two readers, as methods over a line reader and as functions of the lines; the writers, the sorter and the stream diffs |
| `LawnStringsPlainFacts` | what the readers make of each shape a file can take, and the write-then-read round trip |
| `LawnStrings` | `LawnStrings.cs`: list-to-map, the in-place pair quicksort on an array, and the three list diffs |
| `LawnStringsMap` | `LawnStringsMap.cs`: a class over its dictionary, with conversion, refill sort and the diffs |
| `LawnStringsMgr` | `LawnStringsMgr.cs`: how `Convert`, `Sort` and `Compare` route each format |

In the manager model:

- a JSON or RTON stream is the value it holds;
- a conversion is a plan of routine steps, and `Run` carries them out;
- `Converted` is an independent statement of what each conversion must produce, and the lemmas
  prove that the plans produce it.

## Model

| member | source | states |
|---|---|---|
| Text.TrimEnd | Source/LawnStrings/Typedef/Models/LawnStringsPlain.cs:75 | The result is a prefix of the input and does not end in white space. |
| Text.TrimStart | Source/LawnStrings/Typedef/Models/LawnStringsPlain.cs:55 | The result is a suffix of the input and does not start with white space. |
| Text.Trim | Source/LawnStrings/Typedef/Models/LawnStringsPlain.cs:55 | The result is no longer than the input, and neither of its ends is white space. |
| Text.TrimStartChar | Source/LawnStrings/Typedef/Models/LawnStringsPlain.cs:57-61 | The result is a suffix of the input that does not start with the given character (the U+FEFF byte-order mark). |
| Text.TrimEndDropsWhiteSpace | Source/LawnStrings/Typedef/Models/LawnStringsPlain.cs:75 | Every character `TrimEnd` removes is white space. |
| Text.TrimStartDropsWhiteSpace | Source/LawnStrings/Typedef/Models/LawnStringsPlain.cs:55 | Every character `TrimStart` removes is white space. |
| Text.TrimStartCharDropsOnlyC | Source/LawnStrings/Typedef/Models/LawnStringsPlain.cs:59 | `TrimStart(c)` removes only copies of `c`. |
| Text.TrimUnchanged | Source/LawnStrings/Typedef/Models/LawnStringsPlain.cs:55 | A string with no white space at either end is left unchanged by trimming. |
| KeyValues.Lookup | Source/LawnStrings/Helpers/LawnStringsComparer.cs:95 | `TryGetValue` finds a value exactly when the key is present; in a dictionary, that value is the one stored under the key. |
| KeyValues.Set | Source/LawnStrings/Typedef/Models/Map/LawnStringsMap.cs:118 | `dict[k] = v`: an existing key is overwritten in place and nothing else changes; a new key is appended. Keys stay unique. |
| KeyValues.Pairs | Source/LawnStrings/Typedef/Models/Standar/LawnStrings.cs:91-101 | The list read two slots at a time: pair `i` is slots `2i` and `2i+1`, and an odd last slot is ignored. |
| KeyValues.Flatten | Source/LawnStrings/Typedef/Models/Map/LawnStringsMap.cs:88-92 | The entries written out as key, value, key, value, … |
| KeyValues.PairsOfFlatten | Source/LawnStrings/Typedef/Models/Map/LawnStringsMap.cs:79-95 | Reading pairs from a flattened sequence gives the entries back. |
| KeyValues.FlattenOfPairs | Source/LawnStrings/Typedef/Models/Standar/LawnStrings.cs:91-101 | Flattening the pairs of an even-length list gives the list back. |
| KeyValues.DedupFirst | Source/LawnStrings/Typedef/Models/Standar/LawnStrings.cs:91-102 | The first-occurrence entries form a dictionary: unique keys, the same key set, and no longer than the input. |
| KeyValues.DedupFirstIsFirst | Source/LawnStrings/Typedef/Models/Standar/LawnStrings.cs:95-101 | Each key maps to the value of its first occurrence. |
| KeyValues.DedupFirstUnique | Source/LawnStrings/Typedef/Models/Standar/LawnStrings.cs:91-102 | Entries whose keys are already unique are left unchanged. |
| KeyValues.LastWins | Source/LawnStrings/Typedef/Models/Standar/LawnStrings.cs:220-221 | The `baseDict[k] = v` fold has exactly the list's keys. |
| KeyValues.LastWinsIsLast | Source/LawnStrings/Typedef/Models/Standar/LawnStrings.cs:220-221 | Each key maps to the value of its last occurrence. |
| KeyValues.Where | Source/LawnStrings/Helpers/LawnStringsComparer.cs:83 | LINQ `Where`: an entry is in the result exactly when it is in the source and passes the predicate. |
| KeyValues.WhereOrder | Source/LawnStrings/Helpers/LawnStringsComparer.cs:83 | `Where` keeps the source's order, giving a subsequence of it. |
| KeyValues.SubsequenceUnique | Source/LawnStrings/Helpers/LawnStringsComparer.cs:102-112 | A subsequence of a dictionary has unique keys. |
| KeyValues.ConcatUnique | Source/LawnStrings/Helpers/LawnStringsComparer.cs:111 | Concatenating two dictionaries with disjoint keys gives a dictionary. |
| KeyValues.FirstReported | Source/LawnStrings/Typedef/Models/Standar/LawnStrings.cs:262-284 | The `seen`-guarded report loop: unique keys, only reportable entries of the input, and every reportable key is reported. |
| KeyValues.FirstReportedOrder | Source/LawnStrings/Typedef/Models/Standar/LawnStrings.cs:265-284 | Entries are reported in the input's order. |
| KeyValues.FirstReportedIsFirst | Source/LawnStrings/Typedef/Models/Standar/LawnStrings.cs:273-282 | The first reportable entry under each key is the one reported. |
| KeyValues.InsertByKey | Source/LawnStrings/Typedef/Models/Map/LawnStringsMap.cs:113 | Inserting one entry into a sorted run adds exactly that entry, as a multiset. |
| KeyValues.SortByKey | Source/LawnStrings/Typedef/Models/Map/LawnStringsMap.cs:111-113 | `List.Sort` by key: the result is a permutation of the input with the same keys, and unique keys stay unique. |
| KeyValues.SortByKeySorted | Source/LawnStrings/Typedef/Models/Map/LawnStringsMap.cs:113 | When the comparison is a total preorder on the keys, the result is sorted by key. |
| Streams.LineReader.ReadLine | Source/LawnStrings/Typedef/Models/LawnStringsPlain.cs:52 | Returns the next line and advances; at the end, returns null (`None`) and stays put. |
| Streams.LineWriter.WriteLine | Source/LawnStrings/Typedef/Models/LawnStringsPlain.cs:293 | Appends exactly one line. |
| LawnStringsComparer.Wrap64 | Source/LawnStrings/Helpers/LawnStringsComparer.cs:17 | The result is a signed 64-bit value, and any value already in range is unchanged. |
| LawnStringsComparer.AppendDigit | Source/LawnStrings/Helpers/LawnStringsComparer.cs:17 | `val * 10 + digit`, exact and non-negative while it fits in 63 bits. |
| LawnStringsComparer.AccumulateIsValue | Source/LawnStrings/Helpers/LawnStringsComparer.cs:17 | A run of at most 18 ASCII digits accumulates to its decimal value, below `10^length`. |
| LawnStringsComparer.RunEnd | Source/LawnStrings/Helpers/LawnStringsComparer.cs:21-73 | The end of a digit run: every character before it is a digit, and the character at it is not. A run that starts with a digit is non-empty. |
| LawnStringsComparer.CompareInt | Source/LawnStrings/Helpers/LawnStringsComparer.cs:21-73 | `long.CompareTo`: -1, 0 or 1, with its sign matching the order. |
| LawnStringsComparer.CompareChar | Source/LawnStrings/Helpers/LawnStringsComparer.cs:21-73 | The difference of two characters, taken as Unicode scalar values: zero exactly on equal characters, negative exactly when the first is smaller. This is `char.CompareTo` inside the Basic Multilingual Plane. |
| LawnStringsComparer.ReadRun | Source/LawnStrings/Helpers/LawnStringsComparer.cs:21-73 | The digit-scanning loop stops at the run end, having accumulated the run's digits. |
| LawnStringsComparer.AlphanumCompare | Source/LawnStrings/Helpers/LawnStringsComparer.cs:21-73 | The two-index loop computes the natural comparison with ASCII digits. |
| LawnStringsComparer.CompareReflexive | Source/LawnStrings/Helpers/LawnStringsComparer.cs:21-73 | Every string compares equal to itself. |
| LawnStringsComparer.CompareAntisymmetric | Source/LawnStrings/Helpers/LawnStringsComparer.cs:21-73 | Swapping the arguments negates the result. |
| LawnStringsComparer.FirstDifference | Source/LawnStrings/Helpers/LawnStringsComparer.cs:21-73 | After a common prefix, the first pair of differing characters (not both digits) decides, by the difference of the two characters as Unicode scalar values. This is the code-unit difference only inside the Basic Multilingual Plane. |
| LawnStringsComparer.ProperPrefixFirst | Source/LawnStrings/Helpers/LawnStringsComparer.cs:21-73 | A proper prefix sorts first, giving -1. |
| LawnStringsComparer.RunsByValue | Source/LawnStrings/Helpers/LawnStringsComparer.cs:21-73 | After a common prefix, digit runs (of at most 18 digits) with different values compare by numeric value. |
| LawnStringsComparer.Examples | Source/LawnStrings/Helpers/LawnStringsComparer.cs:21-73 | "item2" < "item10", "a10" > "a9", "B" < "a", "abc" < "abc ", "a01" > "a1". |
| LawnStringsComparer.TiesAreNotTransitive | Source/LawnStrings/Helpers/LawnStringsComparer.cs:21-73 | "01" ties with "1a" and with "1b", but "1a" < "1b": the comparison is not a strict weak order. |
| LawnStringsComparer.FindAdded | Source/LawnStrings/Helpers/LawnStringsComparer.cs:77-84 | Exactly the entries of `b` whose key is neither excluded nor in `a`, in `b`'s order. A null exclude list excludes nothing. |
| LawnStringsComparer.FindChanged | Source/LawnStrings/Helpers/LawnStringsComparer.cs:88-98 | Exactly the entries of `b` whose key is in `a`, is not excluded, and whose value differs ordinally, in `b`'s order. |
| LawnStringsComparer.FullDiff | Source/LawnStrings/Helpers/LawnStringsComparer.cs:102-112 | Exactly the entries of `b` that are not excluded and whose value `a` does not hold. |
| LawnStringsComparer.FullDiffDisjoint | Source/LawnStrings/Helpers/LawnStringsComparer.cs:108-111 | No key is both added and changed. |
| LawnStringsComparer.DiffExamples | Source/LawnStrings/Helpers/LawnStringsComparer.cs:77-98 | Concrete added, changed and excluded cases, including a null exclude list. |
| LawnStringsHelper.GetEncoding | Source/LawnStrings/LawnStringsHelper.cs:13-22 | UTF16 maps to UTF-16, and every other flag maps to UTF-8. |
| LawnStringsHelper.GetExtension | Source/LawnStrings/LawnStringsHelper.cs:59-69 | Both JSON formats give ".json", both RTON formats give ".rton", and plain text gives ".txt". |
| LawnStringsHelper.Cleaned | Source/LawnStrings/LawnStringsHelper.cs:26-55 | The cleaned line starts with the unescaped text, is at most one character longer, and ends in a line feed. So a line feed is appended only when the unescaped text does not already end in one, and a text that ends in two line feeds keeps both. |
| LawnStringsHelper.CleanLine | Source/LawnStrings/LawnStringsHelper.cs:26-55 | The buffer loop produces exactly `Cleaned(src)` in a fresh array. |
| LawnStringsHelper.CopyUnescaped | Source/LawnStrings/LawnStringsHelper.cs:30-47 | The copy loop writes the unescaped text, which is never longer than the source. |
| LawnStringsHelper.CleanedHasNoCarriageReturn | Source/LawnStrings/LawnStringsHelper.cs:26-55 | A cleaned line holds no carriage return. |
| LawnStringsHelper.CleanedFitsBuffer | Source/LawnStrings/LawnStringsHelper.cs:26-55 | A cleaned line fits in `src.Length + 1` characters. |
| LawnStringsHelper.CleanedIdentity | Source/LawnStrings/LawnStringsHelper.cs:26-55 | A line without backslashes or carriage returns comes out unchanged when it already ends in a line feed; otherwise one line feed is appended. |
| LawnStringsHelper.CleanedExamples | Source/LawnStrings/LawnStringsHelper.cs:26-55 | Concrete cases: an escaped newline, CR LF, the empty line, and a trailing backslash. |
| LawnStringsHelper.AlphanumCompare | Source/LawnStrings/LawnStringsHelper.cs:86-121 | The root copy's loop, with `char.IsDigit` as a parameter, computes the natural comparison for that digit test. |
| LawnStringsHelper.AsciiAgreement | Source/LawnStrings/LawnStringsHelper.cs:86-121 | On ASCII strings, with a digit test that agrees with '0'..'9', the root copy equals the comparer copy. |
| LawnStringsHelperLegacy.GetEncoding | Source/LawnStrings/Helpers/LawnStringsHelper.cs:13-22 | UTF16 maps to UTF-16, and every other flag maps to UTF-8. |
| LawnStringsHelperLegacy.GetExtension | Source/LawnStrings/Helpers/LawnStringsHelper.cs:55-65 | The same extension table as the root copy. |
| LawnStringsHelperLegacy.SameTables | Source/LawnStrings/Helpers/LawnStringsHelper.cs:13-65 | Both copies agree on every encoding and every extension. |
| LawnStringsHelperLegacy.CleanLength | Source/LawnStrings/Helpers/LawnStringsHelper.cs:26-51 | The count lies between 1 and `src.Length + 1`. |
| LawnStringsHelperLegacy.GetCleanLength | Source/LawnStrings/Helpers/LawnStringsHelper.cs:26-51 | The counting loop returns `CleanLength(src)`. |
| LawnStringsHelperLegacy.EmptyCountsOne | Source/LawnStrings/Helpers/LawnStringsHelper.cs:47-48 | The empty span counts 1, and `src[^1]` is never read. |
| LawnStringsHelperLegacy.CleanLengthMatchesCleanLine | Source/LawnStrings/Helpers/LawnStringsHelper.cs:26-51 | Without CR, and without a trailing `\n` escape, the count equals the length of `CleanLine`'s result. |
| LawnStringsHelperLegacy.TrailingEscapeCountsThree | Source/LawnStrings/Helpers/LawnStringsHelper.cs:47-48 | With a trailing `\n` escape, the count (3) exceeds the cleaned length (2). |
| LawnStringsPlain.ListStep | Source/LawnStrings/Typedef/Models/LawnStringsPlain.cs:52-126 | One iteration of `ReadList`'s loop consumes one line, or two when it looks ahead, and never more than remain. |
| LawnStringsPlain.DictStep | Source/LawnStrings/Typedef/Models/LawnStringsPlain.cs:160-233 | One iteration of `ReadDict`'s loop consumes one line, or two when it looks ahead, and never more than remain. |
| LawnStringsPlain.EnsureCapacity | Source/LawnStrings/Typedef/Models/LawnStringsPlain.cs:28-34 | The buffer is kept when large enough; otherwise it grows to `max(required, 2·length)` and keeps its contents. |
| LawnStringsPlain.AppendLine | Source/LawnStrings/Typedef/Models/LawnStringsPlain.cs:110-122 | A content line is appended to the block, after a line feed when the block already has content. |
| LawnStringsPlain.FinishSpan | Source/LawnStrings/Typedef/Models/LawnStringsPlain.cs:70-75 | The block with one trailing line feed removed and then right-trimmed. |
| LawnStringsPlain.ReadList | Source/LawnStrings/Typedef/Models/LawnStringsPlain.cs:38-141 | Reads the stream to its end and returns exactly `ReadListOf` of the remaining lines. |
| LawnStringsPlain.ReadDict | Source/LawnStrings/Typedef/Models/LawnStringsPlain.cs:145-248 | Reads the stream to its end and returns exactly `ReadDictOf` of the remaining lines. |
| LawnStringsPlain.ReadDictUnique | Source/LawnStrings/Typedef/Models/LawnStringsPlain.cs:183-206 | Starting from a dictionary, `ReadDict` keeps every key unique. |
| LawnStringsPlain.WrapKeyIsHeader | Source/LawnStrings/Typedef/Models/LawnStringsPlain.cs:258-268 | A wrapped key reads as a header line naming that key. |
| LawnStringsPlain.HeaderExamples | Source/LawnStrings/Typedef/Models/LawnStringsPlain.cs:21-26 | "[]" is a header with an empty name. |
| LawnStringsPlain.TrimmedHeader | Source/LawnStrings/Typedef/Models/LawnStringsPlain.cs:21-26 | For every name, `[name]` followed by a blank is a header; trimming drops the blank and the name comes back unchanged. |
| LawnStringsPlain.BomHeaderExample | Source/LawnStrings/Typedef/Models/LawnStringsPlain.cs:21-26 | A BOM in front hides a header unless the reader strips it on the first line. |
| LawnStringsPlain.WriteKvp | Source/LawnStrings/Typedef/Models/LawnStringsPlain.cs:322-336 | Appends a header and a cleaned value for each entry, in order. |
| LawnStringsPlain.WriteDict | Source/LawnStrings/Typedef/Models/LawnStringsPlain.cs:304-318 | Appends a header and a cleaned value for each entry of the dictionary, in order. |
| LawnStringsPlain.WriteList | Source/LawnStrings/Typedef/Models/LawnStringsPlain.cs:272-300 | Writes only the first-occurrence pairs of the list; an odd last slot is skipped. |
| LawnStringsPlain.Sort | Source/LawnStrings/Typedef/Models/LawnStringsPlain.cs:343-353 | The output is the dictionary read from the input, sorted by key with `AlphanumCompare`. |
| LawnStringsPlain.SortWritesReadEntries | Source/LawnStrings/Typedef/Models/LawnStringsPlain.cs:343-353 | The sorted entries are a permutation of the entries read, with unique keys, in key order whenever the comparison is a total preorder on them. |
| LawnStringsPlain.FindAdded | Source/LawnStrings/Typedef/Models/LawnStringsPlain.cs:362-374 | Reads both streams to the end; the result is the dictionary `FindAdded` of what they hold. |
| LawnStringsPlain.FindChanged | Source/LawnStrings/Typedef/Models/LawnStringsPlain.cs:378-394 | Reads both streams to the end; the result is the dictionary `FindChanged` of what they hold. |
| LawnStringsPlain.FindFullDiff | Source/LawnStrings/Typedef/Models/LawnStringsPlain.cs:398-407 | As written: the result is only the added entries, because the second read starts at the end of the streams. |
| LawnStringsPlain.FindFullDiffRewound | Source/LawnStrings/Typedef/Models/LawnStringsPlain.cs:398-407 | Corrected by seeking both streams back: the result is the full dictionary diff. |
| LawnStringsPlainFacts.JoinSplit | Source/LawnStrings/Typedef/Models/LawnStringsPlain.cs:110-122 | Joining the pieces of a line with line feeds, as the readers do, gives the line back. |
| LawnStringsPlainFacts.DictContent | Source/LawnStrings/Typedef/Models/LawnStringsPlain.cs:214-230 | A run of content lines is joined onto the pending value. |
| LawnStringsPlainFacts.DictNewHeader | Source/LawnStrings/Typedef/Models/LawnStringsPlain.cs:176-206 | A header with a new key stores the pending value and makes the key current. |
| LawnStringsPlainFacts.DictRepeatedHeader | Source/LawnStrings/Typedef/Models/LawnStringsPlain.cs:191-203 | A repeated key followed by a content line consumes both, and the current key stays. |
| LawnStringsPlainFacts.DictRepeatedThenHeader | Source/LawnStrings/Typedef/Models/LawnStringsPlain.cs:191-206 | A repeated key followed by a header makes that header's key current, without checking it. |
| LawnStringsPlainFacts.ListContent | Source/LawnStrings/Typedef/Models/LawnStringsPlain.cs:107-123 | A run of content lines is joined onto the pending block. |
| LawnStringsPlainFacts.ListNewHeader | Source/LawnStrings/Typedef/Models/LawnStringsPlain.cs:65-100 | A new header flushes the block and adds the key. |
| LawnStringsPlainFacts.ListRepeatedHeader | Source/LawnStrings/Typedef/Models/LawnStringsPlain.cs:83-95 | A repeated header followed by a content line consumes both and adds nothing. |
| LawnStringsPlainFacts.ListRepeatedThenHeader | Source/LawnStrings/Typedef/Models/LawnStringsPlain.cs:83-99 | A repeated header followed by another header adds that header's name. |
| LawnStringsPlainFacts.ListSection | Source/LawnStrings/Typedef/Models/LawnStringsPlain.cs:65-123 | A section under a new key adds the key, and its lines form the pending block. |
| LawnStringsPlainFacts.Stored | Source/LawnStrings/Typedef/Models/LawnStringsPlain.cs:295 | Each entry keeps its key, and its value becomes its cleaned, finished form. |
| LawnStringsPlainFacts.StoredPlain | Source/LawnStrings/Typedef/Models/LawnStringsPlain.cs:295 | A value without escapes, CR or trailing white space is stored as written. |
| LawnStringsPlainFacts.DictReadsBack | Source/LawnStrings/Typedef/Models/LawnStringsPlain.cs:145-248 | Reading back the lines written for the entries appends their stored forms. |
| LawnStringsPlainFacts.WriteDictReadsBack | Source/LawnStrings/Typedef/Models/LawnStringsPlain.cs:304-318 | `WriteDict` then `ReadDict` gives every entry back, in order, with its stored value. |
| LawnStringsPlainFacts.ListReadsBack | Source/LawnStrings/Typedef/Models/LawnStringsPlain.cs:38-141 | Reading back the written lines into a list appends key and stored value, in turn. |
| LawnStringsPlainFacts.WriteListReadsBack | Source/LawnStrings/Typedef/Models/LawnStringsPlain.cs:272-300 | `WriteList` then `ReadList` gives the flattened first-occurrence pairs back. |
| LawnStringsPlainFacts.StoredIdentity | Source/LawnStrings/Typedef/Models/LawnStringsPlain.cs:295 | Values without escapes, CR or trailing white space round-trip exactly. |
| LawnStringsPlainFacts.OneEntry | Source/LawnStrings/Typedef/Models/LawnStringsPlain.cs:145-248 | A file of one section reads as that one entry. |
| LawnStringsPlainFacts.DictRepeatKeepsFirst | Source/LawnStrings/Typedef/Models/LawnStringsPlain.cs:191-203 | "[k] a [k] b" reads as `{k: a}`: the line after the repeated header is dropped. |
| LawnStringsPlainFacts.DictRepeatOverwrites | Source/LawnStrings/Typedef/Models/LawnStringsPlain.cs:183 | Content after the dropped line is read under the still-current key and overwrites it. |
| LawnStringsPlainFacts.ListRepeatDropsLine | Source/LawnStrings/Typedef/Models/LawnStringsPlain.cs:83-95 | In a list, a repeated header drops the line after it and adds no key. |
| LawnStringsPlainFacts.ListRepeatTakesNextHeader | Source/LawnStrings/Typedef/Models/LawnStringsPlain.cs:92-99 | In a list, a repeated header followed by a header adds the second name. |
| LawnStringsPlainFacts.ListEmptyLineCarries | Source/LawnStrings/Typedef/Models/LawnStringsPlain.cs:68-79 | An empty content line leaves the block empty, so the next header does not flush it, and the line feed is carried into the next value. |
| LawnStringsPlainFacts.FullDiffMissesChange | Source/LawnStrings/Typedef/Models/LawnStringsPlain.cs:398-407 | On two one-entry files whose values differ, the as-written result (the added entries) is empty, while the full diff is the changed entry. |
| LawnStrings.ToMap | Source/LawnStrings/Typedef/Models/Standar/LawnStrings.cs:79-107 | The loop builds the first-occurrence dictionary of the list's pairs. |
| LawnStrings.ToMapKeepsFirst | Source/LawnStrings/Typedef/Models/Standar/LawnStrings.cs:95-101 | Each key maps to the value of its first pair. |
| LawnStrings.ToMapExamples | Source/LawnStrings/Typedef/Models/Standar/LawnStrings.cs:89-101 | A repeated key keeps its first value, and an odd last slot is dropped. |
| LawnStrings.SwapPairs | Source/LawnStrings/Typedef/Models/Standar/LawnStrings.cs:162-175 | The four strings of pairs A and B are exchanged, and the new list is `SwapSlots` of the old one. |
| LawnStrings.SwapSlotsFacts | Source/LawnStrings/Typedef/Models/Standar/LawnStrings.cs:162-175 | In the pair view, `SwapSlots` exchanges pairs A and B and keeps every other pair and a trailing odd string. |
| LawnStrings.Partition | Source/LawnStrings/Typedef/Models/Standar/LawnStrings.cs:136-160 | The pairs in [left, right] are permuted; the pivot pair ends at `p`; pairs before it compare `<= 0` to the pivot and pairs after it `> 0`. |
| LawnStrings.PartitionScan | Source/LawnStrings/Typedef/Models/Standar/LawnStrings.cs:144-155 | The scan loop keeps the below-pivot pairs first, within a permutation of the range. |
| LawnStrings.QuickSort | Source/LawnStrings/Typedef/Models/Standar/LawnStrings.cs:124-134 | The range's pairs are permuted, and sorted when the comparison is a total preorder. |
| LawnStrings.Sort | Source/LawnStrings/Typedef/Models/Standar/LawnStrings.cs:114-122 | The pairs are a permutation of the originals, an odd trailing slot is untouched, and the pairs are sorted when the comparison is a total preorder. |
| LawnStrings.AddedPairs | Source/LawnStrings/Typedef/Models/Standar/LawnStrings.cs:184-209 | Exactly the pairs of `b` whose key is not excluded and not a key of `a`; repeats are kept. |
| LawnStrings.ChangedPairs | Source/LawnStrings/Typedef/Models/Standar/LawnStrings.cs:213-248 | Unique keys; pairs of `b` whose key is in `a` and not excluded, and whose value differs from `a`'s last value; every such key is reported. |
| LawnStrings.FullDiffPairs | Source/LawnStrings/Typedef/Models/Standar/LawnStrings.cs:252-287 | Unique keys; pairs of `b` that are not excluded and are new or differ from `a`'s last value; every such key is reported. |
| LawnStrings.DiffOrder | Source/LawnStrings/Typedef/Models/Standar/LawnStrings.cs:196-284 | All three list diffs keep `b`'s order. |
| LawnStrings.FullDiffKeys | Source/LawnStrings/Typedef/Models/Standar/LawnStrings.cs:252-287 | The full diff's keys are exactly the added keys together with the changed keys. |
| LawnStrings.BaseOf | Source/LawnStrings/Typedef/Models/Standar/LawnStrings.cs:220-221 | The base loop builds `a`'s key set and its last-value dictionary. |
| LawnStrings.FindAdded | Source/LawnStrings/Typedef/Models/Standar/LawnStrings.cs:184-209 | The loop returns the flattened `AddedPairs`. |
| LawnStrings.FindChanged | Source/LawnStrings/Typedef/Models/Standar/LawnStrings.cs:213-248 | The loop returns the flattened `ChangedPairs`. |
| LawnStrings.FindFullDiff | Source/LawnStrings/Typedef/Models/Standar/LawnStrings.cs:252-287 | The loop returns the flattened `FullDiffPairs`. |
| LawnStrings.AddedRepeatsExample | Source/LawnStrings/Typedef/Models/Standar/LawnStrings.cs:196-206 | `FindAdded` reports a repeated new key once per occurrence. |
| LawnStrings.FullDiffOnceExample | Source/LawnStrings/Typedef/Models/Standar/LawnStrings.cs:273-281 | `FindFullDiff` reports a repeated new key once, with its first value. |
| LawnStrings.ChangeAfterMatchExample | Source/LawnStrings/Typedef/Models/Standar/LawnStrings.cs:234-243 | A matching first occurrence does not mark the key as seen, so a later changed occurrence is reported. |
| LawnStrings.FullDiffOrderExample | Source/LawnStrings/Typedef/Models/Standar/LawnStrings.cs:252-287 | The list full diff is in `b`'s order: the changed entry, then the new one. |
| LawnStrings.AddedThenChangedExample | Source/LawnStrings/Typedef/Models/Standar/LawnStrings.cs:184-248 | On the same input, added followed by changed puts the new entry first, so the list full diff is not the concatenation. |
| LawnStrings.ExcludedExample | Source/LawnStrings/Typedef/Models/Standar/LawnStrings.cs:201 | An excluded key is not reported. |
| LawnStringsMap.LawnStringsMap.constructor | Source/LawnStrings/Typedef/Models/Map/LawnStringsMap.cs:20-31 | A new table holds an empty dictionary. |
| LawnStringsMap.LawnStringsMap.FromPlainText | Source/LawnStrings/Typedef/Models/Map/LawnStringsMap.cs:55-63 | A fresh table whose dictionary is what `ReadDict` reads from the rest of the stream, with unique keys. |
| LawnStringsMap.LawnStringsMap.ToPlainText | Source/LawnStrings/Typedef/Models/Map/LawnStringsMap.cs:67-73 | Appends the header and cleaned value of every entry, in order. |
| LawnStringsMap.LawnStringsMap.ToList | Source/LawnStrings/Typedef/Models/Map/LawnStringsMap.cs:79-95 | Key `i` is at slot `2i` and its value at `2i+1`; the list's pairs are the dictionary. |
| LawnStringsMap.LawnStringsMap.Sort | Source/LawnStrings/Typedef/Models/Map/LawnStringsMap.cs:102-120 | At most one entry: unchanged. Otherwise the entries are sorted by `AlphanumCompare`; every key maps to the same value; keys stay unique; order is non-decreasing when the comparison is a total preorder on the keys. |
| LawnStringsMap.LawnStringsMap.Refill | Source/LawnStrings/Typedef/Models/Map/LawnStringsMap.cs:115-118 | Clearing and re-assigning entries with distinct keys stores exactly those entries, in that order. |
| LawnStringsMap.SortKeepsMapping | Source/LawnStrings/Typedef/Models/Map/LawnStringsMap.cs:111-118 | Sorting a dictionary's entries keeps its size and what every key maps to. |
| LawnStringsMap.ToMapOfToList | Source/LawnStrings/Typedef/Models/Map/LawnStringsMap.cs:79-95 | `ToList` then `ToMap` gives the dictionary back. |
| LawnStringsMap.FindAdded | Source/LawnStrings/Typedef/Models/Map/LawnStringsMap.cs:129-140 | Exactly the entries of `b` whose key is neither excluded nor in `a`, in `b`'s order. |
| LawnStringsMap.FindChanged | Source/LawnStrings/Typedef/Models/Map/LawnStringsMap.cs:144-157 | Exactly the entries of `b` whose key is in `a`, is not excluded, and whose value differs, in `b`'s order. |
| LawnStringsMap.FindFullDiff | Source/LawnStrings/Typedef/Models/Map/LawnStringsMap.cs:161-170 | The added entries followed by the changed ones. The two share no key, and the result has unique keys when `b` is a dictionary. An entry is in it exactly when it is in `b`, not excluded, and not held by `a`. |
| LawnStringsMap.FullDiffUnique | Source/LawnStrings/Typedef/Models/Map/LawnStringsMap.cs:166-169 | The concatenated diff of a dictionary has unique keys. |
| LawnStringsMgr.Convert | Source/LawnStrings/LawnStringsMgr.cs:304-342 | Every conversion that is not redundant runs at least one step. |
| LawnStringsMgr.ConvertWorks | Source/LawnStrings/LawnStringsMgr.cs:308-340 | Redundant exactly when the formats agree and, for plain text, the encodings agree too. Every other conversion of a conforming stream succeeds and yields a stream of the output format. |
| LawnStringsMgr.RunConvert | Source/LawnStrings/LawnStringsMgr.cs:319-340 | Every plan produces exactly `Converted`, the directly stated result. |
| LawnStringsMgr.RunFromPlain | Source/LawnStrings/LawnStringsMgr.cs:61-88 | The plain-text routines (including `Utf8Bom2U16` and `Txt2Rton`) produce `Converted`. |
| LawnStringsMgr.RunFromJList | Source/LawnStrings/LawnStringsMgr.cs:102-135 | The JSON-list routines produce `Converted`. |
| LawnStringsMgr.RunFromJMap | Source/LawnStrings/LawnStringsMgr.cs:149-182 | The JSON-map routines produce `Converted`. |
| LawnStringsMgr.RunFromRList | Source/LawnStrings/LawnStringsMgr.cs:186-241 | The RTON-list routines, through JSON, produce `Converted`. |
| LawnStringsMgr.RunFromRMap | Source/LawnStrings/LawnStringsMgr.cs:245-300 | The RTON-map routines, through JSON, produce `Converted`. |
| LawnStringsMgr.ConvertKeepsTable | Source/LawnStrings/LawnStringsMgr.cs:92-300 | Among JSON and RTON, a conversion keeps the dictionary the table stands for, and the same shape keeps the very same value. |
| LawnStringsMgr.RoundTrip | Source/LawnStrings/LawnStringsMgr.cs:304-342 | Converting there and back between JSON and RTON gives the stream back, except from list to map. |
| LawnStringsMgr.PlainTextRoundTripMap | Source/LawnStrings/LawnStringsMgr.cs:149-182 | A map written to plain text and read back into its format gives every entry back with its stored value. |
| LawnStringsMgr.PlainTextRoundTripList | Source/LawnStrings/LawnStringsMgr.cs:102-135 | A list written to plain text and read back gives its first-occurrence pairs back, flattened, with stored values. |
| LawnStringsMgr.Sort | Source/LawnStrings/LawnStringsMgr.cs:430-457 | RTON formats go through JSON. List formats use the JSON list sort, map formats the JSON map sort, and plain text the plain sort with its encoding. |
| LawnStringsMgr.CompareWrites | Source/LawnStrings/LawnStringsMgr.cs:579-607 | Every comparison succeeds and writes the reported entries: as plain-text lines, as a JSON array, or as RTON of that array. |
| LawnStringsMgr.ReportedEntries | Source/LawnStrings/LawnStringsMgr.cs:500-575 | In every format and mode, reported entries come from `b` and are not excluded. Added keys are not in `a`; changed keys are. The full diff has unique keys, which are the added keys together with the changed keys; for plain text and maps it is the added entries followed by the changed ones. For plain text this is the corrected full diff: the program as written (`LawnStringsPlain.FindFullDiff`) writes only the added part. |

## Left out

- LawnStringsComparer.CompareChar: strings are sequences of Unicode scalar values, not of UTF-16
  code units, so a character outside the Basic Multilingual Plane is one `char` in the model but a
  surrogate pair in the program. For such characters the order differs from `char.CompareTo`,
  which compares code units: in the program U+1F600 sorts before U+FF21, because its high
  surrogate 0xD83D is smaller, while in the model it sorts after.
- LawnStringsComparer.FirstDifference: the deciding difference is between code points, so the
  same gap outside the Basic Multilingual Plane applies to `NaturalCompare` and to both
  `AlphanumCompare` copies.
- LawnStringsHelperLegacy.CleanLength: a character outside the Basic Multilingual Plane counts as
  1 in the model and as 2 (a surrogate pair) in `GetCleanLength`; the same goes for `src.Length`
  in `LawnStringsHelper.CleanLine`.
- I/O and text decoding: a stream of bytes becomes a sequence of decoded lines, and written lines
  are read back split at line feeds. Encoders, buffer sizes and `NativeMemoryOwner` disposal are
  not modelled.
- The JSON and RTON codecs (`JsonSerializer`, `RtonParser`) are library calls. A JSON or RTON
  stream is the value it holds. A serialized map has unique keys.
- `LawnStringsServer.cs`, the `Res` models, `LawnStringsJsonMap`/`LawnStringsMapData` (plain
  containers) and `CheckObjs` (it only fills in missing containers) are not part of this model.
- `ConvertFile`, `SortFile`, `CompareFiles` and `BuildPath` (file paths, logging and stream opening)
  are not part of this model.
- LawnStrings.Sort: the culture-aware `CompareInfo.Compare` with ignore-case/symbols options is a
  comparison parameter `cmp`. Sortedness is proved when `cmp` is a total preorder.
- LawnStringsHelper.AlphanumCompare: `char.IsDigit` (Unicode categories) is a parameter. The
  agreement lemma covers ASCII strings only.
- LawnStringsComparer.RunsByValue: the digit accumulator wraps at 64 bits, as in the code.
  Numeric ordering is proved only for runs of at most 18 digits.
- KeyValues.SortByKey: `List.Sort` is introspective and unstable; the model is a stable insertion
  sort. For dictionaries, where keys are unique, the two differ only on ties.
  `AlphanumCompare` does have ties between distinct keys ("01" and "1a"), and their relative order
  is not modelled.
- LawnStringsMap.LawnStringsMap.Sort: the sorted order is stated only when the comparison is a
  total preorder on the keys, because `AlphanumCompare` is not one in general
  (`TiesAreNotTransitive`).
- LawnStringsMgr.Sort: a sort is modelled as its route (which routine, and whether it goes
  through RTON). The routines' results are stated by `LawnStrings.Sort`, `LawnStringsMap.LawnStringsMap.Sort`
  and `LawnStringsPlain.Sort`.
- LawnStringsMgr.CompareWrites: for plain text with the `FullDiff` mode, the model uses the
  corrected stream diff (`FindFullDiffRewound`); see Findings.
- LawnStringsMgr.ReportedEntries: for plain text with the `FullDiff` mode, the clauses about
  the full diff (the added keys together with the changed keys, and the added entries followed
  by the changed ones) describe the corrected diff. The program as written reports only the
  added entries, the first part of that result; see Findings.
- Where the documented behaviour and the code disagree, the model follows the code:
  - `ReadDict` on a repeated header drops the next line and keeps the first value rather than
    replacing it;
  - the natural comparison is not transitive on ties.
- LawnStringsHelperLegacy.GetCleanLength: it over-counts by one on a trailing `\n` escape. As a
  buffer-size estimate this is harmless, so it is recorded as a lemma rather than a finding.

## Findings

| source | as written | input that shows it | evidently intended | confidence | as-written member | corrected member |
|---|---|---|---|---|---|---|
| Source/LawnStrings/Typedef/Models/LawnStringsPlain.cs:403-404 | `FindFullDiff` calls `FindAdded` and then `FindChanged` on the same two streams. `FindAdded` reads both to the end, so `FindChanged` reads two empty dictionaries. | `a` = "[k]" / "u", `b` = "[k]" / "v" with u ≠ v: the result is empty | The added entries followed by the changed ones (here `[k: v]`), as the dictionary and map versions do | not executed | LawnStringsPlain.FindFullDiff, LawnStringsPlainFacts.FullDiffMissesChange | LawnStringsPlain.FindFullDiffRewound |
