/** The older copy of the helper class kept under `Helpers/`: instead of
    building the cleaned value it only counts its length, and it carries the
    same encoding and extension tables as the root copy. */
module LawnStringsHelperLegacy {
  import opened LawnStringsTypes
  import LawnStringsHelper

  /** `GetEncoding`: UTF16 stays UTF16, every other flag is read as UTF8. */
  function GetEncoding(flags: LawnStringsEncoding): (r: EncodingType)
    ensures r == EncodingType.UTF16 <==> flags == LawnStringsEncoding.UTF16
  {
    match flags
    case UTF16 => EncodingType.UTF16
    case _ => EncodingType.UTF8
  }

  /** `GetExtension`: the file extension a format is written with. */
  function GetExtension(sourceFormat: LawnStringsFormat): (r: string)
    ensures r == ".json" <==> sourceFormat == JsonList || sourceFormat == JsonMap
    ensures r == ".rton" <==> sourceFormat == RtonList || sourceFormat == RtonMap
    ensures r == ".txt" <==> sourceFormat == PlainText
  {
    match sourceFormat
    case JsonList | JsonMap => ".json"
    case RtonList | RtonMap => ".rton"
    case _ => ".txt"
  }

  /** Both copies use the same tables. */
  lemma SameTables(flags: LawnStringsEncoding, format: LawnStringsFormat)
    ensures GetEncoding(flags) == LawnStringsHelper.GetEncoding(flags)
    ensures GetExtension(format) == LawnStringsHelper.GetExtension(format)
  {
  }

  /** The value `GetCleanLength` returns: the number of characters the scan
      keeps, plus one unless that number is positive and the last character of
      the SOURCE (not of the cleaned text) is a line feed. */
  function CleanLength(src: string): (n: nat)
    ensures 1 <= n <= |src| + 1
  {
    var kept := |LawnStringsHelper.Unescape(src)|;
    LawnStringsHelper.UnescapeShorter(src, 0);
    if kept == 0 || src[|src| - 1] != '\n' then kept + 1 else kept
  }

  /** `GetCleanLength`: a counter loop over the span. */
  method GetCleanLength(src: string) returns (len: int)
    ensures len == CleanLength(src)
  {
    len := 0;
    var i := 0;
    while i < |src|
      invariant 0 <= i <= |src|
      invariant len + |LawnStringsHelper.UnescapeFrom(src, i)| == |LawnStringsHelper.Unescape(src)|
      decreases |src| - i
    {
      if src[i] == '\\' && i + 1 < |src| && src[i + 1] == 'n' {
        len := len + 1;
        i := i + 1;
      } else if src[i] == '\r' {
        i := i + 1;
        continue;
      } else {
        len := len + 1;
      }
      i := i + 1;
    }
    if len == 0 || src[|src| - 1] != '\n' {
      len := len + 1;
    }
  }

  /** The empty span counts one: the short-circuit never reads `src[^1]`. */
  lemma EmptyCountsOne()
    ensures CleanLength("") == 1
  {
  }

  /** Without a carriage return, and with the last character not taken by an
      escape, the last kept character is the last character of the source. */
  lemma {:induction false} LastCharKept(s: string, i: nat)
    requires i < |s| && '\r' !in s
    requires !(|s| >= 2 && s[|s| - 2] == '\\' && s[|s| - 1] == 'n')
    ensures var u := LawnStringsHelper.UnescapeFrom(s, i); |u| > 0 && u[|u| - 1] == s[|s| - 1]
    decreases |s| - i
  {
    assert s[i] in s;
    var u := LawnStringsHelper.UnescapeFrom(s, i);
    if s[i] == '\\' && i + 1 < |s| && s[i + 1] == 'n' {
      assert i + 2 < |s|;
      LastCharKept(s, i + 2);
      assert u == "\n" + LawnStringsHelper.UnescapeFrom(s, i + 2);
    } else if i + 1 < |s| {
      LastCharKept(s, i + 1);
      assert u == [s[i]] + LawnStringsHelper.UnescapeFrom(s, i + 1);
    } else {
      assert LawnStringsHelper.UnescapeFrom(s, i + 1) == [];
      assert u == [s[i]];
    }
  }

  /** The two copies agree on the length whenever `src` has no carriage return
      and does not end with a backslash-n escape. */
  lemma CleanLengthMatchesCleanLine(src: string)
    requires '\r' !in src
    requires !(|src| >= 2 && src[|src| - 2] == '\\' && src[|src| - 1] == 'n')
    ensures CleanLength(src) == |LawnStringsHelper.Cleaned(src)|
  {
    if src != [] {
      LastCharKept(src, 0);
    }
  }

  /** Where they differ: "a\\n" cleans to "a" plus one line feed, two
      characters, but the count looks at the source's last character, `n`, and
      adds the terminator again. */
  lemma TrailingEscapeCountsThree()
    ensures CleanLength("a\\n") == 3
    ensures |LawnStringsHelper.Cleaned("a\\n")| == 2
  {
  }
}
