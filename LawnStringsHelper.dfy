/** The helper class at the root of the repository: value cleaning for the
    plain-text writer, the file-extension and encoding tables, and the
    `char.IsDigit` variant of the alphanumeric ordering. */
module LawnStringsHelper {
  import opened LawnStringsTypes
  import LawnStringsComparer

  /** `GetEncoding`: UTF16 stays UTF16, every other flag is read as UTF8. */
  function GetEncoding(flags: LawnStringsEncoding): (r: EncodingType)
    ensures r == EncodingType.UTF16 <==> flags == LawnStringsEncoding.UTF16
  {
    match flags
    case UTF16 => EncodingType.UTF16
    case _ => EncodingType.UTF8
  }

  /** `GetExtension`: the file extension a format is written with. */
  function GetExtension(sourceFormat: LawnStringsFormat): (r: string)
    ensures r == ".json" <==> sourceFormat == JsonList || sourceFormat == JsonMap
    ensures r == ".rton" <==> sourceFormat == RtonList || sourceFormat == RtonMap
    ensures r == ".txt" <==> sourceFormat == PlainText
  {
    match sourceFormat
    case JsonList | JsonMap => ".json"
    case RtonList | RtonMap => ".rton"
    case _ => ".txt"
  }

  // ---------------------------------------------------------------------------
  // CleanLine
  // ---------------------------------------------------------------------------

  /** The scan of `CleanLine` before the terminator, from position `i`: a
      backslash followed by `n` becomes one line feed, a carriage return is
      dropped, and every other character is copied. */
  function UnescapeFrom(s: string, i: nat): string
    requires i <= |s|
    decreases |s| - i
  {
    if i == |s| then []
    else if s[i] == '\\' && i + 1 < |s| && s[i + 1] == 'n' then "\n" + UnescapeFrom(s, i + 2)
    else if s[i] == '\r' then UnescapeFrom(s, i + 1)
    else [s[i]] + UnescapeFrom(s, i + 1)
  }

  function Unescape(s: string): string {
    UnescapeFrom(s, 0)
  }

  /** The cleaned value: the unescaped text, with a line feed appended unless
      it already ends with one. */
  function Cleaned(src: string): (r: string)
    ensures |r| > 0 && r[|r| - 1] == '\n'
    ensures Unescape(src) <= r && |r| <= |Unescape(src)| + 1
  {
    var u := Unescape(src);
    if u == [] || u[|u| - 1] != '\n' then u + "\n" else u
  }

  /** `CleanLine`: fill a buffer of `src.Length + 1` characters with write
      index `j`, terminate it, then shrink it to the `j` characters written. */
  method CleanLine(src: string) returns (cleanStr: array<char>)
    ensures fresh(cleanStr)
    ensures cleanStr[..] == Cleaned(src)
  {
    var buffer := new char[|src| + 1];
    var j := CopyUnescaped(src, buffer);
    ghost var u := buffer[..j];
    if j == 0 || buffer[j - 1] != '\n' {
      assert j == 0 || buffer[j - 1] == u[j - 1];
      Put(buffer, j, '\n', []);
      j := j + 1;
    } else {
      assert u[|u| - 1] == '\n';
    }
    cleanStr := Realloc(buffer, j);
  }

  /** The copying loop of `CleanLine`: write the unescaped `src` at the front
      of `buffer` and return how many characters were written. */
  method CopyUnescaped(src: string, buffer: array<char>) returns (j: nat)
    requires buffer.Length == |src| + 1
    modifies buffer
    ensures j <= |src|
    ensures buffer[..j] == Unescape(src)
  {
    j := 0;
    var i := 0;
    while i < |src|
      invariant 0 <= j <= i <= |src|
      invariant buffer[..j] + UnescapeFrom(src, i) == Unescape(src)
      decreases |src| - i
    {
      if src[i] == '\\' && i + 1 < |src| && src[i + 1] == 'n' {
        Put(buffer, j, '\n', UnescapeFrom(src, i + 2));
        j := j + 1;
        i := i + 1;
      } else if src[i] == '\r' {
        i := i + 1;
        continue;
      } else {
        Put(buffer, j, src[i], UnescapeFrom(src, i + 1));
        j := j + 1;
      }
      i := i + 1;
    }
    assert buffer[..j] == Unescape(src) + [];
  }

  /** `cleanStr[j++] = c`, stated for the text `rest` still to be written. */
  method Put(buffer: array<char>, j: nat, c: char, ghost rest: string)
    requires j < buffer.Length
    modifies buffer
    ensures buffer[..j + 1] + rest == old(buffer[..j]) + ([c] + rest)
    ensures buffer[..j + 1] == old(buffer[..j]) + [c]
  {
    buffer[j] := c;
    assert buffer[..j + 1] == old(buffer[..j]) + [c];
  }

  /** `Realloc`: a buffer holding the first `n` characters of `buffer`. */
  method Realloc(buffer: array<char>, n: nat) returns (r: array<char>)
    requires n <= buffer.Length
    ensures fresh(r)
    ensures r[..] == buffer[..n]
  {
    r := new char[n](k requires 0 <= k < n reads buffer => buffer[k]);
  }

  /** The cleaned value never contains a carriage return. */
  lemma {:induction false} UnescapeDropsCarriageReturns(s: string, i: nat)
    requires i <= |s|
    ensures '\r' !in UnescapeFrom(s, i)
    decreases |s| - i
  {
    if i == |s| {
    } else if s[i] == '\\' && i + 1 < |s| && s[i + 1] == 'n' {
      UnescapeDropsCarriageReturns(s, i + 2);
    } else {
      UnescapeDropsCarriageReturns(s, i + 1);
    }
  }

  lemma CleanedHasNoCarriageReturn(src: string)
    ensures '\r' !in Cleaned(src)
  {
    UnescapeDropsCarriageReturns(src, 0);
  }

  /** Unescaping never lengthens the text. */
  lemma {:induction false} UnescapeShorter(s: string, i: nat)
    requires i <= |s|
    ensures |UnescapeFrom(s, i)| <= |s| - i
    decreases |s| - i
  {
    if i == |s| {
    } else if s[i] == '\\' && i + 1 < |s| && s[i + 1] == 'n' {
      UnescapeShorter(s, i + 2);
    } else {
      UnescapeShorter(s, i + 1);
    }
  }

  /** Every write of `CleanLine` stays inside its `src.Length + 1` buffer. */
  lemma CleanedFitsBuffer(src: string)
    ensures |Cleaned(src)| <= |src| + 1
  {
    UnescapeShorter(src, 0);
  }

  /** Text without backslashes or carriage returns passes through unchanged. */
  lemma {:induction false} UnescapeIdentity(s: string, i: nat)
    requires i <= |s|
    requires '\\' !in s && '\r' !in s
    ensures UnescapeFrom(s, i) == s[i..]
    decreases |s| - i
  {
    if i < |s| {
      assert s[i] in s;
      UnescapeIdentity(s, i + 1);
      assert s[i..] == [s[i]] + s[i + 1..];
    }
  }

  /** Such text is only terminated: `src`, plus a line feed unless it already
      ends with one. */
  lemma CleanedIdentity(src: string)
    requires '\\' !in src && '\r' !in src
    ensures Cleaned(src) == if src != [] && src[|src| - 1] == '\n' then src else src + "\n"
  {
    UnescapeIdentity(src, 0);
    assert src[0..] == src;
  }

  /** Concrete cleanings. */
  lemma CleanedExamples()
    ensures Cleaned("a\\nb") == "a\nb\n"
    ensures Cleaned("a\r\n") == "a\n"
    ensures Cleaned("") == "\n"
    ensures Cleaned("a\\") == "a\\\n"
  {
    var s1 := "a\\nb";
    assert UnescapeFrom(s1, 3) == "b" && UnescapeFrom(s1, 1) == "\nb";
    assert Unescape(s1) == "a\nb";
    var s2 := "a\r\n";
    assert UnescapeFrom(s2, 2) == "\n" && UnescapeFrom(s2, 1) == "\n";
    assert Unescape(s2) == "a\n";
    var s4 := "a\\";
    assert UnescapeFrom(s4, 1) == "\\";
    assert Unescape(s4) == "a\\";
  }

  // ---------------------------------------------------------------------------
  // AlphanumCompare with char.IsDigit
  // ---------------------------------------------------------------------------

  /** `AlphanumCompare`: the same cursor scan as the comparer's, with the digit
      test `char.IsDigit` given as `isDigit`. */
  method AlphanumCompare(x: string, y: string, isDigit: char -> bool) returns (r: int)
    ensures r == LawnStringsComparer.NaturalCompare(x, y, isDigit)
  {
    var ix: nat, iy: nat := 0, 0;
    while ix < |x| && iy < |y|
      invariant ix <= |x| && iy <= |y|
      invariant LawnStringsComparer.NaturalCompareFrom(x, y, ix, iy, isDigit)
             == LawnStringsComparer.NaturalCompare(x, y, isDigit)
      decreases |x| - ix + |y| - iy
    {
      if isDigit(x[ix]) && isDigit(y[iy]) {
        var numX, numY;
        ix, numX := LawnStringsComparer.ReadRun(x, ix, isDigit);
        iy, numY := LawnStringsComparer.ReadRun(y, iy, isDigit);
        var numCompare := LawnStringsComparer.CompareInt(numX, numY);
        if numCompare != 0 {
          return numCompare;
        }
      } else {
        var cmp := LawnStringsComparer.CompareChar(x[ix], y[iy]);
        if cmp != 0 {
          return cmp;
        }
        ix, iy := ix + 1, iy + 1;
      }
    }
    r := LawnStringsComparer.CompareInt(|x|, |y|);
  }

  predicate IsAscii(s: string) {
    forall k :: 0 <= k < |s| ==> s[k] < '\U{80}'
  }

  /** A digit test that agrees with the ASCII one on ASCII characters, as
      `char.IsDigit` does. */
  ghost predicate AgreesOnAscii(isDigit: char -> bool) {
    forall c: char :: c < '\U{80}' ==> (isDigit(c) <==> LawnStringsComparer.IsDigit(c))
  }

  lemma {:induction false} RunEndAgrees(s: string, i: nat, isDigit: char -> bool)
    requires i <= |s| && IsAscii(s) && AgreesOnAscii(isDigit)
    ensures LawnStringsComparer.RunEnd(s, i, isDigit) == LawnStringsComparer.RunEnd(s, i, LawnStringsComparer.IsDigit)
    decreases |s| - i
  {
    if i < |s| {
      assert isDigit(s[i]) == LawnStringsComparer.IsDigit(s[i]);
      RunEndAgrees(s, i + 1, isDigit);
    }
  }

  lemma {:induction false} CompareFromAgrees(x: string, y: string, i: nat, j: nat, isDigit: char -> bool)
    requires i <= |x| && j <= |y|
    requires IsAscii(x) && IsAscii(y) && AgreesOnAscii(isDigit)
    ensures LawnStringsComparer.NaturalCompareFrom(x, y, i, j, isDigit)
         == LawnStringsComparer.NaturalCompareFrom(x, y, i, j, LawnStringsComparer.IsDigit)
    decreases |x| - i + |y| - j, 1
  {
    if i < |x| && j < |y| {
      assert isDigit(x[i]) == LawnStringsComparer.IsDigit(x[i]);
      assert isDigit(y[j]) == LawnStringsComparer.IsDigit(y[j]);
      if isDigit(x[i]) && isDigit(y[j]) {
        DigitCaseAgrees(x, y, i, j, isDigit);
      } else {
        CompareFromAgrees(x, y, i + 1, j + 1, isDigit);
        CharStepAgrees(x, y, i, j, isDigit);
      }
    }
  }

  /** The digit-run case of `CompareFromAgrees`. */
  lemma {:induction false} DigitCaseAgrees(x: string, y: string, i: nat, j: nat, isDigit: char -> bool)
    requires i < |x| && j < |y| && isDigit(x[i]) && isDigit(y[j])
    requires IsAscii(x) && IsAscii(y) && AgreesOnAscii(isDigit)
    ensures LawnStringsComparer.NaturalCompareFrom(x, y, i, j, isDigit)
         == LawnStringsComparer.NaturalCompareFrom(x, y, i, j, LawnStringsComparer.IsDigit)
    decreases |x| - i + |y| - j, 0
  {
    assert isDigit(x[i]) == LawnStringsComparer.IsDigit(x[i]);
    assert isDigit(y[j]) == LawnStringsComparer.IsDigit(y[j]);
    var ei := LawnStringsComparer.RunEnd(x, i, isDigit);
    var ej := LawnStringsComparer.RunEnd(y, j, isDigit);
    RunEndAgrees(x, i, isDigit);
    RunEndAgrees(y, j, isDigit);
    CompareFromAgrees(x, y, ei, ej, isDigit);
    DigitStepAgrees(x, y, i, j, ei, ej, isDigit);
  }

  /** One digit-run step of the two orderings, when the run ends agree and
      so do the comparisons after the runs. */
  lemma DigitStepAgrees(x: string, y: string, i: nat, j: nat, ei: nat, ej: nat, isDigit: char -> bool)
    requires i < |x| && j < |y| && isDigit(x[i]) && isDigit(y[j])
    requires LawnStringsComparer.IsDigit(x[i]) && LawnStringsComparer.IsDigit(y[j])
    requires ei == LawnStringsComparer.RunEnd(x, i, isDigit) == LawnStringsComparer.RunEnd(x, i, LawnStringsComparer.IsDigit)
    requires ej == LawnStringsComparer.RunEnd(y, j, isDigit) == LawnStringsComparer.RunEnd(y, j, LawnStringsComparer.IsDigit)
    requires LawnStringsComparer.NaturalCompareFrom(x, y, ei, ej, isDigit)
          == LawnStringsComparer.NaturalCompareFrom(x, y, ei, ej, LawnStringsComparer.IsDigit)
    ensures LawnStringsComparer.NaturalCompareFrom(x, y, i, j, isDigit)
         == LawnStringsComparer.NaturalCompareFrom(x, y, i, j, LawnStringsComparer.IsDigit)
  {
  }

  /** One character step of the two orderings, when neither sees two digits
      and the comparisons after the characters agree. */
  lemma CharStepAgrees(x: string, y: string, i: nat, j: nat, isDigit: char -> bool)
    requires i < |x| && j < |y| && !(isDigit(x[i]) && isDigit(y[j]))
    requires !(LawnStringsComparer.IsDigit(x[i]) && LawnStringsComparer.IsDigit(y[j]))
    requires LawnStringsComparer.NaturalCompareFrom(x, y, i + 1, j + 1, isDigit)
          == LawnStringsComparer.NaturalCompareFrom(x, y, i + 1, j + 1, LawnStringsComparer.IsDigit)
    ensures LawnStringsComparer.NaturalCompareFrom(x, y, i, j, isDigit)
         == LawnStringsComparer.NaturalCompareFrom(x, y, i, j, LawnStringsComparer.IsDigit)
  {
  }

  /** On ASCII-only inputs both copies of the ordering return the same value. */
  lemma AsciiAgreement(x: string, y: string, isDigit: char -> bool)
    requires IsAscii(x) && IsAscii(y) && AgreesOnAscii(isDigit)
    ensures LawnStringsComparer.NaturalCompare(x, y, isDigit)
         == LawnStringsComparer.NaturalCompare(x, y, LawnStringsComparer.IsDigit)
  {
    CompareFromAgrees(x, y, 0, 0, isDigit);
  }
}
