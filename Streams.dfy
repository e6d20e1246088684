/** The two stream ends the plain-text codec works on, reduced to lines. A
    reader hands out decoded lines one at a time; a writer records the lines
    written to it. Byte encodings and line splitting are not modelled. */
module Streams {
  import opened Wrappers

  class LineReader {
    /** The lines of the whole stream. */
    var lines: seq<string>
    /** How many lines have been read. */
    var pos: nat
    /** The capacity `MemoryManager.GetBufferSize` suggests for this stream. */
    const bufferSize: nat

    ghost predicate Valid()
      reads this
    {
      pos <= |lines|
    }

    constructor (lines: seq<string>, bufferSize: nat)
      ensures Valid()
      ensures this.lines == lines && pos == 0 && this.bufferSize == bufferSize
    {
      this.lines := lines;
      pos := 0;
      this.bufferSize := bufferSize;
    }

    /** `ReadLine`: the next line, or null at the end of the stream. */
    method ReadLine() returns (line: Option<string>)
      requires Valid()
      modifies this
      ensures Valid() && lines == old(lines)
      ensures old(pos) < |lines| ==> line == Some(lines[old(pos)]) && pos == old(pos) + 1
      ensures old(pos) == |lines| ==> line == None && pos == old(pos)
    {
      if pos < |lines| {
        line := Some(lines[pos]);
        pos := pos + 1;
      } else {
        line := None;
      }
    }

    /** Seeking back to an earlier position. */
    method Rewind(to: nat)
      requires to <= |lines|
      modifies this
      ensures Valid() && lines == old(lines) && pos == to
    {
      pos := to;
    }
  }

  class LineWriter {
    /** Every line written so far, without its terminator. */
    var lines: seq<string>

    constructor ()
      ensures lines == []
    {
      lines := [];
    }

    /** `WriteLine`: one more line. */
    method WriteLine(line: string)
      modifies this
      ensures lines == old(lines) + [line]
    {
      lines := lines + [line];
    }
  }
}
