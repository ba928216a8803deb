/**
  How `list` cuts its output into chat messages: lines accumulate in a
  buffer, the buffer is yielded as soon as it grows past 1800 characters,
  and whatever remains (possibly nothing) is yielded at the end.
 */
module Paging {
  import opened Text

  /** A buffer longer than this is sent. */
  const FlushAbove: nat := 1800

  /** The chunks yielded for `lines` when the buffer already holds `buffer`. */
  function Chunked(lines: seq<string>, buffer: string): (chunks: seq<string>)
    ensures |chunks| >= 1
    decreases |lines|
  {
    if lines == [] then [buffer]
    else
      var grown := buffer + lines[0];
      if |grown| > FlushAbove then [grown] + Chunked(lines[1..], "")
      else Chunked(lines[1..], grown)
  }

  /** One turn of the loop: the line at `i` joins the buffer, which is sent if it is now over the limit. */
  lemma ChunkedStep(lines: seq<string>, i: nat, buffer: string)
    requires i < |lines|
    ensures Chunked(lines[i..], buffer) ==
      if |buffer + lines[i]| > FlushAbove then [buffer + lines[i]] + Chunked(lines[i + 1..], "")
      else Chunked(lines[i + 1..], buffer + lines[i])
  {
    assert lines[i..][1..] == lines[i + 1..];
  }

  /** The generator loop of `list`: grow the buffer line by line, send it once it is over the limit, send the rest at the end. */
  method ChunkLines(lines: seq<string>) returns (chunks: seq<string>)
    ensures chunks == Chunked(lines, "")
    ensures Concat(chunks) == Concat(lines)
    ensures |chunks[|chunks| - 1]| <= FlushAbove
    ensures forall k :: 0 <= k < |chunks| - 1 ==> |chunks[k]| > FlushAbove
  {
    chunks := [];
    var buffer := "";
    for i := 0 to |lines|
      invariant chunks + Chunked(lines[i..], buffer) == Chunked(lines, "")
    {
      ChunkedStep(lines, i, buffer);
      buffer := buffer + lines[i];
      if |buffer| > FlushAbove {
        assert chunks + ([buffer] + Chunked(lines[i + 1..], "")) == (chunks + [buffer]) + Chunked(lines[i + 1..], "");
        chunks := chunks + [buffer];
        buffer := "";
      }
    }
    assert lines[|lines|..] == [];
    chunks := chunks + [buffer];
    ChunkedContent(lines, "");
    assert "" + Concat(lines) == Concat(lines);
    ChunkedSizes(lines, "");
  }

  /** Nothing is lost, duplicated or reordered: the chunks spell out the buffer and then every line. */
  lemma {:induction false} ChunkedContent(lines: seq<string>, buffer: string)
    ensures Concat(Chunked(lines, buffer)) == buffer + Concat(lines)
  {
    if lines != [] {
      var grown := buffer + lines[0];
      var rest := Concat(lines[1..]);
      assert Concat(lines) == lines[0] + rest;
      if |grown| > FlushAbove {
        var tail := Chunked(lines[1..], "");
        ChunkedContent(lines[1..], "");
        assert ([grown] + tail)[1..] == tail;
        assert Concat(tail) == rest;
        assert Concat([grown] + tail) == grown + rest;
      } else {
        ChunkedContent(lines[1..], grown);
      }
      AppendAssoc(buffer, lines[0], rest);
    }
  }

  /** Every chunk sent inside the loop is over the limit; the final one is within it. */
  lemma {:induction false} ChunkedSizes(lines: seq<string>, buffer: string)
    requires |buffer| <= FlushAbove
    ensures |Chunked(lines, buffer)[|Chunked(lines, buffer)| - 1]| <= FlushAbove
    ensures forall k :: 0 <= k < |Chunked(lines, buffer)| - 1 ==> |Chunked(lines, buffer)[k]| > FlushAbove
  {
    if lines != [] {
      var grown := buffer + lines[0];
      if |grown| > FlushAbove {
        ChunkedSizes(lines[1..], "");
      } else {
        ChunkedSizes(lines[1..], grown);
      }
    }
  }

  /** `chunk` ends with `line`, and what precedes that line is within the limit. */
  predicate OverflowsBy(chunk: string, line: string)
  {
    |line| <= |chunk| && chunk[|chunk| - |line|..] == line && |chunk| - |line| <= FlushAbove
  }

  /** The index of the line that ends chunk `k`, a chunk sent inside the loop. */
  function EndLine(lines: seq<string>, buffer: string, k: nat): (j: nat)
    requires k < |Chunked(lines, buffer)| - 1
    ensures j < |lines|
    decreases |lines|
  {
    var grown := buffer + lines[0];
    if |grown| > FlushAbove then
      if k == 0 then 0 else EndLine(lines[1..], "", k - 1) + 1
    else EndLine(lines[1..], grown, k) + 1
  }

  /** `Concat` of a prefix of at least two lines, one line peeled off the front. */
  lemma ConcatPrefixCons(lines: seq<string>, j: nat)
    requires j + 1 < |lines|
    ensures Concat(lines[..j + 2]) == lines[0] + Concat(lines[1..][..j + 1])
  {
    assert lines[..j + 2][1..] == lines[1..][..j + 1];
  }

  /** The output up to and including chunk `k` ends exactly after line `EndLine(lines, buffer, k)`. */
  lemma {:induction false} ChunkEndsAtLine(lines: seq<string>, buffer: string, k: nat)
    requires k < |Chunked(lines, buffer)| - 1
    ensures Concat(Chunked(lines, buffer)[..k + 1]) == buffer + Concat(lines[..EndLine(lines, buffer, k) + 1])
    decreases |lines|
  {
    var grown := buffer + lines[0];
    if |grown| > FlushAbove {
      if k == 0 {
        FirstChunkEndsAtLine(lines, buffer);
      } else {
        ChunkEndsAtLine(lines[1..], "", k - 1);
        FlushedChunkEndsAtLine(lines, buffer, k);
      }
    } else {
      ChunkEndsAtLine(lines[1..], grown, k);
      KeptChunkEndsAtLine(lines, buffer, k);
    }
  }

  /** The first line overflows the buffer: the first chunk is the buffer and that line. */
  lemma FirstChunkEndsAtLine(lines: seq<string>, buffer: string)
    requires lines != [] && |buffer + lines[0]| > FlushAbove
    ensures 0 < |Chunked(lines, buffer)| - 1
    ensures Concat(Chunked(lines, buffer)[..1]) == buffer + Concat(lines[..EndLine(lines, buffer, 0) + 1])
  {
    var grown := buffer + lines[0];
    var chunks := Chunked(lines, buffer);
    assert chunks == [grown] + Chunked(lines[1..], "");
    assert EndLine(lines, buffer, 0) == 0;
    assert chunks[..1] == [grown];
    assert lines[..1] == [lines[0]];
    ConcatOne(grown);
    ConcatOne(lines[0]);
  }

  /** The first line overflows the buffer: chunk `k > 0` is chunk `k - 1` of the remaining lines. */
  lemma FlushedChunkEndsAtLine(lines: seq<string>, buffer: string, k: nat)
    requires lines != [] && |buffer + lines[0]| > FlushAbove
    requires 0 < k < |Chunked(lines, buffer)| - 1
    requires Concat(Chunked(lines[1..], "")[..k]) == "" + Concat(lines[1..][..EndLine(lines[1..], "", k - 1) + 1])
    ensures Concat(Chunked(lines, buffer)[..k + 1]) == buffer + Concat(lines[..EndLine(lines, buffer, k) + 1])
  {
    var grown := buffer + lines[0];
    var tail := Chunked(lines[1..], "");
    var chunks := Chunked(lines, buffer);
    var j' := EndLine(lines[1..], "", k - 1);
    var before := Concat(lines[1..][..j' + 1]);
    assert chunks == [grown] + tail;
    assert EndLine(lines, buffer, k) == j' + 1;
    assert chunks[..k + 1] == [grown] + tail[..k];
    assert Concat(chunks[..k + 1]) == grown + Concat(tail[..k]);
    assert Concat(tail[..k]) == before;
    ConcatPrefixCons(lines, j');
    AppendAssoc(buffer, lines[0], before);
  }

  /** The first line stays in the buffer: chunk `k` is chunk `k` of the remaining lines with the grown buffer. */
  lemma KeptChunkEndsAtLine(lines: seq<string>, buffer: string, k: nat)
    requires lines != [] && |buffer + lines[0]| <= FlushAbove
    requires k < |Chunked(lines, buffer)| - 1
    requires Concat(Chunked(lines[1..], buffer + lines[0])[..k + 1])
      == (buffer + lines[0]) + Concat(lines[1..][..EndLine(lines[1..], buffer + lines[0], k) + 1])
    ensures Concat(Chunked(lines, buffer)[..k + 1]) == buffer + Concat(lines[..EndLine(lines, buffer, k) + 1])
  {
    var grown := buffer + lines[0];
    var j' := EndLine(lines[1..], grown, k);
    var before := Concat(lines[1..][..j' + 1]);
    assert Chunked(lines, buffer) == Chunked(lines[1..], grown);
    assert EndLine(lines, buffer, k) == j' + 1;
    ConcatPrefixCons(lines, j');
    AppendAssoc(buffer, lines[0], before);
  }

  /** Chunk `k` ends with line `EndLine(lines, buffer, k)`, and was within the limit before it. */
  lemma {:induction false} ChunkOverflowsByEndLine(lines: seq<string>, buffer: string, k: nat)
    requires |buffer| <= FlushAbove
    requires k < |Chunked(lines, buffer)| - 1
    ensures OverflowsBy(Chunked(lines, buffer)[k], lines[EndLine(lines, buffer, k)])
    decreases |lines|
  {
    var grown := buffer + lines[0];
    var rest := lines[1..];
    if |grown| > FlushAbove {
      if k > 0 {
        ChunkOverflowsByEndLine(rest, "", k - 1);
      }
    } else {
      ChunkOverflowsByEndLine(rest, grown, k);
    }
  }

  /**
    A chunk sent inside the loop ends exactly where some line `j` ends in the
    output, it ends with that line, and what precedes that line in the chunk
    is within the limit: the chunk went over only because of its own last line.
   */
  lemma ChunkedOverflowByOneLine(lines: seq<string>, buffer: string)
    requires |buffer| <= FlushAbove
    ensures forall k :: 0 <= k < |Chunked(lines, buffer)| - 1 ==>
      exists j :: 0 <= j < |lines|
        && Concat(Chunked(lines, buffer)[..k + 1]) == buffer + Concat(lines[..j + 1])
        && OverflowsBy(Chunked(lines, buffer)[k], lines[j])
  {
    var chunks := Chunked(lines, buffer);
    forall k | 0 <= k < |chunks| - 1
      ensures exists j :: 0 <= j < |lines| && Concat(chunks[..k + 1]) == buffer + Concat(lines[..j + 1])
                          && OverflowsBy(chunks[k], lines[j])
    {
      ChunkEndsAtLine(lines, buffer, k);
      ChunkOverflowsByEndLine(lines, buffer, k);
    }
  }
}
