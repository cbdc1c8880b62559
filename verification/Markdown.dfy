/**
 * packages/storage/src/tables/memories.ts, chunkMarkdown
 *
 * A text is cut, line by line, into chunks that overlap: each new chunk starts with the
 * tail of the previous one. The search over stored memories works on these chunks, and the
 * line numbers of a chunk lead back to its place in the text; so it matters that nothing
 * is lost between two chunks, that the numbers are those of the lines that the chunk ends
 * with, and how long a chunk can get.
 */
module Markdown {
  import opened Prelude
  import Text

  datatype Chunk = Chunk(text: string, startLine: nat, endLine: nat)

  /** `s.slice(-n)`. Note that `slice(-0)` is the whole string. */
  function Tail(s: string, n: nat): string {
    if n == 0 || n >= |s| then s else s[|s| - n..]
  }

  function MaxZero(x: int): nat { if x < 0 then 0 else x }

  function AddLine(s: string, line: string): string { s + "\n" + line }

  /** The loop from line `i` on. */
  function Chunks(lines: seq<string>, maxChars: nat, overlapChars: nat, i: nat, current: string, startLine: nat): seq<Chunk>
    requires 0 < |lines| && i <= |lines| && (current != [] ==> i > 0)
    decreases |lines| - i
  {
    if i == |lines| then
      if |current| > 0 then [Chunk(current, startLine, |lines| - 1)] else []
    else
      var extended := if |current| == 0 then lines[i] else AddLine(current, lines[i]);
      if |extended| > maxChars && |current| > 0 then
        var carry := Tail(current, overlapChars);
        [Chunk(current, startLine, i - 1)]
        + Chunks(lines, maxChars, overlapChars, i + 1, AddLine(carry, lines[i]), MaxZero(i - Text.CountOf(carry, '\n')))
      else Chunks(lines, maxChars, overlapChars, i + 1, extended, startLine)
  }

  lemma ChunksEnd(lines: seq<string>, maxChars: nat, overlapChars: nat, current: string, startLine: nat)
    requires 0 < |lines|
    ensures Chunks(lines, maxChars, overlapChars, |lines|, current, startLine)
         == if current != [] then [Chunk(current, startLine, |lines| - 1)] else []
  {
  }

  lemma ChunksExtend(lines: seq<string>, maxChars: nat, overlapChars: nat, i: nat, current: string, startLine: nat)
    requires i < |lines| && (current != [] ==> i > 0 && |AddLine(current, lines[i])| <= maxChars)
    ensures Chunks(lines, maxChars, overlapChars, i, current, startLine)
         == Chunks(lines, maxChars, overlapChars, i + 1, if current == [] then lines[i] else AddLine(current, lines[i]), startLine)
  {
  }

  lemma ChunksCut(lines: seq<string>, maxChars: nat, overlapChars: nat, i: nat, current: string, startLine: nat)
    requires 0 < i < |lines| && current != [] && |AddLine(current, lines[i])| > maxChars
    ensures var carry := Tail(current, overlapChars);
            Chunks(lines, maxChars, overlapChars, i, current, startLine)
            == [Chunk(current, startLine, i - 1)]
               + Chunks(lines, maxChars, overlapChars, i + 1, AddLine(carry, lines[i]), MaxZero(i - Text.CountOf(carry, '\n')))
  {
  }

  function ChunksOf(text: string, maxTokens: nat, overlap: nat): seq<Chunk> {
    Chunks(Text.Split(text, '\n'), maxTokens * 4, overlap * 4, 0, [], 0)
  }

  method ChunkMarkdown(text: string, maxTokens: nat := 512, overlap: nat := 64) returns (chunks: seq<Chunk>)
    ensures chunks == ChunksOf(text, maxTokens, overlap)
  {
    hide Chunks;
    var maxChars := maxTokens * 4;
    var overlapChars := overlap * 4;
    var lines := Text.Split(text, '\n');
    chunks := [];
    var currentChunk := "";
    var startLine := 0;
    var i := 0;
    ghost var all := Chunks(lines, maxChars, overlapChars, 0, [], 0);
    assert chunks + all == all;
    while i < |lines|
      invariant i <= |lines| && (currentChunk != [] ==> i > 0)
      invariant all == chunks + Chunks(lines, maxChars, overlapChars, i, currentChunk, startLine)
    {
      var line := lines[i];
      var addition := if |currentChunk| == 0 then line else "\n" + line;
      assert currentChunk + addition == if |currentChunk| == 0 then line else AddLine(currentChunk, line);
      if |currentChunk| + |addition| > maxChars && |currentChunk| > 0 {
        ChunksCut(lines, maxChars, overlapChars, i, currentChunk, startLine);
        chunks := chunks + [Chunk(currentChunk, startLine, i - 1)];
        var carry := Tail(currentChunk, overlapChars);
        var carryNewlines := Text.CountOf(carry, '\n');
        startLine := MaxZero(i - carryNewlines);
        currentChunk := carry + "\n" + line;
      } else {
        ChunksExtend(lines, maxChars, overlapChars, i, currentChunk, startLine);
        currentChunk := currentChunk + addition;
      }
      i := i + 1;
    }
    ChunksEnd(lines, maxChars, overlapChars, currentChunk, startLine);
    if |currentChunk| > 0 {
      chunks := chunks + [Chunk(currentChunk, startLine, |lines| - 1)];
    }
  }

  // ----- Nothing is lost ---------------------------------------------------------------------

  function Drop(s: string, n: nat): string { if n <= |s| then s[n..] else [] }

  /** Drop from each later chunk what it carried over from the one before, and concatenate. */
  function Reassemble(chunks: seq<Chunk>, overlapChars: nat, carried: nat): string {
    if chunks == [] then []
    else Drop(chunks[0].text, carried) + Reassemble(chunks[1..], overlapChars, |Tail(chunks[0].text, overlapChars)|)
  }

  function StripNewlines(s: string): string {
    if s != [] && s[0] == '\n' then StripNewlines(s[1..]) else s
  }

  /** Lines `i` and later, each after its newline. */
  function Rest(lines: seq<string>, i: nat): string
    decreases |lines| - i
  {
    if i >= |lines| then [] else "\n" + lines[i] + Rest(lines, i + 1)
  }

  lemma {:induction false} JoinIsRest(lines: seq<string>)
    requires |lines| > 0
    ensures Text.Join(lines, '\n') == lines[0] + Rest(lines, 1)
  {
    if |lines| > 1 {
      JoinIsRest(lines[1..]);
      RestShift(lines, 1);
    }
  }

  lemma {:induction false} RestShift(lines: seq<string>, i: nat)
    requires |lines| > 0
    ensures Rest(lines[1..], i) == Rest(lines, i + 1)
    decreases |lines| - i
  {
    if i + 1 < |lines| {
      RestShift(lines, i + 1);
    }
  }

  lemma ReassembleCons(c: Chunk, rest: seq<Chunk>, overlapChars: nat, carried: nat)
    ensures Reassemble([c] + rest, overlapChars, carried)
         == Drop(c.text, carried) + Reassemble(rest, overlapChars, |Tail(c.text, overlapChars)|)
  {
    assert ([c] + rest)[1..] == rest;
  }

  /** Once a chunk is under way, its new part and all later lines come back. */
  lemma {:induction false} ReassembleRunning(lines: seq<string>, maxChars: nat, overlapChars: nat, i: nat, current: string, startLine: nat, carried: nat)
    requires 0 < i <= |lines| && current != [] && carried <= |current|
    ensures Reassemble(Chunks(lines, maxChars, overlapChars, i, current, startLine), overlapChars, carried)
         == current[carried..] + Rest(lines, i)
    decreases |lines| - i
  {
    hide Chunks, Reassemble, AddLine, Tail;
    var first := Chunk(current, startLine, i - 1);
    if i == |lines| {
      ChunksEnd(lines, maxChars, overlapChars, current, startLine);
      ReassembleOne(first, overlapChars, carried);
    } else if |AddLine(current, lines[i])| > maxChars {
      var carry := Tail(current, overlapChars);
      var start := MaxZero(i - Text.CountOf(carry, '\n'));
      var next := AddLine(carry, lines[i]);
      ChunksCut(lines, maxChars, overlapChars, i, current, startLine);
      AddLineGrows(carry, lines[i]);
      ReassembleRunning(lines, maxChars, overlapChars, i + 1, next, start, |carry|);
      ReassembleCons(first, Chunks(lines, maxChars, overlapChars, i + 1, next, start), overlapChars, carried);
      RegroupRest(carry, lines[i], |carry|, Rest(lines, i + 1));
      assert carry[|carry|..] + Rest(lines, i) == Rest(lines, i);
    } else {
      ChunksExtend(lines, maxChars, overlapChars, i, current, startLine);
      AddLineGrows(current, lines[i]);
      ReassembleRunning(lines, maxChars, overlapChars, i + 1, AddLine(current, lines[i]), startLine, carried);
      RegroupRest(current, lines[i], carried, Rest(lines, i + 1));
    }
  }

  lemma ReassembleOne(c: Chunk, overlapChars: nat, carried: nat)
    requires carried <= |c.text|
    ensures Reassemble([c], overlapChars, carried) == c.text[carried..] + []
  {
    ReassembleCons(c, [], overlapChars, carried);
    assert [c] + [] == [c];
  }

  lemma AddLineGrows(s: string, line: string)
    ensures AddLine(s, line) != [] && |AddLine(s, line)| == |s| + 1 + |line|
  {
  }

  lemma RegroupRest(s: string, line: string, carried: nat, rest: string)
    requires carried <= |s|
    ensures AddLine(s, line)[carried..] + rest == s[carried..] + ("\n" + line + rest)
  {
  }

  /** Before the first character, empty lines leave no trace. */
  lemma {:induction false} ReassembleFromStart(lines: seq<string>, maxChars: nat, overlapChars: nat, i: nat)
    requires i < |lines| && forall j :: 0 <= j < |lines| ==> '\n' !in lines[j]
    ensures Reassemble(Chunks(lines, maxChars, overlapChars, i, [], 0), overlapChars, 0)
         == StripNewlines(lines[i] + Rest(lines, i + 1))
    decreases |lines| - i
  {
    hide Chunks, Reassemble, StripNewlines;
    var line := lines[i];
    ChunksExtend(lines, maxChars, overlapChars, i, [], 0);
    if line != [] {
      ReassembleRunning(lines, maxChars, overlapChars, i + 1, line, 0, 0);
      NothingToStrip(line, Rest(lines, i + 1));
    } else if i + 1 < |lines| {
      ReassembleFromStart(lines, maxChars, overlapChars, i + 1);
      EmptyLineStripped(lines[i + 1] + Rest(lines, i + 2));
      assert line + Rest(lines, i + 1) == "\n" + (lines[i + 1] + Rest(lines, i + 2));
    } else {
      AllStripped(lines, maxChars, overlapChars);
      assert line + Rest(lines, i + 1) == [];
    }
  }

  lemma AllStripped(lines: seq<string>, maxChars: nat, overlapChars: nat)
    requires 0 < |lines|
    ensures Reassemble(Chunks(lines, maxChars, overlapChars, |lines|, [], 0), overlapChars, 0) == StripNewlines([])
  {
  }

  lemma NothingToStrip(line: string, rest: string)
    requires line != [] && '\n' !in line
    ensures StripNewlines(line + rest) == line[0..] + rest
  {
    assert line[0] in line && (line + rest)[0] == line[0] && line[0..] == line;
  }

  lemma EmptyLineStripped(more: string)
    ensures StripNewlines("\n" + more) == StripNewlines(more)
  {
    assert ("\n" + more)[1..] == more;
  }

  /** The chunks give back the text without its leading newlines, whatever the sizes. */
  lemma {:induction false} Reconstructs(text: string, maxTokens: nat, overlap: nat)
    ensures Reassemble(ChunksOf(text, maxTokens, overlap), overlap * 4, 0) == StripNewlines(text)
  {
    var lines := Text.Split(text, '\n');
    Text.PiecesHaveNoSep(text, '\n');
    Text.JoinSplit(text, '\n');
    JoinIsRest(lines);
    ReassembleFromStart(lines, maxTokens * 4, overlap * 4, 0);
  }

  lemma {:induction false} StripShortens(s: string)
    ensures |StripNewlines(s)| <= |s|
  {
    if s != [] && s[0] == '\n' {
      StripShortens(s[1..]);
    }
  }

  /** Chunking is lossless exactly for texts that do not start with a newline. */
  lemma {:induction false} LosslessIff(text: string, maxTokens: nat, overlap: nat)
    ensures Reassemble(ChunksOf(text, maxTokens, overlap), overlap * 4, 0) == text
            <==> text == [] || text[0] != '\n'
  {
    Reconstructs(text, maxTokens, overlap);
    if text != [] && text[0] == '\n' {
      StripShortens(text[1..]);
    }
  }

  // ----- Line numbers --------------------------------------------------------------------------

  ghost predicate Suffix(s: string, t: string) { |s| <= |t| && t[|t| - |s|..] == s }

  function Slice(lines: seq<string>, a: nat, b: nat): string
    requires a <= b <= |lines|
  {
    Text.Join(lines[a..b], '\n')
  }

  lemma SliceSnoc(lines: seq<string>, a: nat, b: nat)
    requires a < b < |lines|
    ensures Slice(lines, a, b + 1) == AddLine(Slice(lines, a, b), lines[b])
  {
    assert lines[a..b + 1] == lines[a..b] + [lines[b]];
    Text.JoinSnoc(lines[a..b], lines[b], '\n');
  }

  lemma SliceOne(lines: seq<string>, a: nat)
    requires a < |lines|
    ensures Slice(lines, a, a + 1) == lines[a]
  {
    assert lines[a..a + 1] == [lines[a]];
  }

  lemma SuffixAddLine(s: string, t: string, line: string)
    requires Suffix(s, t)
    ensures Suffix(AddLine(s, line), AddLine(t, line))
  {
    assert t == t[..|t| - |s|] + s;
    assert AddLine(t, line) == t[..|t| - |s|] + AddLine(s, line);
  }

  lemma SuffixOfLine(s: string, line: string)
    ensures Suffix(line, AddLine(s, line))
  {
  }

  lemma SuffixTrans(r: string, s: string, t: string)
    requires Suffix(r, s) && Suffix(s, t)
    ensures Suffix(r, t)
  {
  }

  lemma {:induction false} NoNewlineCount(s: string)
    requires '\n' !in s
    ensures Text.CountOf(s, '\n') == 0
  {
    if s != [] {
      NoNewlineCount(s[1..]);
    }
  }

  /** A suffix of two joined texts lies within the second or spans the newline. */
  lemma SuffixOfLines(z: string, before: string, last: string)
    requires Suffix(z, AddLine(before, last))
    ensures |z| <= |last| ==> Suffix(z, last)
    ensures |z| > |last| ==> var y := z[..|z| - |last| - 1]; z == AddLine(y, last) && Suffix(y, before)
  {
    var all := AddLine(before, last);
    var d := |all| - |z|;
    if |z| <= |last| {
      assert all[d..] == last[|last| - |z|..];
    } else {
      assert all[d..] == AddLine(before[d..], last);
    }
  }

  /** A tail of some lines with `c` newlines ends with the last `c` lines. */
  lemma {:induction false} TailLines(lines: seq<string>, b: nat, z: string)
    requires 0 < b <= |lines| && Suffix(z, Slice(lines, 0, b))
    requires forall j :: 0 <= j < |lines| ==> '\n' !in lines[j]
    ensures Text.CountOf(z, '\n') < b
    ensures var c := Text.CountOf(z, '\n'); c > 0 ==> Suffix(Slice(lines, b - c, b), z)
    decreases b
  {
    hide Suffix, AddLine, Slice;
    var last := lines[b - 1];
    if b == 1 {
      SliceOne(lines, 0);
      NoNewlineInSuffix(z, last);
    } else {
      SliceSnoc(lines, 0, b - 1);
      SuffixOfLines(z, Slice(lines, 0, b - 1), last);
      if |z| <= |last| {
        NoNewlineInSuffix(z, last);
      } else {
        var y := z[..|z| - |last| - 1];
        TailLines(lines, b - 1, y);
        OneMoreLine(y, last);
        SpanLines(lines, b, y);
      }
    }
  }

  lemma OneMoreLine(y: string, last: string)
    requires '\n' !in last
    ensures Text.CountOf(AddLine(y, last), '\n') == Text.CountOf(y, '\n') + 1
  {
    Text.CountConcat(y, "\n", '\n');
    Text.CountConcat(y + "\n", last, '\n');
    NoNewlineInSuffix(last, last);
  }

  /** Adding line `b - 1` to a tail that ends with its own last lines. */
  lemma SpanLines(lines: seq<string>, b: nat, y: string)
    requires 1 <= b <= |lines|
    requires var c := Text.CountOf(y, '\n'); c < b && (c > 0 ==> c < b - 1 && Suffix(Slice(lines, b - 1 - c, b - 1), y))
    ensures Suffix(Slice(lines, b - 1 - Text.CountOf(y, '\n'), b), AddLine(y, lines[b - 1]))
  {
    hide Suffix, AddLine, Slice;
    var c := Text.CountOf(y, '\n');
    if c == 0 {
      SliceOne(lines, b - 1);
      SuffixOfLine(y, lines[b - 1]);
    } else {
      SliceSnoc(lines, b - 1 - c, b - 1);
      SuffixAddLine(Slice(lines, b - 1 - c, b - 1), y, lines[b - 1]);
    }
  }

  lemma NoNewlineInSuffix(z: string, s: string)
    requires Suffix(z, s) && '\n' !in s
    ensures Text.CountOf(z, '\n') == 0
  {
    forall i | 0 <= i < |z| ensures z[i] != '\n' {
      assert z[i] == s[|s| - |z| + i];
    }
    NoNewlineCount(z);
  }

  lemma TailIsSuffix(s: string, n: nat)
    ensures Suffix(Tail(s, n), s)
  {
  }

  /** A chunk ends with exactly the lines it names. */
  ghost predicate EndsWithItsLines(lines: seq<string>, c: Chunk) {
    c.startLine <= c.endLine < |lines| && Suffix(Slice(lines, c.startLine, c.endLine + 1), c.text)
  }

  /** No line between two chunks is skipped, and each chunk adds at least one line. */
  ghost predicate Contiguous(chunks: seq<Chunk>) {
    forall k :: 0 < k < |chunks| ==> chunks[k].startLine <= chunks[k - 1].endLine + 1 && chunks[k - 1].endLine < chunks[k].endLine
  }

  /** What the loop knows about the chunk under way. */
  ghost predicate OnTrack(lines: seq<string>, i: nat, current: string, startLine: nat) {
    && startLine < i <= |lines| && current != []
    && Suffix(current, Slice(lines, 0, i)) && Suffix(Slice(lines, startLine, i), current)
  }

  lemma CutKeepsTrack(lines: seq<string>, i: nat, current: string, startLine: nat, overlapChars: nat)
    requires OnTrack(lines, i, current, startLine) && i < |lines|
    requires forall j :: 0 <= j < |lines| ==> '\n' !in lines[j]
    ensures var carry := Tail(current, overlapChars);
            var c := Text.CountOf(carry, '\n');
            c < i && OnTrack(lines, i + 1, AddLine(carry, lines[i]), i - c)
  {
    hide Suffix, Slice, Tail;
    var carry := Tail(current, overlapChars);
    TailIsSuffix(current, overlapChars);
    SuffixTrans(carry, current, Slice(lines, 0, i));
    TailLines(lines, i, carry);
    SuffixAddLine(carry, Slice(lines, 0, i), lines[i]);
    SliceSnoc(lines, 0, i);
    SpanLines(lines, i + 1, carry);
  }

  lemma ExtendKeepsTrack(lines: seq<string>, i: nat, current: string, startLine: nat)
    requires OnTrack(lines, i, current, startLine) && i < |lines|
    ensures OnTrack(lines, i + 1, AddLine(current, lines[i]), startLine)
  {
    hide Suffix, Slice;
    SliceSnoc(lines, 0, i);
    SliceSnoc(lines, startLine, i);
    SuffixAddLine(current, Slice(lines, 0, i), lines[i]);
    SuffixAddLine(Slice(lines, startLine, i), current, lines[i]);
  }

  lemma ContiguousCons(c: Chunk, rest: seq<Chunk>)
    requires Contiguous(rest) && (rest != [] ==> rest[0].startLine <= c.endLine + 1 && c.endLine < rest[0].endLine)
    ensures Contiguous([c] + rest)
  {
  }

  /** The order of the chunks, once one is under way. */
  lemma {:induction false} ChunkOrder(lines: seq<string>, maxChars: nat, overlapChars: nat, i: nat, current: string, startLine: nat)
    requires 0 < i <= |lines| && current != []
    ensures var chunks := Chunks(lines, maxChars, overlapChars, i, current, startLine);
            && chunks != [] && chunks[0].startLine == startLine && chunks[0].endLine >= i - 1
            && chunks[|chunks| - 1].endLine == |lines| - 1
            && Contiguous(chunks)
    decreases |lines| - i
  {
    hide Contiguous, Chunks, Tail, AddLine, Text.CountOf;
    var first := Chunk(current, startLine, i - 1);
    if i == |lines| {
      ChunksEnd(lines, maxChars, overlapChars, current, startLine);
      SingleIsContiguous(first);
    } else if |AddLine(current, lines[i])| > maxChars {
      var carry := Tail(current, overlapChars);
      var start := MaxZero(i - Text.CountOf(carry, '\n'));
      AddLineGrows(carry, lines[i]);
      ChunkOrder(lines, maxChars, overlapChars, i + 1, AddLine(carry, lines[i]), start);
      ChunksCut(lines, maxChars, overlapChars, i, current, startLine);
      ContiguousCons(first, Chunks(lines, maxChars, overlapChars, i + 1, AddLine(carry, lines[i]), start));
    } else {
      AddLineGrows(current, lines[i]);
      ChunksExtend(lines, maxChars, overlapChars, i, current, startLine);
      ChunkOrder(lines, maxChars, overlapChars, i + 1, AddLine(current, lines[i]), startLine);
    }
  }

  ghost predicate AllEndWithTheirLines(lines: seq<string>, chunks: seq<Chunk>) {
    forall k :: 0 <= k < |chunks| ==> EndsWithItsLines(lines, chunks[k])
  }

  lemma AllEndCons(lines: seq<string>, c: Chunk, rest: seq<Chunk>)
    requires EndsWithItsLines(lines, c) && AllEndWithTheirLines(lines, rest)
    ensures AllEndWithTheirLines(lines, [c] + rest)
  {
  }

  lemma {:induction false} ChunkLines(lines: seq<string>, maxChars: nat, overlapChars: nat, i: nat, current: string, startLine: nat)
    requires 0 < i && OnTrack(lines, i, current, startLine)
    requires forall j :: 0 <= j < |lines| ==> '\n' !in lines[j]
    ensures AllEndWithTheirLines(lines, Chunks(lines, maxChars, overlapChars, i, current, startLine))
    decreases |lines| - i
  {
    hide OnTrack, EndsWithItsLines, Chunks, Tail, AddLine;
    TrackedChunkEnds(lines, i, current, startLine);
    if i == |lines| {
      ChunksEnd(lines, maxChars, overlapChars, current, startLine);
    } else if |AddLine(current, lines[i])| > maxChars {
      var carry := Tail(current, overlapChars);
      CutKeepsTrack(lines, i, current, startLine, overlapChars);
      var c := Text.CountOf(carry, '\n');
      ChunkLines(lines, maxChars, overlapChars, i + 1, AddLine(carry, lines[i]), i - c);
      ChunksCut(lines, maxChars, overlapChars, i, current, startLine);
      AllEndCons(lines, Chunk(current, startLine, i - 1), Chunks(lines, maxChars, overlapChars, i + 1, AddLine(carry, lines[i]), i - c));
    } else {
      ExtendKeepsTrack(lines, i, current, startLine);
      ChunksExtend(lines, maxChars, overlapChars, i, current, startLine);
      ChunkLines(lines, maxChars, overlapChars, i + 1, AddLine(current, lines[i]), startLine);
    }
  }

  lemma TrackedChunkEnds(lines: seq<string>, i: nat, current: string, startLine: nat)
    requires OnTrack(lines, i, current, startLine)
    ensures EndsWithItsLines(lines, Chunk(current, startLine, i - 1)) && startLine < i <= |lines| && current != []
  {
  }

  lemma SingleIsContiguous(c: Chunk)
    ensures Contiguous([c])
  {
  }

  /**
   * What is missing from the first chunk, compared with all lines up to its end: leading
   * empty lines are not in the text of the chunk, but its first line number counts them.
   */
  lemma {:induction false} FirstChunkLacks(lines: seq<string>, maxChars: nat, overlapChars: nat, i: nat, current: string)
    requires 0 < i <= |lines| && current != []
    ensures var c := Chunks(lines, maxChars, overlapChars, i, current, 0);
            && c != [] && c[0].startLine == 0 && c[0].endLine < |lines|
            && |Slice(lines, 0, c[0].endLine + 1)| - |c[0].text| == |Slice(lines, 0, i)| - |current|
    decreases |lines| - i
  {
    hide Chunks, AddLine, Slice, Tail;
    if i == |lines| {
      ChunksEnd(lines, maxChars, overlapChars, current, 0);
    } else if |AddLine(current, lines[i])| > maxChars {
      ChunksCut(lines, maxChars, overlapChars, i, current, 0);
    } else {
      AddLineGrows(current, lines[i]);
      ChunksExtend(lines, maxChars, overlapChars, i, current, 0);
      FirstChunkLacks(lines, maxChars, overlapChars, i + 1, AddLine(current, lines[i]));
      SliceSnoc(lines, 0, i);
      AddLineGrows(Slice(lines, 0, i), lines[i]);
    }
  }

  /** The first line that is not empty, where the first chunk begins. */
  lemma {:induction false} LeadingEmptyLines(lines: seq<string>, maxChars: nat, overlapChars: nat, i: nat) returns (n: nat)
    requires i <= |lines| && 0 < |lines|
    ensures i <= n <= |lines| && (forall k :: i <= k < n ==> lines[k] == []) && (n < |lines| ==> lines[n] != [])
    ensures Chunks(lines, maxChars, overlapChars, i, [], 0) ==
            if n < |lines| then Chunks(lines, maxChars, overlapChars, n + 1, lines[n], 0) else []
    decreases |lines| - i
  {
    hide Chunks;
    if i == |lines| {
      ChunksEnd(lines, maxChars, overlapChars, [], 0);
      n := i;
    } else {
      ChunksExtend(lines, maxChars, overlapChars, i, [], 0);
      if lines[i] == [] {
        n := LeadingEmptyLines(lines, maxChars, overlapChars, i + 1);
      } else {
        n := i;
      }
    }
  }

  /** No chunk is lost or out of order, whatever the text: they follow each other to the last line, and there is none only if the text holds newlines alone. */
  lemma {:induction false} ChunksFollowEachOther(text: string, maxTokens: nat, overlap: nat)
    ensures var lines, chunks := Text.Split(text, '\n'), ChunksOf(text, maxTokens, overlap);
            && Contiguous(chunks)
            && (chunks == [] <==> StripNewlines(text) == [])
            && (chunks != [] ==> chunks[0].startLine == 0 && chunks[|chunks| - 1].endLine == |lines| - 1)
  {
    var lines, chunks := Text.Split(text, '\n'), ChunksOf(text, maxTokens, overlap);
    hide Chunks;
    var n := LeadingEmptyLines(lines, maxTokens * 4, overlap * 4, 0);
    Text.PiecesHaveNoSep(text, '\n');
    StrippedStartsAt(text, lines, n);
    if n < |lines| {
      ChunkOrder(lines, maxTokens * 4, overlap * 4, n + 1, lines[n], 0);
    }
  }

  /** Stripping the newlines of a text leaves the text from its first line on that is not empty. */
  lemma StrippedStartsAt(text: string, lines: seq<string>, n: nat)
    requires lines == Text.Split(text, '\n') && n <= |lines|
    requires (forall k :: 0 <= k < n ==> lines[k] == []) && (n < |lines| ==> lines[n] != [])
    ensures StripNewlines(text) == if n < |lines| then lines[n] + Rest(lines, n + 1) else []
    ensures n > 0 && (n > 1 || n < |lines|) ==> text != [] && text[0] == '\n'
    ensures n == 0 ==> text != [] && text[0] != '\n'
  {
    Text.JoinSplit(text, '\n');
    Text.PiecesHaveNoSep(text, '\n');
    JoinIsRest(lines);
    StripLines(lines, 0, n);
    if n == 0 {
      assert lines[0][0] in lines[0];
    } else {
      assert text == Rest(lines, 1);
    }
  }

  lemma {:induction false} StripLines(lines: seq<string>, i: nat, n: nat)
    requires i <= n <= |lines| && i < |lines|
    requires forall j :: 0 <= j < |lines| ==> '\n' !in lines[j]
    requires (forall k :: i <= k < n ==> lines[k] == []) && (n < |lines| ==> lines[n] != [])
    ensures StripNewlines(lines[i] + Rest(lines, i + 1)) == if n < |lines| then lines[n] + Rest(lines, n + 1) else []
    decreases n - i
  {
    hide StripNewlines;
    if i == n {
      NothingToStrip(lines[i], Rest(lines, i + 1));
      assert lines[i][0..] == lines[i];
    } else if i + 1 < |lines| {
      assert lines[i] + Rest(lines, i + 1) == "\n" + (lines[i + 1] + Rest(lines, i + 2));
      EmptyLineStripped(lines[i + 1] + Rest(lines, i + 2));
      StripLines(lines, i + 1, n);
    } else {
      assert lines[i] + Rest(lines, i + 1) == [];
      NothingLeft();
    }
  }

  lemma NothingLeft()
    ensures StripNewlines([]) == []
  {
  }

  /**
   * Every chunk ends with exactly the lines it names, unless the text starts with a newline
   * and holds anything else: then the first chunk counts lines that it does not hold.
   */
  lemma {:induction false} LineNumbers(text: string, maxTokens: nat, overlap: nat)
    ensures var lines, chunks := Text.Split(text, '\n'), ChunksOf(text, maxTokens, overlap);
            AllEndWithTheirLines(lines, chunks) <==> text == [] || text[0] != '\n' || StripNewlines(text) == []
  {
    hide Chunks, EndsWithItsLines;
    var lines, chunks := Text.Split(text, '\n'), ChunksOf(text, maxTokens, overlap);
    var maxChars, overlapChars := maxTokens * 4, overlap * 4;
    Text.PiecesHaveNoSep(text, '\n');
    var n := LeadingEmptyLines(lines, maxChars, overlapChars, 0);
    StrippedStartsAt(text, lines, n);
    if n == 0 {
      FirstLineOnTrack(lines);
      ChunkLines(lines, maxChars, overlapChars, 1, lines[0], 0);
    } else if n < |lines| {
      FirstChunkLacks(lines, maxChars, overlapChars, n + 1, lines[n]);
      SliceSnoc(lines, 0, n);
      AddLineGrows(Slice(lines, 0, n), lines[n]);
      LacksLines(lines, chunks[0]);
      assert StripNewlines(text) != [];
    }
  }

  lemma FirstLineOnTrack(lines: seq<string>)
    requires lines != [] && lines[0] != []
    ensures OnTrack(lines, 1, lines[0], 0)
  {
    assert lines[0..1] == [lines[0]];
  }

  lemma LacksLines(lines: seq<string>, c: Chunk)
    requires c.startLine == 0 && c.endLine < |lines| && |Slice(lines, 0, c.endLine + 1)| > |c.text|
    ensures !EndsWithItsLines(lines, c)
  {
  }

  // ----- Sizes -----------------------------------------------------------------------------------

  function Longest(lines: seq<string>): nat {
    if lines == [] then 0 else var m := Longest(lines[1..]); if |lines[0]| > m then |lines[0]| else m
  }

  lemma {:induction false} LongestBounds(lines: seq<string>, i: nat)
    requires i < |lines|
    ensures |lines[i]| <= Longest(lines)
  {
    if i > 0 {
      LongestBounds(lines[1..], i - 1);
    }
  }

  function Max(a: nat, b: nat): nat { if a < b then b else a }

  lemma {:induction false} ChunkSizes(lines: seq<string>, maxChars: nat, overlapChars: nat, i: nat, current: string, startLine: nat)
    requires 0 < |lines| && i <= |lines| && (current != [] ==> i > 0) && overlapChars > 0
    requires |current| <= Max(maxChars, overlapChars + 1 + Longest(lines))
    ensures forall c :: c in Chunks(lines, maxChars, overlapChars, i, current, startLine) ==>
              |c.text| <= Max(maxChars, overlapChars + 1 + Longest(lines))
    decreases |lines| - i
  {
    hide Chunks, AddLine, Longest;
    if i == |lines| {
      ChunksEnd(lines, maxChars, overlapChars, current, startLine);
    } else {
      LongestBounds(lines, i);
      AddLineGrows(current, lines[i]);
      if current != [] && |AddLine(current, lines[i])| > maxChars {
        var carry := Tail(current, overlapChars);
        AddLineGrows(carry, lines[i]);
        ChunksCut(lines, maxChars, overlapChars, i, current, startLine);
        ChunkSizes(lines, maxChars, overlapChars, i + 1, AddLine(carry, lines[i]), MaxZero(i - Text.CountOf(carry, '\n')));
      } else {
        var extended := if current == [] then lines[i] else AddLine(current, lines[i]);
        ChunksExtend(lines, maxChars, overlapChars, i, current, startLine);
        ChunkSizes(lines, maxChars, overlapChars, i + 1, extended, startLine);
      }
    }
  }

  /** With an overlap, no chunk is longer than the limit or than a carry and one line. */
  lemma {:induction false} SizeBound(text: string, maxTokens: nat, overlap: nat)
    requires overlap > 0
    ensures forall c :: c in ChunksOf(text, maxTokens, overlap) ==>
              |c.text| <= Max(maxTokens * 4, overlap * 4 + 1 + Longest(Text.Split(text, '\n')))
  {
    ChunkSizes(Text.Split(text, '\n'), maxTokens * 4, overlap * 4, 0, [], 0);
  }

  ghost predicate NoneLonger(chunks: seq<Chunk>, bound: nat) { forall c :: c in chunks ==> |c.text| <= bound }

  /** Without an overlap the carry is the whole chunk, so the chunks only grow, up to all of the text. */
  lemma {:induction false} ZeroOverlapGrows(lines: seq<string>, maxChars: nat, i: nat, current: string, startLine: nat, bound: nat)
    requires 0 < i <= |lines| && current != []
    ensures NoneLonger(Chunks(lines, maxChars, 0, i, current, startLine), bound) <==> |current + Rest(lines, i)| <= bound
    decreases |lines| - i
  {
    hide Chunks, AddLine;
    if i == |lines| {
      ChunksEnd(lines, maxChars, 0, current, startLine);
      var c := Chunk(current, startLine, |lines| - 1);
      assert c in [c] && current + Rest(lines, i) == current;
    } else {
      AddLineGrows(current, lines[i]);
      RegroupRest(current, lines[i], 0, Rest(lines, i + 1));
      assert AddLine(current, lines[i]) + Rest(lines, i + 1) == current + Rest(lines, i);
      if |AddLine(current, lines[i])| > maxChars {
        var start := MaxZero(i - Text.CountOf(current, '\n'));
        ChunksCut(lines, maxChars, 0, i, current, startLine);
        ZeroOverlapGrows(lines, maxChars, i + 1, AddLine(current, lines[i]), start, bound);
        NoneLongerCons(Chunk(current, startLine, i - 1), Chunks(lines, maxChars, 0, i + 1, AddLine(current, lines[i]), start), bound);
        assert |current| <= |current + Rest(lines, i)|;
      } else {
        ChunksExtend(lines, maxChars, 0, i, current, startLine);
        ZeroOverlapGrows(lines, maxChars, i + 1, AddLine(current, lines[i]), startLine, bound);
      }
    }
  }

  lemma NoneLongerCons(c: Chunk, rest: seq<Chunk>, bound: nat)
    ensures NoneLonger([c] + rest, bound) <==> |c.text| <= bound && NoneLonger(rest, bound)
  {
    var all := [c] + rest;
    assert c in all && forall d :: d in rest ==> d in all;
  }

  /** Without an overlap a bound holds for the chunks exactly if it holds for the whole text. */
  lemma {:induction false} ZeroOverlapIff(text: string, maxTokens: nat, bound: nat)
    ensures NoneLonger(ChunksOf(text, maxTokens, 0), bound) <==> |StripNewlines(text)| <= bound
  {
    hide Chunks;
    var lines := Text.Split(text, '\n');
    var n := LeadingEmptyLines(lines, maxTokens * 4, 0, 0);
    StrippedStartsAt(text, lines, n);
    if n < |lines| {
      ZeroOverlapGrows(lines, maxTokens * 4, n + 1, lines[n], 0, bound);
    }
  }

  /** What a reader of the code expects of the sizes: the limit, or a carry, a newline and one line. */
  function Expected(text: string, maxTokens: nat, overlap: nat): nat {
    Max(maxTokens * 4, overlap * 4 + 1 + Longest(Text.Split(text, '\n')))
  }

  /** The expected bound holds exactly if there is an overlap, or the whole text keeps to it. */
  lemma {:induction false} SizeBoundIff(text: string, maxTokens: nat, overlap: nat)
    ensures NoneLonger(ChunksOf(text, maxTokens, overlap), Expected(text, maxTokens, overlap))
            <==> overlap > 0 || |StripNewlines(text)| <= Expected(text, maxTokens, overlap)
  {
    if overlap > 0 {
      SizeBound(text, maxTokens, overlap);
    } else {
      ZeroOverlapIff(text, maxTokens, Expected(text, maxTokens, overlap));
    }
  }

  lemma ThreeLines(a: string, b: string, c: string)
    requires a != [] && '\n' !in a && '\n' !in b && '\n' !in c
    ensures Text.Split(AddLine(AddLine(a, b), c), '\n') == [a, b, c]
  {
    hide Text.Split;
    Text.SplitFirst(c, [], '\n');
    Text.SplitFirst(b, c, '\n');
    Text.SplitFirst(a, b + ['\n'] + c, '\n');
    assert AddLine(AddLine(a, b), c) == a + ['\n'] + (b + ['\n'] + c);
  }

  /**
   * Without an overlap the carry is the whole chunk, so chunks only grow: of three lines,
   * the first two of which do not fit together, the last chunk is the whole text.
   */
  lemma ZeroOverlapBreaksBound(a: string, b: string, c: string, maxTokens: nat)
    requires a != [] && '\n' !in a && '\n' !in b && '\n' !in c && |AddLine(a, b)| > maxTokens * 4
    ensures var text := AddLine(AddLine(a, b), c);
            var chunks := ChunksOf(text, maxTokens, 0);
            |chunks| == 3 && chunks[0].text == a && chunks[1].text == AddLine(a, b) && chunks[2].text == text
  {
    hide Chunks, Text.Split;
    var text := AddLine(AddLine(a, b), c);
    var lines := [a, b, c];
    ThreeLines(a, b, c);
    var max := maxTokens * 4;
    ChunksExtend(lines, max, 0, 0, [], 0);
    ChunksCut(lines, max, 0, 1, a, 0);
    var s1 := MaxZero(1 - Text.CountOf(a, '\n'));
    ChunksCut(lines, max, 0, 2, AddLine(a, b), s1);
    var s2 := MaxZero(2 - Text.CountOf(AddLine(a, b), '\n'));
    ChunksEnd(lines, max, 0, text, s2);
  }

  // ----- Each chunk from the one before ------------------------------------------------------------

  /** Lines `i` up to `j`, each after its newline. */
  function LinesBetween(lines: seq<string>, i: nat, j: nat): string
    requires i <= j <= |lines|
    decreases j - i
  {
    if i == j then [] else LinesBetween(lines, i, j - 1) + "\n" + lines[j - 1]
  }

  /** `carry` is what a text hands on: its last `n` characters, all of it if it has no more, and also if `n` is zero. */
  ghost predicate HandsOn(text: string, n: nat, carry: string) {
    && |carry| == (if n == 0 || |text| < n then |text| else n)
    && carry == text[|text| - |carry|..]
  }

  /**
   * Chunk `b` begins with what chunk `a` hands on, and holds the lines that come after it; it is
   * numbered from the line after the first line break in it. The next line did not fit into
   * `a`, and `b` took on lines as long as they fitted.
   */
  ghost predicate FollowsOn(lines: seq<string>, maxChars: nat, overlapChars: nat, a: Chunk, b: Chunk) {
    && a.endLine < b.endLine < |lines|
    && (exists carry :: HandsOn(a.text, overlapChars, carry)
                        && b.text == carry + LinesBetween(lines, a.endLine + 1, b.endLine + 1)
                        && b.startLine == MaxZero(a.endLine + 1 - Text.CountOf(carry, '\n')))
    && |a.text| + 1 + |lines[a.endLine + 1]| > maxChars
    && (|b.text| <= maxChars || b.endLine == a.endLine + 1)
  }

  ghost predicate AllFollowOn(lines: seq<string>, maxChars: nat, overlapChars: nat, chunks: seq<Chunk>) {
    forall k :: 0 < k < |chunks| ==> FollowsOn(lines, maxChars, overlapChars, chunks[k - 1], chunks[k])
  }

  lemma TailHandsOn(text: string, n: nat)
    ensures HandsOn(text, n, Tail(text, n))
  {
  }

  /** The first chunk of the loop from line `i` on, which has `current` so far. */
  ghost predicate Grows(lines: seq<string>, maxChars: nat, i: nat, current: string, first: Chunk) {
    && i <= first.endLine + 1 <= |lines|
    && first.text == current + LinesBetween(lines, i, first.endLine + 1)
    && (|first.text| <= maxChars || first.endLine + 1 == i)
  }

  lemma FollowsFromCarry(lines: seq<string>, maxChars: nat, overlapChars: nat, a: Chunk, b: Chunk)
    requires a.endLine + 1 < |lines| && |AddLine(a.text, lines[a.endLine + 1])| > maxChars
    requires Grows(lines, maxChars, a.endLine + 2, AddLine(Tail(a.text, overlapChars), lines[a.endLine + 1]), b)
    requires b.startLine == MaxZero(a.endLine + 1 - Text.CountOf(Tail(a.text, overlapChars), '\n'))
    ensures FollowsOn(lines, maxChars, overlapChars, a, b)
  {
    var i, j, carry := a.endLine + 1, b.endLine + 1, Tail(a.text, overlapChars);
    TailHandsOn(a.text, overlapChars);
    LinesFromFirst(lines, i, j);
    assert carry + ("\n" + lines[i] + LinesBetween(lines, i + 1, j)) == AddLine(carry, lines[i]) + LinesBetween(lines, i + 1, j);
  }

  lemma {:induction false} LinesFromFirst(lines: seq<string>, i: nat, j: nat)
    requires i < j <= |lines|
    ensures LinesBetween(lines, i, j) == "\n" + lines[i] + LinesBetween(lines, i + 1, j)
    decreases j - i
  {
    if i + 1 < j {
      LinesFromFirst(lines, i, j - 1);
      var middle := LinesBetween(lines, i + 1, j - 1);
      assert ("\n" + lines[i] + middle) + "\n" + lines[j - 1] == "\n" + lines[i] + (middle + "\n" + lines[j - 1]);
    } else {
      assert LinesBetween(lines, i, i) == [] && LinesBetween(lines, j, j) == [];
    }
  }

  lemma {:induction false} ChunksFollow(lines: seq<string>, maxChars: nat, overlapChars: nat, i: nat, current: string, startLine: nat)
    requires 0 < i <= |lines| && current != []
    ensures var chunks := Chunks(lines, maxChars, overlapChars, i, current, startLine);
            && chunks != [] && AllFollowOn(lines, maxChars, overlapChars, chunks)
            && (chunks[0].endLine + 1 == i ==> chunks[0].text == current)
            && (chunks[0].endLine + 1 > i ==> Grows(lines, maxChars, i, current, chunks[0]))
            && i <= chunks[0].endLine + 1 && chunks[0].startLine == startLine
    decreases |lines| - i
  {
    hide Chunks, FollowsOn;
    if i == |lines| {
      ChunksEnd(lines, maxChars, overlapChars, current, startLine);
    } else if |AddLine(current, lines[i])| > maxChars {
      ChunksCut(lines, maxChars, overlapChars, i, current, startLine);
      var carry := Tail(current, overlapChars);
      var next, from := AddLine(carry, lines[i]), MaxZero(i - Text.CountOf(carry, '\n'));
      ChunksFollow(lines, maxChars, overlapChars, i + 1, next, from);
      var rest := Chunks(lines, maxChars, overlapChars, i + 1, next, from);
      var first := Chunk(current, startLine, i - 1);
      GrowsFromNothing(lines, maxChars, i + 1, next, rest[0]);
      FollowsFromCarry(lines, maxChars, overlapChars, first, rest[0]);
      FollowOnCons(lines, maxChars, overlapChars, first, rest);
    } else {
      ChunksExtend(lines, maxChars, overlapChars, i, current, startLine);
      ChunksFollow(lines, maxChars, overlapChars, i + 1, AddLine(current, lines[i]), startLine);
      var chunks := Chunks(lines, maxChars, overlapChars, i, current, startLine);
      GrowsByLine(lines, maxChars, i, current, chunks[0]);
    }
  }

  lemma GrowsFromNothing(lines: seq<string>, maxChars: nat, i: nat, current: string, first: Chunk)
    requires i <= first.endLine + 1 <= |lines|
    requires first.endLine + 1 == i ==> first.text == current
    requires first.endLine + 1 > i ==> Grows(lines, maxChars, i, current, first)
    ensures Grows(lines, maxChars, i, current, first)
  {
  }

  lemma GrowsByLine(lines: seq<string>, maxChars: nat, i: nat, current: string, first: Chunk)
    requires i < |lines| && i + 1 <= first.endLine + 1 && |AddLine(current, lines[i])| <= maxChars
    requires first.endLine == i ==> first.text == AddLine(current, lines[i])
    requires first.endLine > i ==> Grows(lines, maxChars, i + 1, AddLine(current, lines[i]), first)
    ensures first.endLine < |lines| ==> Grows(lines, maxChars, i, current, first)
  {
    if first.endLine < |lines| {
      var j := first.endLine + 1;
      LinesFromFirst(lines, i, j);
      assert current + ("\n" + lines[i] + LinesBetween(lines, i + 1, j)) == AddLine(current, lines[i]) + LinesBetween(lines, i + 1, j);
      assert LinesBetween(lines, i + 1, i + 1) == [];
    }
  }

  lemma FollowOnCons(lines: seq<string>, maxChars: nat, overlapChars: nat, first: Chunk, rest: seq<Chunk>)
    requires rest != [] && AllFollowOn(lines, maxChars, overlapChars, rest) && FollowsOn(lines, maxChars, overlapChars, first, rest[0])
    ensures AllFollowOn(lines, maxChars, overlapChars, [first] + rest)
  {
    hide FollowsOn;
    var all := [first] + rest;
    forall k | 0 < k < |all| ensures FollowsOn(lines, maxChars, overlapChars, all[k - 1], all[k]) {
      assert all[k] == rest[k - 1] && (k > 1 ==> all[k - 1] == rest[k - 2]);
    }
  }

  /**
   * Every chunk, exactly: the first starts at line 0 and holds the first line that is not empty and those
   * after it as long as they fit; each later one follows on from the one before.
   */
  lemma {:induction false} ChunksAre(text: string, maxTokens: nat, overlap: nat)
    ensures var lines, chunks := Text.Split(text, '\n'), ChunksOf(text, maxTokens, overlap);
            && AllFollowOn(lines, maxTokens * 4, overlap * 4, chunks)
            && (chunks != [] ==>
                  exists n: nat :: n <= chunks[0].endLine < |lines| && (forall k :: 0 <= k < n ==> lines[k] == []) && lines[n] != []
                            && chunks[0].startLine == 0
                            && chunks[0].text == lines[n] + LinesBetween(lines, n + 1, chunks[0].endLine + 1)
                            && (|chunks[0].text| <= maxTokens * 4 || chunks[0].endLine == n))
  {
    var lines, chunks := Text.Split(text, '\n'), ChunksOf(text, maxTokens, overlap);
    hide Chunks, FollowsOn;
    var n := LeadingEmptyLines(lines, maxTokens * 4, overlap * 4, 0);
    if n < |lines| {
      ChunksFollow(lines, maxTokens * 4, overlap * 4, n + 1, lines[n], 0);
      var j := chunks[0].endLine + 1;
      if j == n + 1 {
        assert lines[n] + LinesBetween(lines, j, j) == lines[n];
      }
    }
  }
}
