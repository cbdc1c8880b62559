/**
 * packages/channel-discord/src/chunking.ts
 *
 * Messages are cut so that each piece keeps to a number of characters and to a number of
 * lines; a code block that is cut is closed and opened again.
 */
module Chunking {
  import opened Prelude
  import opened Text

  function CountLines(s: string): nat { |Split(s, '\n')| }

  predicate Fits(s: string, maxLength: nat, maxLines: nat) { |s| <= maxLength && CountLines(s) <= maxLines }

  // ----- Code fences ----------------------------------------------------------------------------

  predicate IsWord(c: char) { 'a' <= c <= 'z' || 'A' <= c <= 'Z' || '0' <= c <= '9' || c == '_' }

  predicate FenceAt(s: string, i: nat) { i + 3 <= |s| && s[i] == '`' && s[i + 1] == '`' && s[i + 2] == '`' }

  function NextFence(s: string, i: nat): (r: Option<nat>)
    ensures r.Some? ==> i <= r.value && FenceAt(s, r.value)
    decreases |s| - i
  {
    if i >= |s| then None else if FenceAt(s, i) then Some(i) else NextFence(s, i + 1)
  }

  function WordEnd(s: string, i: nat): (r: nat)
    requires i <= |s|
    ensures i <= r <= |s| && forall k :: i <= k < r ==> IsWord(s[k])
    decreases |s| - i
  {
    if i < |s| && IsWord(s[i]) then WordEnd(s, i + 1) else i
  }

  datatype Block = Block(open: bool, lang: string)

  const Outside := Block(false, "")

  /** Every fence with its language from `i` on opens or closes a block. */
  function Track(s: string, i: nat, b: Block): Block
    decreases |s| - i
  {
    var j := NextFence(s, i);
    if j.None? then b
    else
      var end := WordEnd(s, j.value + 3);
      Track(s, end, if b.open then Outside else Block(true, s[j.value + 3..end]))
  }

  method TrackCodeBlocks(text: string, was: Block) returns (b: Block)
    ensures b == Track(text, 0, was)
  {
    b := was;
    var lastIndex := 0;
    var match_ := NextFence(text, lastIndex);
    while match_.Some?
      invariant match_ == NextFence(text, lastIndex)
      invariant Track(text, lastIndex, b) == Track(text, 0, was)
      decreases |text| - lastIndex
    {
      var end := WordEnd(text, match_.value + 3);
      b := if b.open then Outside else Block(true, text[match_.value + 3..end]);
      lastIndex := end;
      match_ := NextFence(text, lastIndex);
    }
  }

  // ----- Where to cut ---------------------------------------------------------------------------

  predicate SubAt(s: string, sub: string, i: nat) { i + |sub| <= |s| && s[i..i + |sub|] == sub }

  /** The last place below `i` where `sub` begins. */
  function LastBefore(s: string, sub: string, i: nat): (r: int)
    ensures -1 <= r < i && (r >= 0 ==> SubAt(s, sub, r))
  {
    if i == 0 then -1 else if SubAt(s, sub, i - 1) then i - 1 else LastBefore(s, sub, i - 1)
  }

  function LastIndexOf(s: string, sub: string): int { LastBefore(s, sub, |s| + 1) }

  function LineLimit(text: string, maxLines: nat): nat {
    var lines := Split(text, '\n');
    if |lines| > maxLines then |Join(lines[..maxLines], '\n')| else |text|
  }

  function EffectiveMax(text: string, maxLength: nat, maxLines: nat): nat {
    var limit := LineLimit(text, maxLines);
    if limit < maxLength then limit else maxLength
  }

  /** A paragraph past the half, else a line, a sentence or a word past three tenths, else the limit itself. */
  function SplitPoint(text: string, maxLength: nat, maxLines: nat): (r: nat)
    ensures r <= |text| || r <= EffectiveMax(text, maxLength, maxLines)
  {
    var eff := EffectiveMax(text, maxLength, maxLines);
    var range := if eff <= |text| then text[..eff] else text;
    var doubleNewline, newline := LastIndexOf(range, "\n\n"), LastIndexOf(range, "\n");
    var sentence, space := LastIndexOf(range, ". "), LastIndexOf(range, " ");
    if 2 * doubleNewline > eff then doubleNewline + 2
    else if 10 * newline > 3 * eff then newline + 1
    else if 10 * sentence > 3 * eff then sentence + 2
    else if 10 * space > 3 * eff then space + 1
    else eff
  }

  lemma {:induction false} LastIsLast(s: string, sub: string, n: nat)
    ensures forall i: nat :: LastBefore(s, sub, n) < i < n ==> !SubAt(s, sub, i)
  {
    if n > 0 {
      LastIsLast(s, sub, n - 1);
    }
  }

  ghost predicate LastAt(s: string, sub: string, i: int) {
    i >= 0 && SubAt(s, sub, i) && forall j: nat :: j > i ==> !SubAt(s, sub, j)
  }

  /** `sub` begins somewhere past so many tenths of a character. */
  ghost predicate FoundPast(s: string, sub: string, tenths: nat) { exists i: nat :: SubAt(s, sub, i) && 10 * i > tenths }

  lemma FoundPastIff(s: string, sub: string, tenths: nat)
    requires sub != []
    ensures FoundPast(s, sub, tenths) <==> 10 * LastIndexOf(s, sub) > tenths
    ensures LastIndexOf(s, sub) >= 0 ==> LastAt(s, sub, LastIndexOf(s, sub))
  {
    LastIsLast(s, sub, |s| + 1);
    if FoundPast(s, sub, tenths) {
      var j: nat :| SubAt(s, sub, j) && 10 * j > tenths;
      assert j <= LastIndexOf(s, sub);
    }
  }

  // ----- The lines before the limit ---------------------------------------------------------------

  lemma {:induction false} JoinConcat(a: seq<string>, b: seq<string>, sep: char)
    requires a != [] && b != []
    ensures Join(a + b, sep) == Join(a, sep) + [sep] + Join(b, sep)
  {
    if |a| == 1 {
      assert (a + b)[1..] == b;
    } else {
      JoinConcat(a[1..], b, sep);
      assert (a + b)[1..] == a[1..] + b;
    }
  }

  lemma {:induction false} CountJoin(parts: seq<string>, sep: char)
    requires parts != [] && forall i :: 0 <= i < |parts| ==> sep !in parts[i]
    ensures CountOf(Join(parts, sep), sep) == |parts| - 1
  {
    CountNone(parts[0], sep);
    if |parts| > 1 {
      CountJoin(parts[1..], sep);
      CountConcat(parts[0] + [sep], Join(parts[1..], sep), sep);
      CountConcat(parts[0], [sep], sep);
      assert [sep][1..] == [];
    }
  }

  lemma {:induction false} CountNone(s: string, c: char)
    requires c !in s
    ensures CountOf(s, c) == 0
  {
    if s != [] {
      CountNone(s[1..], c);
    }
  }

  /** The text up to the line limit has so many lines at most, and a line break comes next. */
  lemma {:induction false} LimitedLines(text: string, maxLines: nat)
    requires maxLines > 0
    ensures var limit := LineLimit(text, maxLines);
            && limit <= |text| && CountLines(text[..limit]) <= maxLines
            && (limit < |text| ==> text[limit] == '\n' && CountLines(text[..limit]) == maxLines)
  {
    var lines := Split(text, '\n');
    JoinSplit(text, '\n');
    if |lines| > maxLines {
      var head, tail := lines[..maxLines], lines[maxLines..];
      assert lines == head + tail;
      JoinConcat(head, tail, '\n');
      PiecesHaveNoSep(text, '\n');
      CountJoin(head, '\n');
      var h := Join(head, '\n');
      assert text[..|h|] == h;
      SplitCount(h, '\n');
    } else {
      assert text[..|text|] == text;
    }
  }

  lemma PrefixLines(s: string, i: nat)
    requires i <= |s|
    ensures CountLines(s[..i]) <= CountLines(s)
  {
    assert s == s[..i] + s[i..];
    CountConcat(s[..i], s[i..], '\n');
    SplitCount(s, '\n');
    SplitCount(s[..i], '\n');
  }

  /** What is looked through for a place to cut is the longest beginning of the text that keeps to both limits. */
  lemma LongestThatFits(text: string, maxLength: nat, maxLines: nat)
    requires maxLines > 0
    ensures var eff := EffectiveMax(text, maxLength, maxLines);
            && eff <= |text| && Fits(text[..eff], maxLength, maxLines)
            && forall n :: eff < n <= |text| ==> !Fits(text[..n], maxLength, maxLines)
  {
    LimitedLines(text, maxLines);
    var limit, eff := LineLimit(text, maxLines), EffectiveMax(text, maxLength, maxLines);
    assert text[..limit][..eff] == text[..eff];
    PrefixLines(text[..limit], eff);
    forall n | eff < n <= |text| ensures n > maxLength || CountLines(text[..n]) > maxLines {
      if n <= maxLength {
        LineTooMany(text, limit, n, maxLines);
      }
    }
  }

  lemma LineTooMany(text: string, limit: nat, n: nat, maxLines: nat)
    requires limit < n <= |text| && text[limit] == '\n' && CountLines(text[..limit]) == maxLines
    ensures CountLines(text[..n]) > maxLines
  {
    assert text[..n] == text[..limit] + (['\n'] + text[limit + 1..n]);
    CountConcat(text[..limit], ['\n'] + text[limit + 1..n], '\n');
    CountConcat(['\n'], text[limit + 1..n], '\n');
    assert ['\n'][1..] == "";
    SplitCount(text[..limit], '\n');
    SplitCount(text[..n], '\n');
  }

  /** The cut is within both limits. It is at the very start only if the text starts with a line break. */
  lemma CutFits(text: string, maxLength: nat, maxLines: nat)
    requires maxLength > 0 && maxLines > 0
    ensures var k := SplitPoint(text, maxLength, maxLines);
            && k <= |text| && Fits(text[..k], maxLength, maxLines)
            && (k == 0 && text != [] ==> text[0] == '\n')
  {
    LimitedLines(text, maxLines);
    var limit, k := LineLimit(text, maxLines), SplitPoint(text, maxLength, maxLines);
    assert k <= EffectiveMax(text, maxLength, maxLines) <= limit;
    assert text[..limit][..k] == text[..k];
    PrefixLines(text[..limit], k);
  }

  /**
   * The order of preference: the last paragraph break past the half, else the last line
   * break, else the last sentence, else the last space past three tenths; and only if there
   * is none of these does the cut go through a word.
   */
  lemma {:induction false} CutPreference(text: string, maxLength: nat, maxLines: nat)
    requires maxLines > 0
    ensures var eff := EffectiveMax(text, maxLength, maxLines);
            eff <= |text|
            && var range, k := text[..eff], SplitPoint(text, maxLength, maxLines);
            if FoundPast(range, "\n\n", 5 * eff) then LastAt(range, "\n\n", k - 2)
            else if FoundPast(range, "\n", 3 * eff) then LastAt(range, "\n", k - 1)
            else if FoundPast(range, ". ", 3 * eff) then LastAt(range, ". ", k - 2)
            else if FoundPast(range, " ", 3 * eff) then LastAt(range, " ", k - 1)
            else k == eff
  {
    LimitedLines(text, maxLines);
    var eff := EffectiveMax(text, maxLength, maxLines);
    var range := text[..eff];
    hide LastIndexOf, LastAt, FoundPast;
    FoundPastIff(range, "\n\n", 5 * eff);
    FoundPastIff(range, "\n", 3 * eff);
    FoundPastIff(range, ". ", 3 * eff);
    FoundPastIff(range, " ", 3 * eff);
  }

  // ----- Counting backticks, which bounds the number of turns ---------------------------------------

  function Ticks(s: string): nat { CountOf(s, '`') }

  function Fences(s: string, i: nat): nat
    decreases |s| - i
  {
    var j := NextFence(s, i);
    if j.None? then 0 else 1 + Fences(s, WordEnd(s, j.value + 3))
  }

  lemma TicksAround(s: string, i: nat, k: nat, end: nat)
    requires i <= k && k + 3 <= end <= |s|
    ensures Ticks(s[i..]) >= Ticks(s[k..k + 3]) + Ticks(s[end..])
  {
    assert s[i..] == s[i..k] + (s[k..k + 3] + (s[k + 3..end] + s[end..]));
    CountConcat(s[i..k], s[k..k + 3] + (s[k + 3..end] + s[end..]), '`');
    CountConcat(s[k..k + 3], s[k + 3..end] + s[end..], '`');
    CountConcat(s[k + 3..end], s[end..], '`');
  }

  lemma {:induction false} FencesHaveTicks(s: string, i: nat)
    requires i <= |s|
    ensures 3 * Fences(s, i) <= Ticks(s[i..])
    decreases |s| - i
  {
    var j := NextFence(s, i);
    if j.Some? {
      var k, end := j.value, WordEnd(s, j.value + 3);
      FencesHaveTicks(s, end);
      assert s[k..k + 3] == "```";
      hide Ticks;
      ThreeTicks();
      TicksAround(s, i, k, end);
    }
  }

  lemma ThreeTicks()
    ensures Ticks("```") == 3
  {
    assert "```"[1..] == "``" && "``"[1..] == "`" && "`"[1..] == "";
  }

  /** A block is open afterwards exactly if it was and the fences are even in number, or it was not and they are odd. */
  lemma {:induction false} TrackParity(s: string, i: nat, b: Block)
    ensures Track(s, i, b).open <==> (b.open == (Fences(s, i) % 2 == 0))
    decreases |s| - i
  {
    var j := NextFence(s, i);
    if j.Some? {
      var end := WordEnd(s, j.value + 3);
      TrackParity(s, end, if b.open then Outside else Block(true, s[j.value + 3..end]));
    }
  }

  predicate WordsOnly(s: string) { forall i :: 0 <= i < |s| ==> IsWord(s[i]) }

  lemma {:induction false} TrackLang(s: string, i: nat, b: Block)
    requires WordsOnly(b.lang)
    ensures WordsOnly(Track(s, i, b).lang)
    decreases |s| - i
  {
    var j := NextFence(s, i);
    if j.Some? {
      var end := WordEnd(s, j.value + 3);
      TrackLang(s, end, if b.open then Outside else Block(true, s[j.value + 3..end]));
    }
  }

  // ----- One turn -----------------------------------------------------------------------------------

  const CLOSE := "\n```"

  function Opening(lang: string): string { "```" + lang + "\n" }

  datatype Turn = Turn(chunk: string, remaining: string, block: Block)

  function TurnOf(remaining: string, was: Block, maxLength: nat, maxLines: nat): Turn
    requires maxLength > 0 && maxLines > 0
  {
    CutFits(remaining, maxLength, maxLines);
    var k := SplitPoint(remaining, maxLength, maxLines);
    var b := Track(remaining[..k], 0, was);
    var rest := Trim(remaining[k..]);
    if b.open then Turn(Trim(remaining[..k] + CLOSE), Opening(b.lang) + rest, b)
    else Turn(Trim(remaining[..k]), rest, Outside)
  }

  /** Inside a block the remaining text starts with the fence that opens it again. */
  ghost predicate Ready(remaining: string, b: Block, maxLength: nat) {
    && WordsOnly(b.lang)
    && (b.open ==> maxLength >= 3 && |Opening(b.lang)| <= |remaining| && remaining[..|Opening(b.lang)|] == Opening(b.lang))
  }

  lemma {:induction false} TicksTrimStart(s: string)
    ensures Ticks(TrimStart(s)) == Ticks(s)
  {
    if s != [] && IsSpace(s[0]) {
      TicksTrimStart(s[1..]);
    }
  }

  lemma {:induction false} TicksTrimEnd(s: string)
    ensures Ticks(TrimEnd(s)) == Ticks(s)
  {
    if s != [] && IsSpace(s[|s| - 1]) {
      var init, last := s[..|s| - 1], [s[|s| - 1]];
      TicksTrimEnd(init);
      assert s == init + last;
      CountConcat(init, last, '`');
      CountNone(last, '`');
    }
  }

  lemma TicksOpening(lang: string)
    requires WordsOnly(lang)
    ensures Ticks(Opening(lang)) == 3
  {
    CountConcat("```" + lang, "\n", '`');
    CountConcat("```", lang, '`');
    CountNone(lang, '`');
    CountNone("\n", '`');
    ThreeTicks();
  }

  /** A text that starts with a fence holds nothing else within the fence. */
  ghost predicate StartsFenced(s: string) { forall k :: 0 <= k < 3 && k < |s| ==> s[k] == '`' }

  lemma NotWithinFence(s: string, sub: string)
    requires StartsFenced(s) && sub != [] && sub[0] != '`'
    ensures LastIndexOf(s, sub) >= 0 ==> LastIndexOf(s, sub) >= 3
  {
    var i := LastIndexOf(s, sub);
    assert i >= 0 ==> s[i] == s[i..i + |sub|][0];
  }

  /** Inside a block a cut takes at least the whole fence. */
  lemma CutTakesFence(remaining: string, b: Block, maxLength: nat, maxLines: nat)
    requires maxLength > 0 && maxLines > 0 && Ready(remaining, b, maxLength) && b.open
    ensures StartsFenced(remaining) && |remaining| >= 3
    ensures SplitPoint(remaining, maxLength, maxLines) >= 3
  {
    forall k | 0 <= k < 3 ensures remaining[k] == '`' {
      assert remaining[..|Opening(b.lang)|][k] == Opening(b.lang)[k];
    }
    LimitedLines(remaining, maxLines);
    var eff := EffectiveMax(remaining, maxLength, maxLines);
    assert eff >= 3;
    var range := remaining[..eff];
    NotWithinFence(range, "\n\n");
    NotWithinFence(range, "\n");
    NotWithinFence(range, ". ");
    NotWithinFence(range, " ");
  }

  lemma FirstFence(s: string)
    requires StartsFenced(s) && |s| >= 3
    ensures Fences(s, 0) >= 1
  {
  }

  /** The backticks of a text are those of the piece and those of the trimmed rest. */
  lemma TicksOfCut(s: string, k: nat)
    requires k <= |s|
    ensures Ticks(s) == Ticks(s[..k]) + Ticks(Trim(s[k..]))
  {
    assert s == s[..k] + s[k..];
    CountConcat(s[..k], s[k..], '`');
    TicksTrimStart(s[k..]);
    TicksTrimEnd(TrimStart(s[k..]));
  }

  lemma RestShrinks(s: string, k: nat)
    requires k <= |s| && s != [] && (k == 0 ==> s[0] == '\n')
    ensures |Trim(s[k..])| < |s|
  {
    TrimKeeps(s[k..]);
    if k == 0 {
      assert s[0..] == s;
      TrimStartKeeps(s[1..]);
    }
  }

  /** The new text starts with the fence that was put in front of it. */
  lemma NextIsReady(lang: string, rest: string, maxLength: nat)
    requires WordsOnly(lang) && maxLength >= 3
    ensures Ready(Opening(lang) + rest, Block(true, lang), maxLength)
    ensures Ticks(Opening(lang) + rest) == 3 + Ticks(rest)
  {
    TicksOpening(lang);
    CountConcat(Opening(lang), rest, '`');
  }

  /**
   * A turn uses up backticks, or passes from outside a block into one, or shortens the text,
   * in this order of importance: so the turns come to an end, fences or not.
   */
  lemma TurnShrinks(remaining: string, was: Block, maxLength: nat, maxLines: nat)
    requires maxLength > 0 && maxLines > 0 && Ready(remaining, was, maxLength) && remaining != []
    ensures var t := TurnOf(remaining, was, maxLength, maxLines);
            && Ready(t.remaining, t.block, maxLength)
            && Ticks(t.remaining) <= Ticks(remaining)
            && (Ticks(t.remaining) == Ticks(remaining) ==>
                  !was.open && (t.block.open || |t.remaining| < |remaining|))
  {
    CutFits(remaining, maxLength, maxLines);
    var k := SplitPoint(remaining, maxLength, maxLines);
    var piece, rest := remaining[..k], Trim(remaining[k..]);
    var b := Track(piece, 0, was);
    TicksOfCut(remaining, k);
    FencesHaveTicks(piece, 0);
    assert piece[0..] == piece;
    TrackParity(piece, 0, was);
    TrackLang(piece, 0, was);
    if was.open {
      CutTakesFence(remaining, was, maxLength, maxLines);
      FirstFence(piece);
    }
    hide Ticks, Fences, Track, SplitPoint, Ready, Trim;
    if b.open {
      if !was.open {
        TicksWithin(piece);
      }
      OpenMeansRoom(was, maxLength, piece, remaining);
      NextIsReady(b.lang, rest, maxLength);
    } else {
      OutsideIsReady(rest, maxLength);
      if !was.open {
        RestShrinks(remaining, k);
      }
    }
  }

  lemma OutsideIsReady(rest: string, maxLength: nat)
    ensures Ready(rest, Outside, maxLength)
  {
  }

  lemma {:induction false} TicksWithin(s: string)
    ensures Ticks(s) <= |s|
  {
    if s != [] {
      TicksWithin(s[1..]);
    }
  }

  lemma OpenMeansRoom(was: Block, maxLength: nat, piece: string, remaining: string)
    requires Ready(remaining, was, maxLength) && (!was.open ==> 3 <= |piece|) && |piece| <= maxLength
    ensures maxLength >= 3
  {
  }

  // ----- The whole text ----------------------------------------------------------------------------

  function ChunksFrom(remaining: string, b: Block, maxLength: nat, maxLines: nat): seq<string>
    requires maxLength > 0 && maxLines > 0 && Ready(remaining, b, maxLength)
    decreases Ticks(remaining), if b.open then 0 else 1, |remaining|
  {
    if remaining == [] then []
    else if Fits(remaining, maxLength, maxLines) then [remaining]
    else
      TurnShrinks(remaining, b, maxLength, maxLines);
      var t := TurnOf(remaining, b, maxLength, maxLines);
      [t.chunk] + ChunksFrom(t.remaining, t.block, maxLength, maxLines)
  }

  function NonEmpty(chunks: seq<string>): seq<string> {
    if chunks == [] then [] else (if chunks[0] != [] then [chunks[0]] else []) + NonEmpty(chunks[1..])
  }

  function Chunks(text: string, maxLength: nat, maxLines: nat): seq<string>
    requires maxLength > 0 && maxLines > 0
  {
    if Fits(text, maxLength, maxLines) then [text] else NonEmpty(ChunksFrom(text, Outside, maxLength, maxLines))
  }

  method ChunkText(text: string, maxLength: nat, maxLines: nat) returns (r: seq<string>)
    requires maxLength > 0 && maxLines > 0
    ensures r == Chunks(text, maxLength, maxLines)
  {
    if |text| <= maxLength && CountLines(text) <= maxLines {
      return [text];
    }
    var chunks: seq<string> := [];
    var remaining := text;
    var block := Outside;
    hide Trim, Track, Ticks, SplitPoint, NonEmpty, ChunksFrom, TurnOf, Ready, CountLines, Opening, Chunks;
    ChunksOfLong(text, maxLength, maxLines);
    ghost var left := ChunksFrom(text, Outside, maxLength, maxLines);
    ghost var all := left;
    while |remaining| > 0
      invariant Ready(remaining, block, maxLength)
      invariant left == ChunksFrom(remaining, block, maxLength, maxLines) && chunks + left == all
      decreases Ticks(remaining), if block.open then 0 else 1, |remaining|
    {
      ChunksUnfold(remaining, block, maxLength, maxLines);
      if |remaining| <= maxLength && CountLines(remaining) <= maxLines {
        chunks, left := chunks + [remaining], [];
        break;
      }
      ghost var t := TurnOf(remaining, block, maxLength, maxLines);
      TurnShrinks(remaining, block, maxLength, maxLines);
      TurnUnfold(remaining, block, maxLength, maxLines);
      left := ChunksFrom(t.remaining, t.block, maxLength, maxLines);
      MoveOne(chunks, t.chunk, left);
      var splitIndex := SplitPoint(remaining, maxLength, maxLines);
      var chunk := remaining[..splitIndex];
      var state := TrackCodeBlocks(chunk, block);
      if state.open {
        chunk := chunk + CLOSE;
        block := state;
      } else {
        block := Outside;
      }
      chunks := chunks + [Trim(chunk)];
      remaining := Trim(remaining[splitIndex..]);
      if block.open {
        remaining := Opening(block.lang) + remaining;
      }
      assert remaining == t.remaining && block == t.block;
    }
    if remaining == [] {
      ChunksUnfold(remaining, block, maxLength, maxLines);
    }
    assert left == [] && chunks + left == chunks;
    r := NonEmpty(chunks);
  }

  lemma MoveOne(made: seq<string>, chunk: string, left: seq<string>)
    ensures made + ([chunk] + left) == (made + [chunk]) + left
  {
  }

  lemma ChunksUnfold(remaining: string, b: Block, maxLength: nat, maxLines: nat)
    requires maxLength > 0 && maxLines > 0 && Ready(remaining, b, maxLength)
    ensures remaining == [] ==> ChunksFrom(remaining, b, maxLength, maxLines) == []
    ensures remaining != [] && Fits(remaining, maxLength, maxLines) ==> ChunksFrom(remaining, b, maxLength, maxLines) == [remaining]
    ensures remaining != [] && !Fits(remaining, maxLength, maxLines) ==>
              var t := TurnOf(remaining, b, maxLength, maxLines);
              && Ready(t.remaining, t.block, maxLength)
              && ChunksFrom(remaining, b, maxLength, maxLines) == [t.chunk] + ChunksFrom(t.remaining, t.block, maxLength, maxLines)
  {
    hide TurnOf, Fits, Ready;
    if remaining != [] {
      TurnShrinks(remaining, b, maxLength, maxLines);
    }
  }

  lemma TurnUnfold(remaining: string, was: Block, maxLength: nat, maxLines: nat)
    requires maxLength > 0 && maxLines > 0
    ensures var k := SplitPoint(remaining, maxLength, maxLines);
            && k <= |remaining|
            && var piece, rest, b := remaining[..k], Trim(remaining[k..]), Track(remaining[..k], 0, was);
            TurnOf(remaining, was, maxLength, maxLines) ==
            if b.open then Turn(Trim(piece + CLOSE), Opening(b.lang) + rest, b) else Turn(Trim(piece), rest, Outside)
  {
    CutFits(remaining, maxLength, maxLines);
  }

  // ----- Bounds --------------------------------------------------------------------------------------

  lemma TrimFits(s: string, maxLength: nat, maxLines: nat)
    requires Fits(s, maxLength, maxLines)
    ensures Fits(Trim(s), maxLength, maxLines)
  {
    TrimKeeps(s);
    var k := |s| - |TrimStart(s)|;
    assert s == s[..k] + s[k..];
    CountConcat(s[..k], s[k..], '\n');
    SplitCount(s, '\n');
    SplitCount(s[k..], '\n');
    PrefixLines(s[k..], |Trim(s)|);
  }

  lemma ClosedFits(s: string, maxLength: nat, maxLines: nat)
    requires Fits(s, maxLength, maxLines)
    ensures Fits(s + CLOSE, maxLength + 4, maxLines + 1)
  {
    SplitCount(s, '\n');
    SplitCount(s + CLOSE, '\n');
    CountConcat(s, CLOSE, '\n');
    assert CLOSE[1..] == "```";
    CountNone("```", '\n');
  }

  /** A turn keeps to the limits, but for the fence that closes a block. */
  lemma TurnFits(remaining: string, was: Block, maxLength: nat, maxLines: nat)
    requires maxLength > 0 && maxLines > 0
    ensures var t := TurnOf(remaining, was, maxLength, maxLines);
            if t.block.open then Fits(t.chunk, maxLength + 4, maxLines + 1) else Fits(t.chunk, maxLength, maxLines)
  {
    CutFits(remaining, maxLength, maxLines);
    var piece := remaining[..SplitPoint(remaining, maxLength, maxLines)];
    hide SplitPoint, Trim, Track;
    if Track(piece, 0, was).open {
      ClosedFits(piece, maxLength, maxLines);
      TrimFits(piece + CLOSE, maxLength + 4, maxLines + 1);
    } else {
      TrimFits(piece, maxLength, maxLines);
    }
  }

  ghost predicate AllFit(chunks: seq<string>, maxLength: nat, maxLines: nat) {
    forall i :: 0 <= i < |chunks| ==> Fits(chunks[i], maxLength, maxLines)
  }

  lemma {:induction false} NonEmptyFit(chunks: seq<string>, maxLength: nat, maxLines: nat)
    requires AllFit(chunks, maxLength, maxLines)
    ensures AllFit(NonEmpty(chunks), maxLength, maxLines)
    ensures forall i :: 0 <= i < |NonEmpty(chunks)| ==> NonEmpty(chunks)[i] != []
  {
    if chunks != [] {
      NonEmptyFit(chunks[1..], maxLength, maxLines);
    }
  }

  lemma FitsMore(s: string, maxLength: nat, maxLines: nat)
    requires Fits(s, maxLength, maxLines)
    ensures Fits(s, maxLength + 4, maxLines + 1)
  {
  }

  lemma {:induction false} ChunksFromFit(remaining: string, b: Block, maxLength: nat, maxLines: nat)
    requires maxLength > 0 && maxLines > 0 && Ready(remaining, b, maxLength)
    ensures AllFit(ChunksFrom(remaining, b, maxLength, maxLines), maxLength + 4, maxLines + 1)
    decreases Ticks(remaining), if b.open then 0 else 1, |remaining|
  {
    if remaining != [] && !Fits(remaining, maxLength, maxLines) {
      TurnShrinks(remaining, b, maxLength, maxLines);
      TurnFits(remaining, b, maxLength, maxLines);
      var t := TurnOf(remaining, b, maxLength, maxLines);
      hide TurnOf, Fits;
      if !t.block.open {
        FitsMore(t.chunk, maxLength, maxLines);
      }
      ChunksFromFit(t.remaining, t.block, maxLength, maxLines);
    } else if remaining != [] {
      FitsMore(remaining, maxLength, maxLines);
    }
  }

  /** Whatever the text, a chunk passes the limits by no more than the fence that closes a block. */
  lemma {:induction false} NearlyFits(text: string, maxLength: nat, maxLines: nat)
    requires maxLength > 0 && maxLines > 0
    ensures AllFit(Chunks(text, maxLength, maxLines), maxLength + 4, maxLines + 1)
  {
    if Fits(text, maxLength, maxLines) {
      FitsMore(text, maxLength, maxLines);
    } else {
      ChunksFromFit(text, Outside, maxLength, maxLines);
      NonEmptyFit(ChunksFrom(text, Outside, maxLength, maxLines), maxLength + 4, maxLines + 1);
    }
  }

  // ----- Texts without fences ------------------------------------------------------------------------

  ghost predicate NoFence(s: string) { forall i: nat :: !FenceAt(s, i) }

  lemma {:induction false} NoFenceNoTrack(s: string, i: nat, b: Block)
    requires NoFence(s)
    ensures NextFence(s, i).None? && Track(s, i, b) == b
    decreases |s| - i
  {
    if i < |s| {
      NoFenceNoTrack(s, i + 1, b);
    }
  }

  lemma PartHasNoFence(s: string, from: nat, n: nat)
    requires NoFence(s) && from + n <= |s|
    ensures NoFence(s[from..from + n])
  {
    var part := s[from..from + n];
    forall i: nat ensures !FenceAt(part, i) {
      assert !FenceAt(s, from + i);
    }
  }

  /** A turn on a text without fences is a plain cut. */
  lemma PlainTurn(remaining: string, maxLength: nat, maxLines: nat)
    requires maxLength > 0 && maxLines > 0 && NoFence(remaining)
    ensures var t := TurnOf(remaining, Outside, maxLength, maxLines);
            && !t.block.open && t.block == Outside && NoFence(t.remaining)
            && Solid(t.chunk) + Solid(t.remaining) == Solid(remaining)
  {
    CutFits(remaining, maxLength, maxLines);
    var k := SplitPoint(remaining, maxLength, maxLines);
    hide SplitPoint, Trim, Solid, NoFence;
    PartHasNoFence(remaining, 0, k);
    assert remaining[0..k] == remaining[..k];
    NoFenceNoTrack(remaining[..k], 0, Outside);
    PartHasNoFence(remaining, k, |remaining| - k);
    assert remaining[k..k + (|remaining| - k)] == remaining[k..];
    TrimHasNoFence(remaining[k..]);
    CutKeepsSolid(remaining, k);
  }

  lemma TrimHasNoFence(s: string)
    requires NoFence(s)
    ensures NoFence(Trim(s))
  {
    TrimKeeps(s);
    var from := |s| - |TrimStart(s)|;
    PartHasNoFence(s, from, |Trim(s)|);
    assert Trim(s) == s[from..][..|Trim(s)|] == s[from..from + |Trim(s)|];
  }

  lemma TrimIsSolid(s: string)
    ensures Solid(Trim(s)) == Solid(s)
  {
    TrimKeeps(s);
  }

  lemma CutKeepsSolid(s: string, k: nat)
    requires k <= |s|
    ensures Solid(Trim(s[..k])) + Solid(Trim(s[k..])) == Solid(s)
  {
    hide Solid, Trim;
    var a, b := s[..k], s[k..];
    TrimIsSolid(a);
    TrimIsSolid(b);
    SolidConcat(a, b);
    assert s == a + b;
  }

  function Concat(chunks: seq<string>): string { if chunks == [] then [] else chunks[0] + Concat(chunks[1..]) }

  lemma {:induction false} ConcatNonEmpty(chunks: seq<string>)
    ensures Concat(NonEmpty(chunks)) == Concat(chunks)
  {
    if chunks != [] {
      ConcatNonEmpty(chunks[1..]);
      var rest := NonEmpty(chunks[1..]);
      if chunks[0] != [] {
        assert NonEmpty(chunks)[1..] == rest;
      } else {
        assert NonEmpty(chunks) == rest;
      }
    }
  }

  lemma {:induction false} PlainChunks(remaining: string, maxLength: nat, maxLines: nat)
    requires maxLength > 0 && maxLines > 0 && NoFence(remaining)
    ensures var chunks := ChunksFrom(remaining, Outside, maxLength, maxLines);
            AllFit(chunks, maxLength, maxLines) && Solid(Concat(chunks)) == Solid(remaining)
    decreases Ticks(remaining), |remaining|
  {
    if remaining == [] {
    } else if Fits(remaining, maxLength, maxLines) {
      assert Concat([remaining]) == remaining + Concat([]) == remaining;
    } else {
      TurnShrinks(remaining, Outside, maxLength, maxLines);
      TurnFits(remaining, Outside, maxLength, maxLines);
      PlainTurn(remaining, maxLength, maxLines);
      var t := TurnOf(remaining, Outside, maxLength, maxLines);
      hide TurnOf, Fits;
      PlainChunks(t.remaining, maxLength, maxLines);
      var rest := ChunksFrom(t.remaining, Outside, maxLength, maxLines);
      assert ([t.chunk] + rest)[1..] == rest;
      SolidConcat(t.chunk, Concat(rest));
    }
  }

  /**
   * For text without fences: every chunk keeps to both limits, and the characters of the
   * chunks in order, white space aside, are those of the text.
   */
  lemma {:induction false} PlainTextFitsAndIsKept(text: string, maxLength: nat, maxLines: nat)
    requires maxLength > 0 && maxLines > 0 && NoFence(text)
    ensures AllFit(Chunks(text, maxLength, maxLines), maxLength, maxLines)
    ensures Solid(Concat(Chunks(text, maxLength, maxLines))) == Solid(text)
  {
    if Fits(text, maxLength, maxLines) {
      assert Concat([text]) == text + Concat([]) == text;
    } else {
      var chunks := ChunksFrom(text, Outside, maxLength, maxLines);
      PlainChunks(text, maxLength, maxLines);
      NonEmptyFit(chunks, maxLength, maxLines);
      ConcatNonEmpty(chunks);
    }
  }

  /** With a fence a chunk can be longer than the limit: the fence that closes the block comes on top. */
  lemma FenceBreaksLimit(text: string, maxLength: nat, maxLines: nat)
    requires text == "```a" && maxLength == 3 && maxLines == 1
    ensures var chunks := Chunks(text, maxLength, maxLines);
            chunks != [] && chunks[0] == "```\n```" && |chunks[0]| > maxLength
  {
    SplitCount(text, '\n');
    CountNone(text, '\n');
    var piece := text[..3];
    assert LineLimit(text, 1) == 4 && EffectiveMax(text, 3, 1) == 3;
    assert LastIndexOf(piece, "\n\n") == -1 && LastIndexOf(piece, "\n") == -1
        && LastIndexOf(piece, ". ") == -1 && LastIndexOf(piece, " ") == -1 by {
      NotWithinFence(piece, "\n\n");
      NotWithinFence(piece, "\n");
      NotWithinFence(piece, ". ");
      NotWithinFence(piece, " ");
    }
    assert SplitPoint(text, 3, 1) == 3;
    assert FenceAt(piece, 0) && NextFence(piece, 0) == Some(0) && WordEnd(piece, 3) == 3;
    assert NextFence(piece, 3).None?;
    assert Track(piece, 0, Outside) == Track(piece, 3, Block(true, piece[3..3])) == Block(true, piece[3..3]);
    var chunk := piece + CLOSE;
    assert chunk == "```\n```" && !IsSpace(chunk[0]) && !IsSpace(chunk[6]);
    assert Trim(chunk) == chunk;
    var t := TurnOf(text, Outside, 3, 1);
    assert t.chunk == chunk;
    var all := ChunksFrom(text, Outside, 3, 1);
    assert all[0] == chunk;
  }

  // ----- Fences of the pieces --------------------------------------------------------------------------

  /** Every block that the text opens, read on its own, is closed again. */
  predicate Balanced(s: string) { !Track(s, 0, Outside).open }

  lemma {:induction false} NextFenceIs(s: string, i: nat, j: nat)
    requires i <= j && FenceAt(s, j) && forall k :: i <= k < j ==> !FenceAt(s, k)
    ensures NextFence(s, i) == Some(j)
    decreases j - i
  {
    if i < j {
      NextFenceIs(s, i + 1, j);
    }
  }

  lemma {:induction false} NextFenceMeans(s: string, i: nat)
    ensures match NextFence(s, i)
            case Some(j) => forall k :: i <= k < j ==> !FenceAt(s, k)
            case None => forall k: nat :: i <= k ==> !FenceAt(s, k)
    decreases |s| - i
  {
    if i < |s| && !FenceAt(s, i) {
      NextFenceMeans(s, i + 1);
    }
  }

  lemma {:induction false} NoNextFence(s: string, i: nat)
    requires forall k: nat :: i <= k ==> !FenceAt(s, k)
    ensures NextFence(s, i).None? && Fences(s, i) == 0
    decreases |s| - i
  {
    if i < |s| {
      NoNextFence(s, i + 1);
    }
  }

  /** `t` is `s` moved to the right by `d`, with no word character where `s` ends. */
  ghost predicate Moved(s: string, t: string, d: nat) {
    && d + |s| <= |t|
    && (forall k :: 0 <= k < |s| ==> t[k + d] == s[k])
    && (d + |s| < |t| ==> !IsWord(t[d + |s|]) && t[d + |s|] != '`')
  }

  lemma {:induction false} WordEndMoved(s: string, t: string, d: nat, i: nat)
    requires i <= |s| && Moved(s, t, d)
    ensures WordEnd(t, i + d) == WordEnd(s, i) + d
    decreases |s| - i
  {
    if i < |s| && IsWord(s[i]) {
      WordEndMoved(s, t, d, i + 1);
    }
  }

  /** A fence does not run over the character that follows. */
  lemma FencesMoved(s: string, t: string, d: nat, k: nat)
    requires Moved(s, t, d) && k <= |s|
    ensures FenceAt(t, k + d) <==> FenceAt(s, k)
  {
    if k + d + 3 <= |t| && k + 3 > |s| {
      assert t[d + |s|] != '`' && k + d <= d + |s| < k + d + 3;
    }
  }

  lemma NextFenceMoved(s: string, t: string, d: nat, i: nat)
    requires i <= |s| && Moved(s, t, d) && NextFence(s, i).Some?
    ensures NextFence(t, i + d) == Some(NextFence(s, i).value + d)
  {
    var j := NextFence(s, i).value;
    NextFenceMeans(s, i);
    FencesMoved(s, t, d, j);
    forall k | i + d <= k < j + d ensures !FenceAt(t, k) {
      FencesMoved(s, t, d, k - d);
    }
    NextFenceIs(t, i + d, j + d);
  }

  /** The fences of `t` are those of `s` and those that come after it. */
  lemma {:induction false} FencesOfMoved(s: string, t: string, d: nat, i: nat)
    requires i <= |s| && Moved(s, t, d)
    ensures Fences(t, i + d) == Fences(s, i) + Fences(t, d + |s|)
    decreases |s| - i
  {
    hide NextFence, WordEnd;
    if NextFence(s, i).Some? {
      var end := WordEnd(s, NextFence(s, i).value + 3);
      NextFenceMoved(s, t, d, i);
      WordEndMoved(s, t, d, NextFence(s, i).value + 3);
      FencesOfMoved(s, t, d, end);
    } else {
      NextFenceMeans(s, i);
      forall k | i + d <= k < d + |s| ensures !FenceAt(t, k) {
        FencesMoved(s, t, d, k - d);
      }
      SkipFences(t, i + d, d + |s|);
    }
  }

  lemma {:induction false} NextFenceSkips(s: string, i: nat, j: nat)
    requires i <= j <= |s| && forall k :: i <= k < j ==> !FenceAt(s, k)
    ensures NextFence(s, i) == NextFence(s, j)
    decreases j - i
  {
    if i < j {
      NextFenceSkips(s, i + 1, j);
    }
  }

  lemma SkipFences(s: string, i: nat, j: nat)
    requires i <= j <= |s| && forall k :: i <= k < j ==> !FenceAt(s, k)
    ensures Fences(s, i) == Fences(s, j)
  {
    NextFenceSkips(s, i, j);
    hide NextFence, WordEnd;
  }

  lemma {:induction false} TrimStartKeepsFences(s: string)
    ensures Fences(TrimStart(s), 0) == Fences(s, 0)
  {
    hide Fences, NextFence;
    if s != [] && IsSpace(s[0]) {
      TrimStartKeepsFences(s[1..]);
      FencesOfMoved(s[1..], s, 1, 0);
      SkipFences(s, 0, 1);
      NoNextFence(s, |s|);
    }
  }

  lemma {:induction false} TrimEndKeepsFences(s: string)
    ensures Fences(TrimEnd(s), 0) == Fences(s, 0)
  {
    hide Fences, NextFence;
    if s != [] && IsSpace(s[|s| - 1]) {
      var t := s[..|s| - 1];
      TrimEndKeepsFences(t);
      FencesOfMoved(t, s, 0, 0);
      NoNextFence(s, |t|);
    }
  }

  lemma TrimKeepsFences(s: string)
    ensures Fences(Trim(s), 0) == Fences(s, 0)
  {
    TrimStartKeepsFences(s);
    TrimEndKeepsFences(TrimStart(s));
  }

  lemma CloseAddsFence(s: string)
    ensures Fences(s + CLOSE, 0) == Fences(s, 0) + 1
  {
    var t := s + CLOSE;
    FencesOfMoved(s, t, 0, 0);
    assert t[|s| + 1..] == "```";
    assert FenceAt(t, |s| + 1);
    NextFenceIs(t, |s|, |s| + 1);
    NoNextFence(t, |t|);
  }

  // ----- What a turn adds -----------------------------------------------------------------------------

  lemma {:induction false} WordsAreSolid(s: string)
    requires WordsOnly(s)
    ensures Solid(s) == s
  {
    if s != [] {
      WordsAreSolid(s[1..]);
    }
  }

  lemma SolidFences(lang: string)
    requires WordsOnly(lang)
    ensures Solid(CLOSE) == "```" && Solid(Opening(lang)) == "```" + lang
  {
    SolidConcat("```" + lang, "\n");
    SolidConcat("```", lang);
    SolidConcat("\n", "```");
    WordsAreSolid(lang);
    assert "```"[1..] == "``" && "``"[1..] == "`" && "`"[1..] == "" && "\n"[1..] == "";
  }

  /**
   * Whatever the text, a turn keeps all of it but white space, in order: the part `a` goes into the chunk and the rest `b`
   * stays. If a block is open at the cut the chunk ends with a fence, and the remaining text begins with one and the
   * language of the block; otherwise nothing is added.
   */
  lemma TurnAddsOnlyFences(remaining: string, was: Block, maxLength: nat, maxLines: nat) returns (a: string, b: string)
    requires maxLength > 0 && maxLines > 0 && WordsOnly(was.lang)
    ensures Solid(remaining) == a + b
    ensures var t := TurnOf(remaining, was, maxLength, maxLines);
            if t.block.open then Solid(t.chunk) == a + "```" && Solid(t.remaining) == "```" + t.block.lang + b
            else Solid(t.chunk) == a && Solid(t.remaining) == b
  {
    CutFits(remaining, maxLength, maxLines);
    TurnUnfold(remaining, was, maxLength, maxLines);
    var k := SplitPoint(remaining, maxLength, maxLines);
    var piece, rest := remaining[..k], remaining[k..];
    var block := Track(piece, 0, was);
    TrackLang(piece, 0, was);
    hide SplitPoint, Track, TurnOf, Solid, Trim, WordsOnly, Opening;
    a, b := Solid(piece), Solid(rest);
    assert remaining == piece + rest;
    SolidConcat(piece, rest);
    SolidFences(block.lang);
    TrimIsSolid(piece);
    TrimIsSolid(piece + CLOSE);
    SolidConcat(piece, CLOSE);
    TrimIsSolid(rest);
    SolidConcat(Opening(block.lang), Trim(rest));
  }

  lemma {:induction false} LangEnds(s: string, i: nat, end: nat)
    requires i <= end <= |s| && (forall k :: i <= k < end ==> IsWord(s[k])) && (end < |s| ==> !IsWord(s[end]))
    ensures WordEnd(s, i) == end
    decreases end - i
  {
    if i < end {
      LangEnds(s, i + 1, end);
    }
  }

  /** One fence, with its language, opens a block of that language. */
  lemma {:induction false} FenceOpens(pre: string, lang: string, body: string)
    requires '`' !in pre && '`' !in body && WordsOnly(lang) && (body != [] ==> !IsWord(body[0]))
    ensures Track(pre + "```" + lang + body, 0, Outside) == Block(true, lang)
  {
    var s := pre + "```" + lang + body;
    var j, end := |pre|, |pre| + 3 + |lang|;
    forall k | 0 <= k < j ensures !FenceAt(s, k) {
      assert s[k] == pre[k];
    }
    NextFenceIs(s, 0, j);
    LangEnds(s, j + 3, end);
    forall k: nat | end <= k ensures !FenceAt(s, k) {
      assert k < |s| ==> s[k] == body[k - end];
    }
    NoNextFence(s, end);
    assert s[j + 3..end] == lang;
  }

  /** A piece that ends in a block which it opens is closed, and the block is opened again with its language. */
  lemma {:induction false} BlockIsReopened(pre: string, lang: string, body: string, rest: string, maxLength: nat, maxLines: nat)
    requires maxLength > 0 && maxLines > 0
    requires '`' !in pre && '`' !in body && WordsOnly(lang) && (body != [] ==> !IsWord(body[0]))
    requires var piece := pre + "```" + lang + body; SplitPoint(piece + rest, maxLength, maxLines) == |piece|
    ensures var piece := pre + "```" + lang + body;
            TurnOf(piece + rest, Outside, maxLength, maxLines) ==
            Turn(Trim(piece + "\n```"), "```" + lang + "\n" + Trim(rest), Block(true, lang))
  {
    var piece := pre + "```" + lang + body;
    var remaining := piece + rest;
    TurnUnfold(remaining, Outside, maxLength, maxLines);
    FenceOpens(pre, lang, body);
    hide Trim, Track, SplitPoint, TurnOf;
    assert remaining[..|piece|] == piece && remaining[|piece|..] == rest;
  }

  // ----- Balance -----------------------------------------------------------------------------------------

  lemma BalancedIffEven(s: string)
    ensures Balanced(s) <==> Fences(s, 0) % 2 == 0
  {
    TrackParity(s, 0, Outside);
  }

  lemma PieceBalanced(piece: string, was: Block)
    ensures Balanced(if Track(piece, 0, was).open then Trim(piece + CLOSE) else Trim(piece)) <==> !was.open
  {
    hide Trim, Fences, Balanced, Track;
    TrackParity(piece, 0, was);
    TrimKeepsFences(piece);
    TrimKeepsFences(piece + CLOSE);
    CloseAddsFence(piece);
    BalancedIffEven(Trim(piece));
    BalancedIffEven(Trim(piece + CLOSE));
  }

  /** What a turn cuts off has its own fences exactly if the turn began outside a block. */
  lemma TurnBalanced(remaining: string, was: Block, maxLength: nat, maxLines: nat)
    requires maxLength > 0 && maxLines > 0
    ensures Balanced(TurnOf(remaining, was, maxLength, maxLines).chunk) <==> !was.open
  {
    CutFits(remaining, maxLength, maxLines);
    var piece := remaining[..SplitPoint(remaining, maxLength, maxLines)];
    hide Trim, SplitPoint, Balanced, Track;
    PieceBalanced(piece, was);
  }

  // ----- The exact lengths of the pieces -----------------------------------------------------------------

  lemma {:induction false} TrimStartConcat(a: string, b: string)
    requires TrimStart(a) != []
    ensures TrimStart(a + b) == TrimStart(a) + b
  {
    if IsSpace(a[0]) {
      TrimStartConcat(a[1..], b);
      assert (a + b)[1..] == a[1..] + b;
    }
  }

  lemma {:induction false} SolidStaysInTrim(s: string, i: nat)
    requires i < |s| && !IsSpace(s[i])
    ensures TrimStart(s) != []
  {
    if IsSpace(s[0]) {
      SolidStaysInTrim(s[1..], i - 1);
    }
  }

  /** A piece that leaves a block open holds a fence. */
  lemma OpenHasFence(remaining: string, was: Block, maxLength: nat, maxLines: nat)
    requires maxLength > 0 && maxLines > 0 && Ready(remaining, was, maxLength)
    requires TurnOf(remaining, was, maxLength, maxLines).block.open
    ensures var k := SplitPoint(remaining, maxLength, maxLines); k <= |remaining| && TrimStart(remaining[..k]) != []
  {
    CutFits(remaining, maxLength, maxLines);
    var piece := remaining[..SplitPoint(remaining, maxLength, maxLines)];
    if was.open {
      CutTakesFence(remaining, was, maxLength, maxLines);
      SolidStaysInTrim(piece, 0);
    } else {
      SolidStaysInTrim(piece, NextFence(piece, 0).value);
    }
  }

  lemma ClosedIsTrimmed(piece: string)
    requires TrimStart(piece) != []
    ensures Trim(piece + CLOSE) == TrimStart(piece) + CLOSE
  {
    TrimStartConcat(piece, CLOSE);
    assert (TrimStart(piece) + CLOSE)[|TrimStart(piece)| + 3] == '`';
  }

  lemma ClosedFitsIff(s: string, maxLength: nat, maxLines: nat)
    ensures Fits(s + CLOSE, maxLength, maxLines) <==> |s| + 4 <= maxLength && CountLines(s) + 1 <= maxLines
  {
    SplitCount(s, '\n');
    SplitCount(s + CLOSE, '\n');
    CountConcat(s, CLOSE, '\n');
    assert CLOSE[1..] == "```";
    CountNone("```", '\n');
  }

  /** A cut: the piece in front of it, and whether it goes through a block. */
  datatype Cut = Cut(piece: string, block: Block)

  /** The piece leaves a block open and has no room for the fence that closes it. */
  predicate NoRoom(c: Cut, maxLength: nat, maxLines: nat) {
    c.block.open && (|TrimStart(c.piece)| + 4 > maxLength || CountLines(TrimStart(c.piece)) + 1 > maxLines)
  }

  function CutOf(remaining: string, was: Block, maxLength: nat, maxLines: nat): Cut
    requires maxLength > 0 && maxLines > 0
  {
    CutFits(remaining, maxLength, maxLines);
    Cut(remaining[..SplitPoint(remaining, maxLength, maxLines)], TurnOf(remaining, was, maxLength, maxLines).block)
  }

  /** A turn passes a limit exactly if there is no room for the closing fence. */
  lemma TurnFitsIff(remaining: string, was: Block, maxLength: nat, maxLines: nat)
    requires maxLength > 0 && maxLines > 0 && Ready(remaining, was, maxLength)
    ensures Fits(TurnOf(remaining, was, maxLength, maxLines).chunk, maxLength, maxLines)
            <==> !NoRoom(CutOf(remaining, was, maxLength, maxLines), maxLength, maxLines)
  {
    CutFits(remaining, maxLength, maxLines);
    var piece := remaining[..SplitPoint(remaining, maxLength, maxLines)];
    if TurnOf(remaining, was, maxLength, maxLines).block.open {
      OpenHasFence(remaining, was, maxLength, maxLines);
      hide Trim, SplitPoint, Track, Fits;
      ClosedIsTrimmed(piece);
      ClosedFitsIff(TrimStart(piece), maxLength, maxLines);
    } else {
      hide SplitPoint, Track, Fits;
      TrimFits(piece, maxLength, maxLines);
    }
  }

  function CutsFrom(remaining: string, b: Block, maxLength: nat, maxLines: nat): seq<Cut>
    requires maxLength > 0 && maxLines > 0 && Ready(remaining, b, maxLength)
    decreases Ticks(remaining), if b.open then 0 else 1, |remaining|
  {
    if remaining == [] || Fits(remaining, maxLength, maxLines) then []
    else
      TurnShrinks(remaining, b, maxLength, maxLines);
      var t := TurnOf(remaining, b, maxLength, maxLines);
      [CutOf(remaining, b, maxLength, maxLines)] + CutsFrom(t.remaining, t.block, maxLength, maxLines)
  }

  /** What is left after the last cut. */
  function LastFrom(remaining: string, b: Block, maxLength: nat, maxLines: nat): string
    requires maxLength > 0 && maxLines > 0 && Ready(remaining, b, maxLength)
    decreases Ticks(remaining), if b.open then 0 else 1, |remaining|
  {
    if remaining == [] || Fits(remaining, maxLength, maxLines) then remaining
    else
      TurnShrinks(remaining, b, maxLength, maxLines);
      var t := TurnOf(remaining, b, maxLength, maxLines);
      LastFrom(t.remaining, t.block, maxLength, maxLines)
  }

  /** A cut, the state it was made in, and the chunk that came of it. */
  ghost predicate Explains(c: Cut, wasOpen: bool, chunk: string, maxLength: nat, maxLines: nat) {
    && (Fits(chunk, maxLength, maxLines) <==> !NoRoom(c, maxLength, maxLines))
    && (Balanced(chunk) <==> !wasOpen)
  }

  /** Whether turn `i` begins inside a block. */
  predicate BeginsOpen(cuts: seq<Cut>, b: Block, i: nat)
    requires i <= |cuts|
  {
    if i == 0 then b.open else cuts[i - 1].block.open
  }

  ghost predicate Explained(cuts: seq<Cut>, b: Block, chunks: seq<string>, maxLength: nat, maxLines: nat) {
    && |cuts| <= |chunks|
    && forall i :: 0 <= i < |cuts| ==>
         Explains(cuts[i], BeginsOpen(cuts, b, i), chunks[i], maxLength, maxLines)
  }

  lemma ExplainedCons(c: Cut, cuts: seq<Cut>, b: Block, chunk: string, chunks: seq<string>, maxLength: nat, maxLines: nat)
    requires Explains(c, b.open, chunk, maxLength, maxLines) && Explained(cuts, c.block, chunks, maxLength, maxLines)
    ensures Explained([c] + cuts, b, [chunk] + chunks, maxLength, maxLines)
  {
    hide Explains;
    var all, made := [c] + cuts, [chunk] + chunks;
    forall i | 0 <= i < |all| ensures Explains(all[i], BeginsOpen(all, b, i), made[i], maxLength, maxLines) {
      if i > 0 {
        assert all[i] == cuts[i - 1] && made[i] == chunks[i - 1];
        assert BeginsOpen(all, b, i) == BeginsOpen(cuts, c.block, i - 1);
      }
    }
  }

  lemma {:induction false} ChunksAndCuts(remaining: string, b: Block, maxLength: nat, maxLines: nat)
    requires maxLength > 0 && maxLines > 0 && Ready(remaining, b, maxLength)
    ensures var chunks, cuts := ChunksFrom(remaining, b, maxLength, maxLines), CutsFrom(remaining, b, maxLength, maxLines);
            var last := LastFrom(remaining, b, maxLength, maxLines);
            && Explained(cuts, b, chunks, maxLength, maxLines)
            && chunks[|cuts|..] == (if last == [] then [] else [last])
            && (last == [] || Fits(last, maxLength, maxLines))
    decreases Ticks(remaining), if b.open then 0 else 1, |remaining|
  {
    if remaining != [] && !Fits(remaining, maxLength, maxLines) {
      TurnShrinks(remaining, b, maxLength, maxLines);
      TurnFitsIff(remaining, b, maxLength, maxLines);
      TurnBalanced(remaining, b, maxLength, maxLines);
      var t := TurnOf(remaining, b, maxLength, maxLines);
      var c := CutOf(remaining, b, maxLength, maxLines);
      assert c.block == t.block;
      hide TurnOf, CutOf, Fits, Balanced, NoRoom, Explained, Ready;
      ChunksAndCuts(t.remaining, t.block, maxLength, maxLines);
      var chunks, cuts := ChunksFrom(t.remaining, t.block, maxLength, maxLines), CutsFrom(t.remaining, t.block, maxLength, maxLines);
      assert Explained(cuts, t.block, chunks, maxLength, maxLines);
      ExplainedCons(c, cuts, b, t.chunk, chunks, maxLength, maxLines);
      ExplainedLength(cuts, t.block, chunks, maxLength, maxLines);
      assert ([t.chunk] + chunks)[1 + |cuts|..] == chunks[|cuts|..];
    }
  }

  lemma ExplainedLength(cuts: seq<Cut>, b: Block, chunks: seq<string>, maxLength: nat, maxLines: nat)
    requires Explained(cuts, b, chunks, maxLength, maxLines)
    ensures |cuts| <= |chunks|
  {
  }

  ghost predicate AllBalanced(chunks: seq<string>) { forall i :: 0 <= i < |chunks| ==> Balanced(chunks[i]) }

  lemma {:induction false} NonEmptyIff(chunks: seq<string>, maxLength: nat, maxLines: nat)
    requires maxLines > 0
    ensures AllFit(NonEmpty(chunks), maxLength, maxLines) <==> AllFit(chunks, maxLength, maxLines)
    ensures AllBalanced(NonEmpty(chunks)) <==> AllBalanced(chunks)
  {
    if chunks != [] {
      hide Fits, Balanced;
      NonEmptyIff(chunks[1..], maxLength, maxLines);
      NothingFits(maxLength, maxLines);
      var rest := NonEmpty(chunks[1..]);
      assert chunks == [chunks[0]] + chunks[1..];
      AllCons(chunks[0], chunks[1..], maxLength, maxLines);
      AllCons(chunks[0], rest, maxLength, maxLines);
      assert NonEmpty(chunks) == if chunks[0] != [] then [chunks[0]] + rest else rest;
    }
  }

  lemma NothingFits(maxLength: nat, maxLines: nat)
    requires maxLines > 0
    ensures Fits([], maxLength, maxLines) && Balanced([])
  {
  }

  lemma AllCons(s: string, chunks: seq<string>, maxLength: nat, maxLines: nat)
    ensures AllFit([s] + chunks, maxLength, maxLines) <==> Fits(s, maxLength, maxLines) && AllFit(chunks, maxLength, maxLines)
    ensures AllBalanced([s] + chunks) <==> Balanced(s) && AllBalanced(chunks)
  {
    hide Fits, Balanced;
    assert forall i :: 0 <= i < |chunks| ==> ([s] + chunks)[i + 1] == chunks[i];
    assert ([s] + chunks)[0] == s;
  }

  /** The cuts that are made, first to last, and what is left after them. */
  function Cuts(text: string, maxLength: nat, maxLines: nat): seq<Cut>
    requires maxLength > 0 && maxLines > 0
  {
    CutsFrom(text, Outside, maxLength, maxLines)
  }

  function Last(text: string, maxLength: nat, maxLines: nat): string
    requires maxLength > 0 && maxLines > 0
  {
    LastFrom(text, Outside, maxLength, maxLines)
  }

  /** Some chunk passes a limit exactly if some cut through a block leaves no room for the closing fence. */
  lemma {:induction false} AllFitIff(text: string, maxLength: nat, maxLines: nat)
    requires maxLength > 0 && maxLines > 0
    ensures AllFit(Chunks(text, maxLength, maxLines), maxLength, maxLines)
            <==> forall c :: c in Cuts(text, maxLength, maxLines) ==> !NoRoom(c, maxLength, maxLines)
  {
    if !Fits(text, maxLength, maxLines) {
      var chunks, cuts := ChunksFrom(text, Outside, maxLength, maxLines), Cuts(text, maxLength, maxLines);
      var last := Last(text, maxLength, maxLines);
      ChunksAndCuts(text, Outside, maxLength, maxLines);
      NonEmptyIff(chunks, maxLength, maxLines);
      hide Fits, NoRoom, ChunksFrom, CutsFrom, LastFrom, Balanced, NonEmpty, Explained;
      FitByCuts(cuts, chunks, last, maxLength, maxLines);
    } else {
      assert Cuts(text, maxLength, maxLines) == [];
    }
  }

  lemma FitByCuts(cuts: seq<Cut>, chunks: seq<string>, last: string, maxLength: nat, maxLines: nat)
    requires Explained(cuts, Outside, chunks, maxLength, maxLines) && (last == [] || Fits(last, maxLength, maxLines))
    requires chunks[|cuts|..] == if last == [] then [] else [last]
    ensures AllFit(chunks, maxLength, maxLines) <==> forall c :: c in cuts ==> !NoRoom(c, maxLength, maxLines)
  {
    hide Fits, NoRoom, Balanced;
    assert forall i :: |cuts| <= i < |chunks| ==> chunks[i] == chunks[|cuts|..][i - |cuts|] == last;
    forall i | 0 <= i < |cuts|
      ensures Fits(chunks[i], maxLength, maxLines) <==> !NoRoom(cuts[i], maxLength, maxLines) {
      assert Explains(cuts[i], BeginsOpen(cuts, Outside, i), chunks[i], maxLength, maxLines);
    }
    if AllFit(chunks, maxLength, maxLines) {
      forall c | c in cuts ensures !NoRoom(c, maxLength, maxLines) {
        var i :| 0 <= i < |cuts| && cuts[i] == c;
        assert Fits(chunks[i], maxLength, maxLines);
      }
    }
  }

  /**
   * Every chunk has the fences of its own blocks exactly if no cut but the last goes through a
   * block, and what is left after the last one has the fences of its blocks.
   */
  lemma {:induction false} AllBalancedIff(text: string, maxLength: nat, maxLines: nat)
    requires maxLength > 0 && maxLines > 0
    ensures var cuts := Cuts(text, maxLength, maxLines);
            AllBalanced(Chunks(text, maxLength, maxLines))
            <==> (forall i :: 0 <= i < |cuts| - 1 ==> !cuts[i].block.open) && Balanced(Last(text, maxLength, maxLines))
  {
    if !Fits(text, maxLength, maxLines) {
      var chunks, cuts := ChunksFrom(text, Outside, maxLength, maxLines), Cuts(text, maxLength, maxLines);
      var last := Last(text, maxLength, maxLines);
      ChunksAndCuts(text, Outside, maxLength, maxLines);
      NonEmptyIff(chunks, maxLength, maxLines);
      NothingFits(maxLength, maxLines);
      hide Fits, NoRoom, ChunksFrom, CutsFrom, LastFrom, Balanced, NonEmpty, Explained;
      BalancedByCuts(cuts, chunks, last, maxLength, maxLines);
    } else {
      assert Cuts(text, maxLength, maxLines) == [] && Last(text, maxLength, maxLines) == text;
      hide Balanced;
      assert Chunks(text, maxLength, maxLines) == [text] && [text][0] == text;
    }
  }

  lemma BalancedByCuts(cuts: seq<Cut>, chunks: seq<string>, last: string, maxLength: nat, maxLines: nat)
    requires Explained(cuts, Outside, chunks, maxLength, maxLines) && Balanced([])
    requires chunks[|cuts|..] == if last == [] then [] else [last]
    ensures AllBalanced(chunks) <==> (forall i :: 0 <= i < |cuts| - 1 ==> !cuts[i].block.open) && Balanced(last)
  {
    hide Fits, NoRoom, Balanced;
    assert forall i :: |cuts| <= i < |chunks| ==> chunks[i] == chunks[|cuts|..][i - |cuts|] == last;
    assert last != [] ==> chunks[|cuts|..][0] == last && chunks[|cuts|] == last;
    forall i | 0 <= i < |cuts| ensures Balanced(chunks[i]) <==> !BeginsOpen(cuts, Outside, i) {
      assert Explains(cuts[i], BeginsOpen(cuts, Outside, i), chunks[i], maxLength, maxLines);
    }
    BeginsOpenShift(cuts, chunks);
  }

  lemma BeginsOpenShift(cuts: seq<Cut>, chunks: seq<string>)
    requires |cuts| <= |chunks|
    requires forall i :: 0 <= i < |cuts| ==> (Balanced(chunks[i]) <==> !BeginsOpen(cuts, Outside, i))
    ensures (forall i :: 0 <= i < |cuts| ==> Balanced(chunks[i])) <==> forall i :: 0 <= i < |cuts| - 1 ==> !cuts[i].block.open
  {
    hide Balanced;
    if forall i :: 0 <= i < |cuts| ==> Balanced(chunks[i]) {
      forall i | 0 <= i < |cuts| - 1 ensures !cuts[i].block.open {
        assert Balanced(chunks[i + 1]) && BeginsOpen(cuts, Outside, i + 1) == cuts[i].block.open;
      }
    }
  }

  // ----- A block that is cut twice -------------------------------------------------------------------------

  function Letters(n: nat): (r: string)
    ensures |r| == n && forall i :: 0 <= i < n ==> r[i] == 'a'
  {
    seq(n, i => 'a')
  }

  function Code(n: nat): string { Opening("") + Letters(n) }

  lemma CodeIs(n: nat)
    ensures var s := Code(n);
            && |s| == n + 4 && s[0] == s[1] == s[2] == '`' && s[3] == '\n' && forall i :: 4 <= i < |s| ==> s[i] == 'a'
  {
  }

  lemma CodeLines(n: nat)
    ensures CountLines(Code(n)) == 2 && CountLines(Letters(n)) == 1
  {
    SplitCount(Code(n), '\n');
    SplitCount(Letters(n), '\n');
    CountConcat(Opening(""), Letters(n), '\n');
    CountConcat("```" + "", "\n", '\n');
    CountNone("```" + "", '\n');
    CountNone(Letters(n), '\n');
    assert "\n"[1..] == "";
  }

  /** With ten or more characters allowed, the line break after the fence is no place to cut. */
  lemma CodeCut(n: nat, maxLength: nat, maxLines: nat)
    requires maxLength >= 10 && maxLines >= 2 && n + 4 > maxLength
    ensures SplitPoint(Code(n), maxLength, maxLines) == maxLength && Code(n)[..maxLength] == Code(maxLength - 4)
  {
    var text := Code(n);
    CodeIs(n);
    CodeIs(maxLength - 4);
    CodeLines(n);
    CutPreference(text, maxLength, maxLines);
    assert EffectiveMax(text, maxLength, maxLines) == maxLength;
    var range := text[..maxLength];
    assert range == Code(maxLength - 4);
    forall i: nat, sub: string | sub != [] && SubAt(range, sub, i)
      ensures range[i] == sub[0] && range[i + |sub| - 1] == sub[|sub| - 1] {
      assert range[i..i + |sub|][0] == range[i] && range[i..i + |sub|][|sub| - 1] == range[i + |sub| - 1];
    }
    assert !FoundPast(range, "\n\n", 5 * maxLength) && !FoundPast(range, "\n", 3 * maxLength);
    assert !FoundPast(range, ". ", 3 * maxLength) && !FoundPast(range, " ", 3 * maxLength);
  }

  lemma CodeFences(n: nat)
    ensures var s := Code(n);
            && Track(s, 0, Outside) == Block(true, "") && (forall lang :: Track(s, 0, Block(true, lang)) == Outside)
            && Fences(s, 0) == 1 && Fences(Letters(n), 0) == 0
  {
    var s := Code(n);
    CodeIs(n);
    NextFenceIs(s, 0, 0);
    assert WordEnd(s, 3) == 3 && s[3..3] == "";
    NoNextFence(s, 3);
    NoNextFence(Letters(n), 0);
  }

  lemma CodeTrims(n: nat)
    requires n > 0
    ensures Trim(Code(n)) == Code(n) && Trim(Letters(n)) == Letters(n) && Trim(Code(n) + CLOSE) == Code(n) + CLOSE
  {
    CodeIs(n);
  }

  lemma CodeTurn(n: nat, m: nat, rest: nat, was: Block, maxLength: nat, maxLines: nat)
    requires maxLength >= 10 && maxLines >= 2 && m == maxLength - 4 && n == m + rest && rest > 0
    requires was == Outside || was == Block(true, "")
    ensures TurnOf(Code(n), was, maxLength, maxLines) ==
            if was.open then Turn(Code(m), Letters(rest), Outside) else Turn(Code(m) + CLOSE, Code(rest), Block(true, ""))
  {
    TurnUnfold(Code(n), was, maxLength, maxLines);
    CodeCut(n, maxLength, maxLines);
    CodeFences(m);
    CodeTrims(m);
    CodeTrims(rest);
    hide Trim, Track, SplitPoint, TurnOf, Fences;
    CodeIs(n);
    assert Code(n)[maxLength..] == Letters(rest);
  }

  /**
   * Such texts, for every limit of ten characters or more: a block of one long line that takes
   * three pieces. The fence that opens the second piece is taken for the end of the block, so
   * the second piece is never closed and the third has no fence at all.
   */
  lemma {:induction false} BlockInThreePieces(n: nat, maxLength: nat, maxLines: nat)
    requires maxLength >= 10 && maxLines >= 2 && 2 * (maxLength - 4) < n <= 2 * (maxLength - 4) + maxLength
    ensures var m := maxLength - 4;
            && Chunks(Code(n), maxLength, maxLines) == [Code(m) + CLOSE, Code(m), Letters(n - 2 * m)]
            && Balanced(Code(m) + CLOSE) && !Balanced(Code(m)) && |Code(m) + CLOSE| > maxLength
  {
    var m, inside := maxLength - 4, Block(true, "");
    hide TurnOf, Balanced, CountLines, Code, Chunks, ChunksFrom, Ready, Fits, Letters;
    CodeTurn(n, m, n - m, Outside, maxLength, maxLines);
    CodeTurn(n - m, m, n - 2 * m, inside, maxLength, maxLines);
    CodeMeets(n, maxLength, maxLines);
    CodeMeets(n - m, maxLength, maxLines);
    CodeBalance(m);
    LettersFit(n - 2 * m, maxLength, maxLines);
    ThreeTurns(Code(n), Code(n - m), Letters(n - 2 * m), Code(m) + CLOSE, Code(m), inside, maxLength, maxLines);
  }

  lemma ChunksOfLong(text: string, maxLength: nat, maxLines: nat)
    requires maxLength > 0 && maxLines > 0 && !Fits(text, maxLength, maxLines)
    ensures Ready(text, Outside, maxLength)
    ensures Chunks(text, maxLength, maxLines) == NonEmpty(ChunksFrom(text, Outside, maxLength, maxLines))
  {
  }

  lemma LettersFit(n: nat, maxLength: nat, maxLines: nat)
    requires 0 < n <= maxLength && maxLines > 0
    ensures Letters(n) != [] && Fits(Letters(n), maxLength, maxLines)
  {
    CodeLines(n);
  }

  lemma CodeMeets(n: nat, maxLength: nat, maxLines: nat)
    requires maxLength >= 10 && n + 4 > maxLength
    ensures Code(n) != [] && !Fits(Code(n), maxLength, maxLines) && Ready(Code(n), Block(true, ""), maxLength)
  {
    CodeIs(n);
    assert Opening("") == "```\n";
  }

  lemma CodeBalance(n: nat)
    ensures |Code(n)| == n + 4 && |Code(n) + CLOSE| == n + 8 && Balanced(Code(n) + CLOSE) && !Balanced(Code(n))
  {
    CodeFences(n);
    CloseAddsFence(Code(n));
    BalancedIffEven(Code(n) + CLOSE);
    BalancedIffEven(Code(n));
  }

  lemma ThreeTurns(first: string, second: string, third: string, a: string, b: string, inside: Block,
                   maxLength: nat, maxLines: nat)
    requires maxLength > 0 && maxLines > 0 && third != [] && a != [] && b != []
    requires first != [] && !Fits(first, maxLength, maxLines) && second != [] && !Fits(second, maxLength, maxLines)
    requires Fits(third, maxLength, maxLines) && Ready(second, inside, maxLength)
    requires TurnOf(first, Outside, maxLength, maxLines) == Turn(a, second, inside)
    requires TurnOf(second, inside, maxLength, maxLines) == Turn(b, third, Outside)
    ensures Chunks(first, maxLength, maxLines) == [a, b, third]
  {
    hide TurnOf, Fits, Ready, ChunksFrom, NonEmpty;
    ChunksOfLong(first, maxLength, maxLines);
    ChunksUnfold(first, Outside, maxLength, maxLines);
    ChunksUnfold(second, inside, maxLength, maxLines);
    ChunksUnfold(third, Outside, maxLength, maxLines);
    NonEmptyOfThree(a, b, third);
  }

  lemma NonEmptyOfThree(a: string, b: string, c: string)
    requires a != [] && b != [] && c != []
    ensures NonEmpty([a] + ([b] + [c])) == [a, b, c]
  {
    assert [c][1..] == [] && NonEmpty([c]) == [c];
    assert ([b] + [c])[1..] == [c] && NonEmpty([b] + [c]) == [b] + [c];
    assert ([a] + ([b] + [c]))[1..] == [b] + [c];
  }
}
