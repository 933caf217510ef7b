/** Chapter files (`parseVttChapters`) and the choice of the chapter that is
    playing (the loop of `updateCurrentChapter`, whose state change is in
    the `Player` module). A chapter file is WebVTT: blocks separated by
    blank lines, each with a timing line `start --> end` and a title on its
    last line. */
module Chapters {
  import opened Optional
  import opened Text
  import opened Timecode

  datatype Chapter = Chapter(start: Time, title: string)

  const Arrow := " --> "

  // ---------------------------------------------------------------- blocks

  /** The number of LFs at the start of `s`. */
  function NewlineRun(s: string): (n: nat)
    ensures n <= |s|
    ensures forall i :: 0 <= i < n ==> s[i] == '\n'
    ensures n < |s| ==> s[n] != '\n'
    decreases |s|
  {
    if s != [] && s[0] == '\n' then 1 + NewlineRun(s[1..]) else 0
  }

  /** No blank line inside: no LF directly followed by another. */
  predicate NoBlankLine(b: string) {
    forall i :: 0 <= i < |b| - 1 ==> !(b[i] == '\n' && b[i + 1] == '\n')
  }

  /** `s.split(/\n\n+/)`: every run of two or more LFs separates two blocks. */
  function SplitBlocks(s: string): (blocks: seq<string>)
    ensures |blocks| >= 1
    ensures blocks[0] <= s
    ensures forall k :: 0 <= k < |blocks| ==> NoBlankLine(blocks[k])
    decreases |s|
  {
    if s == [] then [[]]
    else if |s| >= 2 && s[0] == '\n' && s[1] == '\n' then [[]] + SplitBlocks(s[NewlineRun(s)..])
    else
      var rest := SplitBlocks(s[1..]);
      var first := [s[0]] + rest[0];
      assert NoBlankLine(first) by {
        assert rest[0] != [] ==> rest[0][0] == s[1];
        forall i | 0 <= i < |first| - 1 ensures !(first[i] == '\n' && first[i + 1] == '\n') {
          if i > 0 {
            assert first[i] == rest[0][i - 1] && first[i + 1] == rest[0][i];
          }
        }
      }
      [first] + rest[1..]
  }

  /** `blocks.join('\n\n')`. */
  function JoinBlocks(blocks: seq<string>): string
    requires |blocks| >= 1
  {
    if |blocks| == 1 then blocks[0] else blocks[0] + "\n\n" + JoinBlocks(blocks[1..])
  }

  /** A block as a chapter file writes it: text that neither starts nor ends
      with LF and holds no blank line. */
  predicate WellFormedBlock(b: string) {
    b != [] && b[0] != '\n' && b[|b| - 1] != '\n' && NoBlankLine(b)
  }

  /** Blocks joined with blank lines split back into the same blocks. */
  lemma {:induction false} SplitOfJoinBlocks(blocks: seq<string>)
    requires |blocks| >= 1
    requires forall k :: 0 <= k < |blocks| ==> WellFormedBlock(blocks[k])
    ensures SplitBlocks(JoinBlocks(blocks)) == blocks
    decreases |blocks|
  {
    if |blocks| == 1 {
      SplitSingleBlock(blocks[0]);
    } else {
      var rest := JoinBlocks(blocks[1..]);
      SplitOfJoinBlocks(blocks[1..]);
      JoinedStartsWithBlock(blocks[1..]);
      SplitAfterBlock(blocks[0], rest);
      assert blocks == [blocks[0]] + blocks[1..];
    }
  }

  lemma JoinedStartsWithBlock(blocks: seq<string>)
    requires |blocks| >= 1 && blocks[0] != []
    ensures JoinBlocks(blocks) != [] && JoinBlocks(blocks)[0] == blocks[0][0]
  {
  }

  /** Text with no blank line is one block. */
  lemma {:induction false} SplitSingleBlock(b: string)
    requires NoBlankLine(b)
    ensures SplitBlocks(b) == [b]
    decreases |b|
  {
    if b != [] {
      assert NoBlankLine(b[1..]) by {
        forall i | 0 <= i < |b[1..]| - 1 ensures !(b[1..][i] == '\n' && b[1..][i + 1] == '\n') {
          assert b[1..][i] == b[i + 1] && b[1..][i + 1] == b[i + 2];
        }
      }
      SplitSingleBlock(b[1..]);
      assert [b[0]] + b[1..] == b;
    }
  }

  /** A piece of a block followed by a blank line splits off first. */
  lemma {:induction false} SplitAfterBlock(piece: string, rest: string)
    requires piece != [] && piece[|piece| - 1] != '\n' && NoBlankLine(piece)
    requires rest == [] || rest[0] != '\n'
    ensures SplitBlocks(piece + "\n\n" + rest) == [piece] + SplitBlocks(rest)
    decreases |piece|
  {
    var s := piece + "\n\n" + rest;
    assert s[0] == piece[0];
    if |piece| == 1 {
      SplitAfterCharacter(piece[0], rest);
      assert piece == [piece[0]];
    } else {
      var tail := piece[1..];
      assert s[1] == piece[1];
      assert NoBlankLine(tail) by {
        forall i | 0 <= i < |tail| - 1 ensures !(tail[i] == '\n' && tail[i + 1] == '\n') {
          assert tail[i] == piece[i + 1] && tail[i + 1] == piece[i + 2];
        }
      }
      SplitAfterBlock(tail, rest);
      assert s[1..] == tail + "\n\n" + rest;
      SplitBlocksStep(s);
      assert [piece[0]] + tail == piece;
    }
  }

  /** Outside a blank line, the first character joins the first block of
      the rest. */
  lemma SplitBlocksStep(s: string)
    requires s != [] && !(|s| >= 2 && s[0] == '\n' && s[1] == '\n')
    ensures SplitBlocks(s) == [[s[0]] + SplitBlocks(s[1..])[0]] + SplitBlocks(s[1..])[1..]
  {
  }

  lemma SplitAfterCharacter(c: char, rest: string)
    requires c != '\n'
    requires rest == [] || rest[0] != '\n'
    ensures SplitBlocks([c] + "\n\n" + rest) == [[c]] + SplitBlocks(rest)
  {
    var s := [c] + "\n\n" + rest;
    var t := "\n\n" + rest;
    assert s[1..] == t;
    SplitBlocksStep(s);
    BlankLineThenRest(rest);
    assert [c] + [] == [c];
  }

  /** A blank line opens an empty block, and the next block starts after it. */
  lemma BlankLineThenRest(rest: string)
    requires rest == [] || rest[0] != '\n'
    ensures SplitBlocks("\n\n" + rest) == [[]] + SplitBlocks(rest)
  {
    var t := "\n\n" + rest;
    assert NewlineRun(t) == 2 by {
      assert t[1..] == "\n" + rest;
      assert (t[1..])[1..] == rest;
    }
    assert t[2..] == rest;
  }

  // ---------------------------------------------------------------- one block

  /** `lines.find(l => l.includes(' --> '))`, as an index. */
  function FindTimingLine(lines: seq<string>): (r: Option<nat>)
    ensures r.Some? ==> r.value < |lines| && Contains(lines[r.value], Arrow)
    ensures r.Some? ==> forall j :: 0 <= j < r.value ==> !Contains(lines[j], Arrow)
    ensures r.None? ==> forall j :: 0 <= j < |lines| ==> !Contains(lines[j], Arrow)
  {
    if lines == [] then None
    else if Contains(lines[0], Arrow) then Some(0)
    else
      match FindTimingLine(lines[1..])
      case None => None
      case Some(k) => Some(k + 1)
  }

  /** The chapter one block of the file yields, if any. */
  function ParseBlock(block: string): Option<Chapter> {
    ParseLines(Split(Trim(block), '\n'))
  }

  /** The chapter the lines of a trimmed block yield, if any. */
  function ParseLines(lines: seq<string>): Option<Chapter> {
    if |lines| < 2 then None
    else
      match FindTimingLine(lines)
      case None => None
      case Some(i) =>
        var title := Trim(lines[|lines| - 1]);
        if title != [] && !("WEBVTT" <= title) then
          Some(Chapter(ParseVttTime(Trim(BeforeFirst(lines[i], Arrow))), title))
        else None
  }

  /** What a parsed chapter looks like: a non-empty title with no white space
      at either end and no `WEBVTT` in front, taken from a block of at least
      two lines one of which is a timing line. */
  lemma ParsedChapterShape(block: string)
    requires ParseBlock(block).Some?
    ensures var title := ParseBlock(block).value.title;
      title != [] && !IsSpace(title[0]) && !IsSpace(title[|title| - 1]) && !("WEBVTT" <= title)
    ensures var lines := Split(Trim(block), '\n');
      |lines| >= 2 && exists i :: 0 <= i < |lines| && Contains(lines[i], Arrow)
  {
    var lines := Split(Trim(block), '\n');
    var i := FindTimingLine(lines).value;
    assert Contains(lines[i], Arrow);
  }

  /** A block of one line (the `WEBVTT` header, a lone note) yields nothing. */
  lemma OneLineBlockSkipped(block: string)
    requires '\n' !in block
    ensures ParseBlock(block) == None
  {
    TrimKeepsCharacters(block);
    SplitWithoutSeparator(Trim(block), '\n');
  }

  /** The characters of a timestamp: digits, colons and a dot. */
  predicate StampChar(c: char) {
    IsDigit(c) || c == ':' || c == '.'
  }

  /** A chapter block `stamp --> end` / `title` yields the chapter starting
      at the time the stamp stands for, with that title. */
  lemma ChapterBlockParsed(stamp: string, end: string, title: string)
    requires stamp != [] && IsDigit(stamp[0]) && forall c :: c in stamp ==> StampChar(c)
    requires '\n' !in end
    requires title != [] && !IsSpace(title[0]) && !IsSpace(title[|title| - 1])
    requires '\n' !in title && !("WEBVTT" <= title)
    ensures ParseBlock(stamp + Arrow + end + "\n" + title) == Some(Chapter(ParseVttTime(stamp), title))
  {
    var line := stamp + Arrow + end;
    TimingLineStart(stamp, end);
    StampTrimmed(stamp);
    assert line[0] == stamp[0];
    TrimmedBlock(line, title);
    TwoLineBlock(line, title, stamp);
  }

  /** A trimmed block of a timing line and a title line. */
  lemma TwoLineBlock(line: string, title: string, stamp: string)
    requires Trim(line + "\n" + title) == line + "\n" + title
    requires '\n' !in line && '\n' !in title && Contains(line, Arrow)
    requires Trim(BeforeFirst(line, Arrow)) == stamp
    requires title != [] && !IsSpace(title[0]) && !IsSpace(title[|title| - 1]) && !("WEBVTT" <= title)
    ensures ParseBlock(line + "\n" + title) == Some(Chapter(ParseVttTime(stamp), title))
  {
    BlockLines(line, title);
    assert Trim(title) == title;
    ParseBlockOfLines(line + "\n" + title, [line, title], 0, title);
  }

  /** The steps of `ParseBlock` for a block whose lines are known. */
  lemma ParseBlockOfLines(block: string, lines: seq<string>, i: nat, title: string)
    requires Split(Trim(block), '\n') == lines && |lines| >= 2
    requires FindTimingLine(lines) == Some(i)
    requires Trim(lines[|lines| - 1]) == title && title != [] && !("WEBVTT" <= title)
    ensures ParseBlock(block) == Some(Chapter(ParseVttTime(Trim(BeforeFirst(lines[i], Arrow))), title))
  {
    ParseLinesOf(lines, i, title);
  }

  lemma ParseLinesOf(lines: seq<string>, i: nat, title: string)
    requires |lines| >= 2 && FindTimingLine(lines) == Some(i)
    requires Trim(lines[|lines| - 1]) == title && title != [] && !("WEBVTT" <= title)
    ensures ParseLines(lines) == Some(Chapter(ParseVttTime(Trim(BeforeFirst(lines[i], Arrow))), title))
  {
  }

  lemma TrimmedBlock(line: string, title: string)
    requires line != [] && !IsSpace(line[0])
    requires title != [] && !IsSpace(title[|title| - 1])
    ensures Trim(line + "\n" + title) == line + "\n" + title
  {
    var block := line + "\n" + title;
    assert block[0] == line[0] && block[|block| - 1] == title[|title| - 1];
  }

  lemma BlockLines(line: string, title: string)
    requires '\n' !in line && '\n' !in title
    requires Contains(line, Arrow)
    ensures Split(line + "\n" + title, '\n') == [line, title]
    ensures FindTimingLine([line, title]) == Some(0)
  {
    JoinTwo(line, title, '\n');
    SplitOfJoin([line, title], '\n');
  }

  /** The text before the first arrow of a timing line is its start stamp. */
  lemma TimingLineStart(stamp: string, end: string)
    requires forall c :: c in stamp ==> StampChar(c)
    requires '\n' !in end
    ensures var line := stamp + Arrow + end;
      '\n' !in line && Contains(line, Arrow) && BeforeFirst(line, Arrow) == stamp
  {
    var line := stamp + Arrow + end;
    assert OccursAt(line, Arrow, |stamp|) by {
      assert line[|stamp|..|stamp| + 5] == Arrow;
    }
    IndexOfFirst(line, Arrow);
    forall j | 0 <= j < |stamp| ensures !OccursAt(line, Arrow, j) {
      assert line[j] == stamp[j] && stamp[j] in stamp;
      if j + 5 <= |line| {
        assert line[j..j + 5][0] == line[j];
      }
    }
    assert IndexOf(line, Arrow) == Some(|stamp|);
    assert '\n' !in stamp;
  }

  lemma StampTrimmed(stamp: string)
    requires stamp != [] && forall c :: c in stamp ==> StampChar(c)
    ensures Trim(stamp) == stamp
  {
    assert stamp[0] in stamp && stamp[|stamp| - 1] in stamp;
  }

  /** A chapter starting at `h:mm:ss.fff` starts `(h*3600 + mm*60 + ss)*1000
      + fff` milliseconds in. */
  lemma LongChapterBlockParsed(h: string, m: string, s: string, frac: string, end: string, title: string,
                               hours: nat, minutes: nat, seconds: nat)
    requires h != [] && AllDigits(h) && m != [] && AllDigits(m) && s != [] && AllDigits(s) && AllDigits(frac)
    requires hours == DigitsValue(h) && minutes == DigitsValue(m) && seconds == DigitsValue(s)
    requires '\n' !in end
    requires title != [] && !IsSpace(title[0]) && !IsSpace(title[|title| - 1])
    requires '\n' !in title && !("WEBVTT" <= title)
    ensures ParseBlock(h + ":" + m + ":" + s + "." + frac + Arrow + end + "\n" + title)
      == Some(Chapter(Millis((hours * 3600 + minutes * 60 + seconds) * 1000 + FractionMillis(frac)), title))
  {
    LongStampChars(h, m, s, frac);
    ChapterBlockParsed(h + ":" + m + ":" + s + "." + frac, end, title);
    ParseVttTimeLong(h, m, s, frac, hours, minutes, seconds);
  }

  lemma LongStampChars(h: string, m: string, s: string, frac: string)
    requires h != [] && AllDigits(h) && AllDigits(m) && AllDigits(s) && AllDigits(frac)
    ensures var stamp := h + ":" + m + ":" + s + "." + frac;
      stamp != [] && IsDigit(stamp[0]) && forall c :: c in stamp ==> StampChar(c)
  {
    var stamp := h + ":" + m + ":" + s + "." + frac;
    assert stamp[0] == h[0];
    forall c | c in h || c in m || c in s || c in frac ensures IsDigit(c) {
    }
  }

  // ---------------------------------------------------------------- whole file

  function Emitted(r: Option<Chapter>): seq<Chapter> {
    if r.Some? then [r.value] else []
  }

  /** The chapters `parse` finds in a sequence of blocks, in block order. */
  function Collect(parse: string -> Option<Chapter>, blocks: seq<string>): (chapters: seq<Chapter>)
    ensures |chapters| <= |blocks|
  {
    if blocks == [] then []
    else Collect(parse, blocks[..|blocks| - 1]) + Emitted(parse(blocks[|blocks| - 1]))
  }

  /** The chapters of two runs of blocks are the chapters of each, in order. */
  lemma {:induction false} CollectAppend(parse: string -> Option<Chapter>, a: seq<string>, b: seq<string>)
    ensures Collect(parse, a + b) == Collect(parse, a) + Collect(parse, b)
    decreases |b|
  {
    if b == [] {
      assert a + b == a;
    } else {
      var ab, b', last := a + b, b[..|b| - 1], b[|b| - 1];
      assert ab[..|ab| - 1] == a + b';
      assert ab[|ab| - 1] == last;
      CollectAppend(parse, a, b');
      assert Collect(parse, ab) == Collect(parse, a + b') + Emitted(parse(last));
      assert Collect(parse, b) == Collect(parse, b') + Emitted(parse(last));
    }
  }

  /** One more block adds what it yields, if anything. */
  lemma CollectStep(parse: string -> Option<Chapter>, blocks: seq<string>, k: nat)
    requires k < |blocks|
    ensures Collect(parse, blocks[..k + 1]) == Collect(parse, blocks[..k]) + Emitted(parse(blocks[k]))
  {
    assert blocks[..k + 1][..k] == blocks[..k];
  }

  /** When every block yields a chapter, the i-th chapter comes from the
      i-th block. */
  lemma {:induction false} CollectEveryBlock(parse: string -> Option<Chapter>, blocks: seq<string>)
    requires forall k :: 0 <= k < |blocks| ==> parse(blocks[k]).Some?
    ensures |Collect(parse, blocks)| == |blocks|
    ensures forall k :: 0 <= k < |blocks| ==> Collect(parse, blocks)[k] == parse(blocks[k]).value
    decreases |blocks|
  {
    if blocks != [] {
      var front := blocks[..|blocks| - 1];
      CollectEveryBlock(parse, front);
    }
  }

  /** `parseVttChapters`: one chapter for each block that yields one, in
      block order. */
  method ParseVttChapters(content: string) returns (chapters: seq<Chapter>)
    ensures chapters == Collect(ParseBlock, SplitBlocks(content))
  {
    chapters := [];
    var blocks := SplitBlocks(content);
    for k := 0 to |blocks|
      invariant chapters == Collect(ParseBlock, blocks[..k])
    {
      CollectStep(ParseBlock, blocks, k);
      var lines := Split(Trim(blocks[k]), '\n');
      if |lines| < 2 {
        continue;
      }
      var timing := FindTimingLine(lines);
      if timing.None? {
        continue;
      }
      var startStr := BeforeFirst(lines[timing.value], Arrow);
      var title := Trim(lines[|lines| - 1]);
      if title != [] && !("WEBVTT" <= title) {
        chapters := chapters + [Chapter(ParseVttTime(Trim(startStr)), title)];
      }
    }
    assert blocks[..|blocks|] == blocks;
  }

  // ---------------------------------------------------------------- selection

  /** `currentTime >= ch.start`: a chapter whose start is NaN never qualifies. */
  predicate Started(ch: Chapter, now: nat) {
    ch.start.Millis? && ch.start.ms <= now
  }

  /** The last chapter, in list order, that has started by `now`. */
  function LastStarted(chapters: seq<Chapter>, now: nat): (r: Option<nat>)
    ensures r.Some? ==> r.value < |chapters| && Started(chapters[r.value], now)
    ensures r.Some? ==> forall j :: r.value < j < |chapters| ==> !Started(chapters[j], now)
    ensures r.None? ==> forall j :: 0 <= j < |chapters| ==> !Started(chapters[j], now)
  {
    if chapters == [] then None
    else if Started(chapters[|chapters| - 1], now) then Some(|chapters| - 1)
    else LastStarted(chapters[..|chapters| - 1], now)
  }

  /** The chapter shown at `now`: the last one started, or the first one
      when none has. */
  function CurrentIndex(chapters: seq<Chapter>, now: nat): (i: nat)
    requires chapters != []
    ensures i < |chapters|
  {
    match LastStarted(chapters, now)
    case Some(i) => i
    case None => 0
  }

  /** Time moving forward never moves the selection back. */
  lemma SelectionMonotone(chapters: seq<Chapter>, earlier: nat, later: nat)
    requires chapters != [] && earlier <= later
    ensures CurrentIndex(chapters, earlier) <= CurrentIndex(chapters, later)
  {
    if LastStarted(chapters, earlier).Some? {
      var i := LastStarted(chapters, earlier).value;
      assert Started(chapters[i], later);
    }
  }

  /** Chapters with numeric starts in non-decreasing order. */
  predicate Sorted(chapters: seq<Chapter>) {
    (forall k :: 0 <= k < |chapters| ==> chapters[k].start.Millis?)
    && forall j, k :: 0 <= j < k < |chapters| ==> chapters[j].start.ms <= chapters[k].start.ms
  }

  /** In a sorted list the chapter shown is the one whose span holds `now`:
      it has started, and the next one has not. */
  lemma SortedSelection(chapters: seq<Chapter>, now: nat, i: nat)
    requires Sorted(chapters) && i < |chapters|
    requires chapters[i].start.ms <= now
    requires i + 1 == |chapters| || now < chapters[i + 1].start.ms
    ensures CurrentIndex(chapters, now) == i
  {
    forall j | i < j < |chapters| ensures !Started(chapters[j], now) {
      assert chapters[i + 1].start.ms <= chapters[j].start.ms;
    }
    assert Started(chapters[i], now);
  }

  /** Before the first start the first chapter is shown. */
  lemma BeforeEveryStart(chapters: seq<Chapter>, now: nat)
    requires chapters != []
    requires forall k :: 0 <= k < |chapters| ==> chapters[k].start.Millis? && now < chapters[k].start.ms
    ensures CurrentIndex(chapters, now) == 0
  {
  }
}
