/** Conversion of SubRip subtitles to WebVTT (`srtToVtt`): trim, turn every
    CRLF and lone CR into LF, drop cue-index lines, write timestamps with a
    dot before the milliseconds, trim again, and put the WebVTT header in
    front. Each regular-expression pass is modelled as a left-to-right
    scanner that makes the same choices as the expression. */
module Subtitles {
  import opened Optional
  import opened Text

  const Header := "WEBVTT\n\n"

  // ---------------------------------------------------------------- line endings

  /** The first line ending or character `/\r\n|\r/` consumes at the start
      of `s` (CRLF is preferred to a lone CR), and what it is replaced by. */
  function TokenLength(s: string): (n: nat)
    requires s != []
    ensures 1 <= n <= |s|
  {
    if |s| >= 2 && s[0] == '\r' && s[1] == '\n' then 2 else 1
  }

  function Token(s: string): (r: string)
    requires s != []
    ensures '\r' !in r
  {
    if s[0] == '\r' then "\n" else [s[0]]
  }

  /** `.replace(/\r\n|\r/g, '\n')`. */
  function NormalizeNewlines(s: string): (r: string)
    ensures '\r' !in r
    decreases |s|
  {
    if s == [] then [] else Token(s) + NormalizeNewlines(s[TokenLength(s)..])
  }

  /** Text without CR is left as it is. */
  lemma {:induction false} NormalizeWithoutCr(s: string)
    requires '\r' !in s
    ensures NormalizeNewlines(s) == s
    decreases |s|
  {
    if s != [] {
      assert '\r' !in s[1..] by {
        assert forall i :: 0 <= i < |s[1..]| ==> s[1..][i] == s[i + 1];
      }
      NormalizeWithoutCr(s[1..]);
      assert [s[0]] + s[1..] == s;
    }
  }

  /** Normalisation distributes over a concatenation whose second part does
      not start with LF (one that did could complete a CRLF). */
  lemma {:induction false} NormalizeSplits(a: string, x: string)
    requires x == [] || x[0] != '\n'
    ensures NormalizeNewlines(a + x) == NormalizeNewlines(a) + NormalizeNewlines(x)
    decreases |a|
  {
    if a == [] {
      assert a + x == x;
    } else {
      var k := TokenLength(a);
      assert (a + x)[0] == a[0];
      assert |a| >= 2 ==> (a + x)[1] == a[1];
      assert TokenLength(a + x) == k && Token(a + x) == Token(a);
      assert (a + x)[k..] == a[k..] + x;
      NormalizeSplits(a[k..], x);
    }
  }

  /** A CRLF between two pieces of text becomes one LF, whatever the pieces hold. */
  lemma NormalizeCrLf(a: string, b: string)
    ensures NormalizeNewlines(a + "\r\n" + b) == NormalizeNewlines(a) + "\n" + NormalizeNewlines(b)
  {
    Regroup(a, "\r\n", b);
    NormalizeSplits(a, "\r\n" + b);
    CrLfFirst(b);
    Regroup(NormalizeNewlines(a), "\n", NormalizeNewlines(b));
  }

  lemma Regroup(a: string, m: string, b: string)
    ensures a + m + b == a + (m + b)
  {
  }

  lemma CrLfFirst(b: string)
    ensures NormalizeNewlines("\r\n" + b) == "\n" + NormalizeNewlines(b)
  {
    var x := "\r\n" + b;
    assert TokenLength(x) == 2 && Token(x) == "\n";
    assert x[2..] == b;
  }

  /** A lone CR (one not followed by LF) becomes one LF. */
  lemma NormalizeLoneCr(a: string, b: string)
    requires b == [] || b[0] != '\n'
    ensures NormalizeNewlines(a + "\r" + b) == NormalizeNewlines(a) + "\n" + NormalizeNewlines(b)
  {
    Regroup(a, "\r", b);
    NormalizeSplits(a, "\r" + b);
    LoneCrFirst(b);
    Regroup(NormalizeNewlines(a), "\n", NormalizeNewlines(b));
  }

  lemma LoneCrFirst(b: string)
    requires b == [] || b[0] != '\n'
    ensures NormalizeNewlines("\r" + b) == "\n" + NormalizeNewlines(b)
  {
    var x := "\r" + b;
    assert TokenLength(x) == 1 && Token(x) == "\n";
    assert x[1..] == b;
  }

  // ---------------------------------------------------------------- cue indices

  /** The end of the run of ASCII digits that starts at index `i` of `s`. */
  function DigitsFrom(s: string, i: nat): (j: nat)
    requires i <= |s|
    ensures i <= j <= |s|
    ensures j < |s| ==> !IsDigit(s[j])
    ensures j > i ==> IsDigit(s[i])
    decreases |s| - i
  {
    if i < |s| && IsDigit(s[i]) then DigitsFrom(s, i + 1) else i
  }

  lemma {:induction false} DigitsFromAreDigits(s: string, i: nat)
    requires i <= |s|
    ensures forall j :: i <= j < DigitsFrom(s, i) ==> IsDigit(s[j])
    decreases |s| - i
  {
    if i < |s| && IsDigit(s[i]) {
      DigitsFromAreDigits(s, i + 1);
    }
  }

  /** The index of the last LF among the indices `lo` to `hi - 1` of `s`,
      if there is one. */
  function LastNewlineIn(s: string, lo: nat, hi: nat): (r: Option<nat>)
    requires lo <= hi <= |s|
    ensures r.Some? ==> lo <= r.value < hi && s[r.value] == '\n'
    decreases hi
  {
    if hi <= lo then None
    else if s[hi - 1] == '\n' then Some(hi - 1)
    else LastNewlineIn(s, lo, hi - 1)
  }

  /** Nothing after the LF found is an LF; when none is found, none is there. */
  lemma {:induction false} LastNewlineInIsLast(s: string, lo: nat, hi: nat)
    requires lo <= hi <= |s|
    ensures LastNewlineIn(s, lo, hi).Some? ==> forall k :: LastNewlineIn(s, lo, hi).value < k < hi ==> s[k] != '\n'
    ensures LastNewlineIn(s, lo, hi).None? <==> forall k :: lo <= k < hi ==> s[k] != '\n'
    decreases hi
  {
    if lo < hi && s[hi - 1] != '\n' {
      LastNewlineInIsLast(s, lo, hi - 1);
    }
  }

  /** The length of the text `\d+\s*\n` matches at the start of `s`, if it
      matches there: the greedy `\s*` backs off to the last LF of the white
      space that follows the digits, so a cue index swallows any blank lines
      after it. */
  function IndexLineLength(s: string): (r: Option<nat>)
    ensures r.Some? ==> 2 <= r.value <= |s| && IsDigit(s[0]) && s[r.value - 1] == '\n'
  {
    var d := DigitsFrom(s, 0);
    if d == 0 then None
    else
      match LastNewlineIn(s, d, SpacesFrom(s, d))
      case None => None
      case Some(j) => Some(j + 1)
  }

  /** `.replace(/^\d+\s*\n/gm, '')` on the text from `s` on, where
      `atLineStart` says whether `^` matches at the start of `s` (the start
      of the text, or just after a line terminator). */
  function RemoveCueIndices(s: string, atLineStart: bool): (r: string)
    ensures |r| <= |s|
    decreases |s|
  {
    if s == [] then []
    else
      var k := IndexLineLength(s);
      if atLineStart && k.Some? then RemoveCueIndices(s[k.value..], true)
      else [s[0]] + RemoveCueIndices(s[1..], IsLineTerminator(s[0]))
  }

  /** Removal only deletes: every character of the result is one of the text. */
  lemma {:induction false} RemovalKeepsCharacters(s: string, atLineStart: bool)
    ensures forall c :: c in RemoveCueIndices(s, atLineStart) ==> c in s
    decreases |s|
  {
    if s != [] {
      var k := IndexLineLength(s);
      var n := if atLineStart && k.Some? then k.value else 1;
      var next := if atLineStart && k.Some? then true else IsLineTerminator(s[0]);
      RemovalKeepsCharacters(s[n..], next);
      forall c | c in s[n..] ensures c in s {
        var i :| 0 <= i < |s[n..]| && s[n..][i] == c;
        assert s[n + i] == c;
      }
    }
  }

  /** A line of digits at a line start is dropped with its LF. */
  lemma CueIndexLineDropped(digits: string, rest: string)
    requires digits != [] && AllDigits(digits)
    requires rest == [] || !IsSpace(rest[0])
    ensures RemoveCueIndices(digits + "\n" + rest, true) == RemoveCueIndices(rest, true)
  {
    var s := digits + "\n" + rest;
    CueIndexLength(digits, rest);
    assert s[|digits| + 1..] == rest;
  }

  /** A line of digits at a line start goes together with all the white
      space after it up to its last LF: blank lines after a digit line are
      removed with it. */
  lemma IndexLineWithBlankLines(digits: string, ws: string, rest: string)
    requires digits != [] && AllDigits(digits)
    requires ws != [] && ws[|ws| - 1] == '\n' && forall i :: 0 <= i < |ws| ==> IsSpace(ws[i])
    requires rest == [] || !IsSpace(rest[0])
    ensures RemoveCueIndices(digits + ws + rest, true) == RemoveCueIndices(rest, true)
  {
    var s := digits + ws + rest;
    var n, m := |digits|, |digits| + |ws|;
    assert s[n] == ws[0];
    DigitsUpTo(s, 0, n);
    assert forall k :: n <= k < m ==> s[k] == ws[k - n];
    SpacesUpTo(s, n, m);
    assert s[m - 1] == '\n';
    assert IndexLineLength(s) == Some(m);
    assert s[m..] == rest;
  }

  /** A run of white space ended by a non-space or the end is found to end there. */
  lemma {:induction false} SpacesUpTo(s: string, i: nat, n: nat)
    requires i <= n <= |s|
    requires forall k :: i <= k < n ==> IsSpace(s[k])
    requires n == |s| || !IsSpace(s[n])
    ensures SpacesFrom(s, i) == n
    decreases n - i
  {
    if i < n {
      SpacesUpTo(s, i + 1, n);
    }
  }

  /** A cue whose last text line is made of digits (`1984`) loses that line
      and the blank line after it, so it runs on into the next cue. */
  lemma DigitTextLineMergesCues(line: string, digits: string, rest: string)
    requires forall i :: 0 <= i < |line| ==> !IsLineTerminator(line[i])
    requires !IndexLike(line)
    requires digits != [] && AllDigits(digits)
    requires rest == [] || !IsSpace(rest[0])
    ensures RemoveCueIndices(line + "\n" + digits + "\n\n" + rest, true) == line + "\n" + RemoveCueIndices(rest, true)
  {
    var tail := digits + "\n\n" + rest;
    assert line + "\n" + digits + "\n\n" + rest == line + "\n" + tail;
    TextLineKept(line, tail);
    IndexLineWithBlankLines(digits, "\n\n", rest);
  }

  /** A line of digits that ends the text has no LF after it and is kept. */
  lemma FinalDigitLineKept(line: string, digits: string)
    requires forall i :: 0 <= i < |line| ==> !IsLineTerminator(line[i])
    requires !IndexLike(line)
    requires AllDigits(digits)
    ensures RemoveCueIndices(line + "\n" + digits, true) == line + "\n" + digits
  {
    TextLineKept(line, digits);
    DigitsWithoutLf(digits);
    NoNewlineKept(digits, true);
  }

  lemma DigitsWithoutLf(digits: string)
    requires AllDigits(digits)
    ensures '\n' !in digits
  {
    forall i | 0 <= i < |digits| ensures digits[i] != '\n' {
      assert IsDigit(digits[i]);
    }
  }

  lemma CueIndexLength(digits: string, rest: string)
    requires digits != [] && AllDigits(digits)
    requires rest == [] || !IsSpace(rest[0])
    ensures IndexLineLength(digits + "\n" + rest) == Some(|digits| + 1)
  {
    var s := digits + "\n" + rest;
    var n := |digits|;
    assert s[n] == '\n';
    DigitsUpTo(s, 0, n);
    assert n + 1 < |s| ==> s[n + 1] == rest[0];
    assert SpacesFrom(s, n + 1) == n + 1;
  }

  /** A run of digits ended by a non-digit is found to end there. */
  lemma {:induction false} DigitsUpTo(s: string, i: nat, n: nat)
    requires i <= n < |s|
    requires forall k :: i <= k < n ==> IsDigit(s[k])
    requires !IsDigit(s[n])
    ensures DigitsFrom(s, i) == n
    decreases n - i
  {
    if i < n {
      DigitsUpTo(s, i + 1, n);
    }
  }

  /** A line that is not an index line (it does not consist of digits
      followed only by white space) and holds no line terminator is kept,
      with its LF, when it starts a line. */
  lemma TextLineKept(line: string, rest: string)
    requires forall i :: 0 <= i < |line| ==> !IsLineTerminator(line[i])
    requires !IndexLike(line)
    ensures RemoveCueIndices(line + "\n" + rest, true) == line + "\n" + RemoveCueIndices(rest, true)
  {
    if line == [] {
      CopyLineTail(line, rest, true);
    } else {
      NotAnIndexLine(line, rest);
      KeptLineStart(line, rest);
    }
  }

  /** A line whose first character starts no index line keeps that character. */
  lemma KeptLineStart(line: string, rest: string)
    requires line != []
    requires forall i :: 0 <= i < |line| ==> !IsLineTerminator(line[i])
    requires IndexLineLength(line + "\n" + rest) == None
    ensures RemoveCueIndices(line + "\n" + rest, true) == line + "\n" + RemoveCueIndices(rest, true)
  {
    var s := line + "\n" + rest;
    SplitFirst(line, rest);
    KeepFirst(s, true);
    assert !IsLineTerminator(line[0]);
    CopyLineTail(line[1..], rest, false);
    JoinFirst(line, RemoveCueIndices(rest, true));
  }

  lemma SplitFirst(line: string, rest: string)
    requires line != []
    ensures var s := line + "\n" + rest; s[0] == line[0] && s[1..] == line[1..] + "\n" + rest
  {
  }

  lemma JoinFirst(line: string, rest: string)
    requires line != []
    ensures [line[0]] + (line[1..] + "\n" + rest) == line + "\n" + rest
  {
    assert [line[0]] + line[1..] == line;
  }

  /** Where no index line is removed, the first character is copied. */
  lemma KeepFirst(s: string, atLineStart: bool)
    requires s != []
    requires !atLineStart || IndexLineLength(s) == None
    ensures RemoveCueIndices(s, atLineStart) == [s[0]] + RemoveCueIndices(s[1..], IsLineTerminator(s[0]))
  {
  }

  /** Digits followed only by white space: what `\d+\s*` can cover before
      the LF of an index line. */
  predicate IndexLike(line: string) {
    var d := DigitsFrom(line, 0);
    d > 0 && SpacesFrom(line, d) == |line|
  }

  lemma NotAnIndexLine(line: string, rest: string)
    requires line != []
    requires forall i :: 0 <= i < |line| ==> !IsLineTerminator(line[i])
    requires !IndexLike(line)
    ensures IndexLineLength(line + "\n" + rest) == None
  {
    var s := line + "\n" + rest;
    var d := DigitsFrom(line, 0);
    if d > 0 {
      var e := SpacesFrom(line, d);
      PrefixDigits(line, "\n" + rest, 0);
      PrefixSpaces(line, "\n" + rest, d);
      assert s == line + ("\n" + rest);
      assert LastNewlineIn(s, d, e) == None by {
        forall k | d <= k < e ensures s[k] != '\n' {
          assert s[k] == line[k] && !IsLineTerminator(line[k]);
        }
        LastNewlineInIsLast(s, d, e);
      }
    }
  }

  /** A digit run that ends inside `a` ends at the same place in `a + x`. */
  lemma {:induction false} PrefixDigits(a: string, x: string, i: nat)
    requires i <= |a| && DigitsFrom(a, i) < |a|
    ensures DigitsFrom(a + x, i) == DigitsFrom(a, i)
    decreases |a| - i
  {
    assert (a + x)[i] == a[i];
    if IsDigit(a[i]) {
      PrefixDigits(a, x, i + 1);
    }
  }

  /** A run of white space that ends inside `a` ends at the same place in `a + x`. */
  lemma {:induction false} PrefixSpaces(a: string, x: string, i: nat)
    requires i <= |a| && SpacesFrom(a, i) < |a|
    ensures SpacesFrom(a + x, i) == SpacesFrom(a, i)
    decreases |a| - i
  {
    assert (a + x)[i] == a[i];
    if IsSpace(a[i]) {
      PrefixSpaces(a, x, i + 1);
    }
  }

  /** Away from a line start nothing is removed until the next line terminator. */
  lemma {:induction false} CopyLineTail(tail: string, rest: string, atLineStart: bool)
    requires forall i :: 0 <= i < |tail| ==> !IsLineTerminator(tail[i])
    requires !atLineStart || tail == []
    ensures RemoveCueIndices(tail + "\n" + rest, atLineStart) == tail + "\n" + RemoveCueIndices(rest, true)
    decreases |tail|
  {
    var s := tail + "\n" + rest;
    if tail == [] {
      assert s == "\n" + rest;
      assert IndexLineLength(s) == None by {
        assert !IsDigit(s[0]);
      }
      KeepFirst(s, atLineStart);
      assert s[1..] == rest;
    } else {
      SplitFirst(tail, rest);
      KeepFirst(s, false);
      CopyLineTail(tail[1..], rest, false);
      JoinFirst(tail, RemoveCueIndices(rest, true));
    }
  }

  // ---------------------------------------------------------------- timestamps

  /** `(\d{2}:\d{2}:\d{2}),(\d{3})` matches at index `i` of `s`. */
  predicate SrtStampAt(s: string, i: nat) {
    i + 12 <= |s|
    && IsDigit(s[i]) && IsDigit(s[i + 1]) && s[i + 2] == ':'
    && IsDigit(s[i + 3]) && IsDigit(s[i + 4]) && s[i + 5] == ':'
    && IsDigit(s[i + 6]) && IsDigit(s[i + 7]) && s[i + 8] == ','
    && IsDigit(s[i + 9]) && IsDigit(s[i + 10]) && IsDigit(s[i + 11])
  }

  /** `r` is `s` with some commas turned into dots, and each such comma is
      the comma of a timestamp of `s`. */
  predicate OnlyStampCommasChanged(s: string, r: string) {
    |r| == |s|
    && forall i :: 0 <= i < |s| && r[i] != s[i] ==>
         s[i] == ',' && r[i] == '.' && i >= 8 && SrtStampAt(s, i - 8)
  }

  /** `.replace(/(\d{2}:\d{2}:\d{2}),(\d{3})/g, '$1.$2')`: matches are taken
      left to right without overlap, and in each the comma becomes a dot. */
  function ConvertTimestamps(s: string): (r: string)
    ensures |r| == |s|
    decreases |s|
  {
    if s == [] then []
    else if SrtStampAt(s, 0) then s[..8] + "." + s[9..12] + ConvertTimestamps(s[12..])
    else [s[0]] + ConvertTimestamps(s[1..])
  }

  /** The conversion changes nothing but the commas of timestamps, each to a dot. */
  lemma {:induction false} OnlyStampCommasConverted(s: string)
    ensures OnlyStampCommasChanged(s, ConvertTimestamps(s))
    decreases |s|
  {
    if s != [] {
      var k := if SrtStampAt(s, 0) then 12 else 1;
      var head := if SrtStampAt(s, 0) then s[..8] + "." + s[9..12] else [s[0]];
      OnlyStampCommasConverted(s[k..]);
      assert ConvertTimestamps(s) == head + ConvertTimestamps(s[k..]);
      ConvertedPrefix(s, head, ConvertTimestamps(s[k..]));
    }
  }

  /** The changes made after a converted prefix are changes at timestamps of
      the whole text. */
  lemma ConvertedPrefix(s: string, head: string, r: string)
    requires |head| <= |s|
    requires forall i :: 0 <= i < |head| && head[i] != s[i] ==>
      s[i] == ',' && head[i] == '.' && i >= 8 && SrtStampAt(s, i - 8)
    requires OnlyStampCommasChanged(s[|head|..], r)
    ensures OnlyStampCommasChanged(s, head + r)
  {
    var k, t, out := |head|, s[|head|..], head + r;
    forall i | k <= i < |s| && out[i] != s[i]
      ensures s[i] == ',' && out[i] == '.' && i >= 8 && SrtStampAt(s, i - 8)
    {
      assert out[i] == r[i - k] && s[i] == t[i - k];
      StampShift(s, k, i - k - 8);
    }
  }

  lemma StampShift(s: string, k: nat, j: nat)
    requires k <= |s| && SrtStampAt(s[k..], j)
    ensures SrtStampAt(s, k + j)
  {
    var t := s[k..];
    assert forall x :: j <= x < j + 12 ==> t[x] == s[k + x];
  }

  /** An SRT timestamp: two-digit hours, minutes, seconds and three-digit
      milliseconds, each given as digits. */
  predicate Digits(s: string, n: nat) {
    |s| == n && AllDigits(s)
  }

  function SrtStamp(h: string, m: string, s: string, ms: string): string {
    h + ":" + m + ":" + s + "," + ms
  }

  function VttStamp(h: string, m: string, s: string, ms: string): string {
    h + ":" + m + ":" + s + "." + ms
  }

  /** An SRT timestamp is rewritten with a dot, and the scan goes on after it. */
  lemma StampConverted(h: string, m: string, s: string, ms: string, rest: string)
    requires Digits(h, 2) && Digits(m, 2) && Digits(s, 2) && Digits(ms, 3)
    ensures ConvertTimestamps(SrtStamp(h, m, s, ms) + rest) == VttStamp(h, m, s, ms) + ConvertTimestamps(rest)
  {
    var t := SrtStamp(h, m, s, ms) + rest;
    assert t[0] == h[0] && t[1] == h[1] && t[3] == m[0] && t[4] == m[1];
    assert t[6] == s[0] && t[7] == s[1] && t[9] == ms[0] && t[10] == ms[1] && t[11] == ms[2];
    assert SrtStampAt(t, 0);
    assert t[12..] == rest;
    assert t[..8] + "." + t[9..12] == VttStamp(h, m, s, ms);
  }

  /** Text in which no timestamp can start is copied unchanged. */
  lemma {:induction false} PlainTextCopied(text: string, rest: string)
    requires forall i :: 0 <= i < |text| ==> !IsDigit(text[i])
    ensures ConvertTimestamps(text + rest) == text + ConvertTimestamps(rest)
    decreases |text|
  {
    if text != [] {
      var t := text + rest;
      assert t[0] == text[0];
      assert t[1..] == text[1..] + rest;
      PlainTextCopied(text[1..], rest);
      ConvertCopiesCharacter(t);
      assert text == [text[0]] + text[1..];
    } else {
      assert text + rest == rest;
    }
  }

  lemma ConvertCopiesCharacter(s: string)
    requires s != [] && !IsDigit(s[0])
    ensures ConvertTimestamps(s) == [s[0]] + ConvertTimestamps(s[1..])
  {
  }

  /** An SRT timing line `a --> b` becomes the WebVTT timing line. */
  lemma TimingLineConverted(a: seq<string>, b: seq<string>, rest: string)
    requires |a| == 4 && Digits(a[0], 2) && Digits(a[1], 2) && Digits(a[2], 2) && Digits(a[3], 3)
    requires |b| == 4 && Digits(b[0], 2) && Digits(b[1], 2) && Digits(b[2], 2) && Digits(b[3], 3)
    ensures ConvertTimestamps(SrtStamp(a[0], a[1], a[2], a[3]) + " --> " + SrtStamp(b[0], b[1], b[2], b[3]) + rest)
      == VttStamp(a[0], a[1], a[2], a[3]) + " --> " + VttStamp(b[0], b[1], b[2], b[3]) + ConvertTimestamps(rest)
  {
    var sa, sb := SrtStamp(a[0], a[1], a[2], a[3]), SrtStamp(b[0], b[1], b[2], b[3]);
    assert sa + " --> " + sb + rest == sa + (" --> " + (sb + rest));
    StampConverted(a[0], a[1], a[2], a[3], " --> " + (sb + rest));
    PlainTextCopied(" --> ", sb + rest);
    StampConverted(b[0], b[1], b[2], b[3], rest);
  }

  /** No timestamp spans a line end: the conversion of a line followed by
      an LF is the conversion of the line, the LF, and the conversion of
      what follows. */
  lemma {:induction false} ConvertLine(line: string, rest: string)
    requires '\n' !in line
    ensures ConvertTimestamps(line + "\n" + rest) == ConvertTimestamps(line) + "\n" + ConvertTimestamps(rest)
    decreases |line|
  {
    var s := line + "\n" + rest;
    StampWithinLine(line, rest);
    if line == [] {
      assert s == "\n" + rest && s[1..] == rest;
    } else if SrtStampAt(line, 0) {
      var t := line[12..];
      assert '\n' !in t by {
        assert forall k :: 0 <= k < |t| ==> t[k] == line[k + 12];
      }
      ConvertLine(t, rest);
      assert s[..8] == line[..8] && s[9..12] == line[9..12];
      assert s[12..] == t + "\n" + rest;
      var head := line[..8] + "." + line[9..12];
      Regroup(head, ConvertTimestamps(t), "\n" + ConvertTimestamps(rest));
      Regroup(head + ConvertTimestamps(t), "\n", ConvertTimestamps(rest));
    } else {
      var t := line[1..];
      assert '\n' !in t by {
        assert forall k :: 0 <= k < |t| ==> t[k] == line[k + 1];
      }
      SplitFirst(line, rest);
      ConvertLine(t, rest);
      Regroup([line[0]], ConvertTimestamps(t), "\n" + ConvertTimestamps(rest));
      Regroup([line[0]] + ConvertTimestamps(t), "\n", ConvertTimestamps(rest));
    }
  }

  /** A timestamp starts at the head of `line + LF + rest` exactly when it
      starts at the head of `line`: it holds no LF, so it ends inside the line. */
  lemma StampWithinLine(line: string, rest: string)
    requires '\n' !in line
    ensures SrtStampAt(line + "\n" + rest, 0) <==> SrtStampAt(line, 0)
  {
    var s := line + "\n" + rest;
    if |line| >= 12 {
      assert forall x :: 0 <= x < 12 ==> s[x] == line[x];
    } else {
      assert s[|line|] == '\n';
    }
  }

  /** The conversion applied to each line on its own. */
  function ConvertEach(lines: seq<string>): (r: seq<string>)
    ensures |r| == |lines|
    ensures forall i :: 0 <= i < |lines| ==> r[i] == ConvertTimestamps(lines[i])
  {
    seq(|lines|, i requires 0 <= i < |lines| => ConvertTimestamps(lines[i]))
  }

  /** The conversion of LF-separated lines is the lines converted one by
      one: what one line holds never keeps a timestamp on another from
      being converted. */
  lemma {:induction false} ConvertLines(lines: seq<string>)
    requires |lines| >= 1
    requires forall i :: 0 <= i < |lines| ==> '\n' !in lines[i]
    ensures ConvertTimestamps(Join(lines, '\n')) == Join(ConvertEach(lines), '\n')
    decreases |lines|
  {
    var out := ConvertEach(lines);
    if |lines| > 1 {
      var tail := lines[1..];
      ConvertLines(tail);
      ConvertLine(lines[0], Join(tail, '\n'));
      assert out[1..] == ConvertEach(tail);
    }
  }

  /** A timing line on its own line becomes the WebVTT timing line. */
  lemma TimingLineAlone(a: seq<string>, b: seq<string>)
    requires StampFields(a) && StampFields(b)
    ensures ConvertTimestamps(TimingLine(a, b, true)) == TimingLine(a, b, false)
  {
    TimingLineConverted(a, b, []);
    assert TimingLine(a, b, true) + [] == TimingLine(a, b, true);
    assert TimingLine(a, b, false) + [] == TimingLine(a, b, false);
  }

  /** In a text of several lines, every SRT timing line comes out as the
      WebVTT timing line at the same line number, whatever the other lines
      hold. */
  lemma EveryTimingLineConverted(lines: seq<string>, i: nat, a: seq<string>, b: seq<string>)
    requires |lines| >= 1
    requires forall k :: 0 <= k < |lines| ==> '\n' !in lines[k]
    requires i < |lines| && StampFields(a) && StampFields(b) && lines[i] == TimingLine(a, b, true)
    ensures var out := Split(ConvertTimestamps(Join(lines, '\n')), '\n');
      |out| == |lines| && out[i] == TimingLine(a, b, false)
  {
    var conv := ConvertEach(lines);
    ConvertLines(lines);
    forall k | 0 <= k < |conv| ensures '\n' !in conv[k] {
      OnlyStampCommasConverted(lines[k]);
      assert forall x :: 0 <= x < |conv[k]| ==> conv[k][x] == lines[k][x] || conv[k][x] == '.';
    }
    SplitOfJoin(conv, '\n');
    TimingLineAlone(a, b);
  }

  // ---------------------------------------------------------------- whole conversion

  /** The text between the header and the end of the WebVTT output. */
  function Body(srt: string): string {
    Trim(ConvertTimestamps(RemoveCueIndices(NormalizeNewlines(Trim(srt)), true)))
  }

  /** `srtToVtt(srt)`: the output starts with the WebVTT header and a blank
      line; after it comes a body with no CR and no white space at either
      end. */
  function SrtToVtt(srt: string): (vtt: string)
    ensures |vtt| >= |Header| && vtt[..|Header|] == Header
    ensures var body := vtt[|Header|..];
      '\r' !in body && (body == [] || (!IsSpace(body[0]) && !IsSpace(body[|body| - 1])))
  {
    var body := Body(srt);
    BodyHasNoCarriageReturn(srt);
    var vtt := Header + body;
    assert vtt[|Header|..] == body;
    vtt
  }

  lemma BodyHasNoCarriageReturn(srt: string)
    ensures '\r' !in Body(srt)
  {
    var n := NormalizeNewlines(Trim(srt));
    var removed := RemoveCueIndices(n, true);
    RemovalKeepsCharacters(n, true);
    var converted := ConvertTimestamps(removed);
    OnlyStampCommasConverted(removed);
    assert '\r' !in converted by {
      forall i | 0 <= i < |converted| ensures converted[i] != '\r' {
        assert removed[i] in removed;
      }
    }
    TrimKeepsCharacters(converted);
  }

  // ---------------------------------------------------------------- one cue

  /** Text with no LF loses nothing: every index line ends in an LF. */
  lemma {:induction false} NoNewlineKept(s: string, atLineStart: bool)
    requires '\n' !in s
    ensures RemoveCueIndices(s, atLineStart) == s
    decreases |s|
  {
    if s != [] {
      assert '\n' !in s[1..] by {
        assert forall i :: 0 <= i < |s[1..]| ==> s[1..][i] == s[i + 1];
      }
      NoNewlineKept(s[1..], IsLineTerminator(s[0]));
      assert [s[0]] + s[1..] == s;
    }
  }

  /** The characters an SRT timing line is made of. */
  predicate TimingChar(c: char) {
    IsDigit(c) || c == ':' || c == ',' || c == '.' || c == '-' || c == '>' || c == ' '
  }

  function TimingLine(a: seq<string>, b: seq<string>, comma: bool): string
    requires |a| == 4 && |b| == 4
  {
    if comma then SrtStamp(a[0], a[1], a[2], a[3]) + " --> " + SrtStamp(b[0], b[1], b[2], b[3])
    else VttStamp(a[0], a[1], a[2], a[3]) + " --> " + VttStamp(b[0], b[1], b[2], b[3])
  }

  predicate StampFields(a: seq<string>) {
    |a| == 4 && Digits(a[0], 2) && Digits(a[1], 2) && Digits(a[2], 2) && Digits(a[3], 3)
  }

  /** A timing line starts with two digits and a colon and holds only
      timing characters. */
  lemma TimingLineShape(a: seq<string>, b: seq<string>, comma: bool)
    requires StampFields(a) && StampFields(b)
    ensures var line := TimingLine(a, b, comma);
      |line| > 2 && IsDigit(line[0]) && IsDigit(line[1]) && line[2] == ':'
      && (forall c :: c in line ==> TimingChar(c))
      && !IsSpace(line[|line| - 1])
  {
    var line := TimingLine(a, b, comma);
    forall x | x in a[0] || x in a[1] || x in a[2] || x in a[3] || x in b[0] || x in b[1] || x in b[2] || x in b[3]
      ensures IsDigit(x)
    {
    }
    assert line[0] == a[0][0] && line[1] == a[0][1];
    assert line[|line| - 1] == b[3][2];
  }

  /** The text of a cue stays as it is through the removal and conversion
      passes when it is one line without commas. */
  lemma CueTextUntouched(text: string)
    requires '\n' !in text && ',' !in text
    ensures RemoveCueIndices(text, true) == text
    ensures ConvertTimestamps(text) == text
  {
    NoNewlineKept(text, true);
    var r := ConvertTimestamps(text);
    OnlyStampCommasConverted(text);
    assert forall i :: 0 <= i < |text| ==> r[i] == text[i] by {
      forall i | 0 <= i < |text| ensures r[i] == text[i] {
        assert text[i] in text;
      }
    }
  }

  /** A file holding one cue with CRLF line ends (index line, timing line,
      one line of text) converts to the header, the timing line with dots
      and the text. */
  lemma SingleCueConverted(index: string, a: seq<string>, b: seq<string>, text: string)
    requires index != [] && AllDigits(index)
    requires StampFields(a) && StampFields(b)
    requires text != [] && !IsSpace(text[|text| - 1])
    requires '\r' !in text && '\n' !in text && ',' !in text
    ensures SrtToVtt(index + "\r\n" + TimingLine(a, b, true) + "\r\n" + text)
      == Header + (TimingLine(a, b, false) + "\n" + text)
  {
    TimingLineShape(a, b, true);
    TimingLineShape(a, b, false);
    CueTextUntouched(text);
    ConvertedCue(a, b, text);
    CueSteps(index, TimingLine(a, b, true), TimingLine(a, b, false), text);
  }

  /** The one-cue conversion for any timing line `line` that the timestamp
      pass turns into `vttLine`. */
  lemma CueSteps(index: string, line: string, vttLine: string, text: string)
    requires index != [] && AllDigits(index)
    requires |line| > 2 && IsDigit(line[0]) && IsDigit(line[1]) && line[2] == ':'
    requires forall c :: c in line ==> TimingChar(c)
    requires vttLine != [] && IsDigit(vttLine[0])
    requires text != [] && !IsSpace(text[|text| - 1])
    requires '\r' !in text && RemoveCueIndices(text, true) == text
    requires ConvertTimestamps(line + "\n" + text) == vttLine + "\n" + text
    ensures SrtToVtt(index + "\r\n" + line + "\r\n" + text) == Header + (vttLine + "\n" + text)
  {
    var lf := index + "\n" + (line + "\n" + text);
    CueInput(index, line, text);
    TrimmedCue(index, line, text);
    TrimmedOutput(vttLine, text);
    BodySteps(index + "\r\n" + line + "\r\n" + text, lf, line + "\n" + text, vttLine + "\n" + text);
  }

  /** The first three passes on a one-cue file: trimming changes nothing,
      line ends become LF and the index line goes. */
  lemma CueInput(index: string, line: string, text: string)
    requires index != [] && AllDigits(index)
    requires |line| > 2 && IsDigit(line[0]) && IsDigit(line[1]) && line[2] == ':'
    requires forall c :: c in line ==> TimingChar(c)
    requires '\r' !in text
    ensures NormalizeNewlines(index + "\r\n" + line + "\r\n" + text) == index + "\n" + (line + "\n" + text)
    ensures RemoveCueIndices(index + "\n" + (line + "\n" + text), true) == line + "\n" + RemoveCueIndices(text, true)
  {
    NormalizedCue(index, line, text);
    RemovedCueIndex(index, line, text);
  }

  /** The passes of the conversion, one after the other. */
  lemma BodySteps(srt: string, lf: string, removed: string, out: string)
    requires Trim(srt) == srt && NormalizeNewlines(srt) == lf
    requires RemoveCueIndices(lf, true) == removed && ConvertTimestamps(removed) == out
    requires Trim(out) == out
    ensures SrtToVtt(srt) == Header + out
  {
  }

  lemma TrimmedCue(index: string, line: string, text: string)
    requires index != [] && AllDigits(index)
    requires text != [] && !IsSpace(text[|text| - 1])
    ensures var srt := index + "\r\n" + line + "\r\n" + text; Trim(srt) == srt
  {
    var srt := index + "\r\n" + line + "\r\n" + text;
    assert srt[0] == index[0] && srt[|srt| - 1] == text[|text| - 1];
  }

  lemma TrimmedOutput(line: string, text: string)
    requires line != [] && IsDigit(line[0])
    requires text != [] && !IsSpace(text[|text| - 1])
    ensures var out := line + "\n" + text; Trim(out) == out
  {
    var out := line + "\n" + text;
    assert out[0] == line[0] && out[|out| - 1] == text[|text| - 1];
  }

  lemma ConvertedCue(a: seq<string>, b: seq<string>, text: string)
    requires StampFields(a) && StampFields(b)
    requires ConvertTimestamps(text) == text
    ensures ConvertTimestamps(TimingLine(a, b, true) + "\n" + (text)) == TimingLine(a, b, false) + "\n" + text
  {
    TimingLineConverted(a, b, "\n" + text);
    PlainTextCopied("\n", text);
    assert TimingLine(a, b, true) + "\n" + text == TimingLine(a, b, true) + ("\n" + text);
    assert TimingLine(a, b, false) + "\n" + text == TimingLine(a, b, false) + ("\n" + text);
  }

  lemma NormalizedCue(index: string, line: string, text: string)
    requires AllDigits(index) && '\r' !in text
    requires forall c :: c in line ==> TimingChar(c)
    ensures NormalizeNewlines(index + "\r\n" + line + "\r\n" + text) == index + "\n" + (line + "\n" + text)
  {
    var t := line + "\r\n" + text;
    assert index + "\r\n" + line + "\r\n" + text == index + "\r\n" + t;
    assert '\r' !in line;
    PlainCrLf(line, text);
    DigitsWithoutCr(index);
    NormalizeWithoutCr(index);
    NormalizeCrLf(index, t);
  }

  /** Two pieces without CR joined by CRLF become the pieces joined by LF. */
  lemma PlainCrLf(a: string, b: string)
    requires '\r' !in a && '\r' !in b
    ensures NormalizeNewlines(a + "\r\n" + b) == a + "\n" + b
  {
    NormalizeCrLf(a, b);
    NormalizeWithoutCr(a);
    NormalizeWithoutCr(b);
  }

  lemma DigitsWithoutCr(digits: string)
    requires AllDigits(digits)
    ensures '\r' !in digits
  {
    forall i | 0 <= i < |digits| ensures digits[i] != '\r' {
      assert IsDigit(digits[i]);
    }
  }

  lemma RemovedCueIndex(index: string, line: string, text: string)
    requires index != [] && AllDigits(index)
    requires |line| > 2 && IsDigit(line[0]) && IsDigit(line[1]) && line[2] == ':'
    requires forall c :: c in line ==> TimingChar(c)
    ensures RemoveCueIndices(index + "\n" + (line + "\n" + text), true)
      == line + "\n" + RemoveCueIndices(text, true)
  {
    CueIndexLineDropped(index, line + "\n" + text);
    TimingLineKept(line, text);
  }

  lemma TimingLineKept(line: string, text: string)
    requires |line| > 2 && IsDigit(line[0]) && IsDigit(line[1]) && line[2] == ':'
    requires forall c :: c in line ==> TimingChar(c)
    ensures RemoveCueIndices(line + "\n" + text, true) == line + "\n" + RemoveCueIndices(text, true)
  {
    assert forall i :: 0 <= i < |line| ==> !IsLineTerminator(line[i]) by {
      forall i | 0 <= i < |line| ensures !IsLineTerminator(line[i]) {
        assert line[i] in line;
      }
    }
    TimingLineNotIndex(line);
    TextLineKept(line, text);
  }

  lemma TimingLineNotIndex(line: string)
    requires |line| > 2 && IsDigit(line[0]) && IsDigit(line[1]) && line[2] == ':'
    ensures !IndexLike(line)
  {
    assert DigitsFrom(line, 2) == 2;
    assert DigitsFrom(line, 0) == 2;
    assert SpacesFrom(line, 2) == 2;
  }
}
