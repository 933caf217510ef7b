/** Times as the player prints them (`formatTime`) and reads them from
    chapter files (`parseVttTime`). A time is JavaScript's NaN or a
    non-negative whole number of milliseconds. */
module Timecode {
  import opened Optional
  import opened Text

  datatype Time = NaN | Millis(ms: nat)

  /** `minutes * 60 + seconds`; NaN if either is NaN. */
  function MinutesAndSeconds(minutes: Time, seconds: Time): Time {
    if minutes.NaN? || seconds.NaN? then NaN else Millis(minutes.ms * 60 + seconds.ms)
  }

  /** `hours * 3600 + minutes * 60 + seconds`; NaN if any is NaN. */
  function HoursMinutesAndSeconds(hours: Time, minutes: Time, seconds: Time): Time {
    if hours.NaN? || minutes.NaN? || seconds.NaN? then NaN
    else Millis(hours.ms * 3600 + minutes.ms * 60 + seconds.ms)
  }

  /** The whole seconds `formatTime` shows: NaN counts as 0. */
  function WholeSeconds(t: Time): nat {
    match t
    case NaN => 0
    case Millis(ms) => ms / 1000
  }

  /** `formatTime(seconds)`: `m:ss` below an hour, `h:mm:ss` from an hour on. */
  function FormatTime(t: Time): string {
    match t
    case NaN => "0:00"
    case Millis(ms) =>
      if ms == 0 then "0:00"
      else
        var whole := ms / 1000;
        var hours := whole / 3600;
        var minutes := whole % 3600 / 60;
        var secs := whole % 60;
        if hours > 0 then
          NatToString(hours) + ":" + PadStart2(NatToString(minutes)) + ":" + PadStart2(NatToString(secs))
        else
          NatToString(minutes) + ":" + PadStart2(NatToString(secs))
  }

  /** A field printed without padding: digits, and no leading zero unless
      the field is a single digit. */
  predicate Unpadded(field: string) {
    field != [] && AllDigits(field) && (field[0] == '0' ==> |field| == 1)
  }

  /** A two-digit field below 60. */
  predicate Sexagesimal(field: string) {
    |field| == 2 && AllDigits(field) && DigitsValue(field) < 60
  }

  /** The fields `formatTime` prints, in order. */
  function ClockFields(t: Time): seq<string> {
    var whole := WholeSeconds(t);
    if whole >= 3600 then
      [NatToString(whole / 3600), PadStart2(NatToString(whole % 3600 / 60)), PadStart2(NatToString(whole % 60))]
    else
      [NatToString(whole / 60), PadStart2(NatToString(whole % 60))]
  }

  lemma FormatTimeJoinsFields(t: Time)
    ensures FormatTime(t) == Join(ClockFields(t), ':')
    ensures forall i :: 0 <= i < |ClockFields(t)| ==> ':' !in ClockFields(t)[i]
  {
    var whole := WholeSeconds(t);
    var f := ClockFields(t);
    if whole >= 3600 {
      JoinThree(f[0], f[1], f[2], ':');
    } else {
      JoinTwo(f[0], f[1], ':');
    }
    forall i | 0 <= i < |f| ensures ':' !in f[i] {
      NoColonInDigits(f[i]);
    }
  }

  lemma ClockFieldValues(t: Time)
    ensures var f := ClockFields(t);
      WholeSeconds(t) < 3600 ==>
        |f| == 2 && Unpadded(f[0]) && Sexagesimal(f[1])
        && DigitsValue(f[0]) < 60
        && DigitsValue(f[0]) * 60 + DigitsValue(f[1]) == WholeSeconds(t)
    ensures var f := ClockFields(t);
      WholeSeconds(t) >= 3600 ==>
        |f| == 3 && Unpadded(f[0]) && f[0] != "0"
        && Sexagesimal(f[1]) && Sexagesimal(f[2])
        && DigitsValue(f[0]) * 3600 + DigitsValue(f[1]) * 60 + DigitsValue(f[2]) == WholeSeconds(t)
  {
    var whole := WholeSeconds(t);
    ClockArithmetic(whole);
    TwoDigits(whole % 60);
    if whole >= 3600 {
      DigitsValueOfNatToString(whole / 3600);
      TwoDigits(whole % 3600 / 60);
    } else {
      DigitsValueOfNatToString(whole / 60);
    }
  }

  /** The fields of `formatTime`'s output: below an hour, unpadded minutes
      and two-digit seconds; from an hour on, unpadded hours and two-digit
      minutes and seconds, each below 60. Read back, they add up to the
      whole seconds of the input. */
  lemma FormatTimeFields(t: Time)
    ensures var parts := Split(FormatTime(t), ':');
      WholeSeconds(t) < 3600 ==>
        |parts| == 2 && Unpadded(parts[0]) && Sexagesimal(parts[1])
        && DigitsValue(parts[0]) < 60
        && DigitsValue(parts[0]) * 60 + DigitsValue(parts[1]) == WholeSeconds(t)
    ensures var parts := Split(FormatTime(t), ':');
      WholeSeconds(t) >= 3600 ==>
        |parts| == 3 && Unpadded(parts[0]) && parts[0] != "0"
        && Sexagesimal(parts[1]) && Sexagesimal(parts[2])
        && DigitsValue(parts[0]) * 3600 + DigitsValue(parts[1]) * 60 + DigitsValue(parts[2]) == WholeSeconds(t)
  {
    FormatTimeJoinsFields(t);
    SplitOfJoin(ClockFields(t), ':');
    ClockFieldValues(t);
  }

  /** The hours, minutes and seconds `formatTime` computes recombine to the
      whole seconds. */
  lemma ClockArithmetic(whole: nat)
    ensures whole % 3600 / 60 < 60 && whole % 60 < 60
    ensures whole / 3600 * 3600 + whole % 3600 / 60 * 60 + whole % 60 == whole
    ensures whole < 3600 ==> whole % 3600 / 60 == whole / 60 && whole / 60 < 60
  {
    var r := whole % 3600;
    assert whole == whole / 3600 * 3600 + r;
    assert r == r / 60 * 60 + r % 60;
    assert r % 60 == whole % 60 by {
      assert whole == (whole / 3600 * 60 + r / 60) * 60 + r % 60;
    }
  }

  lemma NoColonInDigits(s: string)
    requires AllDigits(s)
    ensures ':' !in s
  {
  }

  // ---------------------------------------------------------------- reading

  /** The milliseconds of a fraction: its first three digits, padded with
      zeros. */
  function FractionMillis(frac: string): (r: nat)
    requires AllDigits(frac)
    ensures r < 1000
  {
    var three := (frac + "000")[..3];
    assert AllDigits(three);
    DigitsBound(three);
    DigitsValue(three)
  }

  lemma {:induction false} DigitsBound(s: string)
    requires AllDigits(s)
    ensures DigitsValue(s) < Power10(|s|)
    decreases |s|
  {
    if s != [] {
      DigitsBound(s[..|s| - 1]);
    }
  }

  function Power10(n: nat): (r: nat)
    ensures r >= 1
  {
    if n == 0 then 1 else 10 * Power10(n - 1)
  }

  /** `Number(field)` for an unsigned decimal with an optional fraction,
      after trimming white space; the empty string is 0; anything else is
      NaN. */
  function ParseNumber(field: string): Time {
    ParseUnsigned(Trim(field))
  }

  /** The value of trimmed text: digits with at most one dot and at least
      one digit. */
  function ParseUnsigned(t: string): Time {
    if t == [] then Millis(0)
    else
      match FindChar(t, '.')
      case None =>
        if AllDigits(t) then Millis(DigitsValue(t) * 1000) else NaN
      case Some(k) =>
        var whole, frac := t[..k], t[k + 1..];
        if AllDigits(whole) && AllDigits(frac) && (whole != [] || frac != [])
        then Millis(DigitsValue(whole) * 1000 + FractionMillis(frac))
        else NaN
  }

  /** `parseVttTime(ts)`: three colon-separated fields are hours, minutes
      and seconds; two or more otherwise are minutes and seconds; a single
      field has no seconds and gives NaN. */
  function ParseVttTime(ts: string): Time {
    FieldsTime(Split(ts, ':'))
  }

  /** The time the colon-separated fields of a timestamp stand for. */
  function FieldsTime(parts: seq<string>): Time {
    if |parts| == 3 then
      HoursMinutesAndSeconds(ParseNumber(parts[0]), ParseNumber(parts[1]), ParseNumber(parts[2]))
    else if |parts| >= 2 then
      MinutesAndSeconds(ParseNumber(parts[0]), ParseNumber(parts[1]))
    else
      NaN
  }

  lemma NoDotInDigits(s: string)
    requires AllDigits(s)
    ensures '.' !in s
  {
  }

  lemma NoSpaceAtEnds(s: string)
    requires AllDigits(s)
    ensures Trim(s) == s
  {
    if s != [] {
      assert IsDigit(s[0]) && IsDigit(s[|s| - 1]);
    }
  }

  /** A field of digits reads as that many seconds. */
  lemma ParseWholeNumber(s: string)
    requires s != [] && AllDigits(s)
    ensures ParseNumber(s) == Millis(DigitsValue(s) * 1000)
  {
    NoSpaceAtEnds(s);
    NoDotInDigits(s);
  }

  lemma DecimalUntrimmed(whole: string, frac: string)
    requires AllDigits(whole) && AllDigits(frac) && whole != []
    ensures Trim(whole + "." + frac) == whole + "." + frac
  {
    var t := whole + "." + frac;
    assert IsDigit(t[0]);
    assert !IsSpace(t[|t| - 1]);
  }

  lemma DecimalPoint(whole: string, frac: string)
    requires AllDigits(whole)
    ensures FindChar(whole + "." + frac, '.') == Some(|whole|)
    ensures (whole + "." + frac)[..|whole|] == whole && (whole + "." + frac)[|whole| + 1..] == frac
  {
    var t := whole + "." + frac;
    assert t[..|whole|] == whole;
    assert t[|whole|] == '.';
    assert forall j :: 0 <= j < |whole| ==> t[j] != '.' by {
      assert forall j :: 0 <= j < |whole| ==> t[j] == whole[j];
    }
  }

  /** Digits, a dot and digits read as seconds and their fraction. */
  lemma ParseDecimalNumber(whole: string, frac: string)
    requires AllDigits(whole) && AllDigits(frac) && whole != []
    ensures ParseNumber(whole + "." + frac) == Millis(DigitsValue(whole) * 1000 + FractionMillis(frac))
  {
    DecimalUntrimmed(whole, frac);
    DecimalValue(whole, frac);
  }

  lemma DecimalValue(whole: string, frac: string)
    requires AllDigits(whole) && AllDigits(frac) && whole != []
    ensures ParseUnsigned(whole + "." + frac) == Millis(DigitsValue(whole) * 1000 + FractionMillis(frac))
  {
    DecimalPoint(whole, frac);
  }

  lemma Regroup(x: string, s: string, frac: string)
    ensures x + s + "." + frac == x + (s + "." + frac)
  {
  }

  lemma ParseJoinedFields(parts: seq<string>)
    requires |parts| >= 1 && forall i :: 0 <= i < |parts| ==> ':' !in parts[i]
    ensures ParseVttTime(Join(parts, ':')) == FieldsTime(parts)
  {
    SplitOfJoin(parts, ':');
  }

  /** Two fields are minutes and seconds. */
  lemma TwoFieldsTime(m: string, sec: string, vm: nat, vs: nat)
    requires ParseNumber(m) == Millis(vm) && ParseNumber(sec) == Millis(vs)
    ensures FieldsTime([m, sec]) == Millis(vm * 60 + vs)
  {
  }

  /** Three fields are hours, minutes and seconds. */
  lemma ThreeFieldsTime(h: string, m: string, sec: string, vh: nat, vm: nat, vs: nat)
    requires ParseNumber(h) == Millis(vh) && ParseNumber(m) == Millis(vm) && ParseNumber(sec) == Millis(vs)
    ensures FieldsTime([h, m, sec]) == Millis(vh * 3600 + vm * 60 + vs)
  {
  }

  /** Timestamp text whose fields hold no colon reads as those fields. */
  lemma TwoFieldText(m: string, last: string)
    requires ':' !in m && ':' !in last
    ensures ParseVttTime(m + ":" + last) == FieldsTime([m, last])
  {
    JoinTwo(m, last, ':');
    ParseJoinedFields([m, last]);
  }

  lemma ThreeFieldText(h: string, m: string, last: string)
    requires ':' !in h && ':' !in m && ':' !in last
    ensures ParseVttTime(h + ":" + m + ":" + last) == FieldsTime([h, m, last])
  {
    JoinThree(h, m, last, ':');
    ParseJoinedFields([h, m, last]);
  }

  lemma NoColonInDecimal(s: string, frac: string)
    requires AllDigits(s) && AllDigits(frac)
    ensures ':' !in s + "." + frac
  {
    NoColonInDigits(s);
    NoColonInDigits(frac);
  }

  /** `parseVttTime` on a WebVTT timestamp `hh:mm:ss.ttt` (any number of
      digits in each field, any number of fraction digits): the hours,
      minutes and seconds the digits spell, plus the first three fraction
      digits as milliseconds. */
  lemma ParseVttTimeLong(h: string, m: string, s: string, frac: string, hours: nat, minutes: nat, seconds: nat)
    requires h != [] && AllDigits(h) && m != [] && AllDigits(m) && s != [] && AllDigits(s) && AllDigits(frac)
    requires hours == DigitsValue(h) && minutes == DigitsValue(m) && seconds == DigitsValue(s)
    ensures ParseVttTime(h + ":" + m + ":" + s + "." + frac)
      == Millis((hours * 3600 + minutes * 60 + seconds) * 1000 + FractionMillis(frac))
  {
    NoColonInDigits(h);
    NoColonInDigits(m);
    NoColonInDecimal(s, frac);
    Regroup(h + ":" + m + ":", s, frac);
    ThreeFieldText(h, m, s + "." + frac);
    LongFieldsMillis(h, m, s, frac, hours * 1000, minutes * 1000, seconds * 1000 + FractionMillis(frac));
    Milliseconds(hours, minutes, seconds, FractionMillis(frac));
  }

  lemma LongFieldsMillis(h: string, m: string, s: string, frac: string, vh: nat, vm: nat, vs: nat)
    requires h != [] && AllDigits(h) && m != [] && AllDigits(m) && s != [] && AllDigits(s) && AllDigits(frac)
    requires vh == DigitsValue(h) * 1000 && vm == DigitsValue(m) * 1000
    requires vs == DigitsValue(s) * 1000 + FractionMillis(frac)
    ensures FieldsTime([h, m, s + "." + frac]) == Millis(vh * 3600 + vm * 60 + vs)
  {
    ParseWholeNumber(h);
    ParseWholeNumber(m);
    ParseDecimalNumber(s, frac);
    ThreeFieldsTime(h, m, s + "." + frac, vh, vm, vs);
  }

  /** `parseVttTime` on a WebVTT timestamp `mm:ss.ttt`: the minutes and
      seconds the digits spell, plus the first three fraction digits as
      milliseconds. */
  lemma ParseVttTimeShort(m: string, s: string, frac: string, minutes: nat, seconds: nat)
    requires m != [] && AllDigits(m) && s != [] && AllDigits(s) && AllDigits(frac)
    requires minutes == DigitsValue(m) && seconds == DigitsValue(s)
    ensures ParseVttTime(m + ":" + s + "." + frac) == Millis((minutes * 60 + seconds) * 1000 + FractionMillis(frac))
  {
    NoColonInDigits(m);
    NoColonInDecimal(s, frac);
    Regroup(m + ":", s, frac);
    TwoFieldText(m, s + "." + frac);
    ShortFieldsMillis(m, s, frac, minutes * 1000, seconds * 1000 + FractionMillis(frac));
    Milliseconds(0, minutes, seconds, FractionMillis(frac));
  }

  lemma ShortFieldsMillis(m: string, s: string, frac: string, vm: nat, vs: nat)
    requires m != [] && AllDigits(m) && s != [] && AllDigits(s) && AllDigits(frac)
    requires vm == DigitsValue(m) * 1000 && vs == DigitsValue(s) * 1000 + FractionMillis(frac)
    ensures FieldsTime([m, s + "." + frac]) == Millis(vm * 60 + vs)
  {
    ParseWholeNumber(m);
    ParseDecimalNumber(s, frac);
    TwoFieldsTime(m, s + "." + frac, vm, vs);
  }

  /** Fields read in milliseconds add up to the seconds they spell. */
  lemma Milliseconds(h: nat, m: nat, s: nat, f: nat)
    ensures h * 1000 * 3600 + m * 1000 * 60 + (s * 1000 + f) == (h * 3600 + m * 60 + s) * 1000 + f
    ensures m * 1000 * 60 + (s * 1000 + f) == (m * 60 + s) * 1000 + f
  {
  }

  lemma WholeMilliseconds(hours: nat, minutes: nat, seconds: nat, whole: nat)
    requires hours * 3600 + minutes * 60 + seconds == whole
    ensures hours * 1000 * 3600 + minutes * 1000 * 60 + seconds * 1000 == whole * 1000
    ensures minutes * 1000 * 60 + seconds * 1000 == (minutes * 60 + seconds) * 1000
  {
  }

  /** Reading back what `formatTime` printed gives its whole seconds. */
  lemma ParseFormattedTime(t: Time)
    ensures ParseVttTime(FormatTime(t)) == Millis(WholeSeconds(t) * 1000)
  {
    FormatTimeJoinsFields(t);
    ParseJoinedFields(ClockFields(t));
    ClockFieldValues(t);
    var f := ClockFields(t);
    if |f| == 3 {
      WholeFieldsThree(f[0], f[1], f[2], DigitsValue(f[0]), DigitsValue(f[1]), DigitsValue(f[2]), WholeSeconds(t));
      assert f == [f[0], f[1], f[2]];
    } else {
      WholeFieldsTwo(f[0], f[1], DigitsValue(f[0]), DigitsValue(f[1]), WholeSeconds(t));
      assert f == [f[0], f[1]];
    }
  }

  lemma WholeFieldsTwo(m: string, s: string, minutes: nat, seconds: nat, whole: nat)
    requires m != [] && AllDigits(m) && s != [] && AllDigits(s)
    requires minutes == DigitsValue(m) && seconds == DigitsValue(s) && minutes * 60 + seconds == whole
    ensures FieldsTime([m, s]) == Millis(whole * 1000)
  {
    WholeFieldsMillis(m, s, minutes * 1000, seconds * 1000);
    WholeMilliseconds(0, minutes, seconds, whole);
  }

  lemma WholeFieldsMillis(m: string, s: string, vm: nat, vs: nat)
    requires m != [] && AllDigits(m) && s != [] && AllDigits(s)
    requires vm == DigitsValue(m) * 1000 && vs == DigitsValue(s) * 1000
    ensures FieldsTime([m, s]) == Millis(vm * 60 + vs)
  {
    ParseWholeNumber(m);
    ParseWholeNumber(s);
    TwoFieldsTime(m, s, vm, vs);
  }

  lemma WholeFieldsThree(h: string, m: string, s: string, hours: nat, minutes: nat, seconds: nat, whole: nat)
    requires h != [] && AllDigits(h) && m != [] && AllDigits(m) && s != [] && AllDigits(s)
    requires hours == DigitsValue(h) && minutes == DigitsValue(m) && seconds == DigitsValue(s)
    requires hours * 3600 + minutes * 60 + seconds == whole
    ensures FieldsTime([h, m, s]) == Millis(whole * 1000)
  {
    ParseWholeNumber(h);
    ParseWholeNumber(m);
    ParseWholeNumber(s);
    ThreeWholeFields(h, m, s, hours, minutes, seconds, whole);
  }

  lemma ThreeWholeFields(h: string, m: string, s: string, hours: nat, minutes: nat, seconds: nat, whole: nat)
    requires ParseNumber(h) == Millis(hours * 1000) && ParseNumber(m) == Millis(minutes * 1000)
    requires ParseNumber(s) == Millis(seconds * 1000)
    requires hours * 3600 + minutes * 60 + seconds == whole
    ensures FieldsTime([h, m, s]) == Millis(whole * 1000)
  {
    ThreeFieldsTime(h, m, s, hours * 1000, minutes * 1000, seconds * 1000);
    WholeMilliseconds(hours, minutes, seconds, whole);
  }
}
