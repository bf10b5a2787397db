/**
 * The time-of-day normalisation done by the event pre-save hook: the trimmed
 * value must match `^([0-1]?[0-9]|2[0-3]):([0-5][0-9])$`, and is then stored
 * as `HH:MM` with the hour zero-padded.
 */
module TimeOfDay {
  import opened Wrappers
  import opened Text

  const TimeFormatError := "Time must be in HH:MM format (24-hour)"

  // ---- the regular expression ----

  /** `[0-1]?[0-9]|2[0-3]`, matched against the whole of `h`. */
  predicate HourMatches(h: string) {
    || (|h| == 1 && IsDigit(h[0]))
    || (|h| == 2 && '0' <= h[0] <= '1' && IsDigit(h[1]))
    || (|h| == 2 && h[0] == '2' && '0' <= h[1] <= '3')
  }

  /** `[0-5][0-9]`, matched against the whole of `m`. */
  predicate MinuteMatches(m: string) {
    |m| == 2 && '0' <= m[0] <= '5' && IsDigit(m[1])
  }

  /** What the anchored pattern accepts: an hour part, a colon and a minute part, nothing else. */
  ghost predicate MatchesTimeRegex(t: string) {
    exists i :: 0 <= i < |t| && t[i] == ':' && HourMatches(t[..i]) && MinuteMatches(t[i + 1..])
  }

  /** `timeRegex.test(t)`: the hour part is one or two characters, so the colon sits at index 1 or 2. */
  function TimeRegexTest(t: string): bool {
    if |t| == 4 then t[1] == ':' && HourMatches(t[..1]) && MinuteMatches(t[2..])
    else if |t| == 5 then t[2] == ':' && HourMatches(t[..2]) && MinuteMatches(t[3..])
    else false
  }

  /** Looking for the colon at index 1 or 2 only is the same as trying every split of the pattern. */
  lemma TimeRegexTestSound(t: string)
    ensures TimeRegexTest(t) <==> MatchesTimeRegex(t)
  {
    if MatchesTimeRegex(t) {
      var i :| 0 <= i < |t| && t[i] == ':' && HourMatches(t[..i]) && MinuteMatches(t[i + 1..]);
      assert i == 1 || i == 2;
    }
    if |t| == 4 && TimeRegexTest(t) {
      assert t[1] == ':' && HourMatches(t[..1]) && MinuteMatches(t[1 + 1..]);
    }
    if |t| == 5 && TimeRegexTest(t) {
      assert t[2] == ':' && HourMatches(t[..2]) && MinuteMatches(t[2 + 1..]);
    }
  }

  // ---- what a time string means ----

  function Digit(d: nat): (c: char)
    requires d < 10
    ensures IsDigit(c)
  {
    ('0' as int + d) as char
  }

  function DigitValue(c: char): (v: int)
    ensures IsDigit(c) ==> 0 <= v < 10
  {
    c as int - '0' as int
  }

  /** `n` written with exactly two digits. */
  function TwoDigits(n: nat): (s: string)
    requires n < 100
    ensures |s| == 2 && IsDigit(s[0]) && IsDigit(s[1])
    ensures 10 * DigitValue(s[0]) + DigitValue(s[1]) == n
  {
    [Digit(n / 10), Digit(n % 10)]
  }

  /** The canonical `HH:MM` spelling of a time of day. */
  function Clock(h: nat, m: nat): (t: string)
    requires h < 24 && m < 60
    ensures |t| == 5 && t[2] == ':'
  {
    TwoDigits(h) + ":" + TwoDigits(m)
  }

  /** `t` spells hour `h` and minute `m`, with the hour padded or, below ten, on one digit. */
  ghost predicate Denotes(t: string, h: nat, m: nat) {
    && h < 24 && m < 60
    && (t == Clock(h, m) || (h < 10 && t == [Digit(h)] + ":" + TwoDigits(m)))
  }

  /** The value of the one or two digits of an hour or minute part. */
  function PartValue(s: string): nat
    requires |s| == 1 || |s| == 2
    requires forall i :: 0 <= i < |s| ==> IsDigit(s[i])
  {
    assert IsDigit(s[0]);
    if |s| == 1 then DigitValue(s[0]) else assert IsDigit(s[1]); 10 * DigitValue(s[0]) + DigitValue(s[1])
  }

  lemma DigitRoundTrip(c: char)
    requires IsDigit(c)
    ensures 0 <= DigitValue(c) < 10 && Digit(DigitValue(c)) == c
  {
  }

  lemma TwoDigitsRoundTrip(s: string)
    requires |s| == 2 && IsDigit(s[0]) && IsDigit(s[1])
    ensures 0 <= PartValue(s) < 100 && TwoDigits(PartValue(s)) == s
  {
    DigitRoundTrip(s[0]);
    DigitRoundTrip(s[1]);
  }

  /** Where the colon of an accepted time is. */
  function ColonAt(t: string): nat {
    if |t| == 4 then 1 else 2
  }

  /** The hour an accepted time spells. */
  function Hour(t: string): nat
    requires TimeRegexTest(t)
  {
    PartValue(t[..ColonAt(t)])
  }

  /** The minute an accepted time spells. */
  function Minute(t: string): nat
    requires TimeRegexTest(t)
  {
    PartValue(t[ColonAt(t) + 1..])
  }

  /** Every string the pattern accepts spells some time of day. */
  lemma MatchDenotes(t: string)
    requires TimeRegexTest(t)
    ensures Denotes(t, Hour(t), Minute(t))
  {
    var i := ColonAt(t);
    var hs, ms := t[..i], t[i + 1..];
    TwoDigitsRoundTrip(ms);
    assert t == hs + ":" + ms;
    if i == 1 {
      DigitRoundTrip(hs[0]);
      assert hs == [Digit(PartValue(hs))];
    } else {
      TwoDigitsRoundTrip(hs);
    }
  }

  /** Every spelling of a time of day is accepted by the pattern. */
  lemma DenotesMatches(t: string, h: nat, m: nat)
    requires Denotes(t, h, m)
    ensures TimeRegexTest(t)
  {
    var mm := TwoDigits(m);
    if t == Clock(h, m) {
      var hh := TwoDigits(h);
      assert t[..2] == hh && t[3..] == mm;
    } else {
      assert t[..1] == [Digit(h)] && t[2..] == mm;
    }
  }

  /** The pattern accepts exactly the spellings of times of day. */
  lemma TimeRegexMeaning(t: string)
    ensures TimeRegexTest(t) <==> exists h: nat, m: nat :: Denotes(t, h, m)
  {
    if TimeRegexTest(t) {
      MatchDenotes(t);
    }
    if exists h: nat, m: nat :: Denotes(t, h, m) {
      var h: nat, m: nat :| Denotes(t, h, m);
      DenotesMatches(t, h, m);
    }
  }

  /** A string spells at most one time of day. */
  lemma DenotesUnique(t: string, h: nat, m: nat)
    requires Denotes(t, h, m)
    ensures TimeRegexTest(t) && h == Hour(t) && m == Minute(t)
  {
    DenotesMatches(t, h, m);
    var i := ColonAt(t);
    assert PartValue(t[i + 1..]) == m;
    assert PartValue(t[..i]) == h;
  }

  // ---- the normalisation ----

  /** Splitting an accepted time on ':' gives its hour part and its minute part. */
  lemma SplitTime(t: string)
    requires TimeRegexTest(t)
    ensures Split(t, ':') == [t[..ColonAt(t)], t[ColonAt(t) + 1..]]
  {
    var i := ColonAt(t);
    assert ':' !in t[..i];
    assert ':' !in t[i + 1..];
    SplitOnce(t, ':', i);
  }

  /** Padding the two halves of an accepted time gives the canonical spelling of the time it denotes. */
  lemma PadTime(t: string)
    requires TimeRegexTest(t)
    ensures var parts := Split(t, ':');
      && |parts| == 2 && Denotes(t, Hour(t), Minute(t))
      && PadStart(parts[0], 2, '0') + ":" + PadStart(parts[1], 2, '0') == Clock(Hour(t), Minute(t))
  {
    SplitTime(t);
    MatchDenotes(t);
    var parts := Split(t, ':');
    var h, m := Hour(t), Minute(t);
    TwoDigitsRoundTrip(parts[1]);
    if |parts[0]| == 1 {
      DigitRoundTrip(parts[0][0]);
      assert PadStart(parts[0], 2, '0') == ['0'] + parts[0];
      assert TwoDigits(h) == ['0', Digit(h)];
    } else {
      TwoDigitsRoundTrip(parts[0]);
    }
  }

  /**
   * The time branch of the pre-save hook: trim, test against the pattern, then pad
   * both halves of the split to two digits.
   */
  function NormalizeTime(raw: string): (r: Result<string, string>)
    ensures r.Failure? ==> r.error == TimeFormatError && forall h: nat, m: nat :: !Denotes(Trim(raw), h, m)
    ensures r.Success? ==>
              && TimeRegexTest(Trim(raw))
              && Denotes(Trim(raw), Hour(Trim(raw)), Minute(Trim(raw)))
              && r.value == Clock(Hour(Trim(raw)), Minute(Trim(raw)))
  {
    var t := Trim(raw);
    if !TimeRegexTest(t) then
      TimeRegexMeaning(t);
      Failure(TimeFormatError)
    else
      PadTime(t);
      var parts := Split(t, ':');
      Success(PadStart(parts[0], 2, '0') + ":" + PadStart(parts[1], 2, '0'))
  }

  /** A time is accepted exactly when its trimmed value spells a time of day. */
  lemma NormalizeTimeAccepts(raw: string)
    ensures NormalizeTime(raw).Success? <==> exists h: nat, m: nat :: Denotes(Trim(raw), h, m)
  {
    TimeRegexMeaning(Trim(raw));
  }

  lemma ClockDenotes(h: nat, m: nat)
    requires h < 24 && m < 60
    ensures Denotes(Clock(h, m), h, m) && Trim(Clock(h, m)) == Clock(h, m)
  {
    var t := Clock(h, m);
    assert IsDigit(t[0]) && IsDigit(t[4]);
    TrimNoOp(t);
  }

  /** Any spelling of a time of day is stored as that time's canonical spelling. */
  lemma NormalizeTimeOfDenotes(raw: string, h: nat, m: nat)
    requires Denotes(Trim(raw), h, m)
    ensures NormalizeTime(raw) == Success(Clock(h, m))
  {
    DenotesUnique(Trim(raw), h, m);
  }

  /** The canonical spelling is left as it is. */
  lemma NormalizeTimeCanonical(h: nat, m: nat)
    requires h < 24 && m < 60
    ensures NormalizeTime(Clock(h, m)) == Success(Clock(h, m))
  {
    var t := Clock(h, m);
    ClockDenotes(h, m);
    DenotesMatches(t, h, m);
    DenotesUnique(t, h, m);
  }

  /** Saving a normalised time again does not change it. */
  lemma NormalizeTimeIdempotent(raw: string)
    requires NormalizeTime(raw).Success?
    ensures NormalizeTime(NormalizeTime(raw).value) == NormalizeTime(raw)
  {
    var t := Trim(raw);
    NormalizeTimeCanonical(Hour(t), Minute(t));
  }

  /** A string that starts and ends with a digit is its own trim. */
  lemma TrimDigits(t: string)
    requires t != [] && IsDigit(t[0]) && IsDigit(t[|t| - 1])
    ensures Trim(t) == t
  {
    TrimNoOp(t);
  }

  lemma SingleDigitHour(raw: string, h: nat, m: nat)
    requires h < 10 && m < 60 && raw == [Digit(h)] + ":" + TwoDigits(m)
    ensures Trim(raw) == raw && Denotes(raw, h, m) && Clock(h, m) == ['0', Digit(h)] + ":" + TwoDigits(m)
  {
    assert |raw| == 4 && raw[0] == Digit(h) && raw[3] == TwoDigits(m)[1];
    TrimDigits(raw);
    assert TwoDigits(h) == ['0', Digit(h)];
  }

  /** A single-digit hour gains its leading zero: "9:05" is stored as "09:05". */
  lemma PadsSingleDigitHour(raw: string, h: nat, m: nat)
    requires h < 10 && m < 60 && raw == [Digit(h)] + ":" + TwoDigits(m)
    ensures NormalizeTime(raw) == Success(['0', Digit(h)] + ":" + TwoDigits(m))
  {
    SingleDigitHour(raw, h, m);
    NormalizeTimeOfDenotes(raw, h, m);
  }

  lemma SingleDigitMinute(raw: string, h: nat, m: nat)
    requires h < 10 && m < 10 && raw == [Digit(h)] + ":" + [Digit(m)]
    ensures Trim(raw) == raw && !TimeRegexTest(raw)
  {
    assert |raw| == 3 && raw[0] == Digit(h) && raw[2] == Digit(m);
    TrimDigits(raw);
  }

  /** The minutes are never padded: "9:5" is refused rather than read as "09:05". */
  lemma RefusesSingleDigitMinute(raw: string, h: nat, m: nat)
    requires h < 10 && m < 10 && raw == [Digit(h)] + ":" + [Digit(m)]
    ensures NormalizeTime(raw) == Failure(TimeFormatError)
  {
    SingleDigitMinute(raw, h, m);
  }

  lemma HourPast23(raw: string, h: nat, m: nat)
    requires 24 <= h < 100 && m < 60 && raw == TwoDigits(h) + ":" + TwoDigits(m)
    ensures Trim(raw) == raw && !TimeRegexTest(raw)
  {
    assert |raw| == 5 && raw[0] == TwoDigits(h)[0] && raw[4] == TwoDigits(m)[1];
    TrimDigits(raw);
    assert raw[..2] == TwoDigits(h);
  }

  /** Hours run up to 23 only: "24:00" and "25:00" are refused. */
  lemma RefusesHourPast23(raw: string, h: nat, m: nat)
    requires 24 <= h < 100 && m < 60 && raw == TwoDigits(h) + ":" + TwoDigits(m)
    ensures NormalizeTime(raw) == Failure(TimeFormatError)
  {
    HourPast23(raw, h, m);
  }

  lemma MinutePast59(raw: string, h: nat, m: nat)
    requires h < 24 && 60 <= m < 100 && raw == TwoDigits(h) + ":" + TwoDigits(m)
    ensures Trim(raw) == raw && !TimeRegexTest(raw)
  {
    assert |raw| == 5 && raw[0] == TwoDigits(h)[0] && raw[4] == TwoDigits(m)[1];
    TrimDigits(raw);
    assert raw[3..] == TwoDigits(m);
  }

  /** Minutes run up to 59 only. */
  lemma RefusesMinutePast59(raw: string, h: nat, m: nat)
    requires h < 24 && 60 <= m < 100 && raw == TwoDigits(h) + ":" + TwoDigits(m)
    ensures NormalizeTime(raw) == Failure(TimeFormatError)
  {
    MinutePast59(raw, h, m);
  }

  /** Surrounding white space is dropped before the test. */
  lemma IgnoresSurroundingSpace(raw: string, pre: string, post: string, h: nat, m: nat)
    requires h < 24 && m < 60
    requires forall i :: 0 <= i < |pre| ==> IsSpace(pre[i])
    requires forall i :: 0 <= i < |post| ==> IsSpace(post[i])
    requires raw == pre + Clock(h, m) + post
    ensures NormalizeTime(raw) == Success(Clock(h, m))
  {
    SpacedTrim(pre, Clock(h, m), post);
    ClockDenotes(h, m);
    NormalizeTimeOfDenotes(raw, h, m);
  }

  lemma NineOhFiveSpelling(raw: string)
    requires raw == "9:05"
    ensures raw == [Digit(9)] + ":" + TwoDigits(5) && ['0', Digit(9)] + ":" + TwoDigits(5) == "09:05"
  {
  }

  /** The hook stores "9:05" as "09:05". */
  lemma NineOhFiveExample(raw: string)
    requires raw == "9:05"
    ensures NormalizeTime(raw) == Success("09:05")
  {
    NineOhFiveSpelling(raw);
    PadsSingleDigitHour(raw, 9, 5);
  }

  lemma NineFiveSpelling(raw: string)
    requires raw == "9:5"
    ensures raw == [Digit(9)] + ":" + [Digit(5)]
  {
  }

  /** The hook refuses "9:5". */
  lemma NineFiveExample(raw: string)
    requires raw == "9:5"
    ensures NormalizeTime(raw) == Failure(TimeFormatError)
  {
    NineFiveSpelling(raw);
    RefusesSingleDigitMinute(raw, 9, 5);
  }
}
