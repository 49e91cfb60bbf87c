/**
 * `formatSeconds` from `formathelper.go`: a duration in whole seconds written as "05s", "03m 07s",
 * " 2h" or "01h 00m 09s", with Go's truncating `/` and `%`.
 */
module FormatHelper {
  import opened Wrappers
  import opened Numeric
  import opened Text

  /** The three fields `formatSeconds` prints. */
  datatype Clock = Clock(hours: int, minutes: int, secs: int)

  /** On a non-negative count the fields are the usual hours, minutes and seconds. */
  lemma ClockOfNat(n: nat)
    ensures (n / 3600) * 3600 + ((n % 3600) / 60) * 60 + n % 60 == n
    ensures 0 <= (n % 3600) / 60 < 60 && (n % 3600) % 60 == n % 60
  {
    var q, r := n / 3600, n % 3600;
    var m, t := r / 60, r % 60;
    assert n == q * 3600 + r && r == m * 60 + t;
    assert n == (q * 60 + m) * 60 + t;
    assert n % 60 == t;
  }

  /**
   * `hours := seconds / 3600; minutes := (seconds % 3600) / 60; secs := seconds % 60`. The fields add
   * back up to the input; on a negative input every field is zero or negative, as Go truncates.
   */
  function ClockOf(seconds: int): (c: Clock)
    ensures c.hours * 3600 + c.minutes * 60 + c.secs == seconds
    ensures seconds >= 0 ==> c.hours >= 0 && 0 <= c.minutes < 60 && 0 <= c.secs < 60
    ensures seconds < 0 ==> c.hours <= 0 && -60 < c.minutes <= 0 && -60 < c.secs <= 0
  {
    ClockOfNat(Abs(seconds));
    Clock(Quot(seconds, 3600), Quot(Rem(seconds, 3600), 60), Rem(seconds, 60))
  }

  /** The decomposition is unique: hours, minutes under 60 and seconds under 60 are found again. */
  lemma ClockOfFields(h: nat, m: nat, s: nat)
    requires m < 60 && s < 60
    ensures ClockOf(h * 3600 + m * 60 + s) == Clock(h, m, s)
  {
    var n := h * 3600 + m * 60 + s;
    var c := ClockOf(n);
    assert m * 60 + s < 3600;
    assert n / 3600 == h && n % 3600 == m * 60 + s;
    assert (m * 60 + s) / 60 == m && (m * 60 + s) % 60 == s;
    assert c.hours == h && c.minutes == m;
  }

  /** The text `formatSeconds` prints for the three fields. */
  function FormatClock(c: Clock): (text: string)
    ensures |text| >= 3
  {
    if c.hours == 0 then
      if c.minutes == 0 then ZeroPad2(c.secs) + "s"
      else ZeroPad2(c.minutes) + "m " + ZeroPad2(c.secs) + "s"
    else if c.minutes == 0 && c.secs == 0 then SpacePad2(c.hours) + "h"
    else ZeroPad2(c.hours) + "h " + ZeroPad2(c.minutes) + "m " + ZeroPad2(c.secs) + "s"
  }

  /** `formatSeconds`. */
  function FormatSeconds(seconds: int): (text: string)
    ensures |text| >= 3
  {
    FormatClock(ClockOf(seconds))
  }

  /** Under a minute: seconds only. */
  lemma FormatUnderMinute(s: nat)
    requires s < 60
    ensures FormatSeconds(s) == ZeroPad2(s) + "s"
  {
    ClockOfFields(0, 0, s);
    assert FormatSeconds(s) == FormatClock(Clock(0, 0, s));
  }

  /** Under an hour: minutes and seconds. */
  lemma FormatUnderHour(m: nat, s: nat)
    requires 1 <= m < 60 && s < 60
    ensures FormatSeconds(m * 60 + s) == ZeroPad2(m) + "m " + ZeroPad2(s) + "s"
  {
    ClockOfFields(0, m, s);
    assert 0 * 3600 + m * 60 + s == m * 60 + s;
    assert FormatSeconds(m * 60 + s) == FormatClock(Clock(0, m, s));
  }

  /** Whole hours: the hour count alone, space-padded. */
  lemma FormatWholeHours(h: nat)
    requires h >= 1
    ensures FormatSeconds(h * 3600) == SpacePad2(h) + "h"
  {
    ClockOfFields(h, 0, 0);
    assert FormatSeconds(h * 3600) == FormatClock(Clock(h, 0, 0));
  }

  /** An hour or more that is not whole: all three fields. */
  lemma FormatAllFields(h: nat, m: nat, s: nat)
    requires h >= 1 && m < 60 && s < 60 && (m != 0 || s != 0)
    ensures FormatSeconds(h * 3600 + m * 60 + s) == ZeroPad2(h) + "h " + ZeroPad2(m) + "m " + ZeroPad2(s) + "s"
  {
    ClockOfFields(h, m, s);
    assert FormatSeconds(h * 3600 + m * 60 + s) == FormatClock(Clock(h, m, s));
  }

  // ---------------------------------------------------------------- reading a duration back

  /** A reader of duration texts: the seconds of the fields closed so far and the number being read. */
  datatype Reader = Reading(total: int, number: int) | Rejected

  /**
   * One character: a digit extends the number, the unit letters h, m and s close a field, a space
   * between fields is skipped; anything else rejects the text.
   */
  function Step(r: Reader, c: char): Reader
  {
    match r
    case Rejected => Rejected
    case Reading(total, number) =>
      if IsDigit(c) then Reading(total, number * 10 + DigitValue(c))
      else if c == ' ' && number == 0 then r
      else if c == 'h' then Reading(total + number * 3600, 0)
      else if c == 'm' then Reading(total + number * 60, 0)
      else if c == 's' then Reading(total + number, 0)
      else Rejected
  }

  /** Reading the first `n` characters of a text, one after the other. */
  function ReadPrefix(r: Reader, text: string, n: nat): Reader
    requires n <= |text|
  {
    if n == 0 then r else Step(ReadPrefix(r, text, n - 1), text[n - 1])
  }

  /** Reading a whole text. */
  function Read(r: Reader, text: string): Reader
  {
    ReadPrefix(r, text, |text|)
  }

  /** The number of seconds a text such as "01h 07m 09s" stands for, if it reads as a duration. */
  function ReadDuration(text: string): Option<int>
  {
    match Read(Reading(0, 0), text)
    case Reading(total, 0) => Some(total)
    case _ => None
  }

  /** Reading depends only on the characters read. */
  lemma {:induction false} ReadPrefixAgree(r: Reader, s: seq<char>, t: seq<char>, n: nat)
    requires n <= |s| && n <= |t| && forall i :: 0 <= i < n ==> s[i] == t[i]
    ensures ReadPrefix(r, s, n) == ReadPrefix(r, t, n)
  {
    if n > 0 {
      ReadPrefixAgree(r, s, t, n - 1);
    }
  }

  lemma {:induction false} ReadPrefixAppend(r: Reader, a: string, b: string, k: nat)
    requires k <= |b|
    ensures ReadPrefix(r, a + b, |a| + k) == ReadPrefix(Read(r, a), b, k)
  {
    if k == 0 {
      ReadPrefixAgree(r, a + b, a, |a|);
    } else {
      ReadPrefixAppend(r, a, b, k - 1);
      assert (a + b)[|a| + k - 1] == b[k - 1];
    }
  }

  /** Reading two texts one after the other is reading their concatenation. */
  lemma ReadAppend(r: Reader, a: string, b: string)
    ensures Read(r, a + b) == Read(Read(r, a), b)
  {
    ReadPrefixAppend(r, a, b, |b|);
  }

  /** A run of digits is read as its value. */
  lemma {:induction false} ReadDigitsPrefix(total: int, d: string, n: nat)
    requires AllDigits(d) && n <= |d|
    ensures ReadPrefix(Reading(total, 0), d, n) == Reading(total, DigitsValue(d[..n]))
  {
    if n > 0 {
      ReadDigitsPrefix(total, d, n - 1);
      assert d[..n][..n - 1] == d[..n - 1];
    }
  }

  lemma ReadDigits(total: int, d: string)
    requires AllDigits(d)
    ensures Read(Reading(total, 0), d) == Reading(total, DigitsValue(d))
  {
    ReadDigitsPrefix(total, d, |d|);
    assert d[..|d|] == d;
  }

  /** `%02d` of a non-negative number is its decimal digits. */
  lemma ZeroPad2Digits(n: nat)
    ensures AllDigits(ZeroPad2(n)) && DigitsValue(ZeroPad2(n)) == n
  {
  }

  /** The seconds each unit letter stands for. */
  predicate IsUnit(u: char, unit: nat)
  {
    (u == 'h' && unit == 3600) || (u == 'm' && unit == 60) || (u == 's' && unit == 1)
  }

  /**
   * After a prefix that leaves the reader at `total` with no number pending, a field of digits `d`
   * closed by the unit `u` (and, between fields, a space) adds the digits' value times the unit.
   */
  lemma ReadNextField(r: Reader, prefix: string, total: int, d: string, u: char, unit: nat, closing: string, text: string)
    requires Read(r, prefix) == Reading(total, 0) && AllDigits(d) && IsUnit(u, unit)
    requires closing == [u] || closing == [u, ' ']
    requires text == prefix + d + closing
    ensures Read(r, text) == Reading(total + DigitsValue(d) * unit, 0)
  {
    ReadDigits(total, d);
    ReadAppend(r, prefix, d);
    ReadAppend(r, prefix + d, closing);
    var x := Reading(total, DigitsValue(d));
    assert ReadPrefix(x, closing, 1) == Step(x, u);
  }

  /** The text of three non-negative fields, minutes and seconds under 60, reads back as their seconds. */
  lemma FormatClockReadsBack(c: Clock)
    requires c.hours >= 0 && 0 <= c.minutes < 60 && 0 <= c.secs < 60
    ensures ReadDuration(FormatClock(c)) == Some(c.hours * 3600 + c.minutes * 60 + c.secs)
  {
    var h, m, s: nat := c.hours, c.minutes, c.secs;
    var text := FormatClock(c);
    var r := Reading(0, 0);
    ZeroPad2Digits(h);
    ZeroPad2Digits(m);
    ZeroPad2Digits(s);
    if h == 0 && m == 0 {
      ReadNextField(r, [], 0, ZeroPad2(s), 's', 1, "s", text);
    } else if h == 0 {
      var minutes := ZeroPad2(m) + "m ";
      ReadNextField(r, [], 0, ZeroPad2(m), 'm', 60, "m ", minutes);
      ReadNextField(r, minutes, m * 60, ZeroPad2(s), 's', 1, "s", text);
    } else if m == 0 && s == 0 {
      if h < 10 {
        var d := [DigitChar(h)];
        assert d[..0] == [];
        assert ReadPrefix(r, [' '], 0) == r;
        ReadNextField(r, [' '], 0, d, 'h', 3600, "h", text);
      } else {
        assert SpacePad2(h) == ZeroPad2(h);
        ReadNextField(r, [], 0, ZeroPad2(h), 'h', 3600, "h", text);
      }
    } else {
      var hours := ZeroPad2(h) + "h ";
      var minutes := hours + ZeroPad2(m) + "m ";
      ReadNextField(r, [], 0, ZeroPad2(h), 'h', 3600, "h ", hours);
      ReadNextField(r, hours, h * 3600, ZeroPad2(m), 'm', 60, "m ", minutes);
      ReadNextField(r, minutes, h * 3600 + m * 60, ZeroPad2(s), 's', 1, "s", text);
    }
  }

  /** Every non-negative duration reads back from its text as itself. */
  lemma FormatSecondsReadsBack(seconds: nat)
    ensures ReadDuration(FormatSeconds(seconds)) == Some(seconds)
  {
    FormatClockReadsBack(ClockOf(seconds));
  }

  /** Two different non-negative durations never print the same. */
  lemma FormatSecondsInjective(a: nat, b: nat)
    requires FormatSeconds(a) == FormatSeconds(b)
    ensures a == b
  {
    FormatSecondsReadsBack(a);
    FormatSecondsReadsBack(b);
  }
}
