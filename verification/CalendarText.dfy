/** Timers as text, "YYYY-MM-DD hh:mm:ss.nnnnnnnnn", and back. */
module TimerText {
  import opened JsonText
  import opened Calendar
  import opened TimerDates

  function Zeros(n: nat): string {
    if n == 0 then "" else "0" + Zeros(n - 1)
  }

  /** At least `width` digits. */
  function Pad(n: nat, width: nat): string {
    var digits := Digits(n);
    (if |digits| < width then Zeros(width - |digits|) else "") + digits
  }

  function TextOf(d: Date, time: Time): string
    requires d.year >= 0 && d.month >= 0 && d.day >= 0 && RealTime(time)
  {
    Pad(d.year, 4) + ("-" + (Pad(d.month, 2) + ("-" + (Pad(d.day, 2) + (" " + ClockText(time))))))
  }

  function ClockText(time: Time): string
    requires RealTime(time)
  {
    Pad(time.hour, 2) + (":" + (Pad(time.minute, 2) + (":" + (Pad(time.second, 2) + ("." + Pad(time.nanosecond, 9))))))
  }

  function TimerString(t: nat): string {
    PartsMakeSpan(t);
    TextOf(DateOf(t), TimeOf(t))
  }

  method SplitClock(seconds: nat, nanosecond: int) returns (clock: Time)
    requires seconds < SECONDS_IN_DAY
    ensures clock == ClockTime(seconds, nanosecond)
  {
    var time := seconds;
    var hour := U8(time / SECONDS_IN_HOUR);
    time := time - hour * SECONDS_IN_HOUR;
    var minute := U8(time / SECONDS_IN_MINUTE);
    var second := U8(time - minute * SECONDS_IN_MINUTE);
    clock := Time(hour, minute, second, nanosecond);
  }

  method ToString(t: nat) returns (s: string)
    requires t < TimerDates.TWO_63
    ensures s == TimerString(t)
    ensures |s| == 29
    ensures s[4] == '-' && s[7] == '-' && s[10] == ' ' && s[13] == ':' && s[16] == ':' && s[19] == '.'
    ensures forall i :: 0 <= i < 29 && i != 4 && i != 7 && i != 10 && i != 13 && i != 16 && i != 19 ==> '0' <= s[i] <= '9'
    ensures Decimal(s[..4]) == DateOf(t).year && Decimal(s[5..7]) == DateOf(t).month && Decimal(s[8..10]) == DateOf(t).day
    ensures Decimal(s[11..13]) == TimeOf(t).hour && Decimal(s[14..16]) == TimeOf(t).minute
    ensures Decimal(s[17..19]) == TimeOf(t).second && Decimal(s[20..]) == TimeOf(t).nanosecond
  {
    DayRange(t);
    PartsMakeTimer(t);
    TextShape(t);
    var date, time := SplitSeconds(t / BILLION);
    var clock := SplitClock(time, t % BILLION);
    s := TextOf(date, clock);
  }

  // ---------------------------------------------------------------- reading

  function DigitValue(c: char): int {
    c as int - '0' as int
  }

  /** The digits that `s` starts with, as a number in a type with `modulus` values, read on from
      `value`; and what follows them. */
  function Field(s: string, value: nat, modulus: nat): (r: (nat, string))
    requires modulus > 0
    ensures value < modulus ==> r.0 < modulus
  {
    if s != "" && IsDigit(s[0])
    then Field(s[1..], (value * 10 % modulus + DigitValue(s[0])) % modulus, modulus)
    else (value, s)
  }

  function Skip(s: string): string {
    if s != "" && !IsDigit(s[0]) then s[1..] else s
  }

  const BYTE: nat := 0x100
  const SHORT: nat := 0x1_0000
  const WORD: nat := 0x1_0000_0000

  function ParseClock(s: string): Time {
    var hour := Field(s, 0, BYTE);
    var minute := Field(Skip(hour.1), 0, BYTE);
    var second := Field(Skip(minute.1), 0, BYTE);
    var nanosecond := Field(Skip(second.1), 0, WORD);
    Time(hour.0, minute.0, second.0, nanosecond.0)
  }

  /** Missing parts are zero; numbers wrap in the types they are read into. */
  function Parse(s: string): (Date, Time) {
    var year := Field(s, 0, SHORT);
    var month := Field(Skip(year.1), 0, BYTE);
    var day := Field(Skip(month.1), 0, BYTE);
    (Date(year.0, month.0, day.0), ParseClock(Skip(day.1)))
  }

  method ReadField(s: string, start: nat, modulus: nat) returns (value: nat, index: nat)
    requires start <= |s| && modulus > 0
    ensures index <= |s| && (value, s[index..]) == Field(s[start..], 0, modulus)
    ensures value < modulus
  {
    value, index := 0, start;
    while index < |s| && IsDigit(s[index])
      invariant start <= index <= |s| && value < modulus
      invariant Field(s[index..], value, modulus) == Field(s[start..], 0, modulus)
    {
      assert s[index..][1..] == s[index + 1..];
      value := (value * 10 % modulus + DigitValue(s[index])) % modulus;
      index := index + 1;
    }
  }

  method SkipNonDigit(s: string, start: nat) returns (index: nat)
    requires start <= |s|
    ensures index <= |s| && s[index..] == Skip(s[start..])
  {
    index := start;
    if index < |s| && !IsDigit(s[index]) {
      index := index + 1;
    }
  }

  /** The timer in a text; empty if its parts are not accepted. */
  method FromText(s: string) returns (t: int)
    ensures t == TimerOf(Parse(s).0, Parse(s).1)
  {
    var index, year, month, day, hour, minute, second, nanosecond;
    assert s[0..] == s;
    year, index := ReadField(s, 0, SHORT);
    index := SkipNonDigit(s, index);
    month, index := ReadField(s, index, BYTE);
    index := SkipNonDigit(s, index);
    day, index := ReadField(s, index, BYTE);
    index := SkipNonDigit(s, index);
    hour, index := ReadField(s, index, BYTE);
    index := SkipNonDigit(s, index);
    minute, index := ReadField(s, index, BYTE);
    index := SkipNonDigit(s, index);
    second, index := ReadField(s, index, BYTE);
    index := SkipNonDigit(s, index);
    nanosecond, index := ReadField(s, index, WORD);
    t := Create(Date(year, month, day), Time(hour, minute, second, nanosecond));
  }

  // ---------------------------------------------------------------- the round trip

  predicate AllDigits(s: string) {
    forall i :: 0 <= i < |s| ==> IsDigit(s[i])
  }

  /** The number that digits spell, read on from `value`. */
  function Spelled(s: string, value: nat): nat
    requires AllDigits(s)
  {
    if s == "" then value else Spelled(s[1..], 10 * value + DigitValue(s[0]))
  }

  lemma {:induction false} SpelledSnoc(s: string, c: char, value: nat)
    requires AllDigits(s) && IsDigit(c)
    ensures AllDigits(s + [c]) && Spelled(s + [c], value) == 10 * Spelled(s, value) + DigitValue(c)
    decreases |s|
  {
    if s == "" {
      assert (s + [c])[1..] == "";
    } else {
      SpelledSnoc(s[1..], c, 10 * value + DigitValue(s[0]));
      assert (s + [c])[1..] == s[1..] + [c];
    }
  }

  lemma {:induction false} DigitsSpell(n: nat)
    ensures AllDigits(Digits(n)) && Spelled(Digits(n), 0) == n
  {
    var last := ('0' as int + n % 10) as char;
    if n < 10 {
      assert "" + [last] == Digits(n);
      SpelledSnoc("", last, 0);
    } else {
      DigitsSpell(n / 10);
      SpelledSnoc(Digits(n / 10), last, 0);
    }
  }

  lemma {:induction false} ZerosSpell(k: nat, s: string)
    requires AllDigits(s)
    ensures AllDigits(Zeros(k) + s) && Spelled(Zeros(k) + s, 0) == Spelled(s, 0)
    decreases k
  {
    if k == 0 {
      assert "" + s == s;
    } else {
      ZerosSpell(k - 1, s);
      var t := Zeros(k) + s;
      assert t[0] == '0' && t[1..] == Zeros(k - 1) + s;
    }
  }

  lemma PadSpells(n: nat, width: nat)
    ensures AllDigits(Pad(n, width)) && Spelled(Pad(n, width), 0) == n
  {
    DigitsSpell(n);
    var digits := Digits(n);
    if |digits| < width {
      ZerosSpell(width - |digits|, digits);
    } else {
      assert "" + digits == digits;
    }
  }

  lemma AddMultiple(k: int, m: int, r: int)
    requires m > 0
    ensures (k * m + r) % m == r % m
  {
    Quotient(k * m + r, k + r / m, m, r % m);
  }

  /** Wrapping at every digit is wrapping once. */
  lemma WrapStep(v: nat, m: nat, d: nat)
    requires m > 0
    ensures (v % m * 10 % m + d) % m == (10 * v + d) % m
  {
    var a := v % m * 10;
    assert 10 * v + d == (10 * (v / m)) * m + (a + d);
    AddMultiple(10 * (v / m), m, a + d);
    assert a + d == (a / m) * m + (a % m + d);
    AddMultiple(a / m, m, a % m + d);
  }

  lemma {:induction false} ReadsDigits(digits: string, rest: string, value: nat, m: nat)
    requires m > 0 && AllDigits(digits) && (rest == "" || !IsDigit(rest[0]))
    ensures Field(digits + rest, value % m, m) == (Spelled(digits, value) % m, rest)
    decreases |digits|
  {
    if digits == "" {
      assert digits + rest == rest;
    } else {
      var d := DigitValue(digits[0]);
      WrapStep(value, m, d);
      ReadsDigits(digits[1..], rest, 10 * value + d, m);
      assert (digits + rest)[1..] == digits[1..] + rest;
    }
  }

  lemma ReadsPadded(n: nat, width: nat, rest: string, m: nat)
    requires n < m && (rest == "" || !IsDigit(rest[0]))
    ensures Field(Pad(n, width) + rest, 0, m) == (n, rest)
  {
    PadSpells(n, width);
    Quotient(n, 0, m, n);
    Quotient(0, 0, m, 0);
    ReadsDigits(Pad(n, width), rest, 0, m);
  }

  lemma ClockReads(time: Time)
    requires RealTime(time)
    ensures ParseClock(ClockText(time)) == time
  {
    var s4 := Pad(time.nanosecond, 9);
    assert s4 == s4 + "";
    var s3 := Pad(time.second, 2) + ("." + s4);
    var s2 := Pad(time.minute, 2) + (":" + s3);
    ReadsPadded(time.hour, 2, ":" + s2, BYTE);
    ReadsPadded(time.minute, 2, ":" + s3, BYTE);
    ReadsPadded(time.second, 2, "." + s4, BYTE);
    ReadsPadded(time.nanosecond, 9, "", WORD);
  }

  lemma TextReads(d: Date, time: Time)
    requires Real(d) && d.year < SHORT && RealTime(time)
    ensures Parse(TextOf(d, time)) == (d, time)
  {
    var s2 := Pad(d.day, 2) + (" " + ClockText(time));
    var s1 := Pad(d.month, 2) + ("-" + s2);
    ReadsPadded(d.year, 4, "-" + s1, SHORT);
    ReadsPadded(d.month, 2, "-" + s2, BYTE);
    ReadsPadded(d.day, 2, " " + ClockText(time), BYTE);
    ClockReads(time);
  }

  /** Every timer is read back from its text. */
  lemma TextRoundTrip(t: nat)
    requires t < TimerDates.TWO_63
    ensures TimerOf(Parse(TimerString(t)).0, Parse(TimerString(t)).1) == t
  {
    DayRange(t);
    PartsMakeTimer(t);
    var n := t / BILLION / SECONDS_IN_DAY;
    DayNumberCounts(n);
    DayOfYear(NaiveDate(n));
    TextReads(DateOf(t), TimeOf(t));
  }

  method ThroughText(t: nat) returns (back: int)
    requires t < TimerDates.TWO_63
    ensures back == t
  {
    var s := ToString(t);
    TextRoundTrip(t);
    back := FromText(s);
  }

  // ---------------------------------------------------------------- the shape of the text

  function Pow10(n: nat): nat {
    if n == 0 then 1 else 10 * Pow10(n - 1)
  }

  lemma Pow10Values()
    ensures Pow10(2) == 100 && Pow10(4) == 10000 && Pow10(9) == 1000000000
  {
    assert Pow10(3) == 1000 && Pow10(5) == 100000 && Pow10(6) == 1000000;
    assert Pow10(7) == 10000000 && Pow10(8) == 100000000;
  }

  lemma {:induction false} DigitsFit(n: nat, width: nat)
    requires 0 < width && n < Pow10(width)
    ensures |Digits(n)| <= width
    decreases width
  {
    Ten();
    if n >= 10 {
      DigitsFit(n / 10, width - 1);
    }
  }

  lemma Ten()
    ensures Pow10(1) == 10
  {
    assert Pow10(0) == 1;
  }

  lemma {:induction false} ZerosDecimal(k: nat, s: string)
    ensures |Zeros(k)| == k && Decimal(Zeros(k) + s) == Decimal(s)
    decreases k + |s|
  {
    var t := Zeros(k) + s;
    if s != "" {
      ZerosDecimal(k, s[..|s| - 1]);
      assert t[..|t| - 1] == Zeros(k) + s[..|s| - 1];
    } else if k > 0 {
      ZerosLast(k);
      ZerosDecimal(k - 1, "");
      assert t == Zeros(k) && Zeros(k - 1) + "" == Zeros(k - 1);
    }
  }

  lemma {:induction false} ZerosLast(k: nat)
    requires k > 0
    ensures |Zeros(k)| == k && Zeros(k)[k - 1] == '0' && Zeros(k)[..k - 1] == Zeros(k - 1)
  {
    if k > 1 {
      ZerosLast(k - 1);
    }
  }

  /** A number with room in the width is printed in exactly that many digits. */
  lemma PadMeans(n: nat, width: nat)
    requires 0 < width && n < Pow10(width)
    ensures |Pad(n, width)| == width && AllDigits(Pad(n, width)) && Decimal(Pad(n, width)) == n
  {
    DigitsFit(n, width);
    DecimalOfDigits(n);
    PadSpells(n, width);
    PadZeros(Digits(n), width);
  }

  lemma PadZeros(digits: string, width: nat)
    requires |digits| <= width
    ensures var s := (if |digits| < width then Zeros(width - |digits|) else "") + digits;
            |s| == width && Decimal(s) == Decimal(digits)
  {
    ZerosDecimal(width - |digits|, digits);
    assert "" + digits == digits;
  }

  lemma YearFits(t: nat)
    requires t < TimerDates.TWO_63
    ensures DateOf(t).year <= 2262
  {
    PartsMakeSpan(t);
    FitsUntil(DateOf(t), TimeOf(t));
  }

  /** `s` from `at` on: a number of this width, then a separator and more, or nothing. */
  predicate FieldAt(s: string, at: nat, width: nat, n: int) {
    && at + width <= |s|
    && (forall i :: at <= i < at + width ==> IsDigit(s[i]))
    && Decimal(s[at..at + width]) == n
  }

  lemma FieldThere(s: string, at: nat, n: nat, width: nat, rest: string)
    requires 0 < width && n < Pow10(width) && at <= |s| && s[at..] == Pad(n, width) + rest
    ensures FieldAt(s, at, width, n) && s[at + width..] == rest
  {
    PadMeans(n, width);
    var p := Pad(n, width);
    assert s[at..at + width] == s[at..][..width] == p;
    assert s[at + width..] == s[at..][width..] == rest;
    forall i | at <= i < at + width
      ensures IsDigit(s[i])
    {
      assert s[i] == p[i - at];
    }
  }

  lemma SeparatorThere(s: string, at: nat, sep: char, rest: string)
    requires at <= |s| && s[at..] == [sep] + rest
    ensures at < |s| && s[at] == sep && s[at + 1..] == rest
  {
    assert s[at..][0] == sep && s[at..][1..] == rest;
  }

  lemma ClockShape(s: string, time: Time)
    requires RealTime(time) && |s| >= 11 && s[11..] == ClockText(time)
    ensures FieldAt(s, 11, 2, time.hour) && FieldAt(s, 14, 2, time.minute) && FieldAt(s, 17, 2, time.second)
    ensures FieldAt(s, 20, 9, time.nanosecond) && |s| == 29
    ensures s[13] == ':' && s[16] == ':' && s[19] == '.'
  {
    Pow10Values();
    var r3 := Pad(time.nanosecond, 9);
    var r2 := Pad(time.second, 2) + ("." + r3);
    var r1 := Pad(time.minute, 2) + (":" + r2);
    FieldThere(s, 11, time.hour, 2, ":" + r1);
    SeparatorThere(s, 13, ':', r1);
    FieldThere(s, 14, time.minute, 2, ":" + r2);
    SeparatorThere(s, 16, ':', r2);
    FieldThere(s, 17, time.second, 2, "." + r3);
    SeparatorThere(s, 19, '.', r3);
    assert r3 == r3 + "";
    FieldThere(s, 20, time.nanosecond, 9, "");
  }

  lemma DateShape(s: string, d: Date, rest: string)
    requires Real(d) && d.year < 10000
    requires s == Pad(d.year, 4) + ("-" + (Pad(d.month, 2) + ("-" + (Pad(d.day, 2) + (" " + rest)))))
    ensures FieldAt(s, 0, 4, d.year) && FieldAt(s, 5, 2, d.month) && FieldAt(s, 8, 2, d.day)
    ensures |s| > 10 && s[4] == '-' && s[7] == '-' && s[10] == ' ' && s[11..] == rest
  {
    Pow10Values();
    var r2 := Pad(d.day, 2) + (" " + rest);
    var r1 := Pad(d.month, 2) + ("-" + r2);
    assert s[0..] == s;
    FieldThere(s, 0, d.year, 4, "-" + r1);
    SeparatorThere(s, 4, '-', r1);
    FieldThere(s, 5, d.month, 2, "-" + r2);
    SeparatorThere(s, 7, '-', r2);
    FieldThere(s, 8, d.day, 2, " " + rest);
    SeparatorThere(s, 10, ' ', rest);
  }

  /** Where the parts of a printed timer stand, and what they are. */
  lemma TextShape(t: nat)
    requires t < TimerDates.TWO_63
    ensures var s, d, time := TimerString(t), DateOf(t), TimeOf(t);
            && |s| == 29
            && s[4] == '-' && s[7] == '-' && s[10] == ' ' && s[13] == ':' && s[16] == ':' && s[19] == '.'
            && FieldAt(s, 0, 4, d.year) && FieldAt(s, 5, 2, d.month) && FieldAt(s, 8, 2, d.day)
            && FieldAt(s, 11, 2, time.hour) && FieldAt(s, 14, 2, time.minute) && FieldAt(s, 17, 2, time.second)
            && FieldAt(s, 20, 9, time.nanosecond) && s[20..] == s[20..29]
  {
    PartsMakeSpan(t);
    YearFits(t);
    DateShape(TimerString(t), DateOf(t), ClockText(TimeOf(t)));
    ClockShape(TimerString(t), TimeOf(t));
  }

  // ---------------------------------------------------------------- any text of seven numbers

  lemma {:induction false} SpelledDecimal(s: string)
    requires AllDigits(s)
    ensures Spelled(s, 0) == Decimal(s)
    decreases |s|
  {
    if s != "" {
      var front := s[..|s| - 1];
      assert s == front + [s[|s| - 1]];
      SpelledDecimal(front);
      SpelledSnoc(front, s[|s| - 1], 0);
    }
  }

  lemma ReadsAny(digits: string, rest: string, m: nat)
    requires m > 0 && AllDigits(digits) && (rest == "" || !IsDigit(rest[0]))
    ensures Field(digits + rest, 0, m) == (Decimal(digits) % m, rest)
  {
    Quotient(0, 0, m, 0);
    ReadsDigits(digits, rest, 0, m);
    SpelledDecimal(digits);
  }

  lemma ReadsOn(digits: string, c: char, rest: string, m: nat)
    requires m > 0 && AllDigits(digits) && !IsDigit(c)
    ensures Field(digits + ([c] + rest), 0, m) == (Decimal(digits) % m, [c] + rest) && Skip([c] + rest) == rest
  {
    ReadsAny(digits, [c] + rest, m);
    assert ([c] + rest)[1..] == rest;
  }

  lemma ReadsFour(hour: string, minute: string, second: string, nanosecond: string, d: char, e: char, f: char)
    requires AllDigits(hour) && AllDigits(minute) && AllDigits(second) && AllDigits(nanosecond)
    requires !IsDigit(d) && !IsDigit(e) && !IsDigit(f)
    ensures ParseClock(hour + ([d] + (minute + ([e] + (second + ([f] + nanosecond))))))
            == Time(Decimal(hour) % 256, Decimal(minute) % 256, Decimal(second) % 256, Decimal(nanosecond) % 4294967296)
  {
    var r2 := second + ([f] + nanosecond);
    var r1 := minute + ([e] + r2);
    ReadsOn(hour, d, r1, 256);
    ReadsOn(minute, e, r2, 256);
    ReadsOn(second, f, nanosecond, 256);
    assert nanosecond + "" == nanosecond;
    ReadsAny(nanosecond, "", 4294967296);
  }

  /** Seven numbers of any length with any one character between them are read in this order, each
      wrapped in its type: 16 bits for the year, 32 for the nanoseconds, 8 for the others. */
  lemma ReadsSeven(year: string, month: string, day: string, hour: string, minute: string, second: string,
                   nanosecond: string, a: char, b: char, c: char, d: char, e: char, f: char)
    requires AllDigits(year) && AllDigits(month) && AllDigits(day)
    requires AllDigits(hour) && AllDigits(minute) && AllDigits(second) && AllDigits(nanosecond)
    requires !IsDigit(a) && !IsDigit(b) && !IsDigit(c) && !IsDigit(d) && !IsDigit(e) && !IsDigit(f)
    ensures var clock := hour + ([d] + (minute + ([e] + (second + ([f] + nanosecond)))));
            Parse(year + ([a] + (month + ([b] + (day + ([c] + clock))))))
            == (Date(Decimal(year) % 65536, Decimal(month) % 256, Decimal(day) % 256),
                Time(Decimal(hour) % 256, Decimal(minute) % 256, Decimal(second) % 256, Decimal(nanosecond) % 4294967296))
  {
    var clock := hour + ([d] + (minute + ([e] + (second + ([f] + nanosecond)))));
    ReadsFour(hour, minute, second, nanosecond, d, e, f);
    ReadsThree(year, month, day, clock, a, b, c);
  }

  lemma ReadsThree(year: string, month: string, day: string, clock: string, a: char, b: char, c: char)
    requires AllDigits(year) && AllDigits(month) && AllDigits(day) && !IsDigit(a) && !IsDigit(b) && !IsDigit(c)
    ensures Parse(year + ([a] + (month + ([b] + (day + ([c] + clock))))))
            == (Date(Decimal(year) % 65536, Decimal(month) % 256, Decimal(day) % 256), ParseClock(clock))
  {
    var r2 := day + ([c] + clock);
    var r1 := month + ([b] + r2);
    ReadsOn(year, a, r1, 65536);
    ReadsOn(month, b, r2, 256);
    ReadsOn(day, c, clock, 256);
  }
}
