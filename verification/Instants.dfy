// UTC instants and the text form under which the ledger stores and compares them.
module Instants {

  datatype Instant = Instant(year: nat, month: nat, day: nat, hour: nat, minute: nat, second: nat, micro: nat)

  predicate ValidInstant(t: Instant) {
    && 1 <= t.year <= 9999 && 1 <= t.month <= 12 && 1 <= t.day <= 31
    && t.hour < 24 && t.minute < 60 && t.second < 60 && t.micro < 1_000_000
  }

  // Chronological order.
  predicate NotAfter(a: Instant, b: Instant) {
    if a.year != b.year then a.year < b.year
    else if a.month != b.month then a.month < b.month
    else if a.day != b.day then a.day < b.day
    else if a.hour != b.hour then a.hour < b.hour
    else if a.minute != b.minute then a.minute < b.minute
    else if a.second != b.second then a.second < b.second
    else a.micro <= b.micro
  }

  function DigitChar(d: nat): char
    requires d < 10
  {
    '0' + (d as char)
  }

  // n in decimal, zero-padded to a fixed width.
  function Digits(n: nat, width: nat): (s: string)
    ensures |s| == width
  {
    if width == 0 then [] else Digits(n / 10, width - 1) + [DigitChar(n % 10)]
  }

  function Pow10(width: nat): (p: nat)
    ensures p > 0
  {
    if width == 0 then 1 else 10 * Pow10(width - 1)
  }

  // No fraction is written when it is zero.
  function Fraction(micro: nat): string {
    (if micro == 0 then [] else ['.'] + Digits(micro, 6)) + ['+'] + ZERO_OFFSET
  }

  const ZERO_OFFSET := ['0', '0', ':', '0', '0']

  function Field(n: nat, width: nat, separator: char, rest: string): string {
    Digits(n, width) + ([separator] + rest)
  }

  function TimeText(t: Instant): string {
    Field(t.hour, 2, ':', Field(t.minute, 2, ':', Digits(t.second, 2) + Fraction(t.micro)))
  }

  function IsoFormat(t: Instant): string {
    Field(t.year, 4, '-', Field(t.month, 2, '-', Field(t.day, 2, 'T', TimeText(t))))
  }

  // strftime writes years from 1000 on with their four digits; earlier ones are taken as padded.
  function MonthKey(t: Instant): string {
    Digits(t.year, 4) + ['-'] + Digits(t.month, 2)
  }

  function DayKey(t: Instant): string {
    MonthKey(t) + ['-'] + Digits(t.day, 2)
  }

  // Text order, as a database collation compares.
  predicate TextLeq(a: string, b: string) {
    if a == [] then true
    else if b == [] then false
    else if a[0] != b[0] then a[0] < b[0]
    else TextLeq(a[1..], b[1..])
  }

  lemma {:induction false} TextLeqReflexive(a: string)
    ensures TextLeq(a, a)
  {
    if a != [] {
      TextLeqReflexive(a[1..]);
    }
  }

  // The first fixed-width part decides unless it is equal.
  lemma {:induction false} TextLeqConcat(a: string, b: string, x: string, y: string)
    requires |a| == |b|
    ensures TextLeq(a + x, b + y) <==> if a == b then TextLeq(x, y) else TextLeq(a, b)
  {
    if a == [] {
      assert a + x == x && b + y == y;
    } else {
      assert (a + x)[1..] == a[1..] + x && (b + y)[1..] == b[1..] + y;
      assert a == b <==> a[0] == b[0] && a[1..] == b[1..];
      if a[0] == b[0] {
        TextLeqConcat(a[1..], b[1..], x, y);
      }
    }
  }

  lemma DigitCharOrder(a: nat, b: nat)
    requires a < 10 && b < 10
    ensures DigitChar(a) < DigitChar(b) <==> a < b
    ensures DigitChar(a) == DigitChar(b) <==> a == b
    ensures DigitChar(a) as int == '0' as int + a
  {
  }

  lemma {:induction false} DigitsOrder(m: nat, n: nat, width: nat)
    requires m < Pow10(width) && n < Pow10(width)
    ensures TextLeq(Digits(m, width), Digits(n, width)) <==> m <= n
    ensures Digits(m, width) == Digits(n, width) <==> m == n
  {
    if width > 0 {
      DigitsOrder(m / 10, n / 10, width - 1);
      DigitCharOrder(m % 10, n % 10);
      var a, b := Digits(m / 10, width - 1), Digits(n / 10, width - 1);
      var c, d := [DigitChar(m % 10)], [DigitChar(n % 10)];
      TextLeqConcat(a, b, c, d);
      assert TextLeq(c, d) <==> m % 10 <= n % 10;
      assert a + c == b + d <==> a == b && c == d by {
        assert (a + c)[..width - 1] == a && (b + d)[..width - 1] == b;
        assert (a + c)[width - 1] == c[0] && (b + d)[width - 1] == d[0];
      }
    }
  }

  lemma FieldOrder(m: nat, n: nat, width: nat, separator: char, x: string, y: string)
    requires m < Pow10(width) && n < Pow10(width)
    ensures TextLeq(Field(m, width, separator, x), Field(n, width, separator, y)) <==>
            m < n || (m == n && TextLeq(x, y))
  {
    hide Digits;
    DigitsOrder(m, n, width);
    TextLeqConcat(Digits(m, width), Digits(n, width), [separator] + x, [separator] + y);
    TextLeqConcat([separator], [separator], x, y);
  }

  lemma FractionOrder(a: nat, b: nat)
    requires a < 1_000_000 && b < 1_000_000
    ensures TextLeq(Fraction(a), Fraction(b)) <==> a <= b
  {
    hide Digits;
    Widths();
    var offset := ['+'] + ZERO_OFFSET;
    if a == 0 {
      assert Fraction(a) == offset && Fraction(a)[0] == '+';
    }
    if b == 0 {
      assert Fraction(b) == offset && Fraction(b)[0] == '+';
    }
    if a == 0 && b == 0 {
      TextLeqReflexive(offset);
    } else if a != 0 && b != 0 {
      DigitsOrder(a, b, 6);
      var x, y := Digits(a, 6), Digits(b, 6);
      assert Fraction(a) == ['.'] + (x + offset) && Fraction(b) == ['.'] + (y + offset);
      TextLeqConcat(['.'], ['.'], x + offset, y + offset);
      TextLeqConcat(x, y, offset, offset);
      TextLeqReflexive(offset);
    }
  }

  lemma Widths()
    ensures Pow10(2) == 100 && Pow10(4) == 10_000 && Pow10(6) == 1_000_000
  {
    assert Pow10(1) == 10 && Pow10(3) == 1000 && Pow10(5) == 100_000;
  }

  // Comparing stored texts compares the instants, fractions or not.
  lemma TextOrderIsTimeOrder(a: Instant, b: Instant)
    requires ValidInstant(a) && ValidInstant(b)
    ensures TextLeq(IsoFormat(a), IsoFormat(b)) <==> NotAfter(a, b)
  {
    hide Digits, Field, Fraction, TextLeq, Pow10;
    Widths();
    FractionOrder(a.micro, b.micro);
    SecondsOrder(a, b);
    var minutesA := Field(a.minute, 2, ':', Digits(a.second, 2) + Fraction(a.micro));
    var minutesB := Field(b.minute, 2, ':', Digits(b.second, 2) + Fraction(b.micro));
    FieldOrder(a.minute, b.minute, 2, ':', Digits(a.second, 2) + Fraction(a.micro), Digits(b.second, 2) + Fraction(b.micro));
    FieldOrder(a.hour, b.hour, 2, ':', minutesA, minutesB);
    FieldOrder(a.day, b.day, 2, 'T', TimeText(a), TimeText(b));
    FieldOrder(a.month, b.month, 2, '-', Field(a.day, 2, 'T', TimeText(a)), Field(b.day, 2, 'T', TimeText(b)));
    FieldOrder(a.year, b.year, 4, '-', Field(a.month, 2, '-', Field(a.day, 2, 'T', TimeText(a))),
               Field(b.month, 2, '-', Field(b.day, 2, 'T', TimeText(b))));
  }

  lemma SecondsOrder(a: Instant, b: Instant)
    requires a.second < 60 && b.second < 60
    ensures TextLeq(Digits(a.second, 2) + Fraction(a.micro), Digits(b.second, 2) + Fraction(b.micro)) <==>
            a.second < b.second || (a.second == b.second && TextLeq(Fraction(a.micro), Fraction(b.micro)))
  {
    hide Digits, Fraction, TextLeq, Pow10;
    Widths();
    DigitsOrder(a.second, b.second, 2);
    TextLeqConcat(Digits(a.second, 2), Digits(b.second, 2), Fraction(a.micro), Fraction(b.micro));
  }

  // The first ten characters of the stored text are the day key.
  lemma DayKeyIsPrefix(t: Instant)
    ensures |IsoFormat(t)| >= 10 && IsoFormat(t)[..10] == DayKey(t)
  {
    hide Digits, Fraction;
    var rest := ['T'] + TimeText(t);
    assert IsoFormat(t) == DayKey(t) + rest;
  }

  // The key's year is its plain decimal digits, without padding, exactly from the year 1000 on.
  lemma PaddedYearExactly(t: Instant)
    requires ValidInstant(t)
    ensures DayKey(t)[0] == '0' <==> t.year < 1000
  {
    hide DigitChar;
    var decades, centuries := t.year / 10, t.year / 10 / 10;
    assert Digits(t.year, 4)[0] == Digits(decades, 3)[0] == Digits(centuries, 2)[0] == Digits(t.year / 1000, 1)[0];
    assert Digits(t.year / 1000, 1) == [DigitChar(t.year / 1000)];
    DigitCharOrder(0, t.year / 1000);
  }

  // Two instants share a month key exactly when they share year and month.
  lemma MonthKeyExact(a: Instant, b: Instant)
    requires ValidInstant(a) && ValidInstant(b)
    ensures MonthKey(a) == MonthKey(b) <==> a.year == b.year && a.month == b.month
  {
    hide Digits, Pow10;
    Widths();
    DigitsOrder(a.year, b.year, 4);
    DigitsOrder(a.month, b.month, 2);
    assert MonthKey(a)[..4] == Digits(a.year, 4) && MonthKey(b)[..4] == Digits(b.year, 4);
    assert MonthKey(a)[5..] == Digits(a.month, 2) && MonthKey(b)[5..] == Digits(b.month, 2);
  }

  // The number a text of decimal digits spells.
  function Spelled(s: string): int {
    if s == [] then 0 else 10 * Spelled(s[..|s| - 1]) + (s[|s| - 1] as int - '0' as int)
  }

  lemma {:induction false} DigitsSpell(n: nat, width: nat)
    requires n < Pow10(width)
    ensures Spelled(Digits(n, width)) == n
  {
    if width > 0 {
      DigitsSpell(n / 10, width - 1);
      DigitCharOrder(n % 10, n % 10);
      var s := Digits(n, width);
      assert s[..width - 1] == Digits(n / 10, width - 1);
      hide DigitChar;
    }
  }

  lemma FieldReads(n: nat, width: nat, separator: char, rest: string)
    requires n < Pow10(width)
    ensures var s := Field(n, width, separator, rest);
            |s| == width + 1 + |rest| && Spelled(s[..width]) == n && s[width] == separator && s[width + 1..] == rest
  {
    DigitsSpell(n, width);
    hide Digits, Spelled, Pow10;
    assert Field(n, width, separator, rest)[..width] == Digits(n, width);
  }

  // Seconds with their fraction, and the offset of universal time.
  lemma SecondsRead(t: Instant)
    requires ValidInstant(t)
    ensures var s := Digits(t.second, 2) + Fraction(t.micro);
            && |s| == (if t.micro == 0 then 8 else 15)
            && Spelled(s[..2]) == t.second
            && (t.micro != 0 ==> s[2] == '.' && Spelled(s[3..9]) == t.micro)
            && s[|s| - 6..] == "+00:00"
  {
    Widths();
    DigitsSpell(t.second, 2);
    DigitsSpell(t.micro, 6);
    hide Digits, Spelled, Pow10;
    var s := Digits(t.second, 2) + Fraction(t.micro);
    assert s[..2] == Digits(t.second, 2) && s[2..] == Fraction(t.micro);
    assert ['+'] + ZERO_OFFSET == "+00:00";
    if t.micro != 0 { assert s[3..9] == Digits(t.micro, 6); }
  }

  lemma TimeReads(t: Instant)
    requires ValidInstant(t)
    ensures var s := TimeText(t);
            && |s| == (if t.micro == 0 then 14 else 21)
            && Spelled(s[..2]) == t.hour && s[2] == ':' && Spelled(s[3..5]) == t.minute && s[5] == ':'
            && s[6..] == Digits(t.second, 2) + Fraction(t.micro)
  {
    Widths();
    SecondsRead(t);
    hide Digits, Spelled, Pow10, Fraction, Field;
    var seconds := Digits(t.second, 2) + Fraction(t.micro);
    FieldReads(t.minute, 2, ':', seconds);
    FieldReads(t.hour, 2, ':', Field(t.minute, 2, ':', seconds));
    var s, minutes := TimeText(t), Field(t.minute, 2, ':', seconds);
    assert s[3..5] == minutes[..2] && s[5] == minutes[2] && s[6..] == minutes[3..];
  }

  // The text of an instant is its numbers in fixed places between fixed marks.
  lemma TextReadsBack(t: Instant)
    requires ValidInstant(t)
    ensures var s := IsoFormat(t);
            && |s| == (if t.micro == 0 then 25 else 32)
            && Spelled(s[..4]) == t.year && s[4] == '-' && Spelled(s[5..7]) == t.month && s[7] == '-'
            && Spelled(s[8..10]) == t.day && s[10] == 'T' && Spelled(s[11..13]) == t.hour && s[13] == ':'
            && Spelled(s[14..16]) == t.minute && s[16] == ':' && Spelled(s[17..19]) == t.second
            && (t.micro != 0 ==> s[19] == '.' && Spelled(s[20..26]) == t.micro)
            && s[|s| - 6..] == "+00:00"
  {
    Widths();
    hide Spelled, Pow10, Field, TimeText, Digits, Fraction;
    var time := TimeText(t);
    var day := Field(t.day, 2, 'T', time);
    var month := Field(t.month, 2, '-', day);
    TimeReads(t);
    SecondsRead(t);
    FieldReads(t.day, 2, 'T', time);
    FieldReads(t.month, 2, '-', day);
    FieldReads(t.year, 4, '-', month);
    var s, seconds := IsoFormat(t), Digits(t.second, 2) + Fraction(t.micro);
    Nested(s, 5, month);
    Nested(s, 8, day);
    Nested(s, 11, time);
    Nested(s, 17, seconds);
    assert s[5..7] == month[..2] && s[8..10] == day[..2] && s[11..13] == time[..2] && s[14..16] == time[3..5];
    assert s[17..19] == seconds[..2] && s[|s| - 6..] == seconds[|seconds| - 6..];
    if t.micro != 0 { assert s[20..26] == seconds[3..9]; }
  }

  // A part of the end of a text is a part of the text.
  lemma Nested(s: string, k: nat, rest: string)
    requires k <= |s| && s[k..] == rest
    ensures |s| == k + |rest|
    ensures forall i :: 0 <= i < |rest| ==> s[k + i] == rest[i]
  {
  }
}
