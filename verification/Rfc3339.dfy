/** Timestamps as the store keeps and compares them: UTC text in Go's RFC3339Nano layout. */
module Rfc3339 {
  // An instant is a number of nanoseconds since the start of year 0. The layout writes the fraction of the
  // second without its trailing zeros, and drops the point with it when there is nothing left, so stamps differ
  // in length; section 5.1 of RFC 3339 promises that text order is time order only for stamps with the same
  // number of fraction digits. This module says what text order means without that.

  const NANOS := 1_000_000_000

  // ----- The calendar -----

  predicate Leap(y: nat) {
    y % 4 == 0 && (y % 100 != 0 || y % 400 == 0)
  }

  function DaysInYear(y: nat): nat {
    if Leap(y) then 366 else 365
  }

  /** The lengths of the months, January first. */
  function MonthLengths(leap: bool): seq<nat> {
    [31, if leap then 29 else 28, 31, 30, 31, 30, 31, 31, 30, 31, 30, 31]
  }

  /** Days from the start of month `m`, counted from 0, to the end of the year. */
  function DaysFrom(lengths: seq<nat>, m: nat): nat
    decreases |lengths| - m
  {
    if m >= |lengths| then 0 else lengths[m] + DaysFrom(lengths, m + 1)
  }

  datatype YearDay = YearDay(year: nat, day: nat)

  /** The year, and the day within it, `days` after the start of year `y`. */
  function InYear(days: nat, y: nat): YearDay {
    if days < DaysInYear(y) then YearDay(y, days) else InYear(days - DaysInYear(y), y + 1)
  }

  datatype MonthDay = MonthDay(month: nat, day: nat)

  /** The month, and the day within it, both counted from 0, `days` after the start of month `m`. */
  function InMonth(lengths: seq<nat>, days: nat, m: nat): MonthDay
    decreases |lengths| - m
  {
    if m + 1 >= |lengths| || days < lengths[m] then MonthDay(m, days)
    else InMonth(lengths, days - lengths[m], m + 1)
  }

  datatype Date = Date(year: nat, month: nat, day: nat)

  function DateOf(days: nat): Date {
    var yd := InYear(days, 0);
    var md := InMonth(MonthLengths(Leap(yd.year)), yd.day, 0);
    Date(yd.year, md.month + 1, md.day + 1)
  }

  // ----- The text -----

  function Digit(d: nat): char
    requires d < 10
  {
    '0' + d as char
  }

  /** The last `width` decimal digits of `n`. */
  function Pad(n: nat, width: nat): (s: string)
    ensures |s| == width
  {
    if width == 0 then "" else Pad(n / 10, width - 1) + [Digit(n % 10)]
  }

  /** Three fields with a separator between them. */
  function Joined(sep: string, x: string, y: string, z: string): (s: string)
    ensures |s| == |x| + |y| + |z| + 2 * |sep|
  {
    x + sep + y + sep + z
  }

  function DateText(days: nat): string {
    var date := DateOf(days);
    Joined("-", Pad(date.year, 4), Pad(date.month, 2), Pad(date.day, 2))
  }

  function ClockText(seconds: nat): string {
    Joined(":", Pad(seconds / 3600, 2), Pad(seconds / 60 % 60, 2), Pad(seconds % 60, 2))
  }

  function SecondText(seconds: nat): string {
    DateText(seconds / 86400) + "T" + ClockText(seconds % 86400)
  }

  function TrimZeros(s: string): string {
    if s != "" && s[|s| - 1] == '0' then TrimZeros(s[..|s| - 1]) else s
  }

  /** The digits after the point, none when the second is whole. */
  function FractionDigits(nanos: nat): string {
    TrimZeros(Pad(nanos, 9))
  }

  function FractionText(digits: string): string {
    (if digits == "" then "" else "." + digits) + "Z"
  }

  function Format(t: nat): string {
    SecondText(t / NANOS) + FractionText(FractionDigits(t % NANOS))
  }

  /** The year is written with four digits. */
  predicate FourDigitYear(t: nat) {
    InYear(t / NANOS / 86400, 0).year <= 9999
  }

  /** The comparison of two TEXT columns: byte by byte, a proper prefix first. */
  predicate TextLess(a: string, b: string) {
    b != "" && (a == "" || a[0] < b[0] || (a[0] == b[0] && TextLess(a[1..], b[1..])))
  }

  // ----- Text order -----

  /** The first difference decides. */
  lemma {:induction false} DecidedAt(a: string, b: string, i: nat)
    requires i < |a| && i < |b| && a[..i] == b[..i] && a[i] != b[i]
    ensures TextLess(a, b) <==> a[i] < b[i]
    decreases i
  {
    if i > 0 {
      assert a[0] == a[..i][0] && b[0] == b[..i][0];
      assert a[1..][..i - 1] == a[..i][1..] && b[1..][..i - 1] == b[..i][1..];
      DecidedAt(a[1..], b[1..], i - 1);
    }
  }

  lemma {:induction false} FirstDifference(a: string, b: string) returns (i: nat)
    requires !(a <= b) && !(b <= a)
    ensures i < |a| && i < |b| && a[..i] == b[..i] && a[i] != b[i]
    decreases |a|
  {
    if a[0] != b[0] {
      i := 0;
    } else {
      assert a == [a[0]] + a[1..] && b == [b[0]] + b[1..];
      var j := FirstDifference(a[1..], b[1..]);
      i := j + 1;
      assert a[..i] == [a[0]] + a[1..][..j] && b[..i] == [b[0]] + b[1..][..j];
    }
  }

  /** Of two different texts of the same length, whatever follows them, the smaller comes first. */
  lemma SameWidth(a: string, b: string, x: string, y: string)
    requires |a| == |b| && a != b
    ensures TextLess(a + x, b + y) <==> TextLess(a, b)
  {
    var i := FirstDifference(a, b);
    DecidedAt(a, b, i);
    assert (a + x)[..i] == a[..i] && (b + y)[..i] == b[..i];
    DecidedAt(a + x, b + y, i);
  }

  lemma {:induction false} SamePrefix(p: string, a: string, b: string)
    ensures TextLess(p + a, p + b) <==> TextLess(a, b)
    decreases |p|
  {
    if p == "" {
      assert p + a == a && p + b == b;
    } else {
      assert (p + a)[1..] == p[1..] + a && (p + b)[1..] == p[1..] + b;
      SamePrefix(p[1..], a, b);
    }
  }

  lemma {:induction false} NotBoth(a: string, b: string)
    ensures !(TextLess(a, b) && TextLess(b, a)) && !TextLess(a, a)
    decreases |a|
  {
    if a != "" && b != "" { NotBoth(a[1..], b[1..]); }
    if a != "" { NotBoth(a[1..], a[1..]); }
  }

  lemma {:induction false} TextLessOn(a: string, b: string, c: string)
    requires TextLess(a, b) && TextLess(b, c)
    ensures TextLess(a, c)
    decreases |a|
  {
    if a != "" && a[0] == b[0] && b[0] == c[0] { TextLessOn(a[1..], b[1..], c[1..]); }
  }

  lemma {:induction false} OneOrOther(a: string, b: string)
    ensures a == b || TextLess(a, b) || TextLess(b, a)
    decreases |a|
  {
    if a != "" && b != "" {
      OneOrOther(a[1..], b[1..]);
      assert a == [a[0]] + a[1..] && b == [b[0]] + b[1..];
    }
  }

  function Power10(w: nat): nat {
    if w == 0 then 1 else 10 * Power10(w - 1)
  }

  /** Numbers of the same width compare as text as they do as numbers. */
  lemma {:induction false} PadOrder(m: nat, n: nat, w: nat)
    requires m < n < Power10(w)
    ensures TextLess(Pad(m, w), Pad(n, w)) && Pad(m, w) != Pad(n, w)
    decreases w
  {
    var a, b := Pad(m / 10, w - 1), Pad(n / 10, w - 1);
    var x, y := [Digit(m % 10)], [Digit(n % 10)];
    if m / 10 < n / 10 {
      PadOrder(m / 10, n / 10, w - 1);
      SameWidth(a, b, x, y);
      assert (a + x)[..w - 1] == a && (b + y)[..w - 1] == b;
    } else {
      assert a == b && m % 10 < n % 10;
      DecidedAt(a + x, b + y, w - 1);
    }
  }

  // ----- Calendar order -----

  lemma {:induction false} YearOrder(a: nat, b: nat, y: nat)
    requires a < b
    ensures InYear(a, y).year >= y && InYear(a, y).day < DaysInYear(InYear(a, y).year)
    ensures InYear(b, y).year >= y && InYear(b, y).day < DaysInYear(InYear(b, y).year)
    ensures InYear(a, y).year < InYear(b, y).year
         || (InYear(a, y).year == InYear(b, y).year && InYear(a, y).day < InYear(b, y).day)
    decreases a + b
  {
    var size := DaysInYear(y);
    if size <= a {
      YearOrder(a - size, b - size, y + 1);
    } else if size <= b {
      YearOrder(0, b - size + 1, y + 1);
      YearBounds(b - size, y + 1);
    }
  }

  lemma {:induction false} YearBounds(a: nat, y: nat)
    ensures InYear(a, y).year >= y && InYear(a, y).day < DaysInYear(InYear(a, y).year)
    decreases a
  {
    if DaysInYear(y) <= a { YearBounds(a - DaysInYear(y), y + 1); }
  }

  lemma {:induction false} MonthBounds(lengths: seq<nat>, days: nat, m: nat)
    requires days < DaysFrom(lengths, m) && m < |lengths|
    ensures m <= InMonth(lengths, days, m).month < |lengths|
    ensures InMonth(lengths, days, m).day < lengths[InMonth(lengths, days, m).month]
    decreases |lengths| - m
  {
    if m + 1 < |lengths| && lengths[m] <= days { MonthBounds(lengths, days - lengths[m], m + 1); }
  }

  lemma {:induction false} MonthOrder(lengths: seq<nat>, a: nat, b: nat, m: nat)
    requires a < b < DaysFrom(lengths, m) && m < |lengths|
    ensures var x, y := InMonth(lengths, a, m), InMonth(lengths, b, m);
            x.month < y.month || (x.month == y.month && x.day < y.day)
    decreases |lengths| - m
  {
    if m + 1 < |lengths| && lengths[m] <= a {
      MonthOrder(lengths, a - lengths[m], b - lengths[m], m + 1);
    } else if m + 1 < |lengths| && lengths[m] <= b {
      MonthBounds(lengths, b - lengths[m], m + 1);
    }
  }

  lemma WholeYear(leap: bool)
    ensures DaysFrom(MonthLengths(leap), 0) == if leap then 366 else 365
  {
    var lengths := MonthLengths(leap);
    assert DaysFrom(lengths, 12) == 0;
    assert DaysFrom(lengths, 10) == 61;
    assert DaysFrom(lengths, 8) == 122;
    assert DaysFrom(lengths, 6) == 184;
    assert DaysFrom(lengths, 4) == 245;
    assert DaysFrom(lengths, 2) == 306;
  }

  /** A text field followed by others: it decides, or they do. */
  lemma FieldThen(a: string, b: string, x: string, y: string)
    requires |a| == |b|
    ensures a != b ==> (TextLess(a + x, b + y) <==> TextLess(a, b))
    ensures a == b ==> (TextLess(a + x, b + y) <==> TextLess(x, y))
  {
    if a != b { SameWidth(a, b, x, y); } else { SamePrefix(a, x, y); }
  }

  lemma {:induction false} JoinedOrder(sep: string, x: string, y: string, z: string, x': string, y': string, z': string)
    requires |x| == |x'| && |y| == |y'|
    ensures TextLess(Joined(sep, x, y, z), Joined(sep, x', y', z'))
       <==> if x != x' then TextLess(x, x') else if y != y' then TextLess(y, y') else TextLess(z, z')
  {
    assert Joined(sep, x, y, z) == x + (sep + (y + (sep + z)));
    assert Joined(sep, x', y', z') == x' + (sep + (y' + (sep + z')));
    FieldThen(x, x', sep + (y + (sep + z)), sep + (y' + (sep + z')));
    SamePrefix(sep, y + (sep + z), y' + (sep + z'));
    FieldThen(y, y', sep + z, sep + z');
    SamePrefix(sep, z, z');
  }

  /** Numbers in fields of fixed width compare as text field by field. */
  lemma {:induction false} NumbersOrder(sep: string, w: nat, v: nat, a: nat, b: nat, c: nat, a': nat, b': nat, c': nat)
    requires a' < Power10(w) && b' < Power10(v) && c' < Power10(v)
    requires a < a' || (a == a' && b < b') || (a == a' && b == b' && c < c')
    ensures TextLess(Joined(sep, Pad(a, w), Pad(b, v), Pad(c, v)), Joined(sep, Pad(a', w), Pad(b', v), Pad(c', v)))
  {
    PadCompare(a, a', w);
    PadCompare(b, b', v);
    PadCompare(c, c', v);
    JoinedOrder(sep, Pad(a, w), Pad(b, v), Pad(c, v), Pad(a', w), Pad(b', v), Pad(c', v));
  }

  lemma PadCompare(m: nat, n: nat, w: nat)
    requires n < Power10(w)
    ensures m < n ==> TextLess(Pad(m, w), Pad(n, w)) && Pad(m, w) != Pad(n, w)
  {
    if m < n { PadOrder(m, n, w); }
  }

  /** Within one year, months and days are in order, and each has two digits. */
  lemma DayOrder(leap: bool, a: nat, b: nat)
    requires a < (if leap then 366 else 365) && b < (if leap then 366 else 365)
    ensures var x, y := InMonth(MonthLengths(leap), a, 0), InMonth(MonthLengths(leap), b, 0);
            && y.month < 12 && y.day < 31
            && (a < b ==> x.month < y.month || (x.month == y.month && x.day < y.day))
  {
    WholeYear(leap);
    MonthBounds(MonthLengths(leap), b, 0);
    if a < b { MonthOrder(MonthLengths(leap), a, b, 0); }
  }

  lemma DateFields(a: nat, b: nat)
    requires a < b
    ensures var x, y := DateOf(a), DateOf(b);
            && (x.year < y.year || (x.year == y.year && (x.month < y.month || (x.month == y.month && x.day < y.day))))
            && y.month <= 12 && y.day <= 31
  {
    var ya, yb := InYear(a, 0), InYear(b, 0);
    YearOrder(a, b, 0);
    DayOrder(Leap(yb.year), if ya.year == yb.year then ya.day else yb.day, yb.day);
  }

  lemma {:induction false} DateOrder(a: nat, b: nat)
    requires a < b && InYear(b, 0).year <= 9999
    ensures TextLess(DateText(a), DateText(b))
  {
    var x, y := DateOf(a), DateOf(b);
    DateFields(a, b);
    TwoAndFour();
    NumbersOrder("-", 4, 2, x.year, x.month, x.day, y.year, y.month, y.day);
  }

  lemma TwoAndFour()
    ensures Power10(2) == 100 && Power10(4) == 10000
  {
  }

  lemma ClockFields(a: nat, b: nat)
    requires a < b
    ensures a / 3600 < b / 3600
         || (a / 3600 == b / 3600 && a / 60 % 60 < b / 60 % 60)
         || (a / 3600 == b / 3600 && a / 60 % 60 == b / 60 % 60 && a % 60 < b % 60)
  {
    Split(a);
    Split(b);
  }

  lemma Split(a: nat)
    ensures a == 3600 * (a / 3600) + 60 * (a / 60 % 60) + a % 60
  {
    var minutes := a / 60;
    assert a == 60 * minutes + a % 60;
    assert minutes / 60 == a / 3600;
  }

  lemma {:induction false} ClockOrder(a: nat, b: nat)
    requires a < b < 86400
    ensures TextLess(ClockText(a), ClockText(b))
  {
    ClockFields(a, b);
    TwoAndFour();
    NumbersOrder(":", 2, 2, a / 3600, a / 60 % 60, a % 60, b / 3600, b / 60 % 60, b % 60);
  }

  lemma {:induction false} DayAndClock(d: string, c: string, d': string, c': string)
    requires |d| == |d'| && (TextLess(d, d') || (d == d' && TextLess(c, c')))
    ensures TextLess(d + "T" + c, d' + "T" + c')
  {
    NotBoth(d, d');
    assert d + "T" + c == d + ("T" + c) && d' + "T" + c' == d' + ("T" + c');
    FieldThen(d, d', "T" + c, "T" + c');
    SamePrefix("T", c, c');
  }

  lemma {:induction false} LaterDay(a: nat, b: nat)
    requires a / 86400 < b / 86400 && InYear(b / 86400, 0).year <= 9999
    ensures TextLess(SecondText(a), SecondText(b))
  {
    DateOrder(a / 86400, b / 86400);
    DayAndClock(DateText(a / 86400), ClockText(a % 86400), DateText(b / 86400), ClockText(b % 86400));
  }

  lemma {:induction false} LaterOnTheDay(a: nat, b: nat)
    requires a < b && a / 86400 == b / 86400
    ensures TextLess(SecondText(a), SecondText(b))
  {
    ClockOrder(a % 86400, b % 86400);
    DayAndClock(DateText(a / 86400), ClockText(a % 86400), DateText(b / 86400), ClockText(b % 86400));
  }

  lemma {:induction false} SecondOrder(a: nat, b: nat)
    requires a < b && InYear(b / 86400, 0).year <= 9999
    ensures TextLess(SecondText(a), SecondText(b)) && SecondText(a) != SecondText(b)
  {
    if a / 86400 < b / 86400 { LaterDay(a, b); } else { LaterOnTheDay(a, b); }
    NotBoth(SecondText(a), SecondText(b));
  }

  // ----- Fractions -----

  /** The trimmed digits are a prefix of the nine, followed by zeros, and do not end in one. */
  lemma {:induction false} Trimmed(s: string)
    ensures TrimZeros(s) <= s
    ensures forall i :: |TrimZeros(s)| <= i < |s| ==> s[i] == '0'
    ensures TrimZeros(s) != "" ==> TrimZeros(s)[|TrimZeros(s)| - 1] != '0'
    decreases |s|
  {
    if s != "" && s[|s| - 1] == '0' {
      Trimmed(s[..|s| - 1]);
      assert s == s[..|s| - 1] + ['0'];
    }
  }

  lemma {:induction false} PadDigits(n: nat, width: nat)
    ensures forall i :: 0 <= i < width ==> '0' <= Pad(n, width)[i] <= '9'
    decreases width
  {
    if width > 0 { PadDigits(n / 10, width - 1); }
  }

  predicate ProperPrefix(a: string, b: string) {
    a < b
  }

  /** Texts of the same length that agree except that one has only zeros left compare accordingly. */
  lemma ZerosLast(a: string, b: string, k: nat)
    requires |a| == |b| && k <= |a| && a[..k] == b[..k]
    requires forall i :: k <= i < |b| ==> b[i] == '0'
    requires forall i :: 0 <= i < |a| ==> '0' <= a[i]
    ensures !TextLess(a, b)
  {
    if a == b {
      NotBoth(a, b);
    } else {
      var i := FirstDifference(a, b);
      assert forall j :: 0 <= j < k ==> a[..k][j] == b[..k][j];
      DecidedAt(a, b, i);
    }
  }

  /** Within one second, text order is time order except when the earlier stamp's digits are a proper prefix
    * of the later one's: then it is reversed. */
  lemma FractionOrder(m: nat, n: nat)
    requires m < n < NANOS
    ensures FractionDigits(m) != FractionDigits(n)
    ensures TextLess(FractionText(FractionDigits(n)), FractionText(FractionDigits(m)))
       <==> ProperPrefix(FractionDigits(m), FractionDigits(n))
    ensures TextLess(FractionText(FractionDigits(m)), FractionText(FractionDigits(n)))
       <==> !ProperPrefix(FractionDigits(m), FractionDigits(n))
  {
    assert Power10(9) == NANOS by { assert Power10(5) == 100000; }
    PadOrder(m, n, 9);
    PadDigits(m, 9);
    PadDigits(n, 9);
    DigitsOrder(Pad(m, 9), Pad(n, 9));
  }

  /** The same for any two digit texts of the same length. */
  lemma DigitsOrder(p: string, q: string)
    requires |p| == |q| && TextLess(p, q)
    requires forall i :: 0 <= i < |p| ==> '0' <= p[i] <= '9' && '0' <= q[i] <= '9'
    ensures TrimZeros(p) != TrimZeros(q)
    ensures TextLess(FractionText(TrimZeros(q)), FractionText(TrimZeros(p))) <==> ProperPrefix(TrimZeros(p), TrimZeros(q))
    ensures TextLess(FractionText(TrimZeros(p)), FractionText(TrimZeros(q))) <==> !ProperPrefix(TrimZeros(p), TrimZeros(q))
  {
    var a, b := TrimZeros(p), TrimZeros(q);
    Trimmed(p);
    Trimmed(q);
    if b <= a {
      assert p[..|b|] == q[..|b|];
      ZerosLast(p, q, |b|);
    } else if a <= b {
      PrefixReverses(a, b);
    } else {
      var i := FirstDifference(a, b);
      assert p[..i] == a[..i] && q[..i] == b[..i];
      DecidedAt(p, q, i);
      DifferenceKeeps(a, b, i);
    }
    NotBoth(FractionText(a), FractionText(b));
  }

  lemma PrefixReverses(a: string, b: string)
    requires a < b && '0' <= b[|a|] <= '9'
    ensures TextLess(FractionText(b), FractionText(a))
  {
    var x, y := FractionText(a), FractionText(b);
    if a == "" {
      DecidedAt(y, x, 0);
    } else {
      var i := |a| + 1;
      assert x[..i] == "." + a && y[..i] == "." + b[..|a|];
      DecidedAt(y, x, i);
    }
  }

  lemma DifferenceKeeps(a: string, b: string, i: nat)
    requires i < |a| && i < |b| && a[..i] == b[..i] && a[i] < b[i]
    ensures TextLess(FractionText(a), FractionText(b))
  {
    var x, y := FractionText(a), FractionText(b);
    assert x[..i + 1] == "." + a[..i] && y[..i + 1] == "." + b[..i];
    DecidedAt(x, y, i + 1);
  }

  lemma {:induction false} PadOfZero(width: nat)
    ensures forall i :: 0 <= i < width ==> Pad(0, width)[i] == '0'
    decreases width
  {
    if width > 0 { PadOfZero(width - 1); }
  }

  /** A whole second has no digits, and nothing else has none. */
  lemma WholeSecond(n: nat)
    requires n < NANOS
    ensures FractionDigits(n) == "" <==> n == 0
  {
    PadOfZero(9);
    Trimmed(Pad(0, 9));
    if n > 0 { FractionOrder(0, n); }
  }

  // ----- Stamps -----

  /** An earlier whole second always comes first. */
  lemma EarlierSecondFirst(s: nat, t: nat)
    requires s / NANOS < t / NANOS && FourDigitYear(t)
    ensures TextLess(Format(s), Format(t)) && !TextLess(Format(t), Format(s)) && Format(s) != Format(t)
  {
    var a, b := s / NANOS, t / NANOS;
    SecondOrder(a, b);
    FieldThen(SecondText(a), SecondText(b), FractionText(FractionDigits(s % NANOS)), FractionText(FractionDigits(t % NANOS)));
    NotBoth(Format(s), Format(t));
  }

  /** Text order never goes back by a whole second. */
  lemma TextOrderBySecond(s: nat, t: nat)
    requires FourDigitYear(s) && TextLess(Format(s), Format(t))
    ensures s / NANOS <= t / NANOS
    ensures s < t + NANOS
  {
    if t / NANOS < s / NANOS {
      EarlierSecondFirst(t, s);
    }
  }

  /** Within one second, the later stamp comes first exactly when the earlier one's digits are a proper prefix
    * of its own. */
  lemma TextOrderWithinSecond(s: nat, t: nat)
    requires s < t && s / NANOS == t / NANOS
    ensures TextLess(Format(t), Format(s)) <==> ProperPrefix(FractionDigits(s % NANOS), FractionDigits(t % NANOS))
    ensures TextLess(Format(s), Format(t)) <==> !ProperPrefix(FractionDigits(s % NANOS), FractionDigits(t % NANOS))
  {
    FractionOrder(s % NANOS, t % NANOS);
    var p := SecondText(s / NANOS);
    SamePrefix(p, FractionText(FractionDigits(s % NANOS)), FractionText(FractionDigits(t % NANOS)));
    SamePrefix(p, FractionText(FractionDigits(t % NANOS)), FractionText(FractionDigits(s % NANOS)));
  }

  /** Text order is exactly time order, for instants with four-digit years, except within one second when the
    * digits of the earlier are a proper prefix of the later's. */
  lemma TextOrderIff(s: nat, t: nat)
    requires s < t && FourDigitYear(t)
    ensures TextLess(Format(s), Format(t)) <==>
              !(s / NANOS == t / NANOS && ProperPrefix(FractionDigits(s % NANOS), FractionDigits(t % NANOS)))
    ensures Format(s) != Format(t)
  {
    if s / NANOS < t / NANOS {
      EarlierSecondFirst(s, t);
    } else {
      TextOrderWithinSecond(s, t);
      NotBoth(Format(s), Format(t));
    }
  }

  /** The stamp of a whole second comes after every other of that second. */
  lemma WholeSecondLast(s: nat, t: nat)
    requires s < t && s / NANOS == t / NANOS && s % NANOS == 0
    ensures ProperPrefix(FractionDigits(s % NANOS), FractionDigits(t % NANOS))
    ensures TextLess(Format(t), Format(s))
  {
    WholeSecond(s % NANOS);
    WholeSecond(t % NANOS);
    TextOrderWithinSecond(s, t);
  }

  lemma EarlierYear(s: nat, t: nat)
    requires s <= t && FourDigitYear(t)
    ensures FourDigitYear(s)
  {
    if s / NANOS / 86400 < t / NANOS / 86400 { YearOrder(s / NANOS / 86400, t / NANOS / 86400, 0); }
  }

  // ----- What a stamp says -----

  /** The days before year `y` of the Gregorian calendar, run backwards to year 0. */
  function YearStart(y: nat): nat {
    365 * y + (y + 3) / 4 - (y + 99) / 100 + (y + 399) / 400
  }

  lemma NextYear(y: nat)
    ensures YearStart(y + 1) == YearStart(y) + DaysInYear(y)
  {
    LeapSteps(y, 4);
    LeapSteps(y, 100);
    LeapSteps(y, 400);
    Multiples(y);
    YearsApart(y, (y + 3) / 4, (y + 99) / 100, (y + 399) / 400, (y + 4) / 4, (y + 100) / 100, (y + 400) / 400);
  }

  /** The counting, with the quotients named. */
  lemma YearsApart(y: nat, a: nat, b: nat, c: nat, a': nat, b': nat, c': nat)
    requires a == (y + 3) / 4 && b == (y + 99) / 100 && c == (y + 399) / 400
    requires a' == (y + 4) / 4 && b' == (y + 100) / 100 && c' == (y + 400) / 400
    requires a' - a - (b' - b) + (c' - c) == if Leap(y) then 1 else 0
    ensures YearStart(y + 1) == YearStart(y) + DaysInYear(y)
  {
  }

  lemma Multiples(y: nat)
    ensures y % 400 == 0 ==> y % 100 == 0
    ensures y % 100 == 0 ==> y % 4 == 0
  {
    if y % 400 == 0 { assert y == 100 * (4 * (y / 400)); }
    if y % 100 == 0 { assert y == 4 * (25 * (y / 100)); }
  }

  lemma LeapSteps(y: nat, n: nat)
    requires n in {4, 100, 400}
    ensures (y + n) / n == (y + n - 1) / n + if y % n == 0 then 1 else 0
  {
  }

  lemma {:induction false} YearFrom(y0: nat, y: nat, d: nat)
    requires y0 <= y && d < DaysInYear(y)
    ensures YearStart(y0) <= YearStart(y)
    ensures InYear(YearStart(y) - YearStart(y0) + d, y0) == YearDay(y, d)
    decreases y - y0
  {
    if y0 < y {
      NextYear(y0);
      YearFrom(y0 + 1, y, d);
    }
  }

  /** The days before month `m`, counted from 0. */
  function MonthStart(leap: bool, m: nat): nat
    requires m <= 12
  {
    [0, 31, 59, 90, 120, 151, 181, 212, 243, 273, 304, 334, 365][m] + if leap && m > 1 then 1 else 0
  }

  lemma NextMonth(leap: bool, m: nat)
    requires m < 12
    ensures MonthStart(leap, m + 1) == MonthStart(leap, m) + MonthLengths(leap)[m]
  {
  }

  lemma {:induction false} MonthFrom(leap: bool, m0: nat, m: nat, d: nat)
    requires m0 <= m < 12 && d < MonthLengths(leap)[m]
    ensures MonthStart(leap, m0) <= MonthStart(leap, m)
    ensures InMonth(MonthLengths(leap), MonthStart(leap, m) - MonthStart(leap, m0) + d, m0) == MonthDay(m, d)
    decreases m - m0
  {
    if m0 < m {
      NextMonth(leap, m0);
      MonthFrom(leap, m0 + 1, m, d);
    }
  }

  /** Day `d`, counted from 0, of month `m`, counted from 0, of year `y`, as days since the start of year 0. */
  function DayNumber(y: nat, m: nat, d: nat): nat
    requires m < 12
  {
    YearStart(y) + MonthStart(Leap(y), m) + d
  }

  lemma DateIs(y: nat, m: nat, d: nat)
    requires m < 12 && d < MonthLengths(Leap(y))[m]
    ensures DateOf(DayNumber(y, m, d)) == Date(y, m + 1, d + 1)
  {
    var day := MonthStart(Leap(y), m) + d;
    MonthDayIs(Leap(y), m, d);
    DayInYear(Leap(y), m, d);
    YearDayIs(y, day);
  }

  lemma MonthDayIs(leap: bool, m: nat, d: nat)
    requires m < 12 && d < MonthLengths(leap)[m]
    ensures InMonth(MonthLengths(leap), MonthStart(leap, m) + d, 0) == MonthDay(m, d)
  {
    MonthFrom(leap, 0, m, d);
  }

  lemma YearDayIs(y: nat, day: nat)
    requires day < DaysInYear(y)
    ensures InYear(YearStart(y) + day, 0) == YearDay(y, day)
  {
    YearFrom(0, y, day);
  }

  lemma {:induction false} DayInYear(leap: bool, m: nat, d: nat)
    requires m < 12 && d < MonthLengths(leap)[m]
    ensures MonthStart(leap, m) + d < if leap then 366 else 365
    decreases 12 - m
  {
    NextMonth(leap, m);
    if m < 11 { DayInYear(leap, m + 1, 0); }
  }

  lemma ClockIs(h: nat, mi: nat, sec: nat)
    requires h < 24 && mi < 60 && sec < 60
    ensures var n := h * 3600 + mi * 60 + sec; n < 86400 && n / 3600 == h && n / 60 % 60 == mi && n % 60 == sec
  {
    var n := h * 3600 + mi * 60 + sec;
    assert n == 60 * (60 * h + mi) + sec;
    assert n / 60 == 60 * h + mi;
  }

  /** The second in which something happens, since the start of year 0. */
  function SecondNumber(y: nat, m: nat, d: nat, h: nat, mi: nat, sec: nat): nat
    requires m < 12
  {
    DayNumber(y, m, d) * 86400 + (h * 3600 + mi * 60 + sec)
  }

  lemma DayTextIs(y: nat, m: nat, d: nat)
    requires m < 12 && d < MonthLengths(Leap(y))[m]
    ensures DateText(DayNumber(y, m, d)) == Joined("-", Pad(y, 4), Pad(m + 1, 2), Pad(d + 1, 2))
  {
    DateIs(y, m, d);
  }

  lemma ClockTextIs(h: nat, mi: nat, sec: nat)
    requires h < 24 && mi < 60 && sec < 60
    ensures ClockText(h * 3600 + mi * 60 + sec) == Joined(":", Pad(h, 2), Pad(mi, 2), Pad(sec, 2))
  {
    ClockIs(h, mi, sec);
  }

  lemma {:induction false} SecondIs(y: nat, m: nat, d: nat, h: nat, mi: nat, sec: nat)
    requires m < 12 && d < MonthLengths(Leap(y))[m] && h < 24 && mi < 60 && sec < 60
    ensures SecondText(SecondNumber(y, m, d, h, mi, sec)) ==
              Joined("-", Pad(y, 4), Pad(m + 1, 2), Pad(d + 1, 2)) + "T" + Joined(":", Pad(h, 2), Pad(mi, 2), Pad(sec, 2))
  {
    DayTextIs(y, m, d);
    ClockTextIs(h, mi, sec);
    ClockIs(h, mi, sec);
    SplitDay(DayNumber(y, m, d), h * 3600 + mi * 60 + sec);
  }

  lemma SplitDay(day: nat, n: nat)
    requires n < 86400
    ensures (day * 86400 + n) / 86400 == day && (day * 86400 + n) % 86400 == n
  {
  }

  /** The stamp of every instant of the Gregorian calendar: year, month, day, hour, minute and second in digits of fixed
    * width, then the nanoseconds without the zeros at their end, if there are any. */
  lemma {:induction false} FormatIs(y: nat, m: nat, d: nat, h: nat, mi: nat, sec: nat, ns: nat)
    requires m < 12 && d < MonthLengths(Leap(y))[m] && h < 24 && mi < 60 && sec < 60 && ns < NANOS
    ensures Format(SecondNumber(y, m, d, h, mi, sec) * NANOS + ns) ==
              (Pad(y, 4) + "-" + Pad(m + 1, 2) + "-" + Pad(d + 1, 2)) + "T" + (Pad(h, 2) + ":" + Pad(mi, 2) + ":" + Pad(sec, 2))
              + ((if ns == 0 then "" else "." + TrimZeros(Pad(ns, 9))) + "Z")
  {
    var second := SecondNumber(y, m, d, h, mi, sec);
    SecondIs(y, m, d, h, mi, sec);
    WholeSecond(ns);
    SplitNanos(second, ns);
  }

  lemma SplitNanos(second: nat, ns: nat)
    requires ns < NANOS
    ensures (second * NANOS + ns) / NANOS == second && (second * NANOS + ns) % NANOS == ns
  {
  }

  /** The number that a text of digits stands for. */
  function NumberOf(s: string): int {
    if s == "" then 0 else 10 * NumberOf(s[..|s| - 1]) + (s[|s| - 1] as int - '0' as int)
  }

  /** `Pad` writes the number itself, in as many digits as asked for. */
  lemma {:induction false} PadIs(n: nat, width: nat)
    requires n < Power10(width)
    ensures NumberOf(Pad(n, width)) == n && |Pad(n, width)| == width
    decreases width
  {
    if width > 0 {
      PadIs(n / 10, width - 1);
      assert Pad(n, width)[..width - 1] == Pad(n / 10, width - 1);
    }
  }
}
