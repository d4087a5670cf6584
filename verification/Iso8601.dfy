/**
 internal/iso8601/iso8601.go: the day/hour/minute/second subset of the duration grammar in
 Appendix A of RFC 3339. A time.Duration is an int64 number of nanoseconds.
 */
module Iso8601 {
  import opened Options
  import opened Strings
  import opened Decimal

  const MAX: int := 0x7FFF_FFFF_FFFF_FFFF
  const SPAN: int := 0x1_0000_0000_0000_0000
  const SECOND: int := 1_000_000_000
  const MINUTE: int := 60 * SECOND
  const HOUR: int := 60 * MINUTE

  type Duration = d: int | -MAX - 1 <= d <= MAX

  /** int64 arithmetic wraps around. */
  function Wrap(x: int): Duration {
    (x + MAX + 1) % SPAN - MAX - 1
  }

  // ------------------------------------------------- the grammar

  /** The groups of the regular expression; an absent group is "", as in Go. */
  datatype Fields = Fields(days: string, marker: bool, hours: string, minutes: string, seconds: string,
    fraction: string)

  /** The expression admits exactly these: digits only, time fields behind a T, a fraction only of seconds. */
  predicate WellFormed(f: Fields) {
    && AllDigits(f.days) && AllDigits(f.hours) && AllDigits(f.minutes) && AllDigits(f.seconds) && AllDigits(f.fraction)
    && (f.hours + f.minutes + f.seconds != "" ==> f.marker)
    && (f.fraction != "" ==> f.seconds != "")
  }

  function Part(digits: string, unit: char): string {
    if digits == "" then "" else digits + [unit]
  }

  function SecondsPart(seconds: string, fraction: string): string {
    if seconds == "" then "" else if fraction == "" then seconds + "S" else seconds + ("." + (fraction + "S"))
  }

  function TimePart(f: Fields): string {
    Part(f.hours, 'H') + (Part(f.minutes, 'M') + SecondsPart(f.seconds, f.fraction))
  }

  function Written(f: Fields): string {
    "P" + (Part(f.days, 'D') + if f.marker then "T" + TimePart(f) else "")
  }

  /** The digits end here. */
  predicate Ends(rest: string) {
    rest == "" || !Digit(rest[0])
  }

  /** The leading digits and the rest. */
  function Cut(s: string): (r: (string, string))
    ensures AllDigits(r.0) && Ends(r.1) && r.0 + r.1 == s
  {
    if Ends(s) then ("", s) else ([s[0]] + Cut(s[1..]).0, Cut(s[1..]).1)
  }

  lemma {:induction false} CutExact(digits: string, rest: string)
    requires AllDigits(digits) && Ends(rest)
    ensures Cut(digits + rest) == (digits, rest)
  {
    if digits == "" {
      assert digits + rest == rest;
    } else {
      CutExact(digits[1..], rest);
      assert (digits + rest)[1..] == digits[1..] + rest && (digits + rest)[0] == digits[0];
      assert digits == [digits[0]] + digits[1..];
    }
  }

  /** A text that starts with digits and this unit. */
  predicate StartsField(s: string, unit: char) {
    Cut(s).0 != "" && Cut(s).1 != "" && Cut(s).1[0] == unit
  }

  /** One optional field: digits and their unit letter, then the rest. */
  function ScanField(s: string, unit: char): (r: (string, string)) {
    if StartsField(s, unit) then (Cut(s).0, Cut(s).1[1..]) else ("", s)
  }

  function ScanSeconds(s: string): (r: Option<(string, string)>) {
    var (seconds, rest) := Cut(s);
    if s == "" then Some(("", ""))
    else if seconds == "" then None
    else if rest == "S" then Some((seconds, ""))
    else if rest == "" || rest[0] != '.' then None
    else
      var (fraction, end) := Cut(rest[1..]);
      if fraction != "" && end == "S" then Some((seconds, fraction)) else None
  }

  function ScanTime(days: string, s: string): Option<Fields> {
    var (hours, rest1) := ScanField(s, 'H');
    var (minutes, rest2) := ScanField(rest1, 'M');
    match ScanSeconds(rest2)
    case Some((seconds, fraction)) => Some(Fields(days, true, hours, minutes, seconds, fraction))
    case None => None
  }

  /** The regular expression, read from left to right. */
  function Scan(value: string): Option<Fields> {
    if value == "" || value[0] != 'P' then None
    else
      var (days, rest) := ScanField(value[1..], 'D');
      if rest == "" then Some(Fields(days, false, "", "", "", ""))
      else if rest[0] != 'T' then None
      else ScanTime(days, rest[1..])
  }

  lemma ScanFieldSound(s: string, unit: char)
    ensures
      var (digits, rest) := ScanField(s, unit);
      AllDigits(digits) && s == Part(digits, unit) + rest
  {
    if StartsField(s, unit) {
      var (digits, rest) := Cut(s);
      assert rest == [unit] + rest[1..];
      assert digits + ([unit] + rest[1..]) == Part(digits, unit) + rest[1..];
    }
  }

  lemma ScanSecondsSound(s: string)
    requires ScanSeconds(s).Some?
    ensures
      var (seconds, fraction) := ScanSeconds(s).value;
      AllDigits(seconds) && AllDigits(fraction) && (fraction != "" ==> seconds != "") &&
        s == SecondsPart(seconds, fraction)
  {
    var (seconds, rest) := Cut(s);
    if s != "" && rest != "S" {
      assert rest == "." + rest[1..];
    }
  }

  lemma ScanFieldExact(digits: string, unit: char, rest: string)
    requires AllDigits(digits) && !StartsField(rest, unit) && !Digit(unit)
    ensures ScanField(Part(digits, unit) + rest, unit) == (digits, rest)
  {
    if digits == "" {
      assert Part(digits, unit) + rest == rest;
    } else {
      var tail := [unit] + rest;
      assert Part(digits, unit) + rest == digits + tail;
      CutExact(digits, tail);
    }
  }

  lemma ScanSecondsExact(seconds: string, fraction: string)
    requires AllDigits(seconds) && AllDigits(fraction) && (fraction != "" ==> seconds != "")
    ensures ScanSeconds(SecondsPart(seconds, fraction)) == Some((seconds, fraction))
    ensures !StartsField(SecondsPart(seconds, fraction), 'M') && !StartsField(SecondsPart(seconds, fraction), 'H')
  {
    if fraction != "" {
      var tail := "." + (fraction + "S");
      CutExact(seconds, tail);
      assert tail[1..] == fraction + "S" && tail[0] == '.';
      CutExact(fraction, "S");
    } else if seconds != "" {
      CutExact(seconds, "S");
    }
  }

  lemma MinutesEnd(minutes: string, rest: string)
    requires AllDigits(minutes) && !StartsField(rest, 'H')
    ensures !StartsField(Part(minutes, 'M') + rest, 'H')
  {
    if minutes == "" {
      assert Part(minutes, 'M') + rest == rest;
    } else {
      assert Part(minutes, 'M') + rest == minutes + ("M" + rest);
      CutExact(minutes, "M" + rest);
    }
  }

  /** The expression matches a text with these groups exactly when the text is written from them. */
  lemma ScanDecides(value: string, f: Fields)
    ensures Scan(value) == Some(f) <==> WellFormed(f) && value == Written(f)
  {
    if Scan(value) == Some(f) {
      ScanSound(value, f);
    }
    if WellFormed(f) && value == Written(f) {
      ScanComplete(f);
    }
  }

  lemma ScanSound(value: string, f: Fields)
    requires Scan(value) == Some(f)
    ensures WellFormed(f) && value == Written(f)
  {
    var (days, rest) := ScanField(value[1..], 'D');
    ScanFieldSound(value[1..], 'D');
    assert value == "P" + value[1..];
    if rest != "" {
      ScanTimeSound(days, rest[1..], f);
      assert rest == "T" + rest[1..];
    }
  }

  lemma ScanTimeSound(days: string, s: string, f: Fields)
    requires ScanTime(days, s) == Some(f) && AllDigits(days)
    ensures WellFormed(f) && f.days == days && f.marker && s == TimePart(f)
  {
    var (hours, rest1) := ScanField(s, 'H');
    ScanFieldSound(s, 'H');
    var (minutes, rest2) := ScanField(rest1, 'M');
    ScanFieldSound(rest1, 'M');
    ScanSecondsSound(rest2);
  }

  lemma ScanTimeExact(f: Fields)
    requires WellFormed(f) && f.marker
    ensures ScanTime(f.days, TimePart(f)) == Some(f)
  {
    ScanSecondsExact(f.seconds, f.fraction);
    MinutesEnd(f.minutes, SecondsPart(f.seconds, f.fraction));
    ScanFieldExact(f.hours, 'H', Part(f.minutes, 'M') + SecondsPart(f.seconds, f.fraction));
    ScanFieldExact(f.minutes, 'M', SecondsPart(f.seconds, f.fraction));
  }

  lemma ScanComplete(f: Fields)
    requires WellFormed(f)
    ensures Scan(Written(f)) == Some(f)
  {
    var tail := if f.marker then "T" + TimePart(f) else "";
    assert Written(f)[1..] == Part(f.days, 'D') + tail;
    ScanFieldExact(f.days, 'D', tail);
    if f.marker {
      assert tail[1..] == TimePart(f);
      ScanTimeExact(f);
    }
  }

  // ------------------------------------------------- the value

  predicate SomeField(f: Fields) {
    f.days + f.hours + f.minutes + f.seconds != ""
  }

  /** strconv.Atoi with its error ignored: too large a number becomes the largest. */
  function Clamped(digits: string): nat
    requires AllDigits(digits)
  {
    if ValueOf(digits) > MAX then MAX else ValueOf(digits)
  }

  function Pow10(n: nat): nat
    ensures Pow10(n) > 0
  {
    if n == 0 then 1 else 10 * Pow10(n - 1)
  }

  function Divided(n: nat, scale: nat): nat
    requires scale > 0
  {
    n / scale
  }

  /** The digits behind the point, cut to whole nanoseconds. */
  function FractionNanos(f: Fields): nat
    requires WellFormed(f)
  {
    Divided(ValueOf(f.fraction) * SECOND, Pow10(|f.fraction|))
  }

  /** The first nine of the digits, filled up with zeros. */
  function NineDigits(digits: string): (s: string)
    ensures |s| == 9 && (AllDigits(digits) ==> AllDigits(s))
  {
    if |digits| >= 9 then digits[..9] else digits + Zeros(9 - |digits|)
  }

  function Zeros(n: nat): (s: string)
    ensures |s| == n && AllDigits(s)
  {
    seq(n, i => '0')
  }

  lemma {:induction false} Pow10Sum(a: nat, b: nat)
    ensures Pow10(a + b) == Pow10(a) * Pow10(b)
  {
    if b > 0 {
      Pow10Sum(a, b - 1);
      assert Pow10(a + b) == 10 * (Pow10(a) * Pow10(b - 1)) == Pow10(a) * (10 * Pow10(b - 1));
    }
  }

  lemma SecondIsPow()
    ensures Pow10(9) == SECOND
  {
    assert Pow10(3) == 1000 by { assert Pow10(1) == 10 && Pow10(2) == 100; }
    Pow10Sum(3, 3);
    Pow10Sum(6, 3);
  }

  lemma {:induction false} ValueWithZeros(digits: string, n: nat)
    requires AllDigits(digits)
    ensures AllDigits(digits + Zeros(n)) && ValueOf(digits + Zeros(n)) == ValueOf(digits) * Pow10(n)
  {
    if n == 0 {
      assert digits + Zeros(0) == digits;
    } else {
      ValueWithZeros(digits, n - 1);
      var s := digits + Zeros(n);
      assert s[..|s| - 1] == digits + Zeros(n - 1) && s[|s| - 1] == '0';
      assert ValueOf(s) == ValueOf(digits) * Pow10(n - 1) * 10;
    }
  }

  lemma QuotientUnique(y: nat, q: nat, r: nat, m: nat)
    requires y == q * m + r && r < m
    ensures y / m == q
  {
    var a, b := y / m, y % m;
    assert (a - q) * m == r - b;
    SmallMultiple(a - q, m);
  }

  lemma SmallMultiple(k: int, m: int)
    requires m > 0 && -m < k * m < m
    ensures k == 0
  {
    Multiples(k, m);
  }

  lemma Multiples(k: int, m: int)
    requires m > 0
    ensures k >= 1 ==> k * m >= m
    ensures k <= -1 ==> k * m <= -m
  {
  }

  lemma DropDigit(v: nat, d: nat, p: nat)
    requires d < 10 && p > 0
    ensures (v * 10 + d) / (10 * p) == v / p
  {
    var q, r := v / p, v % p;
    assert v * 10 + d == q * (10 * p) + (10 * r + d);
    QuotientUnique(v * 10 + d, q, 10 * r + d, 10 * p);
  }

  lemma Cancelled(v: nat, q: nat, p: nat)
    requires q > 0 && p > 0
    ensures q * p > 0 && v * p / (q * p) == v / q
  {
    var a, r := v / q, v % q;
    assert v * p == a * (q * p) + r * p;
    QuotientUnique(v * p, a, r * p, q * p);
  }

  /** Cutting the last n digits divides by ten to the n. */
  lemma {:induction false} ValueOfPrefix(digits: string, n: nat)
    requires AllDigits(digits) && n <= |digits|
    ensures ValueOf(digits) / Pow10(n) == ValueOf(digits[..|digits| - n])
  {
    if n == 0 {
      assert digits[..|digits|] == digits;
    } else {
      var front := digits[..|digits| - 1];
      ValueOfPrefix(front, n - 1);
      DropDigit(ValueOf(front), DigitValue(digits[|digits| - 1]), Pow10(n - 1));
      assert front[..|front| - (n - 1)] == digits[..|digits| - n];
    }
  }

  /** The digits behind the point count as nanoseconds: nine of them, with zeros for the missing ones. */
  lemma FractionExactly(f: Fields)
    requires WellFormed(f)
    ensures FractionNanos(f) == ValueOf(NineDigits(f.fraction))
  {
    var n := |f.fraction|;
    if n >= 9 {
      LongFraction(ValueOf(f.fraction), n - 9);
      ValueOfPrefix(f.fraction, n - 9);
    } else {
      ShortFraction(ValueOf(f.fraction), n);
      ValueWithZeros(f.fraction, 9 - n);
    }
  }

  lemma LongFraction(v: nat, n: nat)
    ensures Divided(v * SECOND, Pow10(n + 9)) == v / Pow10(n)
  {
    SecondIsPow();
    Pow10Sum(n, 9);
    Cancelled(v, Pow10(n), SECOND);
  }

  lemma ShortFraction(v: nat, n: nat)
    requires n <= 9
    ensures Divided(v * SECOND, Pow10(n)) == v * Pow10(9 - n)
  {
    SecondIsPow();
    Pow10Sum(9 - n, n);
    Cancelled(v * Pow10(9 - n), 1, Pow10(n));
    assert v * (Pow10(9 - n) * Pow10(n)) == v * Pow10(9 - n) * Pow10(n);
  }

  /** A field counts as its number, or as the largest 64-bit one if it is larger. */
  lemma {:induction false} FieldExactly(digits: string)
    requires AllDigits(digits)
    ensures Clamped(digits) <= 9_223_372_036_854_775_807
    ensures ValueOf(digits) <= 9_223_372_036_854_775_807 ==> Clamped(digits) == ValueOf(digits)
    ensures ValueOf(digits) >= 9_223_372_036_854_775_807 ==> Clamped(digits) == 9_223_372_036_854_775_807
  {
  }

  /** The seconds with their fraction, cut to whole nanoseconds. */
  function SecondNanos(f: Fields): nat
    requires WellFormed(f)
  {
    ValueOf(f.seconds) * SECOND + FractionNanos(f)
  }

  /** The conversion from float64 is left to the platform when the value does not fit. */
  function Converted(nanos: nat, outOfRange: Duration): Duration {
    if nanos > MAX then outOfRange else nanos
  }

  /** What the text means, before wrapping around at 64 bits. */
  function Meaning(f: Fields, outOfRange: Duration): int
    requires WellFormed(f)
  {
    Clamped(f.days) * 24 * HOUR + Clamped(f.hours) * HOUR + Clamped(f.minutes) * MINUTE +
      Converted(SecondNanos(f), outOfRange)
  }

  function Parsed(value: string, outOfRange: Duration): Option<Duration> {
    match Scan(value)
    case Some(f) =>
      ScanSound(value, f);
      if SomeField(f) then Some(Wrap(Meaning(f, outOfRange))) else None
    case None => None
  }

  lemma WrapWithin(x: int)
    requires -MAX - 1 <= x <= MAX
    ensures Wrap(x) == x
  {
  }

  lemma WrapShift(x: int, k: int)
    ensures Wrap(x + k * SPAN) == Wrap(x)
  {
    var y := x + MAX + 1;
    var q, r := y / SPAN, y % SPAN;
    assert y + k * SPAN == (q + k) * SPAN + r;
    ModUnique(y + k * SPAN, q + k, r);
  }

  lemma ModUnique(y: int, q: int, r: int)
    requires y == q * SPAN + r && 0 <= r < SPAN
    ensures y % SPAN == r
  {
    assert y / SPAN == q;
  }

  lemma Wraps(x: int) returns (k: int)
    ensures Wrap(x) == x + k * SPAN
  {
    k := -((x + MAX + 1) / SPAN);
  }

  lemma WrapSum(a: int, b: int)
    ensures Wrap(Wrap(a) + Wrap(b)) == Wrap(a + b)
  {
    var k := Wraps(a);
    var m := Wraps(b);
    WrapShift(a + b, k + m);
  }

  lemma WrapProduct(a: int, c: int)
    ensures Wrap(Wrap(a) * c) == Wrap(a * c)
  {
    var k := Wraps(a);
    assert Wrap(a) * c == a * c + (k * c) * SPAN;
    WrapShift(a * c, k * c);
  }

  /** Adds the field with these digits, if present: a count of factor * unit nanoseconds, in int64 steps. */
  method AddField(sum: Duration, ghost exact: int, digits: string, factor: nat, unit: nat) returns (total: Duration)
    requires AllDigits(digits) && sum == Wrap(exact)
    ensures total == Wrap(exact + Clamped(digits) * factor * unit)
  {
    total := sum;
    if digits != "" {
      var count := Clamped(digits);
      WrapProduct(count * factor, unit);
      WrapSum(exact, count * factor * unit);
      total := Wrap(sum + Wrap(Wrap(count * factor) * unit));
    } else {
      Absent(factor, unit);
    }
  }

  lemma Absent(factor: nat, unit: nat)
    ensures Clamped("") * factor * unit == 0
  {
    assert Clamped("") == 0;
  }

  method Parse(value: string, outOfRange: Duration) returns (total: Option<Duration>)
    ensures total == Parsed(value, outOfRange)
  {
    var m := Scan(value);
    if m == None || (m.value.days == "" && m.value.hours == "" && m.value.minutes == "" && m.value.seconds == "") {
      return None;
    }
    ScanSound(value, m.value);
    var sum := Total(m.value, outOfRange);
    total := Some(sum);
  }

  method Total(f: Fields, outOfRange: Duration) returns (total: Duration)
    requires WellFormed(f)
    ensures total == Wrap(Meaning(f, outOfRange))
  {
    ghost var exact := 0;
    total := AddField(0, exact, f.days, 24, HOUR);
    exact := exact + Clamped(f.days) * 24 * HOUR;
    total := AddField(total, exact, f.hours, 1, HOUR);
    exact := exact + Clamped(f.hours) * 1 * HOUR;
    total := AddField(total, exact, f.minutes, 1, MINUTE);
    exact := exact + Clamped(f.minutes) * 1 * MINUTE;
    if f.seconds != "" {
      var nanos := Converted(SecondNanos(f), outOfRange);
      WrapWithin(nanos);
      WrapSum(exact, nanos);
      total := Wrap(total + nanos);
    } else {
      NoSeconds(f);
    }
  }

  lemma NoSeconds(f: Fields)
    requires WellFormed(f) && f.seconds == ""
    ensures SecondNanos(f) == 0
  {
    assert ValueOf("") == 0;
  }

  // ------------------------------------------------- formatting

  /** Go's integer division and remainder cut toward zero. */
  function Quotient(x: int, y: int): int
    requires y > 0
  {
    if x < 0 then -(-x / y) else x / y
  }

  function Remainder(x: int, y: int): int
    requires y > 0
  {
    x - Quotient(x, y) * y
  }

  function Shown(n: int): string {
    if n > 0 then Digits(n) else ""
  }

  /** The fields a duration is formatted with; zero and negative ones are left out. */
  function FieldsOf(days: int, hours: int, minutes: int, seconds: int): Fields {
    if days <= 0 && hours <= 0 && minutes <= 0 && seconds <= 0 then Fields("", true, "", "", "0", "")
    else Fields(Shown(days), hours > 0 || minutes > 0 || seconds > 0, Shown(hours), Shown(minutes), Shown(seconds), "")
  }

  function FormatFields(d: Duration): Fields {
    FieldsOfSeconds(Quotient(d, SECOND))
  }

  function FieldsOfSeconds(total: int): Fields {
    var ofDay := Remainder(total, 86400);
    var ofHour := Remainder(ofDay, 3600);
    FieldsOf(Quotient(total, 86400), Quotient(ofDay, 3600), Quotient(ofHour, 60), Remainder(ofHour, 60))
  }

  method Format(d: Duration) returns (out: string)
    ensures out == Written(FormatFields(d))
  {
    var totalSeconds := Quotient(d, SECOND);
    var days := Quotient(totalSeconds, 86400);
    totalSeconds := Remainder(totalSeconds, 86400);
    var hours := Quotient(totalSeconds, 3600);
    totalSeconds := Remainder(totalSeconds, 3600);
    var minutes := Quotient(totalSeconds, 60);
    var seconds := Remainder(totalSeconds, 60);
    out := Assemble(days, hours, minutes, seconds);
  }

  method Assemble(days: int, hours: int, minutes: int, seconds: int) returns (out: string)
    ensures out == Written(FieldsOf(days, hours, minutes, seconds))
  {
    out := AppendPart("P", days, 'D');
    var timePart := AppendPart("", hours, 'H');
    timePart := AppendPart(timePart, minutes, 'M');
    timePart := AppendPart(timePart, seconds, 'S');
    if timePart != "" {
      out := out + "T" + timePart;
    }
    if out == "P" {
      out := "PT0S";
    }
    Assembled(days, hours, minutes, seconds);
  }

  method AppendPart(text: string, n: int, unit: char) returns (r: string)
    ensures r == text + Part(Shown(n), unit)
  {
    r := text;
    if n > 0 {
      r := r + Digits(n) + [unit];
    }
  }

  lemma Assembled(days: int, hours: int, minutes: int, seconds: int)
    ensures
      var timePart := "" + Part(Shown(hours), 'H') + Part(Shown(minutes), 'M') + Part(Shown(seconds), 'S');
      var out := "P" + Part(Shown(days), 'D');
      var all := if timePart != "" then out + "T" + timePart else out;
      Written(FieldsOf(days, hours, minutes, seconds)) == if all == "P" then "PT0S" else all
  {
    var d, p, q, r := Part(Shown(days), 'D'), Part(Shown(hours), 'H'), Part(Shown(minutes), 'M'),
      Part(Shown(seconds), 'S');
    PartEmpty(days, 'D');
    PartEmpty(hours, 'H');
    PartEmpty(minutes, 'M');
    PartEmpty(seconds, 'S');
    if days <= 0 && hours <= 0 && minutes <= 0 && seconds <= 0 {
      ZeroText();
    } else {
      var f := FieldsOf(days, hours, minutes, seconds);
      assert f.marker == ("" + p + q + r != "");
      assert TimePart(f) == "" + p + q + r by {
        assert SecondsPart(f.seconds, f.fraction) == r;
        Associative(p, q, r);
      }
      Glue(d, "" + p + q + r);
    }
  }

  lemma ZeroText()
    ensures Written(Fields("", true, "", "", "0", "")) == "PT0S"
  {
  }

  lemma Associative(p: string, q: string, r: string)
    ensures "" + p + q + r == p + (q + r)
  {
  }

  lemma Glue(d: string, t: string)
    ensures "P" + (d + if t != "" then "T" + t else "") == if t != "" then "P" + d + "T" + t else "P" + d
    ensures d + t != "" ==> (if t != "" then "P" + d + "T" + t else "P" + d) != "P"
  {
    if t != "" {
      assert |"P" + d + "T" + t| > 1;
    } else {
      assert d + t == d;
    }
  }

  lemma PartEmpty(n: int, unit: char)
    ensures Part(Shown(n), unit) == "" <==> n <= 0
  {
  }

  // ------------------------------------------------- theorems

  /** A text is a duration exactly when it is written from well-formed groups, one of which is present. */
  lemma AcceptedExactly(value: string, outOfRange: Duration)
    ensures Parsed(value, outOfRange).Some? <==> exists f :: WellFormed(f) && SomeField(f) && Written(f) == value
  {
    if Parsed(value, outOfRange).Some? {
      ScanSound(value, Scan(value).value);
    }
    if f :| WellFormed(f) && SomeField(f) && Written(f) == value {
      ScanComplete(f);
    }
  }

  /** The nanoseconds the groups stand for, in unbounded arithmetic. */
  function Nanoseconds(f: Fields): nat
    requires WellFormed(f)
  {
    ((ValueOf(f.days) * 24 + ValueOf(f.hours)) * 60 + ValueOf(f.minutes)) * MINUTE + SecondNanos(f)
  }

  /** Nothing is clamped or wrapped around as long as the whole fits into 64 bits. */
  lemma ParseExact(f: Fields, outOfRange: Duration)
    requires WellFormed(f) && SomeField(f) && Nanoseconds(f) <= MAX
    ensures Parsed(Written(f), outOfRange) == Some(Nanoseconds(f))
  {
    ScanComplete(f);
    MeaningExact(f, outOfRange);
    var n := Nanoseconds(f);
    WrapWithin(n);
  }

  lemma MeaningExact(f: Fields, outOfRange: Duration)
    requires WellFormed(f) && Nanoseconds(f) <= MAX
    ensures Meaning(f, outOfRange) == Nanoseconds(f)
  {
    PartsFit(ValueOf(f.days), ValueOf(f.hours), ValueOf(f.minutes), SecondNanos(f));
    assert Clamped(f.days) == ValueOf(f.days) && Clamped(f.hours) == ValueOf(f.hours) &&
      Clamped(f.minutes) == ValueOf(f.minutes);
    assert Converted(SecondNanos(f), outOfRange) == SecondNanos(f);
  }

  lemma PartsFit(days: nat, hours: nat, minutes: nat, nanos: nat)
    requires ((days * 24 + hours) * 60 + minutes) * MINUTE + nanos <= MAX
    ensures days <= MAX && hours <= MAX && minutes <= MAX && nanos <= MAX
    ensures days * 24 * HOUR + hours * HOUR + minutes * MINUTE + nanos ==
      ((days * 24 + hours) * 60 + minutes) * MINUTE + nanos
  {
  }

  lemma ShownValue(n: nat)
    ensures AllDigits(Shown(n)) && ValueOf(Shown(n)) == n
  {
    ValueOfDigits(n);
    assert ValueOf("") == 0;
  }

  /** The whole seconds a duration is formatted with; a negative one counts as none. */
  function WholeSeconds(d: Duration): nat {
    if d < 0 then 0 else d / SECOND
  }

  lemma FormatFieldsValue(d: Duration)
    ensures WellFormed(FormatFields(d)) && SomeField(FormatFields(d))
    ensures Nanoseconds(FormatFields(d)) == WholeSeconds(d) * SECOND
  {
    if d < 0 {
      NegativeParts(Quotient(d, SECOND));
      FieldsValue(0, 0, 0, 0);
    } else {
      SecondsValue(d / SECOND);
    }
  }

  lemma SecondsValue(total: nat)
    ensures
      var f := FieldsOfSeconds(total);
      WellFormed(f) && SomeField(f) && Nanoseconds(f) == total * SECOND
  {
    var days, hours, minutes, seconds := Split(total);
    FieldsValue(days, hours, minutes, seconds);
    Scale(days, hours, minutes, seconds, total);
  }

  lemma Scale(days: nat, hours: nat, minutes: nat, seconds: nat, total: nat)
    requires ((days * 24 + hours) * 60 + minutes) * 60 + seconds == total
    ensures ((days * 24 + hours) * 60 + minutes) * MINUTE + seconds * SECOND == total * SECOND
  {
  }

  /** With nothing positive, the fields are those of zero. */
  lemma NegativeParts(total: int)
    requires total <= 0
    ensures FieldsOfSeconds(total) == FieldsOf(0, 0, 0, 0)
  {
    NonPositive(total, 86400);
    NonPositive(Remainder(total, 86400), 3600);
    NonPositive(Remainder(Remainder(total, 86400), 3600), 60);
  }

  lemma NonPositive(x: int, y: int)
    requires x <= 0 && y > 0
    ensures Quotient(x, y) <= 0 && Remainder(x, y) <= 0
  {
    if x < 0 {
      assert Remainder(x, y) == -(-x - -x / y * y) == -(-x % y);
    }
  }

  lemma Split(total: nat) returns (days: nat, hours: nat, minutes: nat, seconds: nat)
    ensures FieldsOfSeconds(total) == FieldsOf(days, hours, minutes, seconds)
    ensures ((days * 24 + hours) * 60 + minutes) * 60 + seconds == total
  {
    days, hours := Quotient(total, 86400), Quotient(Remainder(total, 86400), 3600);
    var ofHour := Remainder(Remainder(total, 86400), 3600);
    minutes, seconds := Quotient(ofHour, 60), Remainder(ofHour, 60);
  }

  lemma FieldsValue(days: nat, hours: nat, minutes: nat, seconds: nat)
    ensures
      var f := FieldsOf(days, hours, minutes, seconds);
      WellFormed(f) && SomeField(f) &&
        Nanoseconds(f) == ((days * 24 + hours) * 60 + minutes) * MINUTE + seconds * SECOND
  {
    var f := FieldsOf(days, hours, minutes, seconds);
    if days == 0 && hours == 0 && minutes == 0 && seconds == 0 {
      assert ValueOf("0") == 0 by {
        assert Digits(0) == "0";
        ValueOfDigits(0);
      }
      assert ValueOf("") == 0;
    } else {
      ShownValue(days);
      ShownValue(hours);
      ShownValue(minutes);
      ShownValue(seconds);
    }
    FractionAbsent(f);
  }

  lemma FractionAbsent(f: Fields)
    requires WellFormed(f) && f.fraction == ""
    ensures SecondNanos(f) == ValueOf(f.seconds) * SECOND
  {
    assert ValueOf("") == 0 && Pow10(0) == 1;
  }

  /** Formatting keeps the whole seconds and nothing else. */
  lemma FormatThenParse(d: Duration, outOfRange: Duration)
    ensures Parsed(Written(FormatFields(d)), outOfRange) == Some(WholeSeconds(d) * SECOND)
  {
    FormatFieldsValue(d);
    ParseExact(FormatFields(d), outOfRange);
  }

  /** The round trip holds exactly for the non-negative whole-second durations. */
  lemma RoundTripExactly(d: Duration, outOfRange: Duration)
    ensures Parsed(Written(FormatFields(d)), outOfRange) == Some(d) <==> 0 <= d && d % SECOND == 0
  {
    FormatThenParse(d, outOfRange);
  }

  /**
   Formatting a parsed text gives a normal form, one that parses to the same duration, exactly for the
   texts that stand for a non-negative number of whole seconds, however they are written.
   */
  lemma NormalForm(value: string, outOfRange: Duration, d: Duration)
    requires Parsed(value, outOfRange) == Some(d)
    ensures Parsed(Written(FormatFields(d)), outOfRange) == Some(d) <==> 0 <= d && d % SECOND == 0
  {
    RoundTripExactly(d, outOfRange);
  }

  /** A text that fits keeps its meaning exactly when what follows the point is zero. */
  lemma NormalFormOfText(f: Fields, outOfRange: Duration)
    requires WellFormed(f) && SomeField(f) && Nanoseconds(f) <= MAX
    ensures
      var d := Nanoseconds(f);
      && Parsed(Written(f), outOfRange) == Some(d)
      && (Parsed(Written(FormatFields(d)), outOfRange) == Some(d) <==>
          FractionNanos(f) % SECOND == 0)
  {
    ParseExact(f, outOfRange);
    WholeMultiple(f);
    RoundTripExactly(Nanoseconds(f), outOfRange);
  }

  lemma WholeMultiple(f: Fields)
    requires WellFormed(f)
    ensures Nanoseconds(f) % SECOND == FractionNanos(f) % SECOND
  {
    var minutes := (ValueOf(f.days) * 24 + ValueOf(f.hours)) * 60 + ValueOf(f.minutes);
    Remainders(Nanoseconds(f), minutes, ValueOf(f.seconds), FractionNanos(f));
  }

  lemma Remainders(n: nat, minutes: nat, seconds: nat, rest: nat)
    requires n == minutes * MINUTE + (seconds * SECOND + rest)
    ensures n % SECOND == rest % SECOND
  {
    var q, r := rest / SECOND, rest % SECOND;
    assert n == (minutes * 60 + seconds + q) * SECOND + r;
    assert n / SECOND == minutes * 60 + seconds + q;
  }
}
