/** Timestamps as they are stored: chrono's `to_rfc3339` (automatic 0, 3, 6 or 9
    fractional digits, offset `+00:00`) and `parse_from_rfc3339`. The store compares the
    strings; this module proves that this is a comparison of instants, and that parsing
    and printing again gives the stored string back. */
module Rfc3339 {
  import opened Outcomes
  import Lexical

  datatype Instant = Instant(
    year: nat, month: nat, day: nat, hour: nat, minute: nat, second: nat, nanos: nat)
  {
    predicate Valid() {
      && year <= 9999
      && 1 <= month <= 12
      && 1 <= day <= DaysInMonth(year, month)
      && hour < 24 && minute < 60 && second < 60
      && nanos < 1_000_000_000
    }
  }

  // ---------- The calendar: instants as a count of nanoseconds ----------

  predicate LeapYear(year: nat) {
    year % 4 == 0 && (year % 100 != 0 || year % 400 == 0)
  }

  function DaysInYear(year: nat): nat {
    if LeapYear(year) then 366 else 365
  }

  function DaysInMonth(year: nat, month: nat): nat {
    if month == 2 then (if LeapYear(year) then 29 else 28)
    else if month in {4, 6, 9, 11} then 30
    else 31
  }

  function DaysBeforeYear(year: nat): nat {
    if year == 0 then 0 else DaysBeforeYear(year - 1) + DaysInYear(year - 1)
  }

  function DaysBeforeMonth(year: nat, month: nat): nat {
    if month <= 1 then 0 else DaysBeforeMonth(year, month - 1) + DaysInMonth(year, month - 1)
  }

  function DayNumber(i: Instant): int {
    DaysBeforeYear(i.year) + DaysBeforeMonth(i.year, i.month) + i.day - 1
  }

  function SecondOfDay(i: Instant): nat {
    (i.hour * 60 + i.minute) * 60 + i.second
  }

  /** Nanoseconds since the start of year 0: what "earlier" means. */
  function Nanos(i: Instant): int {
    (DayNumber(i) * 86_400 + SecondOfDay(i)) * 1_000_000_000 + i.nanos
  }

  lemma {:induction false} YearsAscend(y: nat, z: nat)
    requires y < z
    ensures DaysBeforeYear(y) + DaysInYear(y) <= DaysBeforeYear(z)
  {
    if y + 1 < z {
      YearsAscend(y, z - 1);
    }
  }

  lemma {:induction false} MonthsAscend(year: nat, m: nat, n: nat)
    requires 1 <= m < n
    ensures DaysBeforeMonth(year, m) + DaysInMonth(year, m) <= DaysBeforeMonth(year, n)
  {
    if m + 1 < n {
      MonthsAscend(year, m, n - 1);
    }
  }

  lemma MonthsFitYear(year: nat, month: nat)
    requires 1 <= month <= 12
    ensures DaysBeforeMonth(year, month) + DaysInMonth(year, month) <= DaysInYear(year)
  {
    if month < 12 {
      MonthsAscend(year, month, 12);
    }
    MonthTable(year);
  }

  lemma MonthTable(year: nat)
    ensures DaysBeforeMonth(year, 12) + 31 == DaysInYear(year)
  {
    var february := DaysInMonth(year, 2);
    assert DaysBeforeMonth(year, 2) == 31;
    assert DaysBeforeMonth(year, 3) == 31 + february;
    assert DaysBeforeMonth(year, 5) == 31 + february + 31 + 30;
    assert DaysBeforeMonth(year, 7) == 31 + february + 31 + 30 + 31 + 30;
    assert DaysBeforeMonth(year, 9) == 31 + february + 31 + 30 + 31 + 30 + 31 + 31;
    assert DaysBeforeMonth(year, 11) == 31 + february + 31 + 30 + 31 + 30 + 31 + 31 + 30 + 31;
  }

  predicate EarlierDate(i: Instant, j: Instant) {
    i.year < j.year || (i.year == j.year &&
      (i.month < j.month || (i.month == j.month && i.day < j.day)))
  }

  predicate SameDate(i: Instant, j: Instant) {
    i.year == j.year && i.month == j.month && i.day == j.day
  }

  predicate EarlierTime(i: Instant, j: Instant) {
    i.hour < j.hour || (i.hour == j.hour &&
      (i.minute < j.minute || (i.minute == j.minute &&
        (i.second < j.second || (i.second == j.second && i.nanos < j.nanos)))))
  }

  /** Field by field, most significant first. */
  predicate Earlier(i: Instant, j: Instant) {
    EarlierDate(i, j) || (SameDate(i, j) && EarlierTime(i, j))
  }

  lemma EarlierDateCountsFewerDays(i: Instant, j: Instant)
    requires i.Valid() && j.Valid() && EarlierDate(i, j)
    ensures DayNumber(i) < DayNumber(j)
  {
    MonthsFitYear(i.year, i.month);
    if i.year < j.year {
      YearsAscend(i.year, j.year);
    } else if i.month < j.month {
      MonthsAscend(i.year, i.month, j.month);
    }
  }

  lemma EarlierCountsFewerNanos(i: Instant, j: Instant)
    requires i.Valid() && j.Valid() && Earlier(i, j)
    ensures Nanos(i) < Nanos(j)
  {
    assert SecondOfDay(i) < 86_400;
    if EarlierDate(i, j) {
      EarlierDateCountsFewerDays(i, j);
    }
  }

  lemma ChronologicalIsFieldOrder(i: Instant, j: Instant)
    requires i.Valid() && j.Valid()
    ensures Nanos(i) < Nanos(j) <==> Earlier(i, j)
  {
    if Earlier(i, j) {
      EarlierCountsFewerNanos(i, j);
    } else if Earlier(j, i) {
      EarlierCountsFewerNanos(j, i);
    } else {
      assert i == j;
    }
  }

  // ---------- Digits ----------

  function Pow10(k: nat): (p: nat)
    ensures p > 0
  {
    if k == 0 then 1 else 10 * Pow10(k - 1)
  }

  function Digit(d: nat): (c: char)
    requires d < 10
    ensures IsDigit(c)
  {
    ('0' as int + d) as char
  }

  predicate IsDigit(c: char) {
    '0' <= c <= '9'
  }

  /** `n` in decimal, zero-filled to width `w` (the low `w` digits). */
  function Pad(w: nat, n: nat): (s: string)
    ensures |s| == w
    ensures forall k :: 0 <= k < |s| ==> IsDigit(s[k])
  {
    if w == 0 then "" else Pad(w - 1, n / 10) + [Digit(n % 10)]
  }

  /** The number a run of digits denotes. */
  function Number(s: string): nat
    requires forall k :: 0 <= k < |s| ==> IsDigit(s[k])
  {
    if s == "" then 0
    else
      assert IsDigit(s[|s| - 1]);
      10 * Number(s[..|s| - 1]) + (s[|s| - 1] as int - '0' as int)
  }

  lemma {:induction false} NumberOfPad(w: nat, n: nat)
    requires n < Pow10(w)
    ensures Number(Pad(w, n)) == n
  {
    if w > 0 {
      NumberOfPad(w - 1, n / 10);
      assert Pad(w, n)[..w - 1] == Pad(w - 1, n / 10);
    }
  }

  lemma {:induction false} PadOrder(w: nat, n: nat, m: nat)
    requires n < Pow10(w) && m < Pow10(w)
    ensures Lexical.Less(Pad(w, n), Pad(w, m)) <==> n < m
  {
    if w > 0 {
      PadOrder(w - 1, n / 10, m / 10);
      PadInjective(w - 1, n / 10, m / 10);
      Lexical.LessSplit(Pad(w - 1, n / 10), [Digit(n % 10)], Pad(w - 1, m / 10), [Digit(m % 10)]);
    }
  }

  lemma PadInjective(w: nat, n: nat, m: nat)
    requires n < Pow10(w) && m < Pow10(w)
    ensures Pad(w, n) == Pad(w, m) <==> n == m
  {
    NumberOfPad(w, n);
    NumberOfPad(w, m);
  }

  /** `n` without its last `k` digits. */
  function DropDigits(k: nat, n: nat): nat {
    if k == 0 then n else DropDigits(k - 1, n / 10)
  }

  /** The high digits come first: a padded number splits at any width. */
  lemma {:induction false} PadSplit(u: nat, v: nat, n: nat)
    ensures Pad(u + v, n) == Pad(u, DropDigits(v, n)) + Pad(v, n)
  {
    if v > 0 {
      PadSplit(u, v - 1, n / 10);
      assert Pad(u + v, n) == Pad(u + (v - 1), n / 10) + [Digit(n % 10)];
    }
  }

  lemma DropThousands(n: nat)
    ensures DropDigits(3, n) == n / 1_000
    ensures DropDigits(6, n) == n / 1_000_000
  {
    assert DropDigits(3, n) == DropDigits(1, n / 100) == n / 1_000;
    var m := n / 1_000;
    assert DropDigits(6, n) == DropDigits(5, n / 10) == DropDigits(4, n / 100) == DropDigits(3, m);
    assert DropDigits(3, m) == DropDigits(1, m / 100) == m / 1_000;
  }

  // ---------- Printing ----------

  /** How many fractional digits automatic precision prints. */
  function Precision(nanos: nat): nat {
    if nanos == 0 then 0
    else if nanos % 1_000_000 == 0 then 3
    else if nanos % 1_000 == 0 then 6
    else 9
  }

  /** How often the unit of the last of so many printed digits goes into a count. */
  function Units(nanos: nat, digits: nat): nat {
    if digits == 0 then nanos / 1_000_000_000
    else if digits == 3 then nanos / 1_000_000
    else if digits == 6 then nanos / 1_000
    else nanos
  }

  const UTC_OFFSET := "+00:00"

  function Tail(nanos: nat): string {
    var q := Precision(nanos);
    if q == 0 then UTC_OFFSET else ['.'] + (Pad(q, Units(nanos, q)) + UTC_OFFSET)
  }

  function RenderTime(i: Instant): string {
    Pad(2, i.hour) + ([':'] + (Pad(2, i.minute) + ([':'] + (Pad(2, i.second) + Tail(i.nanos)))))
  }

  function Render(i: Instant): string {
    Pad(4, i.year) + (['-'] + (Pad(2, i.month) + (['-'] + (Pad(2, i.day) + (['T'] + RenderTime(i))))))
  }

  /** As few of three, six or nine digits of a fraction as tell it, or none, then the offset. */
  lemma PrintedTail(nanos: nat)
    ensures Tail(nanos) ==
      if nanos == 0 then "+00:00"
      else if nanos % 1_000_000 == 0 then ['.'] + (Pad(3, nanos / 1_000_000) + "+00:00")
      else if nanos % 1_000 == 0 then ['.'] + (Pad(6, nanos / 1_000) + "+00:00")
      else ['.'] + (Pad(9, nanos) + "+00:00")
  {
  }

  lemma PrintedTime(i: Instant)
    ensures
      var s := RenderTime(i);
      && |s| >= 8 && s[..2] == Pad(2, i.hour) && s[2] == ':' && s[3..5] == Pad(2, i.minute)
      && s[5] == ':' && s[6..8] == Pad(2, i.second) && s[8..] == Tail(i.nanos)
  {
  }

  lemma PrintedDate(i: Instant)
    ensures
      var s := Render(i);
      && |s| >= 11 && s[..4] == Pad(4, i.year) && s[4] == '-' && s[5..7] == Pad(2, i.month)
      && s[7] == '-' && s[8..10] == Pad(2, i.day) && s[10] == 'T' && s[11..] == RenderTime(i)
  {
  }

  /** The columns of a printed instant: every field has its place. */
  lemma PrintedColumns(i: Instant)
    ensures
      var s := Render(i);
      && |s| >= 19 && s[..4] == Pad(4, i.year) && s[4] == '-' && s[5..7] == Pad(2, i.month)
      && s[7] == '-' && s[8..10] == Pad(2, i.day) && s[10] == 'T'
      && s[11..13] == Pad(2, i.hour) && s[13] == ':' && s[14..16] == Pad(2, i.minute)
      && s[16] == ':' && s[17..19] == Pad(2, i.second) && s[19..] == Tail(i.nanos)
  {
    var s, time := Render(i), RenderTime(i);
    PrintedDate(i);
    PrintedTime(i);
    assert s[11..13] == time[..2] && s[14..16] == time[3..5] && s[17..19] == time[6..8];
    assert s[19..] == time[8..];
  }

  // ---------- String order is chronological order ----------

  lemma FieldOrder(w: nat, n: nat, m: nat, s: string, t: string)
    requires n < Pow10(w) && m < Pow10(w)
    ensures Lexical.Less(Pad(w, n) + s, Pad(w, m) + t) <==> n < m || (n == m && Lexical.Less(s, t))
  {
    PadOrder(w, n, m);
    PadInjective(w, n, m);
    Lexical.LessSplit(Pad(w, n), s, Pad(w, m), t);
  }

  lemma SeparatorOrder(c: char, s: string, t: string)
    ensures Lexical.Less([c] + s, [c] + t) <==> Lexical.Less(s, t)
  {
    Lexical.LessSplit([c], s, [c], t);
    Lexical.Irreflexive([c]);
  }

  /** Dropping trailing zeros changes no comparison: both the printed fraction and the nine
      full digits put two nanosecond counts in their numeric order, because `+` sorts
      before every digit. */
  lemma TailOrder(n: nat, m: nat)
    requires n < 1_000_000_000 && m < 1_000_000_000
    ensures Lexical.Less(Tail(n), Tail(m)) <==> n < m
  {
    if n == m {
      Lexical.Irreflexive(Tail(n));
    } else if Precision(n) <= Precision(m) {
      TailOrderShorter(n, m);
    } else {
      TailOrderShorter(m, n);
      Lexical.Total(Tail(n), Tail(m));
      if Lexical.Less(Tail(n), Tail(m)) && Lexical.Less(Tail(m), Tail(n)) {
        Lexical.Asymmetric(Tail(n), Tail(m));
      }
      TailsDiffer(n, m);
    }
  }

  lemma TailsDiffer(n: nat, m: nat)
    requires Precision(n) > Precision(m)
    ensures Tail(n) != Tail(m)
  {
    assert |Tail(n)| == Precision(n) + 7;
    assert |Tail(m)| == (if m == 0 then 6 else Precision(m) + 7);
  }

  lemma TailOrderShorter(n: nat, m: nat)
    requires n < 1_000_000_000 && m < 1_000_000_000
    requires n != m && Precision(n) <= Precision(m)
    ensures Lexical.Less(Tail(n), Tail(m)) <==> n < m
  {
    var p, q := Precision(n), Precision(m);
    if p == 0 {
      assert Tail(n)[0] == '+' && Tail(m)[0] == '.';
    } else {
      TailSplit(m, p);
      UnitsFit(n, p);
      CutTailOrder(p, Units(n, p), Units(m, p), q - p, Units(m, q));
      CutOrder(n, m);
    }
  }

  /** A count that is whole in units of `p` digits, against one cut to them. */
  lemma CutOrder(n: nat, m: nat)
    requires 0 < Precision(n) <= Precision(m) && n != m
    ensures
      var p, q := Precision(n), Precision(m);
      n < m <==> Units(n, p) < Units(m, p) || (Units(n, p) == Units(m, p) && q > p)
  {
    if Precision(n) == 3 {
      assert n == 1_000_000 * (n / 1_000_000);
      assert Precision(m) == 3 <==> m == 1_000_000 * (m / 1_000_000);
    } else if Precision(n) == 6 {
      assert n == 1_000 * (n / 1_000);
      assert Precision(m) == 6 <==> m == 1_000 * (m / 1_000);
    }
  }

  lemma UnitsFit(m: nat, p: nat)
    requires m < 1_000_000_000 && p in {3, 6, 9}
    ensures Units(m, p) < Pow10(p)
  {
    PowersOfTen();
  }

  lemma CoarserUnits(m: nat, p: nat)
    requires m > 0 && p in {3, 6, 9} && p <= Precision(m)
    ensures DropDigits(Precision(m) - p, Units(m, Precision(m))) == Units(m, p)
  {
    var q := Precision(m);
    DropThousands(Units(m, q));
    if p == q {
    } else if q == 6 {
      assert m / 1_000 / 1_000 == m / 1_000_000;
    }
  }

  /** Fractions cut after `p` digits: the shorter ends there, the longer has `k` more. */
  lemma CutTailOrder(p: nat, a: nat, b: nat, k: nat, low: nat)
    requires a < Pow10(p) && b < Pow10(p)
    ensures
      var s := ['.'] + (Pad(p, a) + UTC_OFFSET);
      var t := ['.'] + (Pad(p, b) + (Pad(k, low) + UTC_OFFSET));
      Lexical.Less(s, t) <==> a < b || (a == b && k > 0)
  {
    var rest := Pad(k, low) + UTC_OFFSET;
    SeparatorOrder('.', Pad(p, a) + UTC_OFFSET, Pad(p, b) + rest);
    FieldOrder(p, a, b, UTC_OFFSET, rest);
    if k == 0 {
      assert rest == UTC_OFFSET;
      Lexical.Irreflexive(UTC_OFFSET);
    } else {
      assert rest[0] == Pad(k, low)[0];
    }
  }

  lemma PowersOfTen()
    ensures Pow10(2) == 100 && Pow10(3) == 1_000 && Pow10(4) == 10_000
    ensures Pow10(6) == 1_000_000 && Pow10(9) == 1_000_000_000
  {
    assert Pow10(2) == 100;
    assert Pow10(4) == 100 * Pow10(2);
    assert Pow10(6) == 100 * Pow10(4);
    assert Pow10(8) == 100 * Pow10(6);
  }

  /** The printed digits of `m`, cut at a coarser precision `p`. */
  lemma TailSplit(m: nat, p: nat)
    requires 0 < m < 1_000_000_000 && p in {3, 6, 9} && p <= Precision(m)
    ensures Units(m, p) < Pow10(p)
    ensures
      var q := Precision(m);
      Tail(m) == ['.'] + (Pad(p, Units(m, p)) + (Pad(q - p, Units(m, q)) + UTC_OFFSET))
  {
    var q := Precision(m);
    UnitsFit(m, p);
    PadSplit(p, q - p, Units(m, q));
    CoarserUnits(m, p);
    var a, b := Pad(p, Units(m, p)), Pad(q - p, Units(m, q));
    assert (a + b) + UTC_OFFSET == a + (b + UTC_OFFSET);
  }

  lemma RenderTimeOrder(i: Instant, j: Instant)
    requires i.Valid() && j.Valid()
    ensures Lexical.Less(RenderTime(i), RenderTime(j)) <==> EarlierTime(i, j)
  {
    PowersOfTen();
    TailOrder(i.nanos, j.nanos);
    var s5, t5 := Tail(i.nanos), Tail(j.nanos);
    FieldOrder(2, i.second, j.second, s5, t5);
    var s4, t4 := Pad(2, i.second) + s5, Pad(2, j.second) + t5;
    SeparatorOrder(':', s4, t4);
    FieldOrder(2, i.minute, j.minute, [':'] + s4, [':'] + t4);
    var s3, t3 := Pad(2, i.minute) + ([':'] + s4), Pad(2, j.minute) + ([':'] + t4);
    SeparatorOrder(':', s3, t3);
    FieldOrder(2, i.hour, j.hour, [':'] + s3, [':'] + t3);
  }

  lemma RenderFieldOrder(i: Instant, j: Instant)
    requires i.Valid() && j.Valid()
    ensures Lexical.Less(Render(i), Render(j)) <==> Earlier(i, j)
  {
    PowersOfTen();
    RenderTimeOrder(i, j);
    var s5, t5 := RenderTime(i), RenderTime(j);
    SeparatorOrder('T', s5, t5);
    FieldOrder(2, i.day, j.day, ['T'] + s5, ['T'] + t5);
    var s4, t4 := Pad(2, i.day) + (['T'] + s5), Pad(2, j.day) + (['T'] + t5);
    SeparatorOrder('-', s4, t4);
    FieldOrder(2, i.month, j.month, ['-'] + s4, ['-'] + t4);
    var s3, t3 := Pad(2, i.month) + (['-'] + s4), Pad(2, j.month) + (['-'] + t4);
    SeparatorOrder('-', s3, t3);
    FieldOrder(4, i.year, j.year, ['-'] + s3, ['-'] + t3);
  }

  /** String comparison of two stored timestamps is comparison of the instants, although
      they may print different numbers of fractional digits. */
  lemma LexicalIsChronological(i: Instant, j: Instant)
    requires i.Valid() && j.Valid()
    ensures Lexical.Less(Render(i), Render(j)) <==> Nanos(i) < Nanos(j)
  {
    RenderFieldOrder(i, j);
    ChronologicalIsFieldOrder(i, j);
  }

  // ---------- Parsing ----------

  /** The number of leading digits. */
  function DigitRun(s: string): (k: nat)
    ensures k <= |s|
    ensures forall i :: 0 <= i < k ==> IsDigit(s[i])
    ensures k < |s| ==> !IsDigit(s[k])
  {
    if s == "" || !IsDigit(s[0]) then 0 else 1 + DigitRun(s[1..])
  }

  /** Exactly `w` digits, and the text after them. */
  function TakeDigits(w: nat, s: string): Option<(nat, string)> {
    if w <= DigitRun(s) then Some((Number(s[..w]), s[w..])) else None
  }

  /** Exactly `w` digits followed by the separator `c`, and the text after it. */
  function TakeField(w: nat, c: char, s: string): Option<(nat, string)> {
    match TakeDigits(w, s)
    case Some((n, rest)) => if |rest| > 0 && rest[0] == c then Some((n, rest[1..])) else None
    case None => None
  }

  predicate ZeroOffset(s: string) {
    s == UTC_OFFSET || s == "-00:00" || s == "Z"
  }

  /** Digits after the ninth are dropped; fewer than nine are scaled up. */
  function FractionNanos(s: string): nat
    requires forall k :: 0 <= k < |s| ==> IsDigit(s[k])
  {
    if |s| >= 9 then Number(s[..9]) else Number(s) * Pow10(9 - |s|)
  }

  function ParseTail(s: string): Option<nat> {
    if |s| > 0 && s[0] == '.' then
      var k := DigitRun(s[1..]);
      if k > 0 && ZeroOffset(s[1..][k..]) then Some(FractionNanos(s[1..][..k])) else None
    else if ZeroOffset(s) then Some(0) else None
  }

  function ParseTime(year: nat, month: nat, day: nat, s: string): Option<Instant> {
    match TakeField(2, ':', s)
    case None => None
    case Some((hour, s1)) =>
      match TakeField(2, ':', s1)
      case None => None
      case Some((minute, s2)) =>
        match TakeDigits(2, s2)
        case None => None
        case Some((second, s3)) =>
          match ParseTail(s3)
          case None => None
          case Some(nanos) =>
            var i := Instant(year, month, day, hour, minute, second, nanos);
            if i.Valid() then Some(i) else None
  }

  function Parse(s: string): Option<Instant> {
    match TakeField(4, '-', s)
    case None => None
    case Some((year, s1)) =>
      match TakeField(2, '-', s1)
      case None => None
      case Some((month, s2)) =>
        match TakeField(2, 'T', s2)
        case None => None
        case Some((day, s3)) => ParseTime(year, month, day, s3)
  }

  lemma {:induction false} DigitRunOf(d: string, rest: string)
    requires forall k :: 0 <= k < |d| ==> IsDigit(d[k])
    ensures DigitRun(d + rest) == |d| + DigitRun(rest)
  {
    if d == "" {
      assert d + rest == rest;
    } else {
      assert (d + rest)[1..] == d[1..] + rest;
      DigitRunOf(d[1..], rest);
    }
  }

  lemma TakeDigitsOfPad(w: nat, n: nat, rest: string)
    requires n < Pow10(w)
    ensures TakeDigits(w, Pad(w, n) + rest) == Some((n, rest))
  {
    NumberOfPad(w, n);
    DigitRunOf(Pad(w, n), rest);
    assert (Pad(w, n) + rest)[..w] == Pad(w, n);
  }

  lemma TakeFieldOfPad(w: nat, n: nat, c: char, rest: string)
    requires n < Pow10(w)
    ensures TakeField(w, c, Pad(w, n) + ([c] + rest)) == Some((n, rest))
  {
    TakeDigitsOfPad(w, n, [c] + rest);
    assert ([c] + rest)[1..] == rest;
  }

  /** Printing at the automatic precision drops only zeros. */
  lemma PrecisionKeepsNanos(nanos: nat)
    requires 0 < nanos < 1_000_000_000
    ensures
      var q := Precision(nanos);
      Units(nanos, q) < Pow10(q) && Units(nanos, q) * Pow10(9 - q) == nanos
  {
    PowersOfTen();
  }

  lemma ParseTailOfDigits(digits: string)
    requires 0 < |digits| <= 9 && forall k :: 0 <= k < |digits| ==> IsDigit(digits[k])
    ensures ParseTail(['.'] + (digits + UTC_OFFSET)) == Some(Number(digits) * Pow10(9 - |digits|))
  {
    var s, q := ['.'] + (digits + UTC_OFFSET), |digits|;
    assert s[1..] == digits + UTC_OFFSET;
    DigitRunOf(digits, UTC_OFFSET);
    assert DigitRun(UTC_OFFSET) == 0;
    assert s[1..][..q] == digits;
    assert s[1..][q..] == UTC_OFFSET;
    assert ParseTail(s) == Some(FractionNanos(digits));
    assert digits[..q] == digits;
  }

  lemma ParseTailOfTail(nanos: nat)
    requires nanos < 1_000_000_000
    ensures ParseTail(Tail(nanos)) == Some(nanos)
  {
    if nanos > 0 {
      var q := Precision(nanos);
      PrecisionKeepsNanos(nanos);
      NumberOfPad(q, Units(nanos, q));
      ParseTailOfDigits(Pad(q, Units(nanos, q)));
    }
  }

  lemma ParseTimeOfRender(i: Instant)
    requires i.Valid()
    ensures ParseTime(i.year, i.month, i.day, RenderTime(i)) == Some(i)
  {
    PowersOfTen();
    var s3 := Tail(i.nanos);
    var s2 := Pad(2, i.second) + s3;
    var s1 := Pad(2, i.minute) + ([':'] + s2);
    TakeFieldOfPad(2, i.hour, ':', s1);
    TakeFieldOfPad(2, i.minute, ':', s2);
    TakeDigitsOfPad(2, i.second, s3);
    ParseTailOfTail(i.nanos);
  }

  /** Reading a stored timestamp back loses nothing. */
  lemma ParseAfterRender(i: Instant)
    requires i.Valid()
    ensures Parse(Render(i)) == Some(i)
  {
    PowersOfTen();
    var s3 := RenderTime(i);
    var s2 := Pad(2, i.day) + (['T'] + s3);
    var s1 := Pad(2, i.month) + (['-'] + s2);
    TakeFieldOfPad(4, i.year, '-', s1);
    TakeFieldOfPad(2, i.month, '-', s2);
    TakeFieldOfPad(2, i.day, 'T', s3);
    ParseTimeOfRender(i);
  }
}
