/** Timestamps, with and without a UTC offset, and the text `datetime.isoformat` gives them. */
module IsoTime {
  import opened Results
  import opened Text

  datatype Moment = Moment(
    year: nat, month: nat, day: nat, hour: nat, minute: nat, second: nat, microsecond: nat)
  {
    predicate InRange() {
      && 1 <= year <= 9999 && 1 <= month <= 12 && 1 <= day <= DaysIn(year, month)
      && hour < 24 && minute < 60 && second < 60 && microsecond < 1_000_000
    }

    /** Year to microsecond, most significant first. */
    function Fields(): seq<nat> {
      [year, month, day, hour, minute, second, microsecond]
    }
  }

  predicate Leap(year: nat) {
    year % 4 == 0 && (year % 100 != 0 || year % 400 == 0)
  }

  function DaysIn(year: nat, month: nat): (n: nat)
    ensures 28 <= n <= 31
  {
    if month == 2 then (if Leap(year) then 29 else 28)
    else if month == 4 || month == 6 || month == 9 || month == 11 then 30
    else 31
  }

  /** A wall-clock reading; as a timestamp of its own, the UTC one `datetime.now(UTC)` produces. */
  type Instant = m: Moment | m.InRange() witness Moment(1970, 1, 1, 0, 0, 0, 0)

  /** Microseconds east of UTC. */
  type Offset = o: int | -86_400_000_000 < o < 86_400_000_000

  /** A `datetime`: naive when it has no offset. */
  datatype Timestamp = Timestamp(local: Instant, offset: Option<Offset>)

  /** Chronological order: the first differing field decides. */
  predicate Earlier(t: Instant, u: Instant) {
    LexBelow(t.Fields(), u.Fields(), 0, 7)
  }

  /** Fields i..n of a come before those of b. */
  predicate LexBelow(a: seq<nat>, b: seq<nat>, i: nat, n: nat)
    requires n <= |a| && n <= |b|
    decreases n - i
  {
    i < n && (a[i] < b[i] || (a[i] == b[i] && LexBelow(a, b, i + 1, n)))
  }

  predicate SameFields(a: seq<nat>, b: seq<nat>, i: nat, n: nat)
    requires n <= |a| && n <= |b|
  {
    forall k | i <= k < n :: a[k] == b[k]
  }

  /* ---------- Fixed-width decimal numbers ---------- */

  function Pow10(w: nat): nat {
    if w == 0 then 1 else 10 * Pow10(w - 1)
  }

  function Digit(d: nat): char
    requires d < 10
  {
    '0' + d as char
  }

  function Pad(n: nat, w: nat): (s: string)
    ensures |s| == w
  {
    if w == 0 then "" else Pad(n / 10, w - 1) + [Digit(n % 10)]
  }

  function Number(s: string): Option<nat> {
    if s == [] then Some(0)
    else
      var last := s[|s| - 1];
      match Number(s[..|s| - 1])
      case None => None
      case Some(n) => if '0' <= last <= '9' then Some(10 * n + (last as int - '0' as int)) else None
  }

  lemma {:induction false} PadKeepsTheNumber(n: nat, w: nat)
    requires n < Pow10(w)
    ensures Number(Pad(n, w)) == Some(n)
  {
    if w == 0 {
    } else {
      hide Number;
      PadKeepsTheNumber(n / 10, w - 1);
      NumberOfOneMore(Pad(n / 10, w - 1), n % 10);
    }
  }

  lemma NumberOfOneMore(s: string, d: nat)
    requires d < 10 && Number(s).Some?
    ensures Number(s + [Digit(d)]) == Some(10 * Number(s).value + d)
  {
    assert (s + [Digit(d)])[..|s|] == s;
  }

  /** Padded numbers of one width compare as numbers do. */
  lemma {:induction false} PadKeepsTheOrder(m: nat, n: nat, w: nat)
    requires m < Pow10(w) && n < Pow10(w)
    ensures Before(Pad(m, w), Pad(n, w)) <==> m < n
    ensures Pad(m, w) == Pad(n, w) <==> m == n
  {
    if w == 0 {
    } else {
      PadKeepsTheOrder(m / 10, n / 10, w - 1);
      BeforeByHead(Pad(m / 10, w - 1), Pad(n / 10, w - 1), [Digit(m % 10)], [Digit(n % 10)]);
      assert Pad(m, w)[..w - 1] == Pad(m / 10, w - 1) && Pad(n, w)[..w - 1] == Pad(n / 10, w - 1);
      assert Pad(m, w)[w - 1] == Digit(m % 10) && Pad(n, w)[w - 1] == Digit(n % 10);
    }
  }

  /* ---------- The ISO text ---------- */

  const WIDTHS: seq<nat> := [4, 2, 2, 2, 2, 2]
  const MARKS: string := "--T::"

  /** Fields i.. of the date and time, each but the last followed by its mark. */
  function Clock(fields: seq<nat>, i: nat): (s: string)
    requires |fields| == 7 && i < 6
    decreases 6 - i
  {
    if i == 5 then Pad(fields[i], WIDTHS[i])
    else Pad(fields[i], WIDTHS[i]) + [MARKS[i]] + Clock(fields, i + 1)
  }

  /** The microseconds, printed only when there are any. */
  function Fraction(microsecond: nat): string {
    if microsecond == 0 then "" else "." + Pad(microsecond, 6)
  }

  function LocalIso(t: Instant): string {
    Clock(t.Fields(), 0) + Fraction(t.microsecond)
  }

  const UTC := "+00:00"

  /** Seconds and microseconds of an offset, printed only when there are any. */
  function OffsetTail(second: nat, microsecond: nat): string {
    if second == 0 && microsecond == 0 then "" else ":" + Pad(second, 2) + Fraction(microsecond)
  }

  function Magnitude(o: int): nat {
    if o < 0 then -o else o
  }

  function OffsetText(offset: Option<Offset>): string {
    match offset
    case None => ""
    case Some(o) =>
      var seconds := Magnitude(o) / 1_000_000;
      (if o < 0 then "-" else "+") + Pad(seconds / 60 / 60, 2) + ":" + Pad(seconds / 60 % 60, 2) +
      OffsetTail(seconds % 60, Magnitude(o) % 1_000_000)
  }

  function IsoText(ts: Timestamp): string {
    LocalIso(ts.local) + OffsetText(ts.offset)
  }

  /** The text of a UTC timestamp. */
  function Iso(t: Instant): string {
    LocalIso(t) + UTC
  }

  ghost predicate FitsWidths(fields: seq<nat>) {
    |fields| == 7 && fields[6] < 1_000_000 && forall i | 0 <= i < 6 :: fields[i] < Pow10(WIDTHS[i])
  }

  lemma InstantFits(t: Instant)
    ensures FitsWidths(t.Fields())
  {
    assert Pow10(2) == 100 && Pow10(4) == 10000;
  }

  lemma {:induction false} ClockKeepsTheOrder(a: seq<nat>, b: seq<nat>, i: nat)
    requires FitsWidths(a) && FitsWidths(b) && i < 6
    ensures |Clock(a, i)| == |Clock(b, i)|
    ensures Before(Clock(a, i), Clock(b, i)) <==> LexBelow(a, b, i, 6)
    ensures Clock(a, i) == Clock(b, i) <==> SameFields(a, b, i, 6)
    decreases 6 - i
  {
    hide Before, Pad, Clock, SameFields;
    FieldKeepsTheOrder(a, b, i);
    FirstOfClock(a, i);
    FirstOfClock(b, i);
    if i == 5 {
      OnlyFieldLeft(a, b);
    } else {
      ClockKeepsTheOrder(a, b, i + 1);
      var (p, q) := (Pad(a[i], WIDTHS[i]) + [MARKS[i]], Pad(b[i], WIDTHS[i]) + [MARKS[i]]);
      BeforeByHead(p, q, Clock(a, i + 1), Clock(b, i + 1));
      SameHeadSameTail(p, q, Clock(a, i + 1), Clock(b, i + 1));
      OneFieldMore(a, b, i);
    }
  }

  /** A field with or without its mark is ordered as its number is. */
  lemma FieldKeepsTheOrder(a: seq<nat>, b: seq<nat>, i: nat)
    requires FitsWidths(a) && FitsWidths(b) && i < 6
    ensures var (x, y) := (Pad(a[i], WIDTHS[i]), Pad(b[i], WIDTHS[i]));
            && |x| == |y|
            && (Before(x, y) <==> a[i] < b[i]) && (x == y <==> a[i] == b[i])
            && (i < 5 ==> (Before(x + [MARKS[i]], y + [MARKS[i]]) <==> a[i] < b[i]) &&
                          (x + [MARKS[i]] == y + [MARKS[i]] <==> a[i] == b[i]))
  {
    hide Before, Pad;
    PadKeepsTheOrder(a[i], b[i], WIDTHS[i]);
    if i < 5 {
      var (x, y, mark) := (Pad(a[i], WIDTHS[i]), Pad(b[i], WIDTHS[i]), [MARKS[i]]);
      BeforeByHead(x, y, mark, mark);
      BeforeIsStrict(mark, mark);
      SameHeadSameTail(x, y, mark, mark);
    }
  }

  lemma FirstOfClock(f: seq<nat>, i: nat)
    requires |f| == 7 && i < 6
    ensures Clock(f, i) == if i == 5 then Pad(f[i], WIDTHS[i]) else Pad(f[i], WIDTHS[i]) + [MARKS[i]] + Clock(f, i + 1)
  {
  }

  lemma OnlyFieldLeft(a: seq<nat>, b: seq<nat>)
    requires |a| == |b| == 7
    ensures LexBelow(a, b, 5, 6) <==> a[5] < b[5]
    ensures SameFields(a, b, 5, 6) <==> a[5] == b[5]
  {
  }

  lemma OneFieldMore(a: seq<nat>, b: seq<nat>, i: nat)
    requires |a| == |b| == 7 && i < 5
    ensures LexBelow(a, b, i, 6) <==> a[i] < b[i] || (a[i] == b[i] && LexBelow(a, b, i + 1, 6))
    ensures SameFields(a, b, i, 6) <==> a[i] == b[i] && SameFields(a, b, i + 1, 6)
  {
  }

  lemma SameHeadSameTail(p: string, q: string, a: string, b: string)
    requires |p| == |q|
    ensures p + a == q + b <==> p == q && a == b
  {
    assert (p + a)[..|p|] == p && (q + b)[..|q|] == q;
    assert (p + a)[|p|..] == a && (q + b)[|q|..] == b;
  }

  /** A text that may follow the local time: nothing, or an offset and whatever follows it. */
  predicate FollowsTime(a: string) {
    a == "" || a[0] == '+' || a[0] == '-'
  }

  /**
   The fraction alone decides, whatever follows it: a missing fraction is followed by nothing, '+' or
   '-', all of which sort before the '.' of a printed one.
   */
  lemma FractionKeepsTheOrder(m: nat, n: nat, a: string, b: string)
    requires m < 1_000_000 && n < 1_000_000 && m != n && FollowsTime(a) && FollowsTime(b)
    ensures Before(Fraction(m) + a, Fraction(n) + b) <==> m < n
  {
    if m == 0 || n == 0 {
      assert m == 0 ==> Fraction(m) + a == a;
      assert n == 0 ==> Fraction(n) + b == b;
      assert m != 0 ==> (Fraction(m) + a)[0] == '.';
      assert n != 0 ==> (Fraction(n) + b)[0] == '.';
    } else {
      assert Pow10(6) == 1_000_000;
      PadKeepsTheOrder(m, n, 6);
      BeforeByHead(".", ".", Pad(m, 6), Pad(n, 6));
      BeforeByHead("." + Pad(m, 6), "." + Pad(n, 6), a, b);
      SameHeadSameTail(".", ".", Pad(m, 6), Pad(n, 6));
    }
  }

  lemma {:induction false} LexBelowByParts(a: seq<nat>, b: seq<nat>, i: nat, n: nat)
    requires n < |a| && n < |b| && i <= n
    ensures LexBelow(a, b, i, n + 1) <==> LexBelow(a, b, i, n) || (SameFields(a, b, i, n) && a[n] < b[n])
    decreases n - i
  {
    if i >= n {
    } else {
      LexBelowByParts(a, b, i + 1, n);
    }
  }

  lemma {:induction false} LexBelowIsTotal(a: seq<nat>, b: seq<nat>, i: nat, n: nat)
    requires n <= |a| && n <= |b|
    ensures SameFields(a, b, i, n) || LexBelow(a, b, i, n) || LexBelow(b, a, i, n)
    ensures !(LexBelow(a, b, i, n) && (SameFields(a, b, i, n) || LexBelow(b, a, i, n)))
    decreases n - i
  {
    if i >= n {
    } else {
      LexBelowIsTotal(a, b, i + 1, n);
    }
  }

  /** Of two different instants exactly one is earlier. */
  lemma EarlierIsTotal(t: Instant, u: Instant)
    ensures t == u || Earlier(t, u) || Earlier(u, t)
    ensures !(Earlier(t, u) && (t == u || Earlier(u, t)))
  {
    LexBelowIsTotal(t.Fields(), u.Fields(), 0, 7);
    FieldsDetermineTheInstant(t, u);
  }

  lemma FieldsDetermineTheInstant(t: Instant, u: Instant)
    ensures t == u <==> SameFields(t.Fields(), u.Fields(), 0, 7)
  {
    var (f, g) := (t.Fields(), u.Fields());
    assert SameFields(f, g, 0, 7) ==>
        f[0] == g[0] && f[1] == g[1] && f[2] == g[2] && f[3] == g[3] && f[4] == g[4] && f[5] == g[5] && f[6] == g[6];
  }

  /** Two different wall clocks keep their order as text, whatever offset and more is appended to each. */
  lemma LocalIsoKeepsTheOrder(t: Instant, u: Instant, a: string, b: string)
    requires t != u && FollowsTime(a) && FollowsTime(b)
    ensures Before(LocalIso(t) + a, LocalIso(u) + b) <==> Earlier(t, u)
  {
    var (f, g) := (t.Fields(), u.Fields());
    InstantFits(t);
    InstantFits(u);
    FieldsDetermineTheInstant(t, u);
    ClockKeepsTheOrder(f, g, 0);
    assert LocalIso(t) + a == Clock(f, 0) + (Fraction(t.microsecond) + a);
    assert LocalIso(u) + b == Clock(g, 0) + (Fraction(u.microsecond) + b);
    BeforeByHead(Clock(f, 0), Clock(g, 0), Fraction(t.microsecond) + a, Fraction(u.microsecond) + b);
    LexBelowByParts(f, g, 0, 6);
    hide Clock, Fraction, LexBelow;
    if SameFields(f, g, 0, 6) {
      FractionKeepsTheOrder(t.microsecond, u.microsecond, a, b);
    }
  }

  /* ---------- The calendar ---------- */

  function DaysBeforeMonth(year: nat, month: nat): nat {
    if month <= 1 then 0 else DaysBeforeMonth(year, month - 1) + DaysIn(year, month - 1)
  }

  function DaysBeforeYear(year: nat): nat {
    if year <= 1 then 0 else DaysBeforeYear(year - 1) + DaysBeforeMonth(year - 1, 13)
  }

  function DayNumber(t: Instant): nat {
    DaysBeforeYear(t.year) + DaysBeforeMonth(t.year, t.month) + t.day
  }

  function TimeOfDay(t: Instant): nat {
    ((t.hour * 60 + t.minute) * 60 + t.second) * 1_000_000 + t.microsecond
  }

  const DAY := 86_400_000_000

  /** Microseconds from a fixed day to this reading of a UTC clock. */
  function Micros(t: Instant): int {
    DayNumber(t) * DAY + TimeOfDay(t)
  }

  /** The same for a timestamp with an offset: its clock is ahead of UTC by that much. */
  function UtcMicros(ts: Timestamp): int
    requires ts.offset.Some?
  {
    Micros(ts.local) - ts.offset.value
  }

  /** The day number of 1970-01-01, and of the last day of the year 9999. */
  const EPOCH_DAY := 719_163
  const LAST_DAY := 3_652_059

  lemma {:induction false} DaysBeforeYearInClosedForm(year: nat)
    requires year >= 1
    ensures var y := year - 1; DaysBeforeYear(year) == 365 * y + y / 4 - y / 100 + y / 400
  {
    hide DaysBeforeMonth, Leap;
    if year == 1 {
    } else {
      DaysBeforeYearInClosedForm(year - 1);
      DaysOfYear(year - 1);
      LeapYearsUpTo(year - 1);
    }
  }

  lemma LeapYearsUpTo(year: nat)
    requires year >= 1
    ensures year / 4 - year / 100 + year / 400 ==
            (year - 1) / 4 - (year - 1) / 100 + (year - 1) / 400 + if Leap(year) then 1 else 0
  {
    OneMoreMultiple(year, 4);
    OneMoreMultiple(year, 100);
    OneMoreMultiple(year, 400);
    MultiplesNest(year);
  }

  lemma MultiplesNest(year: nat)
    ensures year % 400 == 0 ==> year % 100 == 0
    ensures year % 100 == 0 ==> year % 4 == 0
  {
    MultipleOfFactor(year, 100, 4);
    MultipleOfFactor(year, 4, 25);
  }

  lemma MultipleOfFactor(n: nat, a: nat, b: nat)
    requires (a == 100 && b == 4) || (a == 4 && b == 25)
    ensures n % (a * b) == 0 ==> n % a == 0
  {
    if n % (a * b) == 0 {
      var q := n / (a * b);
      assert n == a * (b * q);
    }
  }

  lemma OneMoreMultiple(n: nat, k: nat)
    requires n >= 1 && (k == 4 || k == 100 || k == 400)
    ensures n / k == (n - 1) / k + if n % k == 0 then 1 else 0
  {
  }

  lemma NextMonth(year: nat, month: nat)
    ensures DaysBeforeMonth(year, 1) == 0
    ensures month >= 1 ==> DaysBeforeMonth(year, month + 1) == DaysBeforeMonth(year, month) + DaysIn(year, month)
  {
  }

  lemma DaysOfYear(year: nat)
    ensures DaysBeforeMonth(year, 13) == if Leap(year) then 366 else 365
  {
    hide DaysBeforeMonth, Leap;
    NextMonth(year, 1);
    NextMonth(year, 2);
    NextMonth(year, 3);
    NextMonth(year, 4);
    NextMonth(year, 5);
    NextMonth(year, 6);
    NextMonth(year, 7);
    NextMonth(year, 8);
    NextMonth(year, 9);
    NextMonth(year, 10);
    NextMonth(year, 11);
    NextMonth(year, 12);
  }

  lemma NamedDays(t: Instant)
    ensures t.year == 1970 && t.month == 1 && t.day == 1 ==> DayNumber(t) == EPOCH_DAY
    ensures t.year == 9999 && t.month == 12 && t.day == 31 ==> DayNumber(t) == LAST_DAY
  {
    hide DaysBeforeYear, DaysBeforeMonth;
    DaysBeforeYearInClosedForm(t.year);
    DaysOfYear(t.year);
    NextMonth(t.year, 12);
  }

  /** `int(x)` of a number of seconds given in microseconds. */
  function ToSeconds(micros: int): int {
    if micros >= 0 then micros / 1_000_000 else -(-micros / 1_000_000)
  }

  /** `int((now + timedelta(days=days)).timestamp())`, or nothing where the sum leaves the calendar. */
  function ExpiresAt(now: Instant, days: int): Option<int> {
    if 1 <= DayNumber(now) + days <= LAST_DAY then Some(ToSeconds(Micros(now) + days * DAY - EPOCH_DAY * DAY))
    else None
  }

  lemma {:induction false} MonthsFollow(year: nat, a: nat, b: nat)
    requires 1 <= a < b
    ensures DaysBeforeMonth(year, a) + DaysIn(year, a) <= DaysBeforeMonth(year, b)
  {
    if b == a + 1 {
    } else {
      MonthsFollow(year, a, b - 1);
    }
  }

  lemma {:induction false} YearsFollow(a: nat, b: nat)
    requires 1 <= a < b
    ensures DaysBeforeYear(a) + DaysBeforeMonth(a, 13) <= DaysBeforeYear(b)
  {
    hide DaysBeforeMonth;
    if b == a + 1 {
    } else {
      YearsFollow(a, b - 1);
    }
  }

  lemma LaterDay(t: Instant, u: Instant)
    requires t.year < u.year || (t.year == u.year && (t.month < u.month || (t.month == u.month && t.day < u.day)))
    ensures DayNumber(t) < DayNumber(u)
  {
    hide DaysBeforeMonth, DaysBeforeYear;
    if t.year < u.year {
      YearsFollow(t.year, u.year);
      MonthsFollow(t.year, t.month, 13);
    } else if t.month < u.month {
      MonthsFollow(t.year, t.month, u.month);
    }
  }

  lemma TimeFitsTheDay(t: Instant)
    ensures TimeOfDay(t) < DAY
  {
  }

  /** The field by field order is the order in time. */
  lemma EarlierMeansBeforeInTime(t: Instant, u: Instant)
    ensures Earlier(t, u) <==> Micros(t) < Micros(u)
  {
    if Earlier(t, u) {
      EarlierComesFirst(t, u);
    } else if t != u {
      EarlierIsTotal(t, u);
      EarlierComesFirst(u, t);
    }
  }

  lemma EarlierComesFirst(t: Instant, u: Instant)
    requires Earlier(t, u)
    ensures Micros(t) < Micros(u)
  {
    hide DayNumber, DaysIn;
    var (f, g) := (t.Fields(), u.Fields());
    LexBelowByParts(f, g, 0, 6);
    LexBelowByParts(f, g, 0, 5);
    LexBelowByParts(f, g, 0, 4);
    LexBelowByParts(f, g, 0, 3);
    TimeFitsTheDay(t);
    TimeFitsTheDay(u);
    if LexBelow(f, g, 0, 3) {
      EarlierDate(t, u);
    } else {
      hide LexBelow;
      SameDate(t, u);
    }
  }

  lemma EarlierDate(t: Instant, u: Instant)
    requires LexBelow(t.Fields(), u.Fields(), 0, 3)
    ensures DayNumber(t) < DayNumber(u)
  {
    LaterDay(t, u);
  }

  lemma SameDate(t: Instant, u: Instant)
    requires SameFields(t.Fields(), u.Fields(), 0, 3)
    ensures DayNumber(t) == DayNumber(u)
  {
    assert t.Fields()[0] == u.Fields()[0] && t.Fields()[1] == u.Fields()[1] && t.Fields()[2] == u.Fields()[2];
  }

  /** Two different instants keep their order as UTC text, whatever is appended to each. */
  lemma IsoKeepsTheOrder(t: Instant, u: Instant, a: string, b: string)
    requires t != u
    ensures Before(Iso(t) + a, Iso(u) + b) <==> Earlier(t, u)
  {
    hide LocalIso, Earlier;
    Regroup(LocalIso(t), UTC, a);
    Regroup(LocalIso(u), UTC, b);
    LocalIsoKeepsTheOrder(t, u, UTC + a, UTC + b);
  }

  /** No offset sorts before "+00:00" but the missing one, and none but these two sorts as low. */
  lemma UtcIsTheLowestOffset(offset: Option<Offset>)
    ensures FollowsTime(OffsetText(offset))
    ensures Before(UTC, OffsetText(offset)) <==> offset != None && offset != Some(0)
  {
    hide Before, Pad, OffsetTail;
    match offset
    case None => NothingIsBeforeNothing();
    case Some(o) =>
      var seconds := Magnitude(o) / 1_000_000;
      assert Pow10(2) == 100;
      TwoDigits();
      PadKeepsTheOrder(0, seconds / 60 / 60, 2);
      PadKeepsTheOrder(0, seconds / 60 % 60, 2);
      OffsetByParts(if o < 0 then "-" else "+", Pad(seconds / 60 / 60, 2), Pad(seconds / 60 % 60, 2),
                    OffsetTail(seconds % 60, Magnitude(o) % 1_000_000));
      TailIsEmpty(seconds % 60, Magnitude(o) % 1_000_000);
      NothingButZero(o);
  }

  lemma TailIsEmpty(second: nat, microsecond: nat)
    ensures OffsetTail(second, microsecond) == "" <==> second == 0 && microsecond == 0
  {
  }

  lemma NothingButZero(o: int)
    ensures var seconds := Magnitude(o) / 1_000_000;
            o == 0 <==>
            seconds / 60 / 60 == 0 && seconds / 60 % 60 == 0 && seconds % 60 == 0 && Magnitude(o) % 1_000_000 == 0
  {
  }

  lemma NothingIsBeforeNothing()
    ensures !Before(UTC, "")
  {
  }

  lemma OffsetByParts(sign: string, h: string, m: string, tail: string)
    requires sign == "+" || sign == "-"
    requires |h| == 2 && |m| == 2
    ensures Before(UTC, sign + h + ":" + m + tail) <==>
            sign == "-" || Before("00", h) || (h == "00" && (Before("00", m) || (m == "00" && tail != "")))
  {
    hide Before;
    var (rest, minutes) := (":" + (m + tail), m + tail);
    assert UTC == "+" + ("00" + (":" + ("00" + "")));
    assert sign + h + ":" + m + tail == sign + (h + rest);
    BeforeByHead("+", sign, "00" + (":" + ("00" + "")), h + rest);
    BeforeByHead("00", h, ":" + ("00" + ""), rest);
    BeforeByHead(":", ":", "00" + "", minutes);
    BeforeByHead("00", m, "", tail);
    EmptyComesFirst(tail);
    BeforeOfOne('+', '-');
    BeforeIsStrict("+", "+");
    BeforeIsStrict(":", ":");
  }

  lemma EmptyComesFirst(s: string)
    ensures Before("", s) <==> s != ""
  {
  }

  lemma TwoDigits()
    ensures Pad(0, 2) == "00"
  {
    assert Pad(0, 1) == "0";
  }

  lemma BeforeOfOne(c: char, d: char)
    ensures Before([c], [d]) <==> c < d
  {
  }

  /* ---------- Reading the text back ---------- */

  /** `datetime.fromisoformat` on the texts that `IsoText` writes. */
  function ParseIso(s: string): Option<Timestamp> {
    if |s| < 19 then None
    else
      var n := if |s| >= 26 && s[19] == '.' then 26 else 19;
      match (ParseLocal(s, n), ParseOffset(s[n..]))
      case (Some(local), Some(offset)) => Some(Timestamp(local, offset))
      case _ => None
  }

  /** The wall clock in the first n characters, which are 19 without a fraction. */
  function ParseLocal(s: string, n: nat): Option<Instant>
    requires (n == 19 || n == 26) && n <= |s|
  {
    var micro := if n == 19 then Some(0) else Number(s[20..26]);
    match (Number(s[0..4]), Number(s[5..7]), Number(s[8..10]), Number(s[11..13]), Number(s[14..16]), Number(s[17..19]),
           micro)
    case (Some(year), Some(month), Some(day), Some(hour), Some(minute), Some(second), Some(microsecond)) =>
      var m := Moment(year, month, day, hour, minute, second, microsecond);
      if m.InRange() then Some(m) else None
    case _ => None
  }

  function ParseOffset(s: string): Option<Option<Offset>> {
    if s == "" then Some(None)
    else if (|s| != 6 && |s| != 9 && |s| != 16) || s[0] !in "+-" then None
    else
      var second := if |s| == 6 then Some(0) else Number(s[7..9]);
      var microsecond := if |s| < 16 then Some(0) else Number(s[10..16]);
      match (Number(s[1..3]), Number(s[4..6]), second, microsecond)
      case (Some(h), Some(m), Some(sec), Some(us)) =>
        if h >= 24 || m >= 60 || sec >= 60 || us >= 1_000_000 then None
        else
          var magnitude: int := (h * 3600 + m * 60 + sec) * 1_000_000 + us;
          var offset: Offset := if s[0] == '-' then -magnitude else magnitude;
          Some(Some(offset))
      case _ => None
  }

  /** Where field i starts in the text. */
  const STARTS: seq<nat> := [0, 5, 8, 11, 14, 17]

  lemma SliceOfTail(p: string, q: string, x: nat, y: nat)
    requires x <= y <= |q|
    ensures (p + q)[|p| + x..|p| + y] == q[x..y]
  {
  }

  lemma {:induction false} FieldInClock(f: seq<nat>, j: nat, i: nat, tail: string)
    requires |f| == 7 && j <= i < 6
    ensures |Clock(f, j)| == 19 - STARTS[j]
    ensures STARTS[i] + WIDTHS[i] <= 19
    ensures (Clock(f, j) + tail)[STARTS[i] - STARTS[j]..][..WIDTHS[i]] == Pad(f[i], WIDTHS[i])
    decreases i - j
  {
    hide Clock, Pad;
    ClockLength(f, j);
    if j == i {
      FirstField(f, j, tail);
    } else {
      FieldInClock(f, j + 1, i, tail);
      ClockLength(f, j + 1);
      AfterFirstField(f, j, tail);
      DropIntoTail(Pad(f[j], WIDTHS[j]) + [MARKS[j]], Clock(f, j + 1) + tail, STARTS[i] - STARTS[j + 1]);
    }
  }

  lemma FirstField(f: seq<nat>, j: nat, tail: string)
    requires |f| == 7 && j < 6
    ensures |Clock(f, j)| >= WIDTHS[j]
    ensures (Clock(f, j) + tail)[0..][..WIDTHS[j]] == Pad(f[j], WIDTHS[j])
  {
    hide Pad;
  }

  lemma AfterFirstField(f: seq<nat>, j: nat, tail: string)
    requires |f| == 7 && j < 5
    ensures Clock(f, j) + tail == Pad(f[j], WIDTHS[j]) + [MARKS[j]] + (Clock(f, j + 1) + tail)
  {
    hide Pad;
  }

  lemma DropIntoTail(p: string, q: string, x: nat)
    requires x <= |q|
    ensures (p + q)[|p| + x..] == q[x..]
  {
  }

  lemma {:induction false} ClockLength(f: seq<nat>, j: nat)
    requires |f| == 7 && j < 6
    ensures |Clock(f, j)| == 19 - STARTS[j]
    decreases 6 - j
  {
    if j >= 5 {
    } else {
      ClockLength(f, j + 1);
    }
  }

  lemma FieldAt(t: Instant, i: nat, a: string)
    requires i < 6
    ensures |LocalIso(t)| == if t.microsecond == 0 then 19 else 26
    ensures (LocalIso(t) + a)[STARTS[i]..STARTS[i] + WIDTHS[i]] == Pad(t.Fields()[i], WIDTHS[i])
  {
    hide Clock, Pad;
    FieldInClock(t.Fields(), 0, i, Fraction(t.microsecond) + a);
    ClockLength(t.Fields(), 0);
    Regroup(Clock(t.Fields(), 0), Fraction(t.microsecond), a);
    SliceTwice(LocalIso(t) + a, STARTS[i], WIDTHS[i]);
  }

  lemma SliceTwice(s: string, x: nat, w: nat)
    requires x + w <= |s|
    ensures s[x..][..w] == s[x..x + w]
  {
  }

  lemma MicrosecondsAt(t: Instant, a: string)
    requires t.microsecond != 0
    ensures |LocalIso(t)| == 26
    ensures (LocalIso(t) + a)[20..26] == Pad(t.microsecond, 6)
  {
    hide Clock, Pad;
    ClockLength(t.Fields(), 0);
    Regroup(Clock(t.Fields(), 0), Fraction(t.microsecond), a);
    SliceOfTail(Clock(t.Fields(), 0), Fraction(t.microsecond) + a, 1, 7);
  }

  lemma NumberAt(t: Instant, i: nat, a: string)
    requires i < 6
    ensures |LocalIso(t)| == if t.microsecond == 0 then 19 else 26
    ensures Number((LocalIso(t) + a)[STARTS[i]..STARTS[i] + WIDTHS[i]]) == Some(t.Fields()[i])
  {
    InstantFits(t);
    PadKeepsTheNumber(t.Fields()[i], WIDTHS[i]);
    FieldAt(t, i, a);
  }

  lemma MicrosecondsNumber(t: Instant, a: string)
    requires t.microsecond != 0
    ensures Number((LocalIso(t) + a)[20..26]) == Some(t.microsecond)
  {
    assert Pow10(6) == 1_000_000;
    PadKeepsTheNumber(t.microsecond, 6);
    MicrosecondsAt(t, a);
  }

  lemma LocalComesBack(t: Instant, a: string)
    ensures |LocalIso(t)| == if t.microsecond == 0 then 19 else 26
    ensures ParseLocal(LocalIso(t) + a, |LocalIso(t)|) == Some(t)
  {
    hide LocalIso, Number;
    NumberAt(t, 0, a);
    NumberAt(t, 1, a);
    NumberAt(t, 2, a);
    NumberAt(t, 3, a);
    NumberAt(t, 4, a);
    NumberAt(t, 5, a);
    if t.microsecond != 0 {
      MicrosecondsNumber(t, a);
    }
  }

  lemma OffsetComesBack(offset: Option<Offset>)
    ensures ParseOffset(OffsetText(offset)) == Some(offset)
  {
    if offset.Some? {
      hide Pad, Number, OffsetTail, OffsetText, Magnitude;
      var o := offset.value;
      var seconds := Magnitude(o) / 1_000_000;
      OffsetNumbers(o);
      TailNumbers(o);
      Recomposed(Magnitude(o));
      FieldsOfOffset(o);
      ParsedByFields(OffsetText(offset), o, seconds / 60 / 60, seconds / 60 % 60, seconds % 60,
                     Magnitude(o) % 1_000_000);
    }
  }

  lemma ParsedByFields(z: string, o: Offset, h: nat, m: nat, second: nat, us: nat)
    requires |z| == if us != 0 then 16 else if second != 0 then 9 else 6
    requires z[0] == (if o < 0 then '-' else '+')
    requires Number(z[1..3]) == Some(h) && Number(z[4..6]) == Some(m)
    requires |z| > 6 ==> Number(z[7..9]) == Some(second)
    requires |z| == 16 ==> Number(z[10..16]) == Some(us)
    requires h < 24 && m < 60 && second < 60 && us < 1_000_000
    requires (h * 3600 + m * 60 + second) * 1_000_000 + us == Magnitude(o)
    ensures ParseOffset(z) == Some(Some(o))
  {
    hide Number;
  }

  lemma FieldsOfOffset(o: Offset)
    ensures Magnitude(o) / 1_000_000 / 60 / 60 < 24
    ensures o < 0 ==> o + Magnitude(o) == 0
    ensures o >= 0 ==> o == Magnitude(o)
  {
  }

  /** Hours and minutes in the text of an offset. */
  lemma OffsetNumbers(o: Offset)
    ensures var (z, seconds) := (OffsetText(Some(o)), Magnitude(o) / 1_000_000);
            && |z| == 6 + |OffsetTail(seconds % 60, Magnitude(o) % 1_000_000)|
            && z[0] == (if o < 0 then '-' else '+')
            && Number(z[1..3]) == Some(seconds / 60 / 60) && Number(z[4..6]) == Some(seconds / 60 % 60)
            && z[6..] == OffsetTail(seconds % 60, Magnitude(o) % 1_000_000)
  {
    hide Pad, Number, OffsetTail;
    var (z, seconds) := (OffsetText(Some(o)), Magnitude(o) / 1_000_000);
    assert Pow10(2) == 100;
    PadKeepsTheNumber(seconds / 60 / 60, 2);
    PadKeepsTheNumber(seconds / 60 % 60, 2);
    assert z[1..3] == Pad(seconds / 60 / 60, 2) && z[4..6] == Pad(seconds / 60 % 60, 2);
  }

  /** Its seconds and microseconds, if they are printed. */
  lemma TailNumbers(o: Offset)
    ensures var (z, second, us) := (OffsetText(Some(o)), Magnitude(o) / 1_000_000 % 60, Magnitude(o) % 1_000_000);
            && |z| == (if us != 0 then 16 else if second != 0 then 9 else 6)
            && (|z| > 6 ==> Number(z[7..9]) == Some(second))
            && (|z| == 16 ==> Number(z[10..16]) == Some(us))
  {
    hide Pad, Number, OffsetText;
    var (z, second, us) := (OffsetText(Some(o)), Magnitude(o) / 1_000_000 % 60, Magnitude(o) % 1_000_000);
    assert Pow10(2) == 100 && Pow10(6) == 1_000_000;
    PadKeepsTheNumber(second, 2);
    PadKeepsTheNumber(us, 6);
    OffsetNumbers(o);
    var tail := OffsetTail(second, us);
    if |z| > 6 {
      assert z[7..9] == tail[1..3] == Pad(second, 2);
    }
    if |z| == 16 {
      assert z[10..16] == tail[4..10] == Pad(us, 6);
    }
  }

  lemma Recomposed(n: nat)
    ensures var seconds := n / 1_000_000;
            var minutes := seconds / 60;
            (minutes / 60 * 3600 + minutes % 60 * 60 + seconds % 60) * 1_000_000 + n % 1_000_000 == n
  {
    var seconds := n / 1_000_000;
    var minutes := seconds / 60;
    InBase(n, 1_000_000);
    InBase(seconds, 60);
    InBase(minutes, 60);
  }

  lemma InBase(n: nat, base: nat)
    requires base > 0
    ensures n == n / base * base + n % base
  {
  }

  /** Reading a written timestamp gives it back, with its offset or the lack of one. */
  lemma ParseUndoesIso(ts: Timestamp)
    ensures ParseIso(IsoText(ts)) == Some(ts)
  {
    hide LocalIso, OffsetText, ParseLocal, ParseOffset;
    var (local, z) := (LocalIso(ts.local), OffsetText(ts.offset));
    LocalComesBack(ts.local, z);
    OffsetComesBack(ts.offset);
    UtcIsTheLowestOffset(ts.offset);
    PointAfterTheTime(ts.local);
    assert IsoText(ts)[|local|..] == z;
    assert |local| == 19 && z != "" ==> IsoText(ts)[19] == z[0];
  }

  lemma PointAfterTheTime(t: Instant)
    ensures |LocalIso(t)| == 26 ==> LocalIso(t)[19] == '.'
  {
    ClockLength(t.Fields(), 0);
    hide Clock, Pad;
  }

  /* ---------- The texts, character by character ---------- */

  /** A number without its last k digits. */
  function WithoutDigits(n: nat, k: nat): nat {
    if k == 0 then n else WithoutDigits(n / 10, k - 1)
  }

  /** Digit k from the right of a padded number. */
  lemma {:induction false} PaddedDigits(n: nat, w: nat, k: nat)
    requires k < w
    ensures Pad(n, w)[w - 1 - k] == "0123456789"[WithoutDigits(n, k) % 10]
  {
    if k == 0 {
    } else {
      PaddedDigits(n / 10, w - 1, k - 1);
      assert Pad(n, w)[w - 1 - k] == Pad(n / 10, w - 1)[w - 1 - k];
    }
  }

  /** A local time reads YYYY-MM-DDTHH:MM:SS, with .ffffff behind it exactly if there are microseconds. */
  lemma LocalTimeAsWritten(t: Instant)
    ensures var s := LocalIso(t);
            && |s| == (if t.microsecond == 0 then 19 else 26)
            && s[0..4] == Pad(t.year, 4) && s[5..7] == Pad(t.month, 2) && s[8..10] == Pad(t.day, 2)
            && s[11..13] == Pad(t.hour, 2) && s[14..16] == Pad(t.minute, 2) && s[17..19] == Pad(t.second, 2)
            && s[4] == '-' && s[7] == '-' && s[10] == 'T' && s[13] == ':' && s[16] == ':'
            && (t.microsecond != 0 ==> s[19] == '.' && s[20..26] == Pad(t.microsecond, 6))
  {
    hide LocalIso, Pad, Clock;
    assert LocalIso(t) + "" == LocalIso(t);
    FieldAt(t, 0, "");
    FieldAt(t, 1, "");
    FieldAt(t, 2, "");
    FieldAt(t, 3, "");
    FieldAt(t, 4, "");
    FieldAt(t, 5, "");
    MarksAt(t, 0);
    MarksAt(t, 1);
    MarksAt(t, 2);
    MarksAt(t, 3);
    MarksAt(t, 4);
    PointAfterTheTime(t);
    if t.microsecond != 0 {
      MicrosecondsAt(t, "");
    }
  }

  lemma MarksAt(t: Instant, i: nat)
    requires i < 5
    ensures |LocalIso(t)| >= 19 && LocalIso(t)[STARTS[i] + WIDTHS[i]] == "--T::"[i]
  {
    hide Clock, Pad;
    ClockLength(t.Fields(), 0);
    MarkInClock(t.Fields(), 0, i);
  }

  lemma {:induction false} MarkInClock(f: seq<nat>, j: nat, i: nat)
    requires |f| == 7 && j <= i < 5
    ensures |Clock(f, j)| == 19 - STARTS[j]
    ensures Clock(f, j)[STARTS[i] + WIDTHS[i] - STARTS[j]] == "--T::"[i]
    decreases i - j
  {
    hide Clock, Pad;
    ClockLength(f, j);
    FirstOfClock(f, j);
    if j == i {
    } else {
      MarkInClock(f, j + 1, i);
    }
  }

  /** An offset reads +HH:MM or -HH:MM, by its sign, with seconds and their fraction only where needed. */
  lemma OffsetAsWritten(o: Offset)
    ensures var (z, seconds) := (OffsetText(Some(o)), (if o < 0 then -o else o) / 1_000_000);
            && |z| >= 6 && z[0] == (if o < 0 then '-' else '+') && z[3] == ':'
            && z[1..3] == Pad(seconds / 60 / 60, 2) && z[4..6] == Pad(seconds / 60 % 60, 2)
            && ((if o < 0 then -o else o) % 60_000_000 == 0 ==> |z| == 6)
    ensures OffsetText(None) == ""
  {
    hide Pad;
    if (if o < 0 then -o else o) % 60_000_000 == 0 {
      WholeMinutes(if o < 0 then -o else o);
    }
  }

  lemma WholeMinutes(n: nat)
    requires n % 60_000_000 == 0
    ensures n / 1_000_000 % 60 == 0 && n % 1_000_000 == 0
  {
    var q := n / 60_000_000;
    assert n == 1_000_000 * (60 * q);
    assert n / 1_000_000 == 60 * q;
  }

  /** The lengths of the months. */
  lemma MonthLengths(year: nat)
    ensures Leap(year) <==> (year % 4 == 0 && year % 100 != 0) || year % 400 == 0
    ensures forall month | 1 <= month <= 12 ::
              DaysIn(year, month) ==
              [31, if Leap(year) then 29 else 28, 31, 30, 31, 30, 31, 31, 30, 31, 30, 31][month - 1]
  {
    MultiplesNest(year);
  }

  /* ---------- Units ---------- */

  lemma UnitsOfTime(t: Instant)
    ensures Micros(t) == DayNumber(t) * 86_400_000_000 + t.hour * 3_600_000_000 + t.minute * 60_000_000 +
                         t.second * 1_000_000 + t.microsecond
    ensures UtcMicros(Timestamp(t, Some(0))) == Micros(t)
  {
    hide DayNumber;
  }

  /** The same clock, one hour on, in an offset one hour further east is the same instant. */
  lemma SameInstantFurtherEast(t: Instant, u: Instant, o: Offset, p: Offset)
    requires u == t.(hour := t.hour + 1) && p == o + 3_600_000_000
    ensures UtcMicros(Timestamp(t, Some(o))) == UtcMicros(Timestamp(u, Some(p)))
  {
    UnitsOfTime(t);
    UnitsOfTime(u);
    assert DayNumber(t) == DayNumber(u);
  }

  /** Days of a month and days of a year follow each other by one. */
  lemma DaysFollow(t: Instant, u: Instant)
    ensures t.year == u.year && t.month == u.month && u.day == t.day + 1 ==> DayNumber(u) == DayNumber(t) + 1
    ensures t.year == u.year && u.month == t.month + 1 && u.day == 1 && t.day == DaysIn(t.year, t.month) ==>
              DayNumber(u) == DayNumber(t) + 1
    ensures u.year == t.year + 1 && t.month == 12 && t.day == 31 && u.month == 1 && u.day == 1 ==>
              DayNumber(u) == DayNumber(t) + 1
  {
    hide DaysBeforeMonth;
    NextMonth(t.year, t.month);
    NextMonth(t.year, 12);
    NextMonth(u.year, 1);
  }
}
