/** Civil dates from epoch seconds (build.rs:58-82, crates/radixdb-functions/build.rs:32-55).

The build scripts convert a day count with a closed form built from divisions. It is proved to
be day-by-day counting in the Gregorian calendar of RFC 3339 (sections 5.6 and 5.7, Appendix C).
*/
module CivilDate {
  import opened Common
  import Decimal

  datatype Date = Date(year: int, month: int, day: int)

  datatype Stamp = Stamp(date: Date, hour: int, minute: int, second: int)

  // ---------------------------------------------------------------- the two build scripts

  function CivilFromDays(days: nat): Date {
    var z := days + 719468;
    var era := z / 146097;
    var doe := z % 146097;
    var yoe := (doe - doe / 1460 + doe / 36524 - doe / 146096) / 365;
    var y := yoe + era * 400;
    var doy := doe - (365 * yoe + yoe / 4 - yoe / 100);
    var mp := (5 * doy + 2) / 153;
    var d := doy - (153 * mp + 2) / 5 + 1;
    var m := if mp < 10 then mp + 3 else mp - 9;
    Date(if m <= 2 then y + 1 else y, m, d)
  }

  function Pad(n: int, width: nat): string {
    Zeros(width - |Decimal.Signed(n)|) + Decimal.Signed(n)
  }

  function Zeros(n: int): string {
    if n <= 0 then "" else "0" + Zeros(n - 1)
  }

  function Render(s: Stamp): string {
    Pad(s.date.year, 4) + "-" + Pad(s.date.month, 2) + "-" + Pad(s.date.day, 2) + "T"
    + Pad(s.hour, 2) + ":" + Pad(s.minute, 2) + ":" + Pad(s.second, 2) + "Z"
  }

  /** `chrono_free_timestamp` before formatting. */
  function StampOf(secs: nat): Stamp {
    var timeOfDay := secs % 86400;
    Stamp(CivilFromDays(secs / 86400), timeOfDay / 3600, timeOfDay % 3600 / 60, timeOfDay % 60)
  }

  /** `utc_timestamp`, the second copy, before formatting. */
  function UtcStampOf(seconds: nat): Stamp {
    var days := seconds / 86400;
    var time := seconds % 86400;
    var z := days + 719468;
    var era := z / 146097;
    var doe := z % 146097;
    var yoe := (doe - doe / 1460 + doe / 36524 - doe / 146096) / 365;
    var year := yoe + era * 400;
    var dayOfYear := doe - (365 * yoe + yoe / 4 - yoe / 100);
    var monthPrime := (5 * dayOfYear + 2) / 153;
    var day := dayOfYear - (153 * monthPrime + 2) / 5 + 1;
    var month := if monthPrime < 10 then monthPrime + 3 else monthPrime - 9;
    Stamp(Date(if month <= 2 then year + 1 else year, month, day), time / 3600, time % 3600 / 60, time % 60)
  }

  // ---------------------------------------------------------------- the calendar

  predicate Leap(year: int) {
    year % 4 == 0 && (year % 100 != 0 || year % 400 == 0)
  }

  function DaysInMonth(year: int, month: int): int {
    if month == 2 then (if Leap(year) then 29 else 28)
    else if month == 4 || month == 6 || month == 9 || month == 11 then 30
    else 31
  }

  predicate ValidDate(d: Date) {
    1 <= d.month <= 12 && 1 <= d.day <= DaysInMonth(d.year, d.month)
  }

  function NextDay(d: Date): Date {
    if d.day < DaysInMonth(d.year, d.month) then d.(day := d.day + 1)
    else if d.month < 12 then Date(d.year, d.month + 1, 1)
    else Date(d.year + 1, 1, 1)
  }

  /** The date `days` days after 1970-01-01, counted one by one. */
  function CountedDate(days: nat): Date {
    if days == 0 then Date(1970, 1, 1) else NextDay(CountedDate(days - 1))
  }

  // ---------------------------------------------------------------- years that start in March

  function DaysBefore(y: nat): nat {
    365 * y + y / 4 - y / 100 + y / 400
  }

  /** Days of the year that starts on 1 March of `y`; its February lies in `y + 1`. */
  function MarchYearLength(y: nat): nat {
    if Leap(y + 1) then 366 else 365
  }

  lemma Next4(y: nat)
    ensures (y + 1) / 4 == y / 4 + if (y + 1) % 4 == 0 then 1 else 0
  {
  }

  lemma Next100(y: nat)
    ensures (y + 1) / 100 == y / 100 + if (y + 1) % 100 == 0 then 1 else 0
    ensures (y + 1) % 100 == 0 ==> (y + 1) % 4 == 0
  {
  }

  lemma Next400(y: nat)
    ensures (y + 1) / 400 == y / 400 + if (y + 1) % 400 == 0 then 1 else 0
    ensures (y + 1) % 400 == 0 ==> (y + 1) % 100 == 0
  {
  }

  lemma MarchYearsFollow(y: nat)
    ensures DaysBefore(y + 1) == DaysBefore(y) + MarchYearLength(y)
  {
    Next4(y);
    Next100(y);
    Next400(y);
  }

  lemma {:induction false} MarchYearsApart(a: nat, b: nat)
    ensures a < b ==> DaysBefore(a) + MarchYearLength(a) <= DaysBefore(b)
    decreases b
  {
    if a < b {
      MarchYearsFollow(b - 1);
      MarchYearsApart(a, b - 1);
    }
  }

  /** A day count lies in exactly one March year. */
  lemma MarchYearUnique(a: nat, i: nat, b: nat, j: nat)
    requires DaysBefore(a) + i == DaysBefore(b) + j
    requires i < MarchYearLength(a) && j < MarchYearLength(b)
    ensures a == b && i == j
  {
    MarchYearsApart(a, b);
    MarchYearsApart(b, a);
  }

  // ---------------------------------------------------------------- the closed form finds the March year

  /** Years in a 400-year era: `c` centuries, `q` four-year blocks, and `s` days into a block. */
  function YearOfEra(doe: nat): nat
    requires doe < 146097
  {
    (doe - doe / 1460 + doe / 36524 - doe / 146096) / 365
  }

  lemma YearOfEraInBlock(c: nat, q: nat, s: nat)
    requires c <= 3 && q <= 24 && s <= 1460 && (q == 24 && c < 3 ==> s < 1460)
    ensures var doe := 36524 * c + 1461 * q + s;
            doe < 146097 && YearOfEra(doe) == 100 * c + 4 * q + if s / 365 < 3 then s / 365 else 3
  {
    var doe := 36524 * c + 1461 * q + s;
    var e := (24 * c + q + s) / 1460;
    assert doe / 1460 == 25 * c + q + e by {
      assert doe == 1460 * (25 * c + q) + (24 * c + q + s);
    }
    if doe < 146096 {
      assert doe / 36524 == c by { assert 0 <= 1461 * q + s < 36524; }
      assert doe / 146096 == 0;
      assert YearOfEra(doe) == (36500 * c + 1460 * q + s - e) / 365;
      assert (36500 * c + 1460 * q + s - e) == 365 * (100 * c + 4 * q) + (s - e);
    }
  }

  lemma BlockStart(c: nat, q: nat, k: nat)
    requires c <= 3 && q <= 24 && k <= 3
    ensures var y := 100 * c + 4 * q + k;
            EraYearStart(y) == 36524 * c + 1461 * q + 365 * k
  {
    var y := 100 * c + 4 * q + k;
    assert y / 4 == 25 * c + q;
    assert y / 100 == c;
  }

  lemma Shift4(k: int, x: int)
    ensures (4 * k + x) / 4 == k + x / 4 && (4 * k + x) % 4 == x % 4
  {
  }

  lemma Shift100(k: int, x: int)
    ensures (100 * k + x) / 100 == k + x / 100 && (100 * k + x) % 100 == x % 100
  {
  }

  lemma Shift400(k: int, x: int)
    ensures (400 * k + x) / 400 == k + x / 400 && (400 * k + x) % 400 == x % 400
  {
  }

  /** Eras repeat: the same year of another era starts a multiple of 146097 days later. */
  lemma EraShift(era: nat, doe: nat, yoe: nat)
    requires yoe < 400 && EraYearStart(yoe) <= doe < EraYearStart(yoe) + MarchYearLength(yoe)
    ensures var y := 400 * era + yoe;
            && DaysBefore(y) + doe - EraYearStart(yoe) == 146097 * era + doe
            && doe - EraYearStart(yoe) < MarchYearLength(y)
  {
    Shift4(100 * era, yoe);
    Shift100(4 * era, yoe);
    Shift400(era, yoe);
    Shift4(100 * era, yoe + 1);
    Shift100(4 * era, yoe + 1);
    Shift400(era, yoe + 1);
  }

  lemma EraDecomposes(doe: nat) returns (c: nat, q: nat, s: nat)
    requires doe < 146097
    ensures doe == 36524 * c + 1461 * q + s
    ensures c <= 3 && q <= 24 && s <= 1460 && (q == 24 && c < 3 ==> s < 1460)
  {
    c := if doe / 36524 < 3 then doe / 36524 else 3;
    var r := doe - 36524 * c;
    assert 0 <= r && (c < 3 ==> r < 36524) && r <= 36524;
    q := if r / 1461 < 24 then r / 1461 else 24;
    s := r - 1461 * q;
  }

  function EraYearStart(y: nat): int {
    365 * y + y / 4 - y / 100
  }

  lemma YearOfEraFound(doe: nat)
    requires doe < 146097
    ensures var y := YearOfEra(doe);
            y < 400 && EraYearStart(y) <= doe < EraYearStart(y) + MarchYearLength(y)
  {
    var c, q, s := EraDecomposes(doe);
    YearOfEraInBlock(c, q, s);
    var k := if s / 365 < 3 then s / 365 else 3;
    BlockStart(c, q, k);
    LeapBlocks(c, q, k);
  }

  /** Only the last March year of a block can be leap, and only in some centuries. */
  lemma LeapBlocks(c: nat, q: nat, k: nat)
    requires c <= 3 && q <= 24 && k <= 3
    ensures Leap(100 * c + 4 * q + k + 1) <==> k == 3 && (q < 24 || c == 3)
  {
    var y := 100 * c + 4 * q + k + 1;
    assert y % 4 == (k + 1) % 4;
    if k == 3 {
      assert y == 100 * c + 4 * (q + 1);
      if q < 24 {
        assert y % 100 == 4 * (q + 1);
      } else {
        assert y == 100 * (c + 1);
      }
    }
  }

  // ---------------------------------------------------------------- months

  /** The closed form's month and day for day `doy` of a March year. */
  function MarchDate(y: int, doy: nat): Date {
    var mp := (5 * doy + 2) / 153;
    var m := if mp < 10 then mp + 3 else mp - 9;
    Date(if m <= 2 then y + 1 else y, m, doy - (153 * mp + 2) / 5 + 1)
  }

  /** Days before month `mp`, counted from March; 12 stands for the end of a leap February. */
  function MonthStart(mp: nat): nat {
    match mp
    case 0 => 0
    case 1 => 31
    case 2 => 61
    case 3 => 92
    case 4 => 122
    case 5 => 153
    case 6 => 184
    case 7 => 214
    case 8 => 245
    case 9 => 275
    case 10 => 306
    case 11 => 337
    case _ => 366
  }

  function MonthDate(y: int, mp: nat, day: int): Date {
    if mp < 10 then Date(y, mp + 3, day) else Date(y + 1, mp - 9, day)
  }

  lemma MonthStartFormula(mp: nat)
    requires mp <= 11
    ensures (153 * mp + 2) / 5 == MonthStart(mp)
  {
  }

  lemma MonthFound(doy: nat) returns (mp: nat)
    requires doy <= 365
    ensures mp == (5 * doy + 2) / 153 && mp <= 11 && MonthStart(mp) <= doy < MonthStart(mp + 1)
  {
    mp := (5 * doy + 2) / 153;
  }

  lemma MarchDateFound(y: nat, doy: nat) returns (mp: nat)
    requires doy <= 365
    ensures mp <= 11 && MonthStart(mp) <= doy < MonthStart(mp + 1)
    ensures MarchDate(y, doy) == MonthDate(y, mp, doy - MonthStart(mp) + 1)
  {
    mp := MonthFound(doy);
    MonthStartFormula(mp);
  }

  lemma MonthDateValid(y: nat, mp: nat, doy: nat)
    requires doy < MarchYearLength(y) && mp <= 11 && MonthStart(mp) <= doy < MonthStart(mp + 1)
    ensures ValidDate(MonthDate(y, mp, doy - MonthStart(mp) + 1))
  {
  }

  lemma MonthDateFollows(y: nat, mp: nat, doy: nat, mp': nat)
    requires doy + 1 < MarchYearLength(y)
    requires mp <= 11 && MonthStart(mp) <= doy < MonthStart(mp + 1)
    requires mp' <= 11 && MonthStart(mp') <= doy + 1 < MonthStart(mp' + 1)
    ensures NextDay(MonthDate(y, mp, doy - MonthStart(mp) + 1)) == MonthDate(y, mp', doy + 1 - MonthStart(mp') + 1)
  {
    assert mp' == if doy + 1 < MonthStart(mp + 1) then mp else mp + 1;
  }

  lemma LastDayFollows(y: nat, mp: nat, doy: nat)
    requires doy + 1 == MarchYearLength(y)
    requires mp <= 11 && MonthStart(mp) <= doy < MonthStart(mp + 1)
    ensures NextDay(MonthDate(y, mp, doy - MonthStart(mp) + 1)) == MonthDate(y + 1, 0, 1)
  {
    assert mp == 11;
  }

  lemma MarchDateValid(y: nat, doy: nat)
    requires doy < MarchYearLength(y)
    ensures ValidDate(MarchDate(y, doy))
  {
    var mp := MarchDateFound(y, doy);
    MonthDateValid(y, mp, doy);
  }

  lemma MarchDateFollows(y: nat, doy: nat)
    requires doy < MarchYearLength(y)
    ensures NextDay(MarchDate(y, doy)) ==
              if doy + 1 < MarchYearLength(y) then MarchDate(y, doy + 1) else MarchDate(y + 1, 0)
  {
    var mp := MarchDateFound(y, doy);
    if doy + 1 < MarchYearLength(y) {
      var mp' := MarchDateFound(y, doy + 1);
      MonthDateFollows(y, mp, doy, mp');
    } else {
      LastDayFollows(y, mp, doy);
    }
  }

  // ---------------------------------------------------------------- the theorem

  /** The closed form in terms of the era, the day of era and the year of era. */
  function FromEra(era: nat, doe: nat, yoe: nat): Date
    requires EraYearStart(yoe) <= doe
  {
    MarchDate(400 * era + yoe, doe - EraYearStart(yoe))
  }

  lemma CivilIsFromEra(days: nat) returns (era: nat, doe: nat, yoe: nat)
    ensures 146097 * era + doe == days + 719468
    ensures yoe < 400 && EraYearStart(yoe) <= doe < EraYearStart(yoe) + MarchYearLength(yoe)
    ensures CivilFromDays(days) == FromEra(era, doe, yoe)
  {
    var z := days + 719468;
    era, doe := z / 146097, z % 146097;
    yoe := YearOfEra(doe);
    YearOfEraFound(doe);
  }

  /** The closed form's year and day of year are the March year the day lies in. */
  lemma CivilIsMarchDate(days: nat) returns (y: nat, doy: nat)
    ensures DaysBefore(y) + doy == days + 719468 && doy < MarchYearLength(y)
    ensures CivilFromDays(days) == MarchDate(y, doy)
  {
    var era, doe, yoe := CivilIsFromEra(days);
    EraShift(era, doe, yoe);
    y, doy := 400 * era + yoe, doe - EraYearStart(yoe);
  }

  lemma MarchSuccessor(y: nat, doy: nat, y': nat, doy': nat)
    requires doy < MarchYearLength(y) && doy' < MarchYearLength(y')
    requires DaysBefore(y) + doy + 1 == DaysBefore(y') + doy'
    ensures NextDay(MarchDate(y, doy)) == MarchDate(y', doy')
  {
    MarchDateFollows(y, doy);
    MarchYearsFollow(y);
    if doy + 1 < MarchYearLength(y) {
      MarchYearUnique(y, doy + 1, y', doy');
    } else {
      MarchYearUnique(y + 1, 0, y', doy');
    }
  }

  /** Day n + 1 is the calendar successor of day n, and both are valid dates. */
  lemma CivilSuccessor(days: nat)
    ensures ValidDate(CivilFromDays(days))
    ensures CivilFromDays(days + 1) == NextDay(CivilFromDays(days))
  {
    var y, doy := CivilIsMarchDate(days);
    var y', doy' := CivilIsMarchDate(days + 1);
    MarchDateValid(y, doy);
    MarchSuccessor(y, doy, y', doy');
  }

  ghost predicate CountsUp(f: nat -> Date) {
    f(0) == Date(1970, 1, 1) && forall n: nat :: StepsAt(f, n)
  }

  ghost predicate StepsAt(f: nat -> Date, n: nat) {
    f(n + 1) == NextDay(f(n))
  }

  lemma {:induction false} CountingIsUnique(f: nat -> Date, days: nat)
    requires CountsUp(f)
    ensures f(days) == CountedDate(days)
    decreases days
  {
    if days > 0 {
      CountingIsUnique(f, days - 1);
      assert StepsAt(f, days - 1);
    }
  }

  lemma CivilDayZero()
    ensures CivilFromDays(0) == Date(1970, 1, 1)
  {
    assert 719468 / 146097 == 4 && 719468 % 146097 == 135080;
  }

  lemma CivilStepsAt(n: nat)
    ensures StepsAt(CivilFromDays, n)
  {
    CivilSuccessor(n);
  }

  lemma CivilCountsUp()
    ensures CountsUp(CivilFromDays)
  {
    CivilDayZero();
    forall n: nat ensures StepsAt(CivilFromDays, n) {
      CivilStepsAt(n);
    }
  }

  /** The closed form is day-by-day counting from 1970-01-01. */
  lemma ClosedFormCountsDays(days: nat)
    ensures CivilFromDays(days) == CountedDate(days)
  {
    CivilCountsUp();
    CountingIsUnique(CivilFromDays, days);
  }

  predicate ValidStamp(s: Stamp) {
    ValidDate(s.date) && 0 <= s.hour < 24 && 0 <= s.minute < 60 && 0 <= s.second < 60
  }

  /** Both build scripts give the counted date and the exact time of day, so no second is lost. */
  lemma StampsAreExact(secs: nat)
    ensures UtcStampOf(secs) == StampOf(secs)
    ensures ValidStamp(StampOf(secs)) && StampOf(secs).date == CountedDate(secs / 86400)
    ensures var s := StampOf(secs); secs == secs / 86400 * 86400 + 3600 * s.hour + 60 * s.minute + s.second
  {
    ClosedFormCountsDays(secs / 86400);
    CivilSuccessor(secs / 86400);
    TimeOfDay(secs % 86400);
    CopiesAgree(secs);
  }

  lemma CopiesAgree(secs: nat)
    ensures UtcStampOf(secs) == StampOf(secs)
  {
  }

  lemma TimeOfDay(t: nat)
    requires t < 86400
    ensures t == 3600 * (t / 3600) + 60 * (t % 3600 / 60) + t % 60
    ensures t / 3600 < 24 && t % 3600 / 60 < 60
  {
  }

  // ---------------------------------------------------------------- the rendered form

  lemma {:induction false} ZerosAreDigits(n: int)
    ensures AllDigits(Zeros(n)) && |Zeros(n)| == (if n <= 0 then 0 else n)
    decreases if n <= 0 then 0 else n
  {
    if n > 0 {
      ZerosAreDigits(n - 1);
    }
  }

  lemma {:induction false} LeadingZeros(n: nat, s: string)
    requires AllDigits(s)
    ensures AllDigits(Zeros(n) + s) && Decimal.Value(Zeros(n) + s) == Decimal.Value(s)
    decreases |s|
  {
    ZerosAreDigits(n);
    var t := Zeros(n) + s;
    if s == [] {
      assert t == Zeros(n);
      ZeroValue(n);
    } else {
      var init := s[..|s| - 1];
      assert t[..|t| - 1] == Zeros(n) + init && t[|t| - 1] == s[|s| - 1];
      LeadingZeros(n, init);
    }
  }

  lemma {:induction false} ZeroValue(n: nat)
    ensures AllDigits(Zeros(n)) && Decimal.Value(Zeros(n)) == 0
  {
    ZerosAreDigits(n);
    if n > 0 {
      ZeroValue(n - 1);
      ZeroLast(n);
      assert Zeros(n)[..|Zeros(n)| - 1] == Zeros(n - 1);
    }
  }

  lemma {:induction false} ZeroLast(n: nat)
    requires n > 0
    ensures Zeros(n) == Zeros(n - 1) + "0"
  {
    if n > 1 {
      ZeroLast(n - 1);
    }
  }

  /** A padded number has its width and reads back as itself. */
  lemma PaddedReadsBack(n: nat, width: nat)
    requires (width == 2 && n < 100) || (width == 4 && n < 10000)
    ensures |Pad(n, width)| == width && AllDigits(Pad(n, width)) && Decimal.Value(Pad(n, width)) == n
  {
    var digits := Decimal.Digits(n);
    assert |digits| <= width by {
      assert n < 10 ==> |digits| == 1;
      assert 10 <= n < 100 ==> |digits| == |Decimal.Digits(n / 10)| + 1;
      assert 100 <= n < 1000 ==> |digits| == |Decimal.Digits(n / 10)| + 1;
      assert 100 <= n < 1000 ==> |Decimal.Digits(n / 10)| == |Decimal.Digits(n / 10 / 10)| + 1;
      assert 1000 <= n < 10000 ==>
        && |digits| == |Decimal.Digits(n / 10)| + 1
        && |Decimal.Digits(n / 10)| == |Decimal.Digits(n / 10 / 10)| + 1
        && |Decimal.Digits(n / 10 / 10)| == |Decimal.Digits(n / 10 / 10 / 10)| + 1;
    }
    ZerosAreDigits(width - |digits|);
    LeadingZeros(width - |digits|, digits);
    Decimal.ValueOfDigits(n);
  }

  /** Up to the year 9999 the text is the 20-character `date-time` of RFC 3339 section 5.6, and
      every field can be read back from it. */
  lemma RenderedStampReadsBack(secs: nat)
    requires StampOf(secs).date.year <= 9999
    ensures var s := StampOf(secs);
            HasFields(Render(s), Pad(s.date.year, 4), Pad(s.date.month, 2), Pad(s.date.day, 2),
                      Pad(s.hour, 2), Pad(s.minute, 2), Pad(s.second, 2))
    ensures var s, text := StampOf(secs), Render(StampOf(secs));
            && |text| == 20 && AllDigits(text[..4]) && Decimal.Value(text[..4]) == s.date.year
            && AllDigits(text[5..7]) && Decimal.Value(text[5..7]) == s.date.month
            && AllDigits(text[8..10]) && Decimal.Value(text[8..10]) == s.date.day
            && AllDigits(text[11..13]) && Decimal.Value(text[11..13]) == s.hour
            && AllDigits(text[14..16]) && Decimal.Value(text[14..16]) == s.minute
            && AllDigits(text[17..19]) && Decimal.Value(text[17..19]) == s.second
  {
    StampsAreExact(secs);
    YearsStartIn1970(secs / 86400);
    StampReadsBack(StampOf(secs));
  }

  lemma StampReadsBack(s: Stamp)
    requires ValidStamp(s) && 0 <= s.date.year <= 9999
    ensures HasFields(Render(s), Pad(s.date.year, 4), Pad(s.date.month, 2), Pad(s.date.day, 2),
                      Pad(s.hour, 2), Pad(s.minute, 2), Pad(s.second, 2))
    ensures var text := Render(s);
            && |text| == 20 && AllDigits(text[..4]) && Decimal.Value(text[..4]) == s.date.year
            && AllDigits(text[5..7]) && Decimal.Value(text[5..7]) == s.date.month
            && AllDigits(text[8..10]) && Decimal.Value(text[8..10]) == s.date.day
            && AllDigits(text[11..13]) && Decimal.Value(text[11..13]) == s.hour
            && AllDigits(text[14..16]) && Decimal.Value(text[14..16]) == s.minute
            && AllDigits(text[17..19]) && Decimal.Value(text[17..19]) == s.second
  {
    PaddedReadsBack(s.date.year, 4);
    PaddedReadsBack(s.date.month, 2);
    PaddedReadsBack(s.date.day, 2);
    PaddedReadsBack(s.hour, 2);
    PaddedReadsBack(s.minute, 2);
    PaddedReadsBack(s.second, 2);
    FieldsInPlace(Pad(s.date.year, 4), Pad(s.date.month, 2), Pad(s.date.day, 2),
                  Pad(s.hour, 2), Pad(s.minute, 2), Pad(s.second, 2));
  }

  lemma {:induction false} YearsStartIn1970(days: nat)
    ensures CountedDate(days).year >= 1970
    decreases days
  {
    if days > 0 {
      YearsStartIn1970(days - 1);
    }
  }

  predicate HasFields(text: string, y: string, mo: string, d: string, h: string, mi: string, sec: string) {
    && |text| == 20 && text[4] == '-' && text[7] == '-' && text[10] == 'T'
    && text[13] == ':' && text[16] == ':' && text[19] == 'Z'
    && text[..4] == y && text[5..7] == mo && text[8..10] == d
    && text[11..13] == h && text[14..16] == mi && text[17..19] == sec
  }

  lemma FieldsInPlace(y: string, mo: string, d: string, h: string, mi: string, sec: string)
    requires |y| == 4 && |mo| == |d| == |h| == |mi| == |sec| == 2
    ensures HasFields(y + "-" + mo + "-" + d + "T" + h + ":" + mi + ":" + sec + "Z", y, mo, d, h, mi, sec)
  {
    var date := y + "-" + mo + "-" + d;
    var time := h + ":" + mi + ":" + sec + "Z";
    assert date[..4] == y && date[5..7] == mo && date[8..] == d && |date| == 10;
    assert time[..2] == h && time[3..5] == mi && time[6..8] == sec && |time| == 9;
    var text := y + "-" + mo + "-" + d + "T" + h + ":" + mi + ":" + sec + "Z";
    assert text == date + "T" + time;
    assert text[..4] == date[..4] && text[5..7] == date[5..7] && text[8..10] == date[8..];
    assert text[11..13] == time[..2] && text[14..16] == time[3..5] && text[17..19] == time[6..8];
  }
}
