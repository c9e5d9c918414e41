/**
 * The Adapter example: an age calculator that reads dates as `Y-M-D` text,
 * and an adapter in front of it that takes calendar dates instead, writing
 * them out as `Y-M-D` text for the calculator.
 */
module Age {
  import opened Common
  import opened PyStr

  // ---------------------------------------------------------------------------
  // Decimal numbers as text

  predicate IsDigit(c: char) {
    '0' <= c <= '9'
  }

  predicate AllDigits(s: string) {
    forall k :: 0 <= k < |s| ==> IsDigit(s[k])
  }

  function DigitOf(c: char): nat
    requires IsDigit(c)
  {
    c as int - '0' as int
  }

  function Digit(n: nat): (c: char)
    requires n < 10
    ensures IsDigit(c) && DigitOf(c) == n
  {
    ('0' as int + n) as char
  }

  /** The number a string of decimal digits stands for. */
  function Value(s: string): nat
    requires AllDigits(s)
    decreases |s|
  {
    if s == [] then 0 else Value(s[..|s| - 1]) * 10 + DigitOf(s[|s| - 1])
  }

  /** `int(x)` for text: surrounding whitespace, an optional sign, then decimal
      digits; anything else is a `ValueError`, here `None`. */
  function ParseInt(x: string): Option<int> {
    var t := Strip(x);
    var signed := |t| > 0 && (t[0] == '+' || t[0] == '-');
    var body := if signed then t[1..] else t;
    if body != [] && AllDigits(body) then
      var v: int := Value(body);
      Some(if signed && t[0] == '-' then -v else v)
    else
      None
  }

  /** `n` in decimal, with leading zeros up to `width` characters. */
  function Decimal(n: nat, width: nat): string
    decreases n, width
  {
    if n < 10 && width <= 1 then [Digit(n)]
    else Decimal(n / 10, if width == 0 then 0 else width - 1) + [Digit(n % 10)]
  }

  function Pow10(k: nat): nat {
    if k == 0 then 1 else 10 * Pow10(k - 1)
  }

  /** Reading back a decimal rendering gives the number. */
  lemma {:induction false} DecimalValue(n: nat, width: nat)
    ensures |Decimal(n, width)| >= 1
    ensures AllDigits(Decimal(n, width))
    ensures Value(Decimal(n, width)) == n
    decreases n, width
  {
    if !(n < 10 && width <= 1) {
      var w := if width == 0 then 0 else width - 1;
      var p := Decimal(n / 10, w);
      DecimalValue(n / 10, w);
      var s := p + [Digit(n % 10)];
      assert s[..|s| - 1] == p;
    }
  }

  /** A number below `10^width` takes exactly `width` characters. */
  lemma {:induction false} DecimalWidth(n: nat, width: nat)
    requires width >= 1 && n < Pow10(width)
    ensures |Decimal(n, width)| == width
    decreases width
  {
    if !(n < 10 && width <= 1) {
      assert width >= 2;
      assert n / 10 < Pow10(width - 1);
      DecimalWidth(n / 10, width - 1);
    }
  }

  /** `int` reads a decimal rendering back. */
  lemma ParseDecimal(n: nat, width: nat)
    ensures ParseInt(Decimal(n, width)) == Some(n)
  {
    var s := Decimal(n, width);
    DecimalValue(n, width);
    assert IsDigit(s[0]) && IsDigit(s[|s| - 1]);
    StripFixed(s);
  }

  lemma DigitsHaveNo(s: string, c: char)
    requires AllDigits(s) && !IsDigit(c)
    ensures c !in s
  {
  }

  // ---------------------------------------------------------------------------
  // Dates as text

  /** A year, month and day as the calculator holds them. */
  datatype Ymd = Ymd(year: int, month: int, day: int)

  /** Why a date text could not be read. */
  datatype ParseError =
    | NotAnInteger(field: string)  // `int(x)` failed
    | NotEnoughValues(got: nat)    // fewer than three fields to unpack
    | TooManyValues                // more than three fields to unpack

  /** The first field of `fs` that `int` rejects. */
  function FirstBad(fs: seq<string>): (r: Option<string>)
    ensures r.None? <==> forall k :: 0 <= k < |fs| ==> ParseInt(fs[k]).Some?
    ensures r.Some? ==> exists k :: 0 <= k < |fs| && fs[k] == r.value && ParseInt(fs[k]).None? &&
                                    forall j :: 0 <= j < k ==> ParseInt(fs[j]).Some?
    decreases |fs|
  {
    if fs == [] then None
    else if ParseInt(fs[0]).None? then Some(fs[0])
    else
      var r := FirstBad(fs[1..]);
      assert forall k :: 0 < k < |fs| ==> fs[k] == fs[1..][k - 1];
      r
  }

  /**
   * `year, month, day = (int(x) for x in s.split('-'))`.  Unpacking pulls at
   * most four values out of the generator, converting each as it goes, so an
   * unreadable field among the first four is reported before a wrong count.
   */
  function ParseDate(s: string): (r: Result<Ymd, ParseError>)
    ensures r.Ok? <==> |Split(s, '-')| == 3 && forall k :: 0 <= k < 3 ==> ParseInt(Split(s, '-')[k]).Some?
    ensures r.Ok? ==> r.value == Ymd(ParseInt(Split(s, '-')[0]).value,
                                     ParseInt(Split(s, '-')[1]).value,
                                     ParseInt(Split(s, '-')[2]).value)
    ensures r.Err? && r.error.NotEnoughValues? ==> r.error.got == |Split(s, '-')| < 3
    ensures r.Err? && r.error.TooManyValues? ==> |Split(s, '-')| > 3
  {
    var fields := Split(s, '-');
    var pulled := if |fields| <= 4 then fields else fields[..4];
    match FirstBad(pulled)
    case Some(f) => Err(NotAnInteger(f))
    case None =>
      if |fields| < 3 then Err(NotEnoughValues(|fields|))
      else if |fields| > 3 then Err(TooManyValues)
      else Ok(Ymd(ParseInt(fields[0]).value, ParseInt(fields[1]).value, ParseInt(fields[2]).value))
  }

  /** Which error reading raises: the first unreadable field among the first four
      pulled, else "not enough values" below three fields and "too many values"
      above. */
  lemma ParseDateRaises(s: string)
    ensures var fs := Split(s, '-');
      |fs| < 3 && (forall k :: 0 <= k < |fs| ==> ParseInt(fs[k]).Some?) ==>
        ParseDate(s) == Err(NotEnoughValues(|fs|))
    ensures var fs := Split(s, '-');
      |fs| > 3 && (forall k :: 0 <= k < 4 ==> ParseInt(fs[k]).Some?) ==>
        ParseDate(s) == Err(TooManyValues)
    ensures var fs := Split(s, '-');
      forall i :: 0 <= i < |fs| && i < 4 && ParseInt(fs[i]).None? &&
                  (forall j :: 0 <= j < i ==> ParseInt(fs[j]).Some?) ==>
        ParseDate(s) == Err(NotAnInteger(fs[i]))
  {
    var fs := Split(s, '-');
    var pulled := if |fs| <= 4 then fs else fs[..4];
    assert forall k :: 0 <= k < |pulled| ==> pulled[k] == fs[k];
    forall i | 0 <= i < |fs| && i < 4 && ParseInt(fs[i]).None? && (forall j :: 0 <= j < i ==> ParseInt(fs[j]).Some?)
      ensures ParseDate(s) == Err(NotAnInteger(fs[i]))
    {
      FirstBadIsFirst(pulled, i);
    }
  }

  /** `FirstBad` names the earliest unreadable field. */
  lemma {:induction false} FirstBadIsFirst(fs: seq<string>, i: nat)
    requires i < |fs| && ParseInt(fs[i]).None? && forall j :: 0 <= j < i ==> ParseInt(fs[j]).Some?
    ensures FirstBad(fs) == Some(fs[i])
    decreases i
  {
    if i > 0 {
      assert ParseInt(fs[0]).Some?;
      FirstBadIsFirst(fs[1..], i - 1);
    }
  }

  // ---------------------------------------------------------------------------
  // Ages

  /** `(m1, d1) < (m2, d2)` on Python tuples. */
  predicate PairLess(m1: int, d1: int, m2: int, d2: int) {
    m1 < m2 || (m1 == m2 && d1 < d2)
  }

  /** `a <= b` on `(year, month, day)` tuples. */
  predicate DateLe(a: Ymd, b: Ymd) {
    a.year < b.year || (a.year == b.year && !PairLess(b.month, b.day, a.month, a.day))
  }

  /** The age on `date` of someone born on `birth`: the difference of the years,
      less one while this year's birthday is still to come. */
  function AgeOn(birth: Ymd, date: Ymd): int {
    var age := date.year - birth.year;
    if PairLess(date.month, date.day, birth.month, birth.day) then age - 1 else age
  }

  /** The `j`-th birthday. */
  function Anniversary(birth: Ymd, j: int): Ymd {
    Ymd(birth.year + j, birth.month, birth.day)
  }

  /** The age is the number of the last birthday reached: every earlier birthday is
      on or before the date, every later one after it. */
  lemma AgeCountsBirthdays(birth: Ymd, date: Ymd)
    ensures forall j :: DateLe(Anniversary(birth, j), date) <==> j <= AgeOn(birth, date)
  {
    forall j ensures DateLe(Anniversary(birth, j), date) <==> j <= AgeOn(birth, date) {
      if PairLess(date.month, date.day, birth.month, birth.day) {
        assert DateLe(Anniversary(birth, j), date) <==> birth.year + j < date.year;
      } else {
        assert DateLe(Anniversary(birth, j), date) <==> birth.year + j <= date.year;
      }
    }
  }

  /** On the birthday itself the age is the difference of the years, because the
      comparison is strict; on the birth date it is 0. */
  lemma AgeOnBirthday(birth: Ymd, year: int)
    ensures AgeOn(birth, Anniversary(birth, year - birth.year)) == year - birth.year
    ensures AgeOn(birth, birth) == 0
  {
  }

  lemma DateLeTrans(a: Ymd, b: Ymd, c: Ymd)
    requires DateLe(a, b) && DateLe(b, c)
    ensures DateLe(a, c)
  {
  }

  /** A later date never gives a lower age. */
  lemma AgeMonotonic(birth: Ymd, d1: Ymd, d2: Ymd)
    requires DateLe(d1, d2)
    ensures AgeOn(birth, d1) <= AgeOn(birth, d2)
  {
    AgeCountsBirthdays(birth, d1);
    AgeCountsBirthdays(birth, d2);
    var a := Anniversary(birth, AgeOn(birth, d1));
    assert DateLe(a, d1);
    DateLeTrans(a, d1, d2);
  }

  /** Born on 12 January 1975, as in the module's example: 48 the day before the
      2024 birthday, 49 on it. */
  lemma AgeExample()
    ensures AgeOn(Ymd(1975, 1, 12), Ymd(2024, 1, 11)) == 48
    ensures AgeOn(Ymd(1975, 1, 12), Ymd(2024, 1, 12)) == 49
  {
  }

  // ---------------------------------------------------------------------------
  // The calculator and the adapter

  /** `AgeCalculator`: the birthday's three fields. */
  datatype AgeCalculator = AgeCalculator(year: int, month: int, day: int)

  /** `AgeCalculator(birthday)`: fails as reading the text fails. */
  function NewAgeCalculator(birthday: string): (r: Result<AgeCalculator, ParseError>)
    ensures r.Ok? <==> ParseDate(birthday).Ok?
    ensures r.Ok? ==> Ymd(r.value.year, r.value.month, r.value.day) == ParseDate(birthday).value
  {
    match ParseDate(birthday)
    case Err(e) => Err(e)
    case Ok(b) => Ok(AgeCalculator(b.year, b.month, b.day))
  }

  /** `calculate_age(date)` */
  function CalculateAge(c: AgeCalculator, date: string): (r: Result<int, ParseError>)
    ensures r.Ok? <==> ParseDate(date).Ok?
    ensures r.Ok? ==> r.value == AgeOn(Ymd(c.year, c.month, c.day), ParseDate(date).value)
  {
    match ParseDate(date)
    case Err(e) => Err(e)
    case Ok(d) =>
      var age := d.year - c.year;
      if PairLess(d.month, d.day, c.month, c.day) then Ok(age - 1) else Ok(age)
  }

  function DaysIn(year: nat, month: nat): nat {
    if month == 2 then (if year % 4 == 0 && (year % 100 != 0 || year % 400 == 0) then 29 else 28)
    else if month in {4, 6, 9, 11} then 30
    else 31
  }

  /** A `datetime.date`: year 1 to 9999, month 1 to 12, a day of that month. */
  datatype CalendarDate = CalendarDate(year: nat, month: nat, day: nat)

  type Date = d: CalendarDate | 1 <= d.year <= 9999 && 1 <= d.month <= 12 && 1 <= d.day <= DaysIn(d.year, d.month)
    witness CalendarDate(1, 1, 1)

  /** `_str_date`: `strftime("%Y-%m-%d")`, the fields zero-padded to 4, 2 and 2 digits. */
  function StrDate(d: Date): string {
    Decimal(d.year, 4) + "-" + Decimal(d.month, 2) + "-" + Decimal(d.day, 2)
  }

  function Fields(d: Date): Ymd {
    Ymd(d.year, d.month, d.day)
  }

  /** The text has the widths `%Y-%m-%d` promises, and reading it back gives the date. */
  lemma StrDateParses(d: Date)
    ensures |StrDate(d)| == 10
    ensures ParseDate(StrDate(d)) == Ok(Fields(d))
  {
    DecimalWidth(d.year, 4);
    DecimalWidth(d.month, 2);
    DecimalWidth(d.day, 2);
    DecimalField(d.year, 4);
    DecimalField(d.month, 2);
    DecimalField(d.day, 2);
    ParseThree(Decimal(d.year, 4), Decimal(d.month, 2), Decimal(d.day, 2));
  }

  lemma DecimalField(n: nat, width: nat)
    ensures '-' !in Decimal(n, width)
    ensures ParseInt(Decimal(n, width)) == Some(n)
  {
    DecimalValue(n, width);
    DigitsHaveNo(Decimal(n, width), '-');
    ParseDecimal(n, width);
  }

  /** Three readable fields without `-`, joined by `-`, read as a date. */
  lemma ParseThree(a: string, b: string, c: string)
    requires '-' !in a && '-' !in b && '-' !in c
    requires ParseInt(a).Some? && ParseInt(b).Some? && ParseInt(c).Some?
    ensures ParseDate(a + "-" + b + "-" + c) == Ok(Ymd(ParseInt(a).value, ParseInt(b).value, ParseInt(c).value))
  {
    SplitThree(a, b, c, '-');
  }

  /** `DateAgeAdapter`: the calculator built from the birthday's text. */
  datatype DateAgeAdapter = DateAgeAdapter(calculator: AgeCalculator)

  /** `DateAgeAdapter(birthday)` */
  function NewDateAgeAdapter(birthday: Date): Result<DateAgeAdapter, ParseError> {
    match NewAgeCalculator(StrDate(birthday))
    case Err(e) => Err(e)
    case Ok(c) => Ok(DateAgeAdapter(c))
  }

  /** `get_age(date)` */
  function GetAge(a: DateAgeAdapter, date: Date): Result<int, ParseError> {
    CalculateAge(a.calculator, StrDate(date))
  }

  /** The adapter never fails on calendar dates, and its answer is the calculator's
      on the two dates' fields. */
  lemma AdapterAge(birthday: Date, date: Date)
    ensures NewDateAgeAdapter(birthday).Ok?
    ensures GetAge(NewDateAgeAdapter(birthday).value, date) == Ok(AgeOn(Fields(birthday), Fields(date)))
  {
    StrDateParses(birthday);
    StrDateParses(date);
  }
}
