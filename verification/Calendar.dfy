/** Transaction dates, and the two spellings the pipeline orders them by. */
module Calendar {
  import opened Prelude
  import opened Numerals
  import opened Division

  datatype RawDate = RawDate(year: nat, month: nat, day: nat)

  predicate IsLeap(year: nat) {
    year % 4 == 0 && (year % 100 != 0 || year % 400 == 0)
  }

  function DaysIn(year: nat, month: nat): nat {
    if month == 2 then if IsLeap(year) then 29 else 28
    else if month == 4 || month == 6 || month == 9 || month == 11 then 30
    else 31
  }

  /** A day of the calendar whose midnight a nanosecond timestamp can hold. */
  predicate IsDay(d: RawDate) {
    && 1 <= d.month <= 12 && 1 <= d.day <= DaysIn(d.year, d.month)
    && 16770922 <= d.year * 10000 + d.month * 100 + d.day <= 22620411
  }

  type Date = d: RawDate | IsDay(d) witness RawDate(2000, 1, 1)

  predicate Before(a: Date, b: Date) {
    a.year < b.year || (a.year == b.year && (a.month < b.month || (a.month == b.month && a.day < b.day)))
  }

  /** `%Y%m%d` as an integer. */
  function DateSK(d: Date): int {
    d.year * 10000 + d.month * 100 + d.day
  }

  function Two(n: nat): string
    requires n < 100
  {
    [DIGITS[n / 10], DIGITS[n % 10]]
  }

  /** `%Y-%m-%d`. */
  function IsoText(d: Date): string {
    Two(d.year / 100) + (Two(d.year % 100) + ("-" + (Two(d.month) + ("-" + Two(d.day)))))
  }

  lemma {:induction false} DigitOrder(a: nat, b: nat)
    requires a < 10 && b < 10
    ensures DIGITS[a] < DIGITS[b] <==> a < b
  {
  }

  lemma {:induction false} LessHead(c: char, d: char, s: string, t: string)
    ensures Less([c] + s, [d] + t) <==> c < d || (c == d && Less(s, t))
  {
    assert ([c] + s)[1..] == s && ([d] + t)[1..] == t;
  }

  lemma {:induction false} LessTwo(a: nat, b: nat, s: string, t: string)
    requires a < 100 && b < 100
    ensures Less(Two(a) + s, Two(b) + t) <==> a < b || (a == b && Less(s, t))
  {
    DigitOrder(a / 10, b / 10);
    DigitOrder(b / 10, a / 10);
    DigitOrder(a % 10, b % 10);
    DigitOrder(b % 10, a % 10);
    assert Two(a) + s == [DIGITS[a / 10]] + ([DIGITS[a % 10]] + s);
    assert Two(b) + t == [DIGITS[b / 10]] + ([DIGITS[b % 10]] + t);
    LessHead(DIGITS[a / 10], DIGITS[b / 10], [DIGITS[a % 10]] + s, [DIGITS[b % 10]] + t);
    LessHead(DIGITS[a % 10], DIGITS[b % 10], s, t);
  }

  /** Text order, key order and calendar order are one order. */
  lemma {:induction false} OrdersCoincide(a: Date, b: Date)
    ensures Less(IsoText(a), IsoText(b)) <==> Before(a, b)
    ensures DateSK(a) < DateSK(b) <==> Before(a, b)
  {
    var dayA, dayB := Two(a.day), Two(b.day);
    assert dayA + "" == dayA && dayB + "" == dayB;
    LessTwo(a.day, b.day, "", "");
    LessHead('-', '-', dayA, dayB);
    LessTwo(a.month, b.month, "-" + dayA, "-" + dayB);
    LessHead('-', '-', Two(a.month) + ("-" + dayA), Two(b.month) + ("-" + dayB));
    LessTwo(a.year % 100, b.year % 100, "-" + (Two(a.month) + ("-" + dayA)), "-" + (Two(b.month) + ("-" + dayB)));
    LessTwo(a.year / 100, b.year / 100,
      Two(a.year % 100) + ("-" + (Two(a.month) + ("-" + dayA))),
      Two(b.year % 100) + ("-" + (Two(b.month) + ("-" + dayB))));
  }

  // ---- The two spellings are the date's digits --------------------------------------------

  lemma {:induction false} ValueOfTwo(n: nat)
    requires n < 100
    ensures |Two(n)| == 2 && Value(Two(n)) == n
  {
    var s := Two(n);
    DigitsInOrder(n / 10);
    DigitsInOrder(n % 10);
    assert s[..1] == [DIGITS[n / 10]] && s[..1][..0] == "";
    assert Value(s[..1]) == n / 10;
  }

  lemma {:induction false} ValueOfFour(n: nat)
    requires n < 10000
    ensures Value(Two(n / 100) + Two(n % 100)) == n
  {
    var high, low := n / 100, n % 100;
    var s := Two(high) + Two(low);
    ValueOfTwo(high);
    DigitsInOrder(low / 10);
    DigitsInOrder(low % 10);
    assert s[..3][..2] == Two(high) && s[..4] == s;
    assert Value(s[..3]) == 10 * high + low / 10;
  }

  lemma {:induction false} KeyDigits(year: nat, month: nat, day: nat)
    requires month < 100 && day < 100
    ensures var key := year * 10000 + month * 100 + day;
            key / 10000 == year && key / 100 % 100 == month && key % 100 == day
  {
    var key := year * 10000 + month * 100 + day;
    QuotientIs(key, 10000, year, month * 100 + day);
    QuotientIs(key, 100, year * 100 + month, day);
    QuotientIs(year * 100 + month, 100, year, month);
  }

  lemma {:induction false} TextSlices(d: Date)
    ensures var text := IsoText(d);
            && |text| == 10 && text[4] == text[7] == '-'
            && text[..4] == Two(d.year / 100) + Two(d.year % 100)
            && text[5..7] == Two(d.month) && text[8..] == Two(d.day)
  {
  }

  /** A date's key holds its year, month and day, the last two in two digits each. */
  lemma {:induction false} KeyHoldsTheDate(d: Date)
    ensures DateSK(d) / 10000 == d.year && DateSK(d) / 100 % 100 == d.month && DateSK(d) % 100 == d.day
  {
    KeyDigits(d.year, d.month, d.day);
  }

  /** So does its text, in four, two and two digits between hyphens. */
  lemma {:induction false} TextHoldsTheDate(d: Date, text: string)
    requires text == IsoText(d)
    ensures |text| == 10 && text[4] == text[7] == '-'
    ensures Value(text[..4]) == d.year && Value(text[5..7]) == d.month && Value(text[8..]) == d.day
  {
    TextSlices(d);
    ValueOfFour(d.year);
    ValueOfTwo(d.month);
    ValueOfTwo(d.day);
  }
}
