/** The walk from the first month to the last, on the text of the keys: when it
    is the calendar, and what it does otherwise. */
module MonthWalk {
  import opened Decimal
  import opened Months

  // ------------------------------------------------------------- text of months

  /** The <= of JavaScript strings. */
  predicate LessEq(a: string, b: string) {
    a == "" || (b != "" && (a[0] < b[0] || (a[0] == b[0] && LessEq(a[1..], b[1..]))))
  }

  /** /^\d{4}-(0[1-9]|1[0-2])$/ */
  predicate IsKey(s: string) {
    && |s| == 7 && AllDigits(s[..4]) && s[4] == '-'
    && ((s[5] == '0' && '1' <= s[6] <= '9') || (s[5] == '1' && '0' <= s[6] <= '2'))
  }

  /** split('-') of digits, a dash and digits. */
  predicate IsMonth(s: string) {
    && DashAt(s) < |s| && AllDigits(s[..DashAt(s)]) && AllDigits(s[DashAt(s) + 1..])
  }

  function DashAt(s: string): (k: nat)
    ensures k <= |s|
  {
    if s == "" || s[0] == '-' then 0 else 1 + DashAt(s[1..])
  }

  function NextMonth(month: string): string
    requires IsMonth(month)
  {
    var year, number := Parse(month[..DashAt(month)]), Parse(month[DashAt(month) + 1..]);
    if number == 12 then Print(year + 1) + "-01" else Print(year) + "-" + Pad(Print(number + 1), 2)
  }

  const MONTH_NAMES: seq<string> := ["ene", "feb", "mar", "abr", "may", "jun", "jul", "ago", "sep", "oct", "nov", "dic"]

  /** The short Spanish name of a month text, or its number where there is none, and its year. */
  function MonthLabel(month: string): string {
    var year, number := month[..DashAt(month)], if DashAt(month) < |month| then month[DashAt(month) + 1..] else "";
    (if AllDigits(number) && 1 <= Parse(number) <= 12 then MONTH_NAMES[Parse(number) - 1] else number) + " " + year
  }

  // ---------------------------------------------------- months as numbers

  const MONTHS: nat := 120000   // "0000-01" to "9999-12"
  const LIMIT: nat := 99990 * 12

  function Number(n: nat): string {
    Pad(Print(n % 12 + 1), 2)
  }

  /** The key of month n, counted from January of year zero. */
  function Key(n: nat): string {
    Pad(Print(n / 12), 4) + "-" + Number(n)
  }

  /** How nextMonth writes month n: the year is not padded. */
  function Text(n: nat): string {
    Print(n / 12) + "-" + Number(n)
  }

  lemma {:induction false} DashAfter(year: string, number: string)
    requires AllDigits(year)
    ensures DashAt(year + "-" + number) == |year|
  {
    var s := year + "-" + number;
    if year != "" {
      DashAfter(year[1..], number);
      assert s[1..] == year[1..] + "-" + number;
      assert s[0] == year[0] && IsDigit(year[0]);
    } else {
      assert s[0] == '-';
    }
  }

  lemma NumberShape(n: nat)
    ensures AllDigits(Number(n)) && |Number(n)| == 2 && Parse(Number(n)) == n % 12 + 1
    ensures n % 12 == 0 ==> Number(n) == "01"
  {
    PrintWidth(n % 12 + 1, 2);
    ParsePad(n % 12 + 1, 2);
  }

  lemma PartsOf(year: string, n: nat)
    requires AllDigits(year)
    ensures var s := year + "-" + Number(n);
      && IsMonth(s) && s[..DashAt(s)] == year && s[DashAt(s) + 1..] == Number(n)
  {
    var s := year + "-" + Number(n);
    DashAfter(year, Number(n));
    NumberShape(n);
    assert s[..|year|] == year && s[|year| + 1..] == Number(n);
  }

  lemma Successor(n: nat)
    ensures Text(n + 1) == if n % 12 == 11 then Print(n / 12 + 1) + "-01" else Print(n / 12) + "-" + Pad(Print(n % 12 + 2), 2)
  {
    if n % 12 == 11 {
      assert (n + 1) / 12 == n / 12 + 1 && (n + 1) % 12 == 0;
      NumberShape(n + 1);
      assert Print(n / 12 + 1) + "-" + "01" == Print(n / 12 + 1) + "-01";
    } else {
      assert (n + 1) / 12 == n / 12 && (n + 1) % 12 == n % 12 + 1;
    }
  }

  lemma NextOf(year: string, n: nat)
    requires AllDigits(year) && Parse(year) == n / 12
    ensures var s := year + "-" + Number(n); IsMonth(s) && NextMonth(s) == Text(n + 1)
  {
    PartsOf(year, n);
    NumberShape(n);
    Successor(n);
  }

  /** Either way of writing month n is followed by its successor, unpadded. */
  lemma NextMonthSteps(month: string, n: nat)
    requires month == Key(n) || month == Text(n)
    ensures IsMonth(month) && NextMonth(month) == Text(n + 1)
  {
    if month == Key(n) {
      ParsePad(n / 12, 4);
      NextOf(Pad(Print(n / 12), 4), n);
    } else {
      ParsePrint(n / 12);
      NextOf(Print(n / 12), n);
    }
  }

  // ------------------------------------------------------------ order of texts

  lemma {:induction false} CompareConcat(a: string, b: string, x: string, y: string)
    requires |a| == |b|
    ensures LessEq(a + x, b + y) <==> if a == b then LessEq(x, y) else LessEq(a, b)
  {
    if a != "" {
      CompareConcat(a[1..], b[1..], x, y);
      assert (a + x)[1..] == a[1..] + x && (b + y)[1..] == b[1..] + y;
      assert a == b <==> a[0] == b[0] && a[1..] == b[1..];
    } else {
      assert a + x == x && b + y == y;
    }
  }

  lemma {:induction false} ParseBound(s: string)
    requires AllDigits(s)
    ensures Parse(s) < Power10(|s|)
  {
    if s != "" {
      ParseBound(s[..|s| - 1]);
    }
  }

  /** Digit strings of one length compare as their numbers do. */
  lemma {:induction false} DigitsCompare(a: string, b: string)
    requires AllDigits(a) && AllDigits(b) && |a| == |b|
    ensures LessEq(a, b) <==> Parse(a) <= Parse(b)
    ensures Parse(a) == Parse(b) ==> a == b
  {
    if a != "" {
      var k := |a| - 1;
      DigitsCompare(a[..k], b[..k]);
      CompareConcat(a[..k], b[..k], [a[k]], [b[k]]);
      assert a[..k] + [a[k]] == a && b[..k] + [b[k]] == b;
      assert LessEq([a[k]], [b[k]]) <==> DigitValue(a[k]) <= DigitValue(b[k]);
    }
  }

  lemma KeyShape(n: nat)
    requires n < MONTHS
    ensures IsKey(Key(n)) && Key(n)[..4] == Pad(Print(n / 12), 4) && |Pad(Print(n / 12), 4)| == 4
  {
    assert Power10(4) == 10000;
    PrintWidth(n / 12, 4);
    NumberShape(n);
    var number := Number(n);
    if n % 12 + 1 < 10 {
      assert Print(n % 12 + 1) == [DigitChar(n % 12 + 1)];
      assert number == Zeros(1) + [DigitChar(n % 12 + 1)];
    } else {
      assert Print(n % 12 + 1) == Print((n % 12 + 1) / 10) + [DigitChar((n % 12 + 1) % 10)];
      assert Print(1) == [DigitChar(1)];
    }
    assert Key(n)[5..] == number;
  }

  /** Keys compare as the months they name. */
  lemma KeysCompare(a: nat, b: nat)
    requires a < MONTHS && b < MONTHS
    ensures LessEq(Key(a), Key(b)) <==> a <= b
  {
    KeyShape(a);
    KeyShape(b);
    var ya, yb := Pad(Print(a / 12), 4), Pad(Print(b / 12), 4);
    ParsePad(a / 12, 4);
    ParsePad(b / 12, 4);
    NumberShape(a);
    NumberShape(b);
    DigitsCompare(ya, yb);
    DigitsCompare(Number(a), Number(b));
    CompareConcat(ya + "-", yb + "-", Number(a), Number(b));
    CompareConcat(ya, yb, "-", "-");
    assert ya == yb <==> ya + "-" == yb + "-" by {
      assert (ya + "-")[..4] == ya && (yb + "-")[..4] == yb;
    }
    assert LessEq("-", "-");
  }

  lemma PrintAppend(n: nat, d: nat)
    requires 1 <= n && d < 10
    ensures Print(10 * n + d) == Print(n) + [DigitChar(d)]
  {
    assert (10 * n + d) / 10 == n && (10 * n + d) % 10 == d;
  }

  lemma PadOneMore(n: nat, init: string, c: char)
    requires IsDigit(c) && init != "" && Pad(Print(n), |init|) == init && (n == 0 ==> init == Zeros(|init|))
    ensures Pad(Print(10 * n + DigitValue(c)), |init| + 1) == init + [c]
  {
    if n == 0 {
      assert Print(10 * n + DigitValue(c)) == [c];
    } else {
      PrintAppend(n, DigitValue(c));
    }
  }

  lemma PrintDigit(c: char)
    requires IsDigit(c)
    ensures Parse([c]) == DigitValue(c) && Print(DigitValue(c)) == [c] && (DigitValue(c) == 0 ==> [c] == Zeros(1))
  {
    assert [c][..0] == "";
  }

  lemma ParseSnoc(init: string, c: char)
    requires AllDigits(init) && IsDigit(c)
    ensures AllDigits(init + [c]) && Parse(init + [c]) == 10 * Parse(init) + DigitValue(c)
  {
    assert (init + [c])[..|init|] == init;
  }

  lemma {:induction false} PadOfParse(s: string)
    requires s != "" && AllDigits(s)
    ensures Pad(Print(Parse(s)), |s|) == s
    ensures Parse(s) == 0 ==> s == Zeros(|s|)
  {
    var init, c := s[..|s| - 1], s[|s| - 1];
    assert s == init + [c];
    if init == "" {
      PrintDigit(c);
    } else {
      PadOfParse(init);
      PadOneMore(Parse(init), init, c);
      ParseSnoc(init, c);
      if Parse(s) == 0 {
        assert Zeros(|init|) + [c] == Zeros(|init| + 1);
      }
    }
  }

  lemma KeyParts(s: string)
    requires IsKey(s)
    ensures AllDigits(s[..4]) && Parse(s[..4]) < 10000 && AllDigits(s[5..]) && 1 <= Parse(s[5..]) <= 12
    ensures Pad(Print(Parse(s[..4])), 4) == s[..4] && Pad(Print(Parse(s[5..])), 2) == s[5..]
  {
    var year, number := s[..4], s[5..];
    assert number == [s[5], s[6]] && number[..1] == [s[5]] && number[..1][..0] == "";
    assert Parse([s[5]]) == DigitValue(s[5]);
    assert Parse(number) == 10 * DigitValue(s[5]) + DigitValue(s[6]);
    PadOfParse(year);
    PadOfParse(number);
    ParseBound(year);
    assert Power10(4) == 10000;
  }

  /** Every key is the key of exactly one month. */
  function MonthNumber(s: string): (n: nat)
    requires IsKey(s)
    ensures n < MONTHS && s == Key(n)
  {
    KeyParts(s);
    var n := 12 * Parse(s[..4]) + Parse(s[5..]) - 1;
    assert n / 12 == Parse(s[..4]) && n % 12 + 1 == Parse(s[5..]);
    assert s == s[..4] + "-" + s[5..];
    n
  }

  // ------------------------------------------------------------------ the walk

  /** The text of month n as the walk meets it, started at month first. */
  function Met(first: nat, n: nat): string {
    if n == first then Key(n) else Text(n)
  }

  lemma PrintedYears()
    ensures Print(999) == "999" && Print(9999) == "9999" && Print(99990) == "99990" && Print(10000) == "10000"
  {
    assert Print(9) == "9" && Print(1) == "1";
    PrintAppend(9, 9);
    PrintAppend(99, 9);
    PrintAppend(999, 9);
    PrintAppend(9999, 0);
    PrintAppend(1, 0);
    PrintAppend(10, 0);
    PrintAppend(100, 0);
    PrintAppend(1000, 0);
  }

  lemma MonthOfYear(year: nat, month: nat)
    requires month < 12
    ensures (12 * year + month) / 12 == year && (12 * year + month) % 12 == month
  {}

  lemma MonthText(n: nat, year: nat, month: nat)
    requires n / 12 == year && n % 12 == month
    ensures Number(n) == Pad(Print(month + 1), 2)
    ensures Text(n) == Print(year) + "-" + Pad(Print(month + 1), 2) && Key(n) == Pad(Print(year), 4) + "-" + Pad(Print(month + 1), 2)
  {}

  lemma TwoDigits()
    ensures Pad(Print(1), 2) == "01" && Pad(Print(12), 2) == "12"
  {
    assert Print(1) == "1";
    PrintAppend(1, 2);
  }

  lemma DashAndDigits(year: string)
    ensures year + "-" + "01" == year + "-01" && year + "-" + "12" == year + "-12"
  {}

  lemma January(year: nat)
    ensures Text(12 * year) == Print(year) + "-01"
  {
    MonthOfYear(year, 0);
    MonthText(12 * year, year, 0);
    TwoDigits();
    DashAndDigits(Print(year));
  }

  lemma December(year: nat)
    ensures Key(12 * year + 11) == Pad(Print(year), 4) + "-12"
  {
    MonthOfYear(year, 11);
    MonthText(12 * year + 11, year, 11);
    TwoDigits();
    DashAndDigits(Pad(Print(year), 4));
  }

  lemma LimitText()
    ensures Text(LIMIT) == "9999" + "0-01"
  {
    January(99990);
    PrintedYears();
  }

  lemma YearAtMost9999(year: string)
    requires |year| == 4 && AllDigits(year)
    ensures LessEq("9999", year) ==> year == "9999"
  {
    PrintedYears();
    ParsePrint(9999);
    ParseBound(year);
    assert Power10(4) == 10000;
    DigitsCompare("9999", year);
  }

  /** The walk never passes January 99990, whose text is greater than any key. */
  lemma LimitStops(first: nat, last: string)
    requires first < MONTHS && IsKey(last)
    ensures !LessEq(Met(first, LIMIT), last)
  {
    LimitText();
    var year, rest := last[..4], last[4..];
    assert last == year + rest && rest[0] == '-';
    CompareConcat("9999", year, "0-01", rest);
    YearAtMost9999(year);
  }

  /** What a loop visits that goes up from n while it may continue. */
  function Visited<T>(text: nat -> T, continues: nat -> bool, n: nat, limit: nat): seq<T>
    requires n <= limit && !continues(limit)
    decreases limit - n
  {
    if !continues(n) then [] else [text(n)] + Visited(text, continues, n + 1, limit)
  }

  lemma {:induction false} VisitedShape<T>(text: nat -> T, continues: nat -> bool, n: nat, limit: nat)
    requires n <= limit && !continues(limit)
    ensures var visited := Visited(text, continues, n, limit);
      && (forall i :: 0 <= i < |visited| ==> visited[i] == text(n + i))
      && (forall k :: n <= k < n + |visited| ==> continues(k))
      && !continues(n + |visited|)
    decreases limit - n
  {
    if continues(n) {
      VisitedShape(text, continues, n + 1, limit);
    }
  }

  /** It visits exactly n to last when it may continue up to last and no further. */
  lemma VisitsUpTo<T>(text: nat -> T, continues: nat -> bool, n: nat, limit: nat, last: nat)
    requires n <= last && n <= limit && !continues(limit)
    ensures |Visited(text, continues, n, limit)| == last - n + 1
      <==> !continues(last + 1) && forall k :: n <= k <= last ==> continues(k)
  {
    VisitedShape(text, continues, n, limit);
    var reached := n + |Visited(text, continues, n, limit)|;
    if !continues(last + 1) && forall k :: n <= k <= last ==> continues(k) {
      assert !(reached <= last);
    }
  }

  function Texts(first: nat): nat -> string {
    (n: nat) => Met(first, n)
  }

  function Continues(first: nat, last: string): nat -> bool {
    (n: nat) => LessEq(Met(first, n), last)
  }

  /** The texts the loop visits from month n on. */
  function Walk(first: nat, n: nat, last: string): seq<string>
    requires first < MONTHS && IsKey(last) && first <= n <= LIMIT
  {
    LimitStops(first, last);
    Visited(Texts(first), Continues(first, last), n, LIMIT)
  }

  function Keys(first: nat, last: nat): (keys: seq<string>)
    requires first <= last
    ensures |keys| == last - first + 1 && forall i :: 0 <= i < |keys| ==> keys[i] == Key(first + i)
  {
    seq(last - first + 1, i requires 0 <= i => Key(first + i))
  }

  lemma YearWidth(y: nat)
    ensures y < 1000 ==> |Print(y)| <= 3
    ensures 1000 <= y < 10000 ==> |Print(y)| == 4
    ensures 10000 <= y ==> 5 <= |Print(y)|
  {
    assert Power10(3) == 1000 && Power10(4) == 10000;
    if y < 1000 {
      PrintWidth(y, 3);
    } else if y < 10000 {
      PrintWidth(y, 4);
      ParseBound(Print(y));
      ParsePrint(y);
      Powers(|Print(y)|, 3);
    } else {
      ParseBound(Print(y));
      ParsePrint(y);
      Powers(|Print(y)|, 4);
    }
  }

  lemma {:induction false} Powers(j: nat, k: nat)
    ensures j <= k ==> Power10(j) <= Power10(k)
  {
    if 0 < j <= k {
      Powers(j - 1, k - 1);
    }
  }

  /** From year 1000 to 9999, and only there, an unpadded year is a padded one. */
  lemma TextIsKeyIff(n: nat)
    requires n < MONTHS
    ensures Text(n) == Key(n) <==> 12000 <= n
  {
    YearWidth(n / 12);
    NumberShape(n);
    KeyShape(n);
  }

  lemma {:induction false} LeadingDigit(y: nat)
    ensures 0 < y ==> '0' < Print(y)[0]
  {
    if 10 <= y {
      LeadingDigit(y / 10);
      assert Print(y)[0] == Print(y / 10)[0];
    }
  }

  /** After a first month before December 999, the unpadded successor passes any
      key of the same month, except within year zero. */
  lemma ShortYearsStop(n: nat)
    requires n < 11999
    ensures LessEq(Text(n + 1), Key(n)) <==> n < 11
  {
    var year := Print((n + 1) / 12);
    YearWidth(n / 12);
    LeadingDigit((n + 1) / 12);
    assert Key(n)[0] == '0';
    assert Text(n + 1)[0] == year[0];
    if n < 11 {
      assert year == "0" && Text(n + 1)[1] == '-';
      assert Key(n)[1] == '0' by {
        assert Pad(Print(0), 4) == Zeros(3) + Print(0);
      }
      assert Text(n + 1)[1..][0] == '-' && Key(n)[1..][0] == '0';
    }
  }

  lemma LastMonthOverruns()
    ensures LessEq(Text(MONTHS), Key(MONTHS - 1))
  {
    PrintedYears();
    January(10000);
    December(9999);
    assert Text(MONTHS)[0] == '1' && Key(MONTHS - 1)[0] == '9';
  }

  /** The first month past the last is met as a greater text. */
  lemma StopsAfterLast(first: nat, last: nat)
    requires first <= last < MONTHS && (11999 <= last || first == last)
    ensures !LessEq(Met(first, last + 1), Key(last)) <==> last != MONTHS - 1 && 11 <= last
  {
    if last == MONTHS - 1 {
      LastMonthOverruns();
    } else if 11999 <= last {
      TextIsKeyIff(last + 1);
      KeysCompare(last + 1, last);
    } else {
      ShortYearsStop(last);
    }
  }

  predicate CalendarRange(first: nat, last: nat) {
    last < MONTHS - 1 && (11999 <= first || (first == last && 11 <= first))
  }

  /** Within the range, keys are met as keys; outside, some key is not. */
  lemma KeysAreMet(first: nat, last: nat)
    requires first <= last < MONTHS
    ensures 11999 <= first || first == last <==> forall n :: first <= n <= last ==> Met(first, n) == Key(n)
  {
    if 11999 <= first || first == last {
      forall n | first <= n <= last ensures Met(first, n) == Key(n) {
        TextIsKeyIff(n);
      }
    } else {
      TextIsKeyIff(first + 1);
      assert Met(first, first + 1) != Key(first + 1);
    }
  }

  lemma ContinuesExactlyToLast(first: nat, last: nat)
    requires first <= last < MONTHS && (11999 <= first || first == last)
    ensures IsKey(Key(last))
    ensures var continues := Continues(first, Key(last));
      (!continues(last + 1) && forall k :: first <= k <= last ==> continues(k)) <==> CalendarRange(first, last)
  {
    KeyShape(last);
    KeysAreMet(first, last);
    forall k | first <= k <= last ensures LessEq(Met(first, k), Key(last)) {
      KeysCompare(k, last);
    }
    StopsAfterLast(first, last);
  }

  /** The walk visits every month from first to last, once and in order and
      nothing else, exactly when last is before December 9999 and either no
      unpadded year is met, or the two are one month after November of year zero. */
  lemma WalkIsCalendarIff(first: nat, last: nat)
    requires first <= last < MONTHS
    ensures IsKey(Key(last))
    ensures Walk(first, first, Key(last)) == Keys(first, last) <==> CalendarRange(first, last)
  {
    KeyShape(last);
    LimitStops(first, Key(last));
    var walk := Walk(first, first, Key(last));
    VisitedShape(Texts(first), Continues(first, Key(last)), first, LIMIT);
    VisitsUpTo(Texts(first), Continues(first, Key(last)), first, LIMIT, last);
    KeysAreMet(first, last);
    if 11999 <= first || first == last {
      ContinuesExactlyToLast(first, last);
      WalkedKeys(first, last, walk);
    } else if walk == Keys(first, last) {
      WalkedKeys(first, last, walk);
      assert false;
    }
  }

  lemma WalkedKeys(first: nat, last: nat, walk: seq<string>)
    requires first <= last
    requires forall i :: 0 <= i < |walk| ==> walk[i] == Texts(first)(first + i)
    ensures walk == Keys(first, last) <==> |walk| == last - first + 1 && forall n :: first <= n <= last ==> Met(first, n) == Key(n)
  {
    if walk == Keys(first, last) {
      forall n | first <= n <= last ensures Met(first, n) == Key(n) {
        assert walk[n - first] == Keys(first, last)[n - first];
      }
    }
  }

  lemma PaddedYears()
    ensures Pad("0", 4) == "0000" && Pad("999", 4) == "0999" && Pad("9999", 4) == "9999"
  {}

  lemma NamedMonths()
    ensures Key(11) == "0000-12" && Key(11999) == "0999-12" && Key(119999) == "9999-12"
  {
    December(0);
    December(999);
    December(9999);
    NamedYears();
  }

  lemma NamedYears()
    ensures Pad(Print(0), 4) + "-12" == "0000-12" && Pad(Print(999), 4) + "-12" == "0999-12" && Pad(Print(9999), 4) + "-12" == "9999-12"
  {
    PrintedYears();
    PaddedYears();
    assert Print(0) == "0";
  }

  /** The same range, as a caller reads it off the first and last keys. */
  lemma RangeInText(first: nat, last: nat)
    requires first <= last < MONTHS
    ensures CalendarRange(first, last)
      <==> !LessEq("9999-12", Key(last)) && (LessEq("0999-12", Key(first)) || (first == last && LessEq("0000-12", Key(first))))
  {
    NamedMonths();
    KeysCompare(119999, last);
    KeysCompare(11999, first);
    KeysCompare(11, first);
  }

  // ------------------------------------------------------------ monthly totals

  /** date.slice(0, 7). */
  function MonthPart(date: string): string {
    if 7 < |date| then date[..7] else date
  }

  function MonthKeys(movements: seq<Movement>): (keys: seq<string>)
    ensures forall i :: 0 <= i < |keys| ==> IsKey(keys[i])
    ensures forall m :: m in movements && IsKey(MonthPart(m.date)) ==> MonthPart(m.date) in keys
  {
    if movements == [] then []
    else (if IsKey(MonthPart(movements[0].date)) then [MonthPart(movements[0].date)] else []) + MonthKeys(movements[1..])
  }

  /** The two ends of the sorted keys. */
  function Ends(keys: seq<string>): (ends: (string, string))
    requires keys != [] && forall i :: 0 <= i < |keys| ==> IsKey(keys[i])
    ensures ends.0 in keys && ends.1 in keys
    ensures forall k :: k in keys ==> MonthNumber(ends.0) <= MonthNumber(k) <= MonthNumber(ends.1)
  {
    if |keys| == 1 then (keys[0], keys[0])
    else
      var (least, greatest) := Ends(keys[1..]);
      assert forall k :: k in keys ==> k == keys[0] || k in keys[1..];
      KeysCompare(MonthNumber(keys[0]), MonthNumber(least));
      KeysCompare(MonthNumber(greatest), MonthNumber(keys[0]));
      (if LessEq(keys[0], least) then keys[0] else least, if LessEq(greatest, keys[0]) then keys[0] else greatest)
  }

  function First(movements: seq<Movement>): nat
    requires MonthKeys(movements) != []
  {
    MonthNumber(Ends(MonthKeys(movements)).0)
  }

  function Last(movements: seq<Movement>): nat
    requires MonthKeys(movements) != []
  {
    MonthNumber(Ends(MonthKeys(movements)).1)
  }

  /** date.startsWith(month). */
  predicate StartsWith(date: string, month: string) {
    |month| <= |date| && date[..|month|] == month
  }

  function InMonth(): Belongs<string> {
    (m: Movement, month: string) => StartsWith(m.date, month)
  }

  function HasMonth(): Movement -> bool {
    (m: Movement) => IsKey(MonthPart(m.date))
  }

  lemma NextMet(start: nat, n: nat)
    requires start <= n
    ensures IsMonth(Met(start, n)) && NextMonth(Met(start, n)) == Met(start, n + 1)
  {
    NextMonthSteps(Met(start, n), n);
  }

  lemma VisitedStep<T>(text: nat -> T, continues: nat -> bool, start: nat, limit: nat, n: nat)
    requires start <= limit && !continues(limit)
    requires start <= n <= start + |Visited(text, continues, start, limit)|
    ensures var visited := Visited(text, continues, start, limit);
      && (continues(n) <==> n < start + |visited|)
      && (n < start + |visited| ==> visited[..n - start + 1] == visited[..n - start] + [text(n)])
  {
    VisitedShape(text, continues, start, limit);
    var visited := Visited(text, continues, start, limit);
    if n < start + |visited| {
      assert visited[n - start] == text(start + (n - start));
    }
  }

  lemma WalkStep(start: nat, last: string, n: nat)
    requires start < MONTHS && IsKey(last) && start <= n <= start + |Walk(start, start, last)|
    ensures var walk := Walk(start, start, last);
      && (LessEq(Met(start, n), last) <==> n < start + |walk|)
      && (n < start + |walk| ==> walk[..n - start + 1] == walk[..n - start] + [Met(start, n)])
  {
    LimitStops(start, last);
    VisitedStep(Texts(start), Continues(start, last), start, LIMIT, n);
  }

  /** The labelled totals of some month texts. */
  function MonthTotals(movements: seq<Movement>, months: seq<string>): seq<Labelled<string>> {
    WithLabels(TotalsFor(movements, InMonth(), months), MonthLabel)
  }

  lemma OneMoreKey(movements: seq<Movement>, keys: seq<string>, key: string)
    ensures MonthTotals(movements, keys + [key])
      == MonthTotals(movements, keys) + [Labelled(MonthLabel(key), TotalFor(movements, InMonth(), key))]
  {}

  lemma LabelOf(year: string, n: nat)
    requires AllDigits(year)
    ensures MonthLabel(year + "-" + Number(n)) == MONTH_NAMES[n % 12] + " " + year
  {
    PartsOf(year, n);
    NumberShape(n);
  }

  lemma LabelOfKey(n: nat)
    requires n < MONTHS
    ensures MonthLabel(Key(n)) == MONTH_NAMES[n % 12] + " " + Pad(Print(n / 12), 4)
  {
    LabelOf(Pad(Print(n / 12), 4), n);
  }

  lemma NamesAreDistinct(i: nat, j: nat)
    requires i < j < 12
    ensures |MONTH_NAMES[i]| == 3 && |MONTH_NAMES[j]| == 3 && MONTH_NAMES[i] != MONTH_NAMES[j]
  {
    var a, b := MONTH_NAMES[i], MONTH_NAMES[j];
    assert a[0] != b[0] || a[1] != b[1] || a[2] != b[2];
  }

  lemma SameParts(name: string, year: string, otherName: string, otherYear: string)
    requires |name| == 3 && |otherName| == 3 && name + " " + year == otherName + " " + otherYear
    ensures name == otherName && year == otherYear
  {
    assert (name + " " + year)[..3] == name && (otherName + " " + otherYear)[..3] == otherName;
    assert (name + " " + year)[4..] == year && (otherName + " " + otherYear)[4..] == otherYear;
  }

  lemma NamesTellMonths(i: nat, j: nat)
    requires i < 12 && j < 12
    ensures MONTH_NAMES[i] == MONTH_NAMES[j] <==> i == j
  {
    if i < j {
      NamesAreDistinct(i, j);
    } else if j < i {
      NamesAreDistinct(j, i);
    }
  }

  lemma NameAndYearTellMonth(a: nat, b: nat, ya: string, yb: string)
    requires ya == Pad(Print(a / 12), 4) && yb == Pad(Print(b / 12), 4)
    requires MONTH_NAMES[a % 12] == MONTH_NAMES[b % 12] && ya == yb
    ensures a == b
  {
    ParsePad(a / 12, 4);
    ParsePad(b / 12, 4);
    NamesTellMonths(a % 12, b % 12);
  }

  lemma NamesAreShort(i: nat)
    requires i < 12
    ensures |MONTH_NAMES[i]| == 3
  {}

  /** Different months have different labels. */
  lemma LabelsAreDistinct(a: nat, b: nat)
    requires a < MONTHS && b < MONTHS
    ensures MonthLabel(Key(a)) == MonthLabel(Key(b)) ==> a == b
  {
    LabelOfKey(a);
    LabelOfKey(b);
    if MonthLabel(Key(a)) == MonthLabel(Key(b)) {
      SameLabel(a, b, Pad(Print(a / 12), 4), Pad(Print(b / 12), 4));
    }
  }

  lemma SameLabel(a: nat, b: nat, ya: string, yb: string)
    requires ya == Pad(Print(a / 12), 4) && yb == Pad(Print(b / 12), 4)
    requires MONTH_NAMES[a % 12] + " " + ya == MONTH_NAMES[b % 12] + " " + yb
    ensures a == b
  {
    NamesAreShort(a % 12);
    NamesAreShort(b % 12);
    SameParts(MONTH_NAMES[a % 12], ya, MONTH_NAMES[b % 12], yb);
    NameAndYearTellMonth(a, b, ya, yb);
  }

  lemma OneMoreMonth(movements: seq<Movement>, start: nat, last: string, n: nat)
    requires start < MONTHS && IsKey(last) && start <= n < start + |Walk(start, start, last)|
    ensures var walk := Walk(start, start, last);
      MonthTotals(movements, walk[..n - start + 1])
      == MonthTotals(movements, walk[..n - start]) + [Labelled(MonthLabel(Met(start, n)), TotalFor(movements, InMonth(), Met(start, n)))]
  {
    WalkStep(start, last, n);
    OneMoreKey(movements, Walk(start, start, last)[..n - start], Met(start, n));
  }

  lemma NoMonthYet(movements: seq<Movement>, start: nat, last: string)
    requires start < MONTHS && IsKey(last)
    ensures Key(start) == Met(start, start)
    ensures MonthTotals(movements, Walk(start, start, last)[..0]) == []
  {}

  /** month <= last: whether the walk goes on. */
  method GoesOn(month: string, last: string, ghost start: nat, ghost n: nat) returns (more: bool)
    requires start < MONTHS && IsKey(last) && start <= n <= start + |Walk(start, start, last)| && month == Met(start, n)
    ensures more <==> n < start + |Walk(start, start, last)|
  {
    WalkStep(start, last, n);
    more := LessEq(month, last);
  }

  method TotalAndNext(movements: seq<Movement>, month: string, ghost start: nat, ghost last: string, ghost n: nat)
    returns (total: Labelled<string>, next: string)
    requires start < MONTHS && IsKey(last) && start <= n < start + |Walk(start, start, last)| && month == Met(start, n)
    ensures var walk := Walk(start, start, last);
      MonthTotals(movements, walk[..n - start + 1]) == MonthTotals(movements, walk[..n - start]) + [total]
    ensures next == Met(start, n + 1)
  {
    OneMoreMonth(movements, start, last, n);
    NextMet(start, n);
    total := Labelled(MonthLabel(month), TotalFor(movements, InMonth(), month));
    next := NextMonth(month);
  }

  /** The loop terminates on every input: it walks at most to year 99990. */
  method TotalsBetween(movements: seq<Movement>, first: string, last: string) returns (totals: seq<Labelled<string>>)
    requires IsKey(first) && IsKey(last)
    ensures totals == MonthTotals(movements, Walk(MonthNumber(first), MonthNumber(first), last))
  {
    ghost var start := MonthNumber(first);
    totals := TotalsFrom(movements, first, last, start);
  }

  method TotalsFrom(movements: seq<Movement>, first: string, last: string, ghost start: nat) returns (totals: seq<Labelled<string>>)
    requires start < MONTHS && first == Key(start) && IsKey(last)
    ensures totals == MonthTotals(movements, Walk(start, start, last))
  {
    ghost var walk := Walk(start, start, last);
    ghost var n := start;
    var month := first;
    totals := [];
    NoMonthYet(movements, start, last);
    var more := GoesOn(month, last, start, n);
    while more
      invariant start <= n <= start + |walk| && month == Met(start, n)
      invariant more <==> n < start + |walk|
      invariant totals == MonthTotals(movements, walk[..n - start])
      decreases start + |walk| - n
    {
      var total;
      total, month := TotalAndNext(movements, month, start, last, n);
      totals := totals + [total];
      n := n + 1;
      more := GoesOn(month, last, start, n);
    }
    assert walk[..|walk|] == walk;
  }

  method TotalsByMonth(movements: seq<Movement>) returns (totals: seq<Labelled<string>>)
    ensures totals == if MonthKeys(movements) == [] then []
                      else MonthTotals(movements, Walk(First(movements), First(movements), Key(Last(movements))))
  {
    var keys := MonthKeys(movements);
    if keys == [] {
      return [];
    }
    var (first, last) := Ends(keys);
    totals := TotalsBetween(movements, first, last);
  }

  lemma KeyNamesMonth(n: nat)
    requires n < MONTHS
    ensures |Key(n)| == 7 && IsKey(Key(n)) && MonthNumber(Key(n)) == n
  {
    KeyShape(n);
    KeysCompare(n, MonthNumber(Key(n)));
    KeysCompare(MonthNumber(Key(n)), n);
  }

  lemma StartsWithIsMonthPart(date: string, n: nat)
    requires n < MONTHS
    ensures StartsWith(date, Key(n)) <==> IsKey(MonthPart(date)) && MonthNumber(MonthPart(date)) == n
  {
    KeyNamesMonth(n);
    if StartsWith(date, Key(n)) {
      assert MonthPart(date) == Key(n);
    }
    if IsKey(MonthPart(date)) && MonthNumber(MonthPart(date)) == n {
      assert MonthPart(date) == Key(n);
    }
  }

  lemma BelongsToItsMonth(m: Movement, first: nat, last: nat, i: nat)
    requires first <= last < MONTHS && i < |Keys(first, last)|
    ensures InMonth()(m, Keys(first, last)[i]) <==> IsKey(MonthPart(m.date)) && MonthNumber(MonthPart(m.date)) == first + i
  {
    StartsWithIsMonthPart(m.date, first + i);
  }

  /** Each movement with a month in the range starts with one key of the range, every other with none. */
  lemma KeysPartition(movements: seq<Movement>, first: nat, last: nat)
    requires first <= last < MONTHS
    requires forall m :: m in movements && IsKey(MonthPart(m.date)) ==> first <= MonthNumber(MonthPart(m.date)) <= last
    ensures Partitions(movements, InMonth(), Keys(first, last), HasMonth())
  {
    var keys := Keys(first, last);
    forall m, i, j | m in movements && 0 <= i < j < |keys| ensures !(InMonth()(m, keys[i]) && InMonth()(m, keys[j])) {
      BelongsToItsMonth(m, first, last, i);
      BelongsToItsMonth(m, first, last, j);
    }
    forall m, i | m in movements && 0 <= i < |keys| && InMonth()(m, keys[i]) ensures HasMonth()(m) {
      BelongsToItsMonth(m, first, last, i);
    }
    forall m | m in movements && HasMonth()(m) ensures exists i :: 0 <= i < |keys| && InMonth()(m, keys[i]) {
      var i := MonthNumber(MonthPart(m.date)) - first;
      BelongsToItsMonth(m, first, last, i);
      assert InMonth()(m, keys[i]);
    }
  }

  /** Within the range the monthly totals are those of every calendar month from
      first to last, and conserve the movements with a valid month. */
  lemma {:induction false} MonthTotalsConserve(movements: seq<Movement>)
    requires MonthKeys(movements) != []
    ensures First(movements) <= Last(movements)
    ensures CalendarRange(First(movements), Last(movements)) ==>
      var totals := TotalsFor(movements, InMonth(), Walk(First(movements), First(movements), Key(Last(movements))));
      && totals == TotalsFor(movements, InMonth(), Keys(First(movements), Last(movements)))
      && GrandCount(totals) == |Kept(movements, HasMonth())|
      && GrandTotal(totals) == Sum(Kept(movements, HasMonth()))
  {
    var first, last := First(movements), Last(movements);
    WalkIsCalendarIff(first, last);
    KeysPartition(movements, first, last);
    GroupingConserves(movements, InMonth(), Keys(first, last), HasMonth());
  }
}
