/** Gregorian calendar dates, the day step the export advances by, and the
    two text forms of a date: the "yyyyMMdd" key used in queries and cell keys
    and the "yyyy-MM-dd" form printed at the start of each row. */
module Calendar {
  import opened Text

  datatype Date = Date(year: int, month: int, day: int)

  predicate IsLeapYear(y: int) {
    y % 4 == 0 && (y % 100 != 0 || y % 400 == 0)
  }

  function DaysInMonth(y: int, m: int): (n: int)
    requires 1 <= m <= 12
    ensures 28 <= n <= 31
    ensures n == 29 <==> m == 2 && IsLeapYear(y)
  {
    if m == 2 then (if IsLeapYear(y) then 29 else 28)
    else if m == 4 || m == 6 || m == 9 || m == 11 then 30
    else 31
  }

  /** A real calendar date whose year has four digits. */
  predicate Valid(d: Date) {
    1 <= d.year <= 9999 && 1 <= d.month <= 12 && 1 <= d.day <= DaysInMonth(d.year, d.month)
  }

  /** The last date with a four-digit year. */
  const LastDay := Date(9999, 12, 31)

  /** A date whose next day still has a four-digit year. */
  predicate Supported(d: Date) {
    Valid(d) && d != LastDay
  }

  /** Chronological order: a is an earlier day than b. */
  predicate Before(a: Date, b: Date) {
    a.year < b.year
    || (a.year == b.year && (a.month < b.month || (a.month == b.month && a.day < b.day)))
  }

  /** Calendar.add(Calendar.DAY_OF_YEAR, 1): the next day, rolling the month
      and the year over. */
  function NextDay(d: Date): (r: Date)
    requires Valid(d)
    ensures Before(d, r)
    ensures d != LastDay ==> Valid(r)
  {
    if d.day < DaysInMonth(d.year, d.month) then Date(d.year, d.month, d.day + 1)
    else if d.month < 12 then Date(d.year, d.month + 1, 1)
    else Date(d.year + 1, 1, 1)
  }

  /** NextDay skips no date: the dates after d are exactly those from NextDay(d) on. */
  lemma NextDayIsSuccessor(d: Date, x: Date)
    requires Supported(d) && Valid(x)
    ensures Before(d, x) <==> !Before(x, NextDay(d))
  {
  }

  /** A ranking that every step of NextDay increases; used for termination. */
  function Rank(d: Date): (r: int) {
    (d.year * 13 + d.month) * 32 + d.day
  }

  lemma BeforeRank(a: Date, b: Date)
    requires Valid(a) && Valid(b) && Before(a, b)
    ensures Rank(a) < Rank(b)
  {
  }

  lemma NextDayRank(d: Date)
    requires Valid(d)
    ensures Rank(d) < Rank(NextDay(d))
  {
  }

  /** SimpleDateFormat("yyyyMMdd").format */
  function Key(d: Date): (r: string)
    requires Valid(d)
    ensures |r| == 8 && IsDigits(r)
  {
    KeyParts(d);
    ZeroPad(d.year, 4) + ZeroPad(d.month, 2) + ZeroPad(d.day, 2)
  }

  /** SimpleDateFormat("yyyy-MM-dd").format */
  function DisplayDate(d: Date): (r: string)
    requires Valid(d)
    ensures |r| == 10 && r[4] == '-' && r[7] == '-'
  {
    KeyParts(d);
    ZeroPad(d.year, 4) + "-" + ZeroPad(d.month, 2) + "-" + ZeroPad(d.day, 2)
  }

  /** SimpleDateFormat("yyyyMMdd").parse of an eight-digit text. */
  function ParseKey(s: string): (r: Date)
    requires |s| == 8 && IsDigits(s)
    ensures 0 <= r.year < 10000 && 0 <= r.month < 100 && 0 <= r.day < 100
  {
    assert Pow10(2) == 100 && Pow10(4) == 10000;
    ValuePad(s[..4]);
    ValuePad(s[4..6]);
    ValuePad(s[6..]);
    Date(Value(s[..4]), Value(s[4..6]), Value(s[6..]))
  }

  lemma KeyParts(d: Date)
    requires Valid(d)
    ensures ZeroPad(d.year, 4) == Pad(d.year, 4)
    ensures ZeroPad(d.month, 2) == Pad(d.month, 2)
    ensures ZeroPad(d.day, 2) == Pad(d.day, 2)
  {
    assert Pow10(2) == 100 && Pow10(4) == 10000;
    ZeroPadIsPad(d.year, 4);
    ZeroPadIsPad(d.month, 2);
    ZeroPadIsPad(d.day, 2);
  }

  /** The display form is the key with '-' between year, month and day. */
  lemma DisplayDateOfKey(d: Date)
    requires Valid(d)
    ensures DisplayDate(d) == Key(d)[..4] + "-" + Key(d)[4..6] + "-" + Key(d)[6..]
  {
    KeyParts(d);
    var y, m, dd := Pad(d.year, 4), Pad(d.month, 2), Pad(d.day, 2);
    var k := Key(d);
    assert k == y + m + dd;
    assert k[..4] == y && k[4..6] == m && k[6..] == dd;
  }

  lemma ParseKeyOfKey(d: Date)
    requires Valid(d)
    ensures ParseKey(Key(d)) == d
  {
    KeyParts(d);
    var y, m, dd := Pad(d.year, 4), Pad(d.month, 2), Pad(d.day, 2);
    var k := Key(d);
    assert k[..4] == y && k[4..6] == m && k[6..] == dd;
    PadValue(d.year, 4);
    PadValue(d.month, 2);
    PadValue(d.day, 2);
  }

  lemma KeyOfParseKey(s: string)
    requires |s| == 8 && IsDigits(s) && Valid(ParseKey(s))
    ensures Key(ParseKey(s)) == s
  {
    var d := ParseKey(s);
    assert s == Pad(d.year, 4) + Pad(d.month, 2) + Pad(d.day, 2) by {
      ValuePad(s[..4]);
      ValuePad(s[4..6]);
      ValuePad(s[6..]);
      assert s == s[..4] + s[4..6] + s[6..];
    }
    KeyParts(d);
  }

  /** Comparing keys as strings, as the day loop does, is comparing the dates. */
  lemma KeyOrder(a: Date, b: Date)
    requires Valid(a) && Valid(b)
    ensures LexLe(Key(a), Key(b)) <==> !Before(b, a)
  {
    KeyParts(a);
    KeyParts(b);
    var ya, ma, da := Pad(a.year, 4), Pad(a.month, 2), Pad(a.day, 2);
    var yb, mb, db := Pad(b.year, 4), Pad(b.month, 2), Pad(b.day, 2);
    assert Key(a) == ya + (ma + da) && Key(b) == yb + (mb + db);
    LexLeConcat(ya, ma + da, yb, mb + db);
    LexLeConcat(ma, da, mb, db);
    PadOrder(a.year, b.year, 4);
    PadInjective(a.year, b.year, 4);
    PadOrder(a.month, b.month, 2);
    PadInjective(a.month, b.month, 2);
    PadOrder(a.day, b.day, 2);
  }

  /** The loop test "key of the next day <= key of the end date" holds exactly
      when the day is before the end date. */
  lemma LoopGuard(d: Date, e: Date)
    requires Supported(d) && Valid(e)
    ensures LexLe(Key(NextDay(d)), Key(e)) <==> Before(d, e)
  {
    KeyOrder(NextDay(d), e);
    NextDayIsSuccessor(d, e);
  }
  /** The digits of the last day's key. */
  lemma LastDayKeyText()
    ensures Key(LastDay) == "99991231"
  {
    assert DecimalString(9999) == "9999" by {
      assert DecimalString(9) == "9";
      assert DecimalString(99) == "99";
      assert DecimalString(999) == "999";
    }
    assert DecimalString(12) == "12" && DecimalString(31) == "31" by {
      assert DecimalString(1) == "1" && DecimalString(2) == "2" && DecimalString(3) == "3";
    }
  }
  /** The text yyyyMMdd formatting gives the first day of year 10000. */
  lemma FiveDigitYearText()
    ensures ZeroPad(10000, 4) + ZeroPad(1, 2) + ZeroPad(1, 2) == "100000101"
  {
    assert DecimalString(10000) == "10000" by {
      assert DecimalString(1) == "1";
      assert DecimalString(10) == "10";
      assert DecimalString(100) == "100";
      assert DecimalString(1000) == "1000";
    }
    assert ZeroPad(1, 2) == "01" by {
      assert DecimalString(1) == "1";
      assert seq(1, _ => '0') == "0";
    }
    assert ZeroPad(10000, 4) == "10000";
    assert "10000" + "01" + "01" == "100000101";
  }
  /** With endDate 99991231 the guard does not stop the loop at the end date:
      the day after 9999-12-31 is formatted with a five-digit year, and that
      text sorts before "99991231", so the window of 9999-12-31 is still
      written although that day is not before the end date. */
  lemma GuardPassesAfterLastDay()
    ensures NextDay(LastDay) == Date(10000, 1, 1)
    ensures Key(LastDay) == "99991231"
    ensures ZeroPad(10000, 4) + ZeroPad(1, 2) + ZeroPad(1, 2) == "100000101"
    ensures LexLe("100000101", Key(LastDay)) && !Before(LastDay, LastDay)
  {
    LastDayKeyText();
    FiveDigitYearText();
    assert LexLe("100000101", "99991231");
  }
}
