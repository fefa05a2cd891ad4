/** The 96 quarter-hour slots of a day: the "HH:MM" label of a slot
    (idToString) and the two-digit slot key used inside cell keys. */
module Slots {
  import opened Text

  const SlotsPerDay := 96

  /** idToString: hours (n - 1) / 4 and minutes (n - 1) % 4 * 15, each
      formatted with "%02d", joined by ':'. */
  function SlotLabel(n: int): (r: string)
    requires 1 <= n <= SlotsPerDay
    ensures |r| == 5 && r[2] == ':'
  {
    var hours, minutes := (n - 1) / 4, (n - 1) % 4 * 15;
    assert Pow10(2) == 100;
    DecimalLength(hours, 2);
    DecimalLength(minutes, 2);
    ZeroPad(hours, 2) + ":" + ZeroPad(minutes, 2)
  }

  /** The label is the time of day at which slot n starts: two-digit hours,
      then two-digit minutes below 60, amounting to 15 * (n - 1) minutes. */
  lemma SlotLabelStart(n: int)
    requires 1 <= n <= SlotsPerDay
    ensures var r := SlotLabel(n);
      IsDigits(r[..2]) && IsDigits(r[3..]) && Value(r[3..]) < 60 &&
      Value(r[..2]) * 60 + Value(r[3..]) == 15 * (n - 1)
  {
    var hours, q := (n - 1) / 4, (n - 1) % 4;
    var minutes := q * 15;
    var r := SlotLabel(n);
    assert r[..2] == Pad(hours, 2) && r[3..] == Pad(minutes, 2) by {
      SlotLabelParts(n);
    }
    PadValue(hours, 2);
    PadValue(minutes, 2);
    assert n - 1 == 4 * hours + q;
  }

  /** StringUtils.leftPad(String.valueOf(k), 2, "0"): the slot part of a cell key. */
  function SlotKey(k: int): (r: string)
    requires 1 <= k <= SlotsPerDay
    ensures |r| == 2
  {
    ZeroPadIsPad(k, 2);
    ZeroPad(k, 2)
  }

  /** The slot key is the slot number in two digits. */
  lemma SlotKeyValue(k: int)
    requires 1 <= k <= SlotsPerDay
    ensures IsDigits(SlotKey(k)) && Value(SlotKey(k)) == k
  {
    ZeroPadIsPad(k, 2);
    PadValue(k, 2);
  }

  /** Reads an "HH:MM" label back into its slot number, if it is the label of one. */
  function ParseSlotLabel(s: string): (r: Option<int>) {
    if |s| == 5 && IsDigits(s[..2]) && s[2] == ':' && IsDigits(s[3..]) then
      var h, m := Value(s[..2]), Value(s[3..]);
      if h < 24 && m < 60 && m % 15 == 0 then Some(h * 4 + m / 15 + 1) else None
    else None
  }

  lemma SlotLabelFirstAndLast()
    ensures SlotLabel(1) == "00:00" && SlotLabel(SlotsPerDay) == "23:45"
  {
    ZeroPadIsPad(0, 2);
    ZeroPadIsPad(23, 2);
    ZeroPadIsPad(45, 2);
  }

  /** The label as the two fixed-width numerals it is made of. */
  lemma SlotLabelParts(n: int)
    requires 1 <= n <= SlotsPerDay
    ensures SlotLabel(n) == Pad((n - 1) / 4, 2) + ":" + Pad((n - 1) % 4 * 15, 2)
  {
    assert Pow10(2) == 100;
    ZeroPadIsPad((n - 1) / 4, 2);
    ZeroPadIsPad((n - 1) % 4 * 15, 2);
  }

  /** Slot number and start time determine each other. */
  lemma SlotTime(n: int, h: int, m: int)
    requires 1 <= n <= SlotsPerDay && 0 <= h && 0 <= m
    ensures n - 1 == 4 * h + m / 15 && m < 60 && m % 15 == 0
        <==> h == (n - 1) / 4 && m == (n - 1) % 4 * 15
  {
  }

  lemma SlotLabelRoundTrip(n: int)
    requires 1 <= n <= SlotsPerDay
    ensures ParseSlotLabel(SlotLabel(n)) == Some(n)
  {
    var hours, minutes := (n - 1) / 4, (n - 1) % 4 * 15;
    var r := SlotLabel(n);
    assert |r| == 5 && r[2] == ':' && IsDigits(r[..2]) && IsDigits(r[3..]) &&
      Value(r[..2]) == hours && Value(r[3..]) == minutes by {
      SlotLabelParts(n);
      assert r[..2] == Pad(hours, 2) && r[3..] == Pad(minutes, 2);
      PadValue(hours, 2);
      PadValue(minutes, 2);
    }
    assert hours < 24 && minutes < 60 && minutes % 15 == 0 && hours * 4 + minutes / 15 + 1 == n by {
      SlotTime(n, hours, minutes);
    }
  }

  /** Every label that parses is the label of the slot it parses to. */
  lemma ParsedSlotLabel(s: string)
    requires ParseSlotLabel(s).Some?
    ensures 1 <= ParseSlotLabel(s).value <= SlotsPerDay
    ensures SlotLabel(ParseSlotLabel(s).value) == s
  {
    var h, m := Value(s[..2]), Value(s[3..]);
    var n := ParseSlotLabel(s).value;
    assert s == Pad(h, 2) + ":" + Pad(m, 2) by {
      ValuePad(s[..2]);
      ValuePad(s[3..]);
      assert s == s[..2] + [s[2]] + s[3..];
    }
    assert 1 <= n <= SlotsPerDay && h == (n - 1) / 4 && m == (n - 1) % 4 * 15 by {
      assert n == h * 4 + m / 15 + 1 && h < 24 && m < 60 && m % 15 == 0;
      SlotTime(n, h, m);
    }
    SlotLabelParts(n);
  }

  /** Labels strictly increase with the slot number, so the rows of a day
      come out in time order. */
  lemma SlotLabelIncreasing(a: int, b: int)
    requires 1 <= a < b <= SlotsPerDay
    ensures LexLe(SlotLabel(a), SlotLabel(b)) && SlotLabel(a) != SlotLabel(b)
  {
    var ha, ma := (a - 1) / 4, (a - 1) % 4 * 15;
    var hb, mb := (b - 1) / 4, (b - 1) % 4 * 15;
    SlotLabelParts(a);
    SlotLabelParts(b);
    var la, lb := SlotLabel(a), SlotLabel(b);
    assert la == Pad(ha, 2) + (":" + Pad(ma, 2));
    assert lb == Pad(hb, 2) + (":" + Pad(mb, 2));
    LexLeConcat(Pad(ha, 2), ":" + Pad(ma, 2), Pad(hb, 2), ":" + Pad(mb, 2));
    LexLeConcat(Pad(hb, 2), ":" + Pad(mb, 2), Pad(ha, 2), ":" + Pad(ma, 2));
    PadOrder(ha, hb, 2);
    PadOrder(hb, ha, 2);
    PadInjective(ha, hb, 2);
    LexLeConcat(":", Pad(ma, 2), ":", Pad(mb, 2));
    LexLeConcat(":", Pad(mb, 2), ":", Pad(ma, 2));
    PadOrder(ma, mb, 2);
    PadOrder(mb, ma, 2);
  }
}
