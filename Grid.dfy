/** The CSV grid: the header line, the 96 rows of one day and the set of
    PODs that had an empty cell. */
module Grid {
  import opened Text
  import opened Slots
  import opened Calendar
  import opened Pivot

  const HeaderTitle := "MEASYM_MEASDD_MEASTYPE"

  /** The header: the title and then every POD in list order, each followed by ';'. */
  function HeaderLine(pods: seq<string>): (r: string)
    ensures StartsWith(r, HeaderTitle + ";") && r[|r| - 1] == ';'
  {
    TerminatedCons(HeaderTitle, pods);
    Terminated([HeaderTitle] + pods)
  }

  /** The lookup key of the cell of one POD in one slot of a day:
      minDay + "_" + two-digit slot + "_" + POD. */
  function CellKey(dayKey: string, k: int, pod: string): (r: string)
    requires 1 <= k <= SlotsPerDay
    ensures |r| == |dayKey| + 4 + |pod| && r[|dayKey|] == '_' && r[|dayKey| + 3] == '_'
  {
    dayKey + "_" + SlotKey(k) + "_" + pod
  }

  /** The stored text, or the empty string for a key that is absent. */
  function CellText(m: map<string, string>, key: string): (r: string)
    ensures key !in m ==> r == ""
    ensures r != "" ==> key in m && r == m[key]
  {
    if key in m then m[key] else ""
  }

  /** The cells of slot k, one per POD in list order. */
  function RowCells(dayKey: string, k: int, pods: seq<string>, m: map<string, string>): (cells: seq<string>)
    requires 1 <= k <= SlotsPerDay
    ensures |cells| == |pods|
  {
    seq(|pods|, j requires 0 <= j < |pods| => CellText(m, CellKey(dayKey, k, pods[j])))
  }

  /** The first field of a row: "yyyy-MM-dd HH:MM". */
  function Stamp(d: Date, k: int): (r: string)
    requires Valid(d) && 1 <= k <= SlotsPerDay
    ensures |r| == 16 && r[10] == ' '
  {
    DisplayDate(d) + " " + SlotLabel(k)
  }

  /** Row k of day d. */
  function RowLine(d: Date, k: int, pods: seq<string>, m: map<string, string>): (r: string)
    requires Valid(d) && 1 <= k <= SlotsPerDay
    ensures |r| > 16 && r[..16] == Stamp(d, k) && r[16] == ';' && r[|r| - 1] == ';'
  {
    TerminatedCons(Stamp(d, k), RowCells(Key(d), k, pods, m));
    Terminated([Stamp(d, k)] + RowCells(Key(d), k, pods, m))
  }

  /** Rows 1 to n of day d, in slot order. */
  function RowsUpTo(d: Date, pods: seq<string>, m: map<string, string>, n: int): (r: seq<string>)
    requires Valid(d) && 0 <= n <= SlotsPerDay
  {
    if n == 0 then [] else RowsUpTo(d, pods, m, n - 1) + [RowLine(d, n, pods, m)]
  }

  /** The 96 rows of day d. */
  function DayRows(d: Date, pods: seq<string>, m: map<string, string>): (r: seq<string>)
    requires Valid(d)
  {
    RowsUpTo(d, pods, m, SlotsPerDay)
  }

  /** Row i of the day is the row of slot i + 1: one row per slot, in slot order. */
  lemma {:induction false} RowsUpToLength(d: Date, pods: seq<string>, m: map<string, string>, n: int)
    requires Valid(d) && 0 <= n <= SlotsPerDay
    ensures |RowsUpTo(d, pods, m, n)| == n
  {
    if n > 0 {
      RowsUpToLength(d, pods, m, n - 1);
    }
  }

  /** After n passes of the slot loop, row i is the row of slot i + 1. */
  lemma {:induction false} RowsUpToRow(d: Date, pods: seq<string>, m: map<string, string>, n: int, i: int)
    requires Valid(d) && 0 <= i < n <= SlotsPerDay
    ensures |RowsUpTo(d, pods, m, n)| == n
    ensures RowsUpTo(d, pods, m, n)[i] == RowLine(d, i + 1, pods, m)
  {
    RowsUpToLength(d, pods, m, n - 1);
    var init, rows := RowsUpTo(d, pods, m, n - 1), RowsUpTo(d, pods, m, n);
    var last := RowLine(d, n, pods, m);
    assert rows == init + [last];
    if i < n - 1 {
      RowsUpToRow(d, pods, m, n - 1, i);
      assert rows[i] == init[i];
    } else {
      assert i + 1 == n && rows[i] == last;
    }
  }

  lemma DayRowsAreSlots(d: Date, pods: seq<string>, m: map<string, string>)
    requires Valid(d)
    ensures |DayRows(d, pods, m)| == SlotsPerDay
    ensures forall i :: 0 <= i < SlotsPerDay ==> DayRows(d, pods, m)[i] == RowLine(d, i + 1, pods, m)
  {
    RowsUpToLength(d, pods, m, SlotsPerDay);
    forall i | 0 <= i < SlotsPerDay
      ensures DayRows(d, pods, m)[i] == RowLine(d, i + 1, pods, m)
    {
      RowsUpToRow(d, pods, m, SlotsPerDay, i);
    }
  }

  /** The PODs among the first j whose cell in slot k is absent. */
  function MissingInSlot(dayKey: string, k: int, pods: seq<string>, m: map<string, string>, j: int): (r: set<string>)
    requires 1 <= k <= SlotsPerDay && 0 <= j <= |pods|
  {
    if j == 0 then {}
    else
      MissingInSlot(dayKey, k, pods, m, j - 1)
      + (if CellKey(dayKey, k, pods[j - 1]) in m then {} else {pods[j - 1]})
  }

  /** The PODs whose cell is absent in some slot before slot n. */
  function MissingBefore(dayKey: string, pods: seq<string>, m: map<string, string>, n: int): (r: set<string>)
    requires 1 <= n <= SlotsPerDay + 1
  {
    if n == 1 then {}
    else MissingBefore(dayKey, pods, m, n - 1) + MissingInSlot(dayKey, n - 1, pods, m, |pods|)
  }

  /** The PODs with an empty cell somewhere in the day. */
  function DayMissing(dayKey: string, pods: seq<string>, m: map<string, string>): (r: set<string>) {
    MissingBefore(dayKey, pods, m, SlotsPerDay + 1)
  }

  lemma {:induction false} MissingInSlotMeaning(dayKey: string, k: int, pods: seq<string>, m: map<string, string>, j: int, p: string)
    requires 1 <= k <= SlotsPerDay && 0 <= j <= |pods|
    ensures p in MissingInSlot(dayKey, k, pods, m, j)
            <==> exists i :: 0 <= i < j && pods[i] == p && CellKey(dayKey, k, pods[i]) !in m
  {
    if j > 0 {
      MissingInSlotMeaning(dayKey, k, pods, m, j - 1, p);
    }
  }

  lemma {:induction false} MissingBeforeMeaning(dayKey: string, pods: seq<string>, m: map<string, string>, n: int, p: string)
    requires 1 <= n <= SlotsPerDay + 1
    ensures p in MissingBefore(dayKey, pods, m, n)
            <==> exists k, i :: 1 <= k < n && 0 <= i < |pods| && pods[i] == p && CellKey(dayKey, k, pods[i]) !in m
  {
    if n > 1 {
      MissingBeforeMeaning(dayKey, pods, m, n - 1, p);
      MissingInSlotMeaning(dayKey, n - 1, pods, m, |pods|, p);
    }
  }

  /** A POD is missing for the day exactly when its cell key is absent in some slot. */
  lemma DayMissingMeaning(dayKey: string, pods: seq<string>, m: map<string, string>, p: string)
    ensures p in DayMissing(dayKey, pods, m)
            <==> exists k, i :: 1 <= k <= SlotsPerDay && 0 <= i < |pods| && pods[i] == p
                                && CellKey(dayKey, k, pods[i]) !in m
  {
    MissingBeforeMeaning(dayKey, pods, m, SlotsPerDay + 1, p);
  }

  /** Header construction: a loop appending pod + ";" to the title. */
  method BuildHeader(pods: seq<string>) returns (header: string)
    ensures header == HeaderLine(pods)
  {
    header := "MEASYM_MEASDD_MEASTYPE;";
    assert header == Terminated([HeaderTitle]) by {
      assert [HeaderTitle][..0] == [];
    }
    for j := 0 to |pods|
      invariant header == Terminated([HeaderTitle] + pods[..j])
    {
      ghost var cols := [HeaderTitle] + pods[..j + 1];
      assert cols[..|cols| - 1] == [HeaderTitle] + pods[..j];
      header := header + pods[j] + ";";
    }
    assert pods[..|pods|] == pods;
  }

  /** The row loop of one day: 96 rows, each the stamp and then every POD's
      cell followed by ';'; a POD whose key is absent joins the missing set.
      minDay is the key of day d. */
  method EmitDay(minDay: string, ghost d: Date, pods: seq<string>, m: map<string, string>,
                 missing0: set<string>)
    returns (rows: seq<string>, missing: set<string>)
    requires Valid(d) && minDay == Key(d)
    ensures rows == DayRows(d, pods, m)
    ensures missing == missing0 + DayMissing(minDay, pods, m)
  {
    rows, missing := [], missing0;
    assert missing == missing0 + MissingBefore(minDay, pods, m, 1);
    for runningId := 1 to SlotsPerDay + 1
      invariant rows == RowsUpTo(d, pods, m, runningId - 1)
      invariant missing == missing0 + MissingBefore(minDay, pods, m, runningId)
    {
      var csvLine;
      ghost var before := missing;
      csvLine, missing := EmitRow(minDay, d, runningId, pods, m, missing);
      assert missing == missing0 + MissingBefore(minDay, pods, m, runningId + 1) by {
        assert MissingBefore(minDay, pods, m, runningId + 1)
            == MissingBefore(minDay, pods, m, runningId) + MissingInSlot(minDay, runningId, pods, m, |pods|);
        UnionStep(missing0, MissingBefore(minDay, pods, m, runningId),
                  MissingInSlot(minDay, runningId, pods, m, |pods|), before, missing);
      }
      assert RowsUpTo(d, pods, m, runningId) == rows + [csvLine];
      rows := rows + [csvLine];
    }
  }

  lemma UnionStep<T>(a: set<T>, b: set<T>, c: set<T>, x: set<T>, y: set<T>)
    requires x == a + b && y == x + c
    ensures y == a + (b + c)
  {
  }

  /** One row: the stamp of slot runningId, then the cell of every POD and ';'. */
  method EmitRow(minDay: string, ghost d: Date, runningId: int, pods: seq<string>,
                 m: map<string, string>, missing0: set<string>)
    returns (csvLine: string, missing: set<string>)
    requires Valid(d) && minDay == Key(d)
    requires 1 <= runningId <= SlotsPerDay
    ensures csvLine == RowLine(d, runningId, pods, m)
    ensures missing == missing0 + MissingInSlot(minDay, runningId, pods, m, |pods|)
  {
    ParseKeyOfKey(d);
    csvLine := "";
    csvLine := csvLine + DisplayDate(ParseKey(minDay));
    csvLine := csvLine + " ";
    csvLine := csvLine + SlotLabel(runningId);
    csvLine := csvLine + ";";
    assert csvLine == Stamp(d, runningId) + ";";
    csvLine, missing := AppendCells(csvLine, minDay, runningId, pods, m, missing0);
    TerminatedCons(Stamp(d, runningId), RowCells(minDay, runningId, pods, m));
  }

  /** The POD loop of one row: appends each POD's cell and ';' to the line. */
  method AppendCells(csvLine0: string, minDay: string, runningId: int, pods: seq<string>,
                     m: map<string, string>, missing0: set<string>)
    returns (csvLine: string, missing: set<string>)
    requires 1 <= runningId <= SlotsPerDay
    ensures csvLine == csvLine0 + Terminated(RowCells(minDay, runningId, pods, m))
    ensures missing == missing0 + MissingInSlot(minDay, runningId, pods, m, |pods|)
  {
    csvLine, missing := csvLine0, missing0;
    ghost var cells := RowCells(minDay, runningId, pods, m);
    for j := 0 to |pods|
      invariant csvLine == csvLine0 + Terminated(cells[..j])
      invariant missing == missing0 + MissingInSlot(minDay, runningId, pods, m, j)
    {
      var key := minDay + "_" + SlotKey(runningId) + "_" + pods[j];
      var values := if key in m then Some(m[key]) else None;
      assert cells[..j + 1][..j] == cells[..j];
      csvLine := csvLine + (if values.Some? then values.value else "") + ";";
      if values.None? {
        missing := missing + {pods[j]};
      }
    }
    assert cells[..|pods|] == cells;
  }

  lemma NoSeparatorInPad(n: nat, w: nat)
    requires n < Pow10(w)
    ensures ';' !in Pad(n, w)
  {
    var p := Pad(n, w);
    assert forall i :: 0 <= i < |p| ==> IsDigit(p[i]);
  }

  lemma NoSeparatorInStamp(d: Date, k: int)
    requires Valid(d) && 1 <= k <= SlotsPerDay
    ensures ';' !in Stamp(d, k)
  {
    assert ';' !in DisplayDate(d) by {
      KeyParts(d);
      assert Pow10(2) == 100;
      NoSeparatorInPad(d.year, 4);
      NoSeparatorInPad(d.month, 2);
      NoSeparatorInPad(d.day, 2);
    }
    assert ';' !in SlotLabel(k) by {
      SlotLabelParts(k);
      assert Pow10(2) == 100;
      NoSeparatorInPad((k - 1) / 4, 2);
      NoSeparatorInPad((k - 1) % 4 * 15, 2);
    }
  }

  lemma NoSeparatorInCells(dayKey: string, k: int, pods: seq<string>, m: map<string, string>)
    requires 1 <= k <= SlotsPerDay
    requires forall key :: key in m ==> ';' !in m[key]
    ensures forall j :: 0 <= j < |pods| ==> ';' !in RowCells(dayKey, k, pods, m)[j]
  {
  }

  /** Cutting the header at each ';' gives the title and the PODs in list order. */
  lemma HeaderColumns(pods: seq<string>)
    requires forall j :: 0 <= j < |pods| ==> ';' !in pods[j]
    ensures Fields(HeaderLine(pods)) == [HeaderTitle] + pods
  {
    var cols := [HeaderTitle] + pods;
    assert ';' !in HeaderTitle;
    assert forall i :: 1 <= i < |cols| ==> cols[i] == pods[i - 1];
    FieldsTerminated(cols);
  }

  /** Cutting a row at each ';' gives its stamp and then the cell of every POD,
      in the header's column order, when no stored text contains ';'. */
  lemma RowColumns(d: Date, k: int, pods: seq<string>, m: map<string, string>)
    requires Valid(d) && 1 <= k <= SlotsPerDay
    requires forall key :: key in m ==> ';' !in m[key]
    ensures Fields(RowLine(d, k, pods, m)) == [Stamp(d, k)] + RowCells(Key(d), k, pods, m)
  {
    NoSeparatorInStamp(d, k);
    var cells := RowCells(Key(d), k, pods, m);
    NoSeparatorInCells(Key(d), k, pods, m);
    var cols := [Stamp(d, k)] + cells;
    forall i | 0 <= i < |cols| ensures ';' !in cols[i] {
      if i == 0 {
        assert cols[0] == Stamp(d, k);
      } else {
        assert cols[i] == cells[i - 1];
      }
    }
    FieldsTerminated(cols);
  }

  /** Column j + 1 of the header names the POD whose cell is column j + 1 of every row. */
  lemma ColumnsAligned(d: Date, k: int, pods: seq<string>, m: map<string, string>, j: int)
    requires Valid(d) && 1 <= k <= SlotsPerDay && 0 <= j < |pods|
    requires forall i :: 0 <= i < |pods| ==> ';' !in pods[i]
    requires forall key :: key in m ==> ';' !in m[key]
    ensures |Fields(HeaderLine(pods))| == |Fields(RowLine(d, k, pods, m))| == |pods| + 1
    ensures Fields(HeaderLine(pods))[j + 1] == pods[j]
    ensures Fields(RowLine(d, k, pods, m))[j + 1] == CellText(m, CellKey(Key(d), k, pods[j]))
  {
    HeaderColumns(pods);
    RowColumns(d, k, pods, m);
    var cells := RowCells(Key(d), k, pods, m);
    assert ([Stamp(d, k)] + cells)[j + 1] == cells[j];
    assert ([HeaderTitle] + pods)[j + 1] == pods[j];
  }

  /** A tuple whose MEAS_YMDD_ID has the length of "yyyyMMdd_NN" fills the cell of
      slot k and POD p exactly when its id is dayKey + "_" + slot key and its POD is p. */
  lemma CellKeyMatches(t: Tuple, dayKey: string, k: int, pod: string)
    requires 1 <= k <= SlotsPerDay && |t.measId| == |dayKey| + 3
    ensures MapKey(t) == CellKey(dayKey, k, pod)
            <==> t.measId == dayKey + "_" + SlotKey(k) && t.pod == pod
  {
    var id := dayKey + "_" + SlotKey(k);
    var a, b := MapKey(t), CellKey(dayKey, k, pod);
    assert b == id + "_" + pod;
    if a == b {
      assert a[..|id|] == t.measId && b[..|id|] == id;
      assert a[|id| + 1..] == t.pod && b[|id| + 1..] == pod;
    }
  }

  /** With every stored text non-empty, a POD is missing for the day exactly
      when one of its cells in the day's rows is empty. */
  lemma DayMissingIsEmptyCells(d: Date, pods: seq<string>, m: map<string, string>, p: string)
    requires Valid(d)
    requires forall key :: key in m ==> m[key] != ""
    ensures p in DayMissing(Key(d), pods, m)
            <==> exists k, j :: 1 <= k <= SlotsPerDay && 0 <= j < |pods| && pods[j] == p
                                && RowCells(Key(d), k, pods, m)[j] == ""
  {
    DayMissingMeaning(Key(d), pods, m, p);
    if p in DayMissing(Key(d), pods, m) {
      var k, j :| 1 <= k <= SlotsPerDay && 0 <= j < |pods| && pods[j] == p
                  && CellKey(Key(d), k, pods[j]) !in m;
      assert RowCells(Key(d), k, pods, m)[j] == "";
    }
  }

  /** Within a day the stamps strictly increase with the slot. */
  lemma StampIncreasing(d: Date, a: int, b: int)
    requires Valid(d) && 1 <= a < b <= SlotsPerDay
    ensures LexLe(Stamp(d, a), Stamp(d, b)) && Stamp(d, a) != Stamp(d, b)
  {
    var p := DisplayDate(d) + " ";
    assert Stamp(d, a) == p + SlotLabel(a) && Stamp(d, b) == p + SlotLabel(b);
    SlotLabelIncreasing(a, b);
    LexLeConcat(p, SlotLabel(a), p, SlotLabel(b));
    assert Stamp(d, a)[|p|..] == SlotLabel(a) && Stamp(d, b)[|p|..] == SlotLabel(b);
  }
}
