/** The export run: the distinct-POD check, the header, the existence probe
    and the loop over one-day windows that folds each day's documents into
    the pivot map and writes the day's 96 rows. */
module Export {
  import opened Text
  import opened Slots
  import opened Calendar
  import opened DayWindows
  import opened Pivot
  import opened Grid

  /** The match stage of a query: lo <= MEAS_YMDD_ID < hi, compared as
      strings, and the document's POD is in the list. Only a window with lo
      before hi lets anything through. */
  predicate Selected(t: Tuple, lo: string, hi: string, pods: seq<string>): (r: bool)
    ensures r ==> t.pod in pods && !LexLe(hi, lo)
  {
    LexLeTransitive(hi, lo, t.measId);
    LexLe(lo, t.measId) && !LexLe(hi, t.measId) && t.pod in pods
  }

  /** The documents of the collection the match stage lets through, in the
      collection's order (which is the order of the sort stage). */
  function Query(db: seq<Tuple>, lo: string, hi: string, pods: seq<string>): (r: seq<Tuple>)
    ensures |r| <= |db|
  {
    if db == [] then []
    else
      var t := db[|db| - 1];
      Query(db[..|db| - 1], lo, hi, pods) + (if Selected(t, lo, hi, pods) then [t] else [])
  }

  /** A document is in the result exactly when it is in the collection and matches. */
  lemma {:induction false} QueryMembers(db: seq<Tuple>, lo: string, hi: string, pods: seq<string>, t: Tuple)
    ensures t in Query(db, lo, hi, pods) <==> t in db && Selected(t, lo, hi, pods)
  {
    if db != [] {
      var init := db[..|db| - 1];
      QueryMembers(init, lo, hi, pods, t);
      assert db == init + [db[|db| - 1]];
    }
  }

  /** The query keeps the collection's order: querying two parts of the
      collection and joining the results is querying the whole. */
  lemma {:induction false} QueryConcat(a: seq<Tuple>, b: seq<Tuple>, lo: string, hi: string, pods: seq<string>)
    ensures Query(a + b, lo, hi, pods) == Query(a, lo, hi, pods) + Query(b, lo, hi, pods)
  {
    if b == [] {
      assert a + b == a;
    } else {
      var init := b[..|b| - 1];
      QueryConcat(a, init, lo, hi, pods);
      assert (a + b)[..|a + b| - 1] == a + init;
    }
  }

  /** The documents of day d: the window [minDay, maxDay) is [Key(d), Key(NextDay(d))). */
  function DayTuples(db: seq<Tuple>, pods: seq<string>, d: Date): (r: seq<Tuple>)
    requires Supported(d)
  {
    Query(db, Key(d), Key(NextDay(d)), pods)
  }

  /** The 96 rows written for day d, from a map emptied before the day's fold. */
  function DayBlock(db: seq<Tuple>, pods: seq<string>, d: Date): (r: seq<string>)
    requires Supported(d)
  {
    DayRows(d, pods, Fold(DayTuples(db, pods, d)))
  }

  /** The PODs with an empty cell in the rows of day d. */
  function DayGaps(db: seq<Tuple>, pods: seq<string>, d: Date): (r: set<string>)
    requires Supported(d)
  {
    DayMissing(Key(d), pods, Fold(DayTuples(db, pods, d)))
  }

  predicate AllSupported(ws: seq<Date>) {
    forall i :: 0 <= i < |ws| ==> Supported(ws[i])
  }

  /** The rows of the days ws, day after day. */
  function Blocks(db: seq<Tuple>, pods: seq<string>, ws: seq<Date>): (r: seq<string>)
    requires AllSupported(ws)
  {
    if ws == [] then [] else Blocks(db, pods, ws[..|ws| - 1]) + DayBlock(db, pods, ws[|ws| - 1])
  }

  /** podsWithSomeNullValues after the days ws. */
  function RunMissing(db: seq<Tuple>, pods: seq<string>, ws: seq<Date>): (r: set<string>)
    requires AllSupported(ws)
  {
    if ws == [] then {} else RunMissing(db, pods, ws[..|ws| - 1]) + DayGaps(db, pods, ws[|ws| - 1])
  }

  /** How the run ends: the day loop ran to its end, or exit(5) was called for
      want of PODs or of measurements. */
  datatype Status = Completed | NoPods | NoMeasurements

  /** 5 for the two exit(5) calls; 0 marks a run that reached the end of the
      day loop without calling exit. */
  function ExitCode(s: Status): (code: int)
    ensures code == 0 <==> s == Completed
  {
    if s == Completed then 0 else 5
  }

  /** The existence probe: some document of a listed POD lies in [startDate, endDate). */
  predicate HasMeasurements(db: seq<Tuple>, pods: seq<string>, start: Date, end: Date): (r: bool)
    requires Valid(start) && Valid(end)
    ensures r ==> exists t :: t in db && Selected(t, Key(start), Key(end), pods)
  {
    var probe := Query(db, Key(start), Key(end), pods);
    if probe != [] then
      QueryMembers(db, Key(start), Key(end), pods, probe[0]);
      true
    else false
  }

  /** The probe finds something exactly when some document of the collection
      matches [startDate, endDate) and the POD list. */
  lemma HasMeasurementsMeaning(db: seq<Tuple>, pods: seq<string>, start: Date, end: Date, t: Tuple)
    requires Valid(start) && Valid(end) && t in db && Selected(t, Key(start), Key(end), pods)
    ensures HasMeasurements(db, pods, start, end)
  {
    QueryMembers(db, Key(start), Key(end), pods, t);
  }

  /** The body of run from the POD check to the end of the day loop. The
      lines are what is handed to the writer, without the "\n" each write
      appends; missing is podsWithSomeNullValues. */
  method Run(db: seq<Tuple>, pods: seq<string>, start: Date, end: Date)
    returns (status: Status, lines: seq<string>, missing: set<string>)
    requires Supported(start) && Supported(end)
    ensures status == NoPods <==> pods == []
    ensures status == NoPods ==> lines == [] && missing == {}
    ensures status == NoMeasurements <==> pods != [] && !HasMeasurements(db, pods, start, end)
    ensures status == NoMeasurements ==> lines == [HeaderLine(pods)] && missing == {}
    ensures status == Completed ==>
              lines == [HeaderLine(pods)] + Blocks(db, pods, Windows(start, end))
              && missing == RunMissing(db, pods, Windows(start, end))
  {
    lines, missing := [], {};
    if |pods| == 0 {
      return NoPods, lines, missing;
    }
    var header := BuildHeader(pods);
    lines := lines + [header];
    assert lines == [header];
    var rows;
    status, rows, missing := WriteDays(db, pods, start, end);
    lines := lines + rows;
    if status == NoMeasurements {
      assert rows == [] && lines == [header];
    }
  }

  /** From the first window to the end of the day loop: the probe for any
      measurement in [startDate, endDate), then the rows of every day. */
  method WriteDays(db: seq<Tuple>, pods: seq<string>, start: Date, end: Date)
    returns (status: Status, lines: seq<string>, missing: set<string>)
    requires Supported(start) && Supported(end)
    ensures status != NoPods
    ensures status == NoMeasurements <==> !HasMeasurements(db, pods, start, end)
    ensures status == NoMeasurements ==> lines == [] && missing == {}
    ensures status == Completed ==>
              lines == Blocks(db, pods, Windows(start, end))
              && missing == RunMissing(db, pods, Windows(start, end))
  {
    var startDate, endDate := Key(start), Key(end);
    ParseKeyOfKey(start);
    var minDay := Key(ParseKey(startDate));
    var maxDay := Key(NextDay(ParseKey(minDay)));

    var probe := Query(db, startDate, endDate, pods);
    if |probe| == 0 {
      return NoMeasurements, [], {};
    }
    lines, missing := DayLoop(db, pods, minDay, maxDay, endDate, start, end);
    status := Completed;
  }

  /** The day loop: while the key of maxDay is at most endDate, write the rows
      of the window [minDay, maxDay) and move both bounds on by one day. */
  method DayLoop(db: seq<Tuple>, pods: seq<string>, minDay0: string, maxDay0: string, endDate: string,
                 ghost start: Date, ghost end: Date)
    returns (lines: seq<string>, missing: set<string>)
    requires Supported(start) && Supported(end)
    requires minDay0 == Key(start) && maxDay0 == Key(NextDay(start)) && endDate == Key(end)
    ensures lines == Blocks(db, pods, Windows(start, end))
    ensures missing == RunMissing(db, pods, Windows(start, end))
  {
    var minDay, maxDay := minDay0, maxDay0;
    lines, missing := [], {};
    ghost var day := start;
    LoopGuard(start, end);
    while LexLe(maxDay, endDate)
      invariant Supported(day) && !Before(day, start) && (day == start || !Before(end, day))
      invariant minDay == Key(day) && maxDay == Key(NextDay(day))
      invariant LexLe(maxDay, endDate) <==> Before(day, end)
      invariant lines == Blocks(db, pods, Windows(start, day))
      invariant missing == RunMissing(db, pods, Windows(start, day))
      decreases Rank(end) - Rank(day)
    {
      BeforeRank(day, end);
      NextDayRank(day);
      var rows;
      rows, missing := ExportDay(db, pods, minDay, maxDay, day, missing);
      lines := lines + rows;
      WindowsNext(db, pods, start, day);

      minDay := maxDay;
      ExportStep(start, day, end);
      day := NextDay(day);
      ParseKeyOfKey(day);
      maxDay := Key(NextDay(ParseKey(minDay)));
      LoopGuard(day, end);
    }
    WindowsAtExit(start, end, day);
  }

  /** One pass of the day loop: empty the map, fold the day's documents into
      it, then write the day's rows and collect the PODs with an empty cell. */
  method ExportDay(db: seq<Tuple>, pods: seq<string>, minDay: string, maxDay: string,
                   ghost day: Date, missing0: set<string>)
    returns (rows: seq<string>, missing: set<string>)
    requires Supported(day) && minDay == Key(day) && maxDay == Key(NextDay(day))
    ensures rows == DayBlock(db, pods, day)
    ensures missing == missing0 + DayGaps(db, pods, day)
  {
    var podValues: map<string, string> := map[];
    var docs := Query(db, minDay, maxDay, pods);
    var anomalies;
    podValues, anomalies := FoldDay(podValues, docs);
    rows, missing := EmitDay(minDay, day, pods, podValues, missing0);
  }

  /** One more day appends that day's block and its gaps. */
  lemma WindowsNext(db: seq<Tuple>, pods: seq<string>, start: Date, day: Date)
    requires Valid(start) && Supported(day) && !Before(day, start)
    ensures AllSupported(Windows(start, NextDay(day)))
    ensures Blocks(db, pods, Windows(start, NextDay(day)))
            == Blocks(db, pods, Windows(start, day)) + DayBlock(db, pods, day)
    ensures RunMissing(db, pods, Windows(start, NextDay(day)))
            == RunMissing(db, pods, Windows(start, day)) + DayGaps(db, pods, day)
  {
    WindowsSnoc(start, day);
    var ws := Windows(start, day);
    assert (ws + [day])[..|ws|] == ws;
  }

  /** A day in [start, end) steps to a day that is still supported, not before
      start and not past the end. */
  lemma ExportStep(start: Date, day: Date, end: Date)
    requires Supported(day) && Supported(end) && !Before(day, start) && Before(day, end)
    ensures Supported(NextDay(day)) && !Before(NextDay(day), start) && !Before(end, NextDay(day))
  {
    NextDayIsSuccessor(day, end);
  }

  /** When the loop stops, the days walked through are all the windows up to the end date. */
  lemma WindowsAtExit(start: Date, end: Date, day: Date)
    requires Valid(start) && Valid(end) && Valid(day)
    requires day == start || !Before(end, day)
    requires !Before(day, end)
    ensures Windows(start, day) == Windows(start, end)
  {
    if day != start {
      assert day == end;
    } else {
      assert Windows(start, day) == [] && Windows(start, end) == [];
    }
  }

  /** A document whose MEAS_YMDD_ID starts with the key of day x lies in the
      string window [Key(a), Key(b)) exactly when a <= x < b. */
  lemma IdInWindow(id: string, x: Date, rest: string, a: Date, b: Date)
    requires Valid(x) && Valid(a) && Valid(b) && id == Key(x) + rest
    ensures LexLe(Key(a), id) && !LexLe(Key(b), id) <==> !Before(x, a) && Before(x, b)
  {
    assert Key(a) + [] == Key(a) && Key(b) + [] == Key(b);
    LexLeConcat(Key(a), [], Key(x), rest);
    LexLeConcat(Key(b), [], Key(x), rest);
    KeyOrder(a, x);
    KeyOrder(b, x);
    KeyInjective(a, x);
    KeyInjective(b, x);
  }

  lemma KeyInjective(a: Date, b: Date)
    requires Valid(a) && Valid(b)
    ensures Key(a) == Key(b) <==> a == b
  {
    ParseKeyOfKey(a);
    ParseKeyOfKey(b);
  }

  /** The query of day d holds exactly the listed PODs' documents of day d. */
  lemma DayTuplesAreThatDay(db: seq<Tuple>, pods: seq<string>, d: Date, t: Tuple, x: Date, rest: string)
    requires Supported(d) && Valid(x) && t.measId == Key(x) + rest
    ensures t in DayTuples(db, pods, d) <==> t in db && t.pod in pods && x == d
  {
    QueryMembers(db, Key(d), Key(NextDay(d)), pods, t);
    IdInWindow(t.measId, x, rest, d, NextDay(d));
    NextDayIsSuccessor(d, x);
  }

  /** The map is emptied before each day's fold, so a document of another day,
      or of a POD not in the list, has no effect on the rows of day d. */
  lemma DayIndependentOfOtherDays(db1: seq<Tuple>, t: Tuple, db2: seq<Tuple>, pods: seq<string>, d: Date)
    requires Supported(d)
    requires !Selected(t, Key(d), Key(NextDay(d)), pods)
    ensures DayBlock(db1 + [t] + db2, pods, d) == DayBlock(db1 + db2, pods, d)
    ensures DayGaps(db1 + [t] + db2, pods, d) == DayGaps(db1 + db2, pods, d)
  {
    DayTuplesSkip(db1, t, db2, pods, d);
  }

  lemma DayTuplesSkip(db1: seq<Tuple>, t: Tuple, db2: seq<Tuple>, pods: seq<string>, d: Date)
    requires Supported(d)
    requires !Selected(t, Key(d), Key(NextDay(d)), pods)
    ensures DayTuples(db1 + [t] + db2, pods, d) == DayTuples(db1 + db2, pods, d)
  {
    var lo, hi := Key(d), Key(NextDay(d));
    QueryConcat(db1 + [t], db2, lo, hi, pods);
    QueryConcat(db1, [t], lo, hi, pods);
    QueryConcat(db1, db2, lo, hi, pods);
    assert [t][..0] == [];
    assert Query([t], lo, hi, pods) == [];
  }

  /** Every document of a day in [start, end) is one the existence probe over
      [startDate, endDate) sees; so when the probe finds nothing, no day has any. */
  lemma ProbeCoversDays(db: seq<Tuple>, pods: seq<string>, start: Date, end: Date, d: Date, t: Tuple)
    requires Valid(start) && Valid(end) && Supported(d) && !Before(d, start) && Before(d, end)
    requires t in DayTuples(db, pods, d)
    ensures t in Query(db, Key(start), Key(end), pods)
  {
    QueryMembers(db, Key(d), Key(NextDay(d)), pods, t);
    QueryMembers(db, Key(start), Key(end), pods, t);
    KeyOrder(start, d);
    LexLeTransitive(Key(start), Key(d), t.measId);
    NextDayIsSuccessor(d, end);
    KeyOrder(NextDay(d), end);
    if LexLe(Key(end), t.measId) {
      LexLeTransitive(Key(NextDay(d)), Key(end), t.measId);
    }
  }

  /** The output after the header holds 96 rows per day. */
  lemma {:induction false} BlocksLength(db: seq<Tuple>, pods: seq<string>, ws: seq<Date>)
    requires AllSupported(ws)
    ensures |Blocks(db, pods, ws)| == SlotsPerDay * |ws|
  {
    if ws != [] {
      var d := ws[|ws| - 1];
      BlocksLength(db, pods, ws[..|ws| - 1]);
      DayRowsAreSlots(d, pods, Fold(DayTuples(db, pods, d)));
    }
  }

  /** Row k of the i-th day sits at position 96 * i + k - 1 of the output after
      the header, and is built from that day's documents alone. */
  lemma {:induction false} BlocksLayout(db: seq<Tuple>, pods: seq<string>, ws: seq<Date>, i: int, k: int)
    requires AllSupported(ws) && 0 <= i < |ws| && 1 <= k <= SlotsPerDay
    ensures |Blocks(db, pods, ws)| == SlotsPerDay * |ws|
    ensures Blocks(db, pods, ws)[SlotsPerDay * i + k - 1]
            == RowLine(ws[i], k, pods, Fold(DayTuples(db, pods, ws[i])))
  {
    BlocksLength(db, pods, ws);
    var init, d := ws[..|ws| - 1], ws[|ws| - 1];
    var head, block := Blocks(db, pods, init), DayBlock(db, pods, d);
    assert Blocks(db, pods, ws) == head + block;
    BlocksLength(db, pods, init);
    if i < |ws| - 1 {
      BlocksLayout(db, pods, init, i, k);
      assert init[i] == ws[i];
      assert (head + block)[SlotsPerDay * i + k - 1] == head[SlotsPerDay * i + k - 1];
    } else {
      assert block[k - 1] == RowLine(d, k, pods, Fold(DayTuples(db, pods, d))) by {
        DayRowsAreSlots(d, pods, Fold(DayTuples(db, pods, d)));
      }
      assert (head + block)[SlotsPerDay * i + k - 1] == block[k - 1];
    }
  }

  /** podsWithSomeNullValues never loses a POD from one day to the next. */
  lemma {:induction false} RunMissingGrows(db: seq<Tuple>, pods: seq<string>, ws: seq<Date>, n: int)
    requires AllSupported(ws) && 0 <= n <= |ws|
    ensures RunMissing(db, pods, ws[..n]) <= RunMissing(db, pods, ws)
  {
    if n < |ws| {
      var init := ws[..|ws| - 1];
      assert ws[..n] == init[..n];
      RunMissingGrows(db, pods, init, n);
    } else {
      assert ws[..n] == ws;
    }
  }

  /** Some row of day d has an empty cell in the column of POD p. */
  predicate HasEmptyCell(db: seq<Tuple>, pods: seq<string>, d: Date, p: string)
    requires Supported(d)
  {
    exists k, j :: 1 <= k <= SlotsPerDay && 0 <= j < |pods| && pods[j] == p
                   && RowCells(Key(d), k, pods, Fold(DayTuples(db, pods, d)))[j] == ""
  }

  /** A POD is among the day's gaps exactly when one of its cells that day is empty. */
  lemma DayGapsAreEmptyCells(db: seq<Tuple>, pods: seq<string>, d: Date, p: string)
    requires Supported(d)
    ensures p in DayGaps(db, pods, d) <==> HasEmptyCell(db, pods, d, p)
  {
    FoldValuesNonEmpty(DayTuples(db, pods, d));
    DayMissingIsEmptyCells(d, pods, Fold(DayTuples(db, pods, d)), p);
  }

  /** After the run, a POD is in podsWithSomeNullValues exactly when one of
      its cells in the rows written is empty. */
  lemma RunMissingIsEmptyCells(db: seq<Tuple>, pods: seq<string>, ws: seq<Date>, p: string)
    requires AllSupported(ws)
    ensures p in RunMissing(db, pods, ws) <==> exists i :: 0 <= i < |ws| && HasEmptyCell(db, pods, ws[i], p)
  {
    if p in RunMissing(db, pods, ws) {
      MissingHasEmptyCell(db, pods, ws, p);
    }
    if exists i :: 0 <= i < |ws| && HasEmptyCell(db, pods, ws[i], p) {
      var i :| 0 <= i < |ws| && HasEmptyCell(db, pods, ws[i], p);
      EmptyCellIsMissing(db, pods, ws, p, i);
    }
  }

  lemma AllSupportedInit(ws: seq<Date>)
    requires AllSupported(ws) && ws != []
    ensures AllSupported(ws[..|ws| - 1])
  {
    var init := ws[..|ws| - 1];
    forall i | 0 <= i < |init| ensures Supported(init[i]) {
      assert init[i] == ws[i];
    }
  }

  lemma {:induction false} MissingHasEmptyCell(db: seq<Tuple>, pods: seq<string>, ws: seq<Date>, p: string)
    requires AllSupported(ws) && p in RunMissing(db, pods, ws)
    ensures exists i :: 0 <= i < |ws| && HasEmptyCell(db, pods, ws[i], p)
  {
    var init, d := ws[..|ws| - 1], ws[|ws| - 1];
    AllSupportedInit(ws);
    if p in RunMissing(db, pods, init) {
      MissingHasEmptyCell(db, pods, init, p);
      var i :| 0 <= i < |init| && HasEmptyCell(db, pods, init[i], p);
      assert ws[i] == init[i];
    } else {
      DayGapsAreEmptyCells(db, pods, d, p);
      assert HasEmptyCell(db, pods, ws[|ws| - 1], p);
    }
  }

  lemma {:induction false} EmptyCellIsMissing(db: seq<Tuple>, pods: seq<string>, ws: seq<Date>, p: string, i: int)
    requires AllSupported(ws) && 0 <= i < |ws| && HasEmptyCell(db, pods, ws[i], p)
    ensures p in RunMissing(db, pods, ws)
  {
    var init, d := ws[..|ws| - 1], ws[|ws| - 1];
    AllSupportedInit(ws);
    if i < |init| {
      assert init[i] == ws[i];
      EmptyCellIsMissing(db, pods, init, p, i);
    } else {
      DayGapsAreEmptyCells(db, pods, d, p);
    }
  }
}
