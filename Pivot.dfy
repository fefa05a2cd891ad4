/** The per-day fold of measurement tuples into the cell map, with the
    duplicate rule: a key is written when it is absent or when the stored text
    is a zero placeholder ("0.0_..."); otherwise the stored text is kept and the
    tuple counts as an anomaly (the exporter logs a warning for it). */
module Pivot {
  import opened Text

  /** One document of the per-day query: MEAS_YMDD_ID, POD, MEAS_TYPE and the
      text of the double "val", all as the strings the exporter concatenates. */
  datatype Tuple = Tuple(measId: string, pod: string, measType: string, value: string)

  /** The map key: MEAS_YMDD_ID + "_" + POD. */
  function MapKey(t: Tuple): (r: string)
    ensures |r| == |t.measId| + 1 + |t.pod|
    ensures r[..|t.measId|] == t.measId && r[|t.measId|] == '_' && r[|t.measId| + 1..] == t.pod
  {
    t.measId + "_" + t.pod
  }

  /** Documents whose ids have the same length share a key exactly when
      they have the same id and the same POD. */
  lemma MapKeyInjective(t: Tuple, u: Tuple)
    requires |t.measId| == |u.measId|
    ensures MapKey(t) == MapKey(u) <==> t.measId == u.measId && t.pod == u.pod
  {
    if MapKey(t) == MapKey(u) {
      var n := |t.measId|;
      assert t.measId == MapKey(t)[..n] == MapKey(u)[..n] == u.measId;
      assert t.pod == MapKey(t)[n + 1..] == MapKey(u)[n + 1..] == u.pod;
    }
  }

  /** The stored cell text: val + "_" + MEAS_TYPE. It is never empty. */
  function StoredText(t: Tuple): (r: string)
    ensures |r| == |t.value| + 1 + |t.measType|
    ensures r[..|t.value|] == t.value && r[|t.value|] == '_' && r[|t.value| + 1..] == t.measType
  {
    t.value + "_" + t.measType
  }

  const ZeroPrefix := "0.0_"

  predicate IsZeroPlaceholder(v: string) {
    StartsWith(v, ZeroPrefix)
  }

  /** The guard of the put into the day map: the key is absent or holds a
      zero placeholder. A key holding a real reading refuses every later tuple. */
  predicate Accepts(m: map<string, string>, t: Tuple): (r: bool)
    ensures MapKey(t) !in m ==> r
    ensures MapKey(t) in m && !StartsWith(m[MapKey(t)], "0.0_") ==> !r
  {
    MapKey(t) !in m || IsZeroPlaceholder(m[MapKey(t)])
  }

  /** One step of the fold. */
  function Put(m: map<string, string>, t: Tuple): (r: map<string, string>)
    ensures r.Keys == m.Keys + {MapKey(t)}
    ensures r[MapKey(t)] == if Accepts(m, t) then StoredText(t) else m[MapKey(t)]
    ensures forall k :: k in m && k != MapKey(t) ==> r[k] == m[k]
  {
    if Accepts(m, t) then m[MapKey(t) := StoredText(t)] else m
  }

  /** The map after putting the tuples, in order, into m0. */
  function FoldFrom(m0: map<string, string>, ts: seq<Tuple>): (r: map<string, string>) {
    if ts == [] then m0 else Put(FoldFrom(m0, ts[..|ts| - 1]), ts[|ts| - 1])
  }

  /** The map of one day: the fold starting from the cleared map. */
  function Fold(ts: seq<Tuple>): (r: map<string, string>) {
    FoldFrom(map[], ts)
  }

  /** The number of tuples the fold refuses (each one a logged warning). */
  function Anomalies(m0: map<string, string>, ts: seq<Tuple>): (r: nat) {
    if ts == [] then 0
    else
      var init := ts[..|ts| - 1];
      Anomalies(m0, init) + (if Accepts(FoldFrom(m0, init), ts[|ts| - 1]) then 0 else 1)
  }

  /** The stored texts of the tuples with key k, in stream order. */
  function ValuesFor(ts: seq<Tuple>, k: string): (r: seq<string>) {
    if ts == [] then []
    else
      var t := ts[|ts| - 1];
      ValuesFor(ts[..|ts| - 1], k) + (if MapKey(t) == k then [StoredText(t)] else [])
  }

  /** The duplicate rule stated on its own: the first value that is not a zero
      placeholder, or the last value when every one is a zero placeholder. */
  function Winner(vs: seq<string>): (r: string)
    requires vs != []
  {
    if |vs| == 1 || !IsZeroPlaceholder(vs[0]) then vs[0] else Winner(vs[1..])
  }

  /** The loop over the day's query result, putting each document into the map. */
  method FoldDay(m0: map<string, string>, ts: seq<Tuple>)
    returns (m: map<string, string>, anomalies: nat)
    ensures m == FoldFrom(m0, ts)
    ensures anomalies == Anomalies(m0, ts)
  {
    m, anomalies := m0, 0;
    for i := 0 to |ts|
      invariant m == FoldFrom(m0, ts[..i])
      invariant anomalies == Anomalies(m0, ts[..i])
    {
      assert ts[..i + 1][..i] == ts[..i];
      var doc := ts[i];
      assert FoldFrom(m0, ts[..i + 1]) == Put(m, doc);
      var key := doc.measId + "_" + doc.pod;
      if key !in m || StartsWith(m[key], "0.0_") {
        m := m[key := doc.value + "_" + doc.measType];
      } else {
        anomalies := anomalies + 1;
      }
    }
    assert ts[..|ts|] == ts;
  }

  lemma WinnerIsFirstRealReading(vs: seq<string>, i: int)
    requires 0 <= i < |vs| && !IsZeroPlaceholder(vs[i])
    requires forall j :: 0 <= j < i ==> IsZeroPlaceholder(vs[j])
    ensures Winner(vs) == vs[i]
  {
    if i > 0 {
      WinnerIsFirstRealReading(vs[1..], i - 1);
    }
  }

  lemma WinnerOfPlaceholders(vs: seq<string>)
    requires vs != []
    requires forall j :: 0 <= j < |vs| ==> IsZeroPlaceholder(vs[j])
    ensures Winner(vs) == vs[|vs| - 1]
  {
    if |vs| > 1 {
      WinnerOfPlaceholders(vs[1..]);
    }
  }

  /** A value appended after the others wins only if every earlier value was a
      zero placeholder. */
  lemma {:induction false} WinnerSnoc(vs: seq<string>, v: string)
    requires vs != []
    ensures Winner(vs + [v]) == if IsZeroPlaceholder(Winner(vs)) then v else Winner(vs)
  {
    if |vs| == 1 {
      assert (vs + [v])[1..] == [v];
    } else {
      assert (vs + [v])[1..] == vs[1..] + [v];
      WinnerSnoc(vs[1..], v);
    }
  }

  /** The fold resolves every key by the duplicate rule: a key is present
      exactly when some tuple has it, and then holds the winner of that key's
      values in stream order. */
  lemma {:induction false} FoldResolvesByWinner(ts: seq<Tuple>, k: string)
    ensures k in Fold(ts) <==> ValuesFor(ts, k) != []
    ensures k in Fold(ts) ==> Fold(ts)[k] == Winner(ValuesFor(ts, k))
  {
    if ts != [] {
      var init, t := ts[..|ts| - 1], ts[|ts| - 1];
      FoldResolvesByWinner(init, k);
      assert ts[..|ts| - 1] == init;
      assert Fold(ts) == Put(Fold(init), t);
      assert ValuesFor(ts, k) == ValuesFor(init, k) + (if MapKey(t) == k then [StoredText(t)] else []);
      if MapKey(t) == k {
        var vs := ValuesFor(init, k);
        if vs == [] {
          assert ValuesFor(ts, k) == [StoredText(t)];
        } else {
          WinnerSnoc(vs, StoredText(t));
          assert Accepts(Fold(init), t) <==> IsZeroPlaceholder(Winner(vs));
        }
      } else {
        assert ValuesFor(ts, k) == ValuesFor(init, k);
      }
    }
  }

  /** Every stored value is val + "_" + MEAS_TYPE of a tuple with that key. */
  lemma {:induction false} FoldValuesComeFromTuples(ts: seq<Tuple>, k: string)
    requires k in Fold(ts)
    ensures exists i :: 0 <= i < |ts| && MapKey(ts[i]) == k && Fold(ts)[k] == StoredText(ts[i])
  {
    var init, t := ts[..|ts| - 1], ts[|ts| - 1];
    if k == MapKey(t) && Accepts(Fold(init), t) {
      assert ts[|ts| - 1] == t;
    } else {
      FoldValuesComeFromTuples(init, k);
      var i :| 0 <= i < |init| && MapKey(init[i]) == k && Fold(init)[k] == StoredText(init[i]);
      assert ts[i] == init[i];
    }
  }

  /** No stored value is empty: each holds at least the '_' before MEAS_TYPE. */
  lemma FoldValuesNonEmpty(ts: seq<Tuple>)
    ensures forall k :: k in Fold(ts) ==> Fold(ts)[k] != ""
  {
    forall k | k in Fold(ts)
      ensures Fold(ts)[k] != ""
    {
      FoldValuesComeFromTuples(ts, k);
    }
  }

  /** Each tuple either adds a key, replaces a placeholder, or is an anomaly. */
  lemma {:induction false} AnomaliesBound(ts: seq<Tuple>)
    ensures Anomalies(map[], ts) + |Fold(ts)| <= |ts|
  {
    if ts != [] {
      AnomaliesBound(ts[..|ts| - 1]);
    }
  }

  /** A zero reading followed by a real one for the same key: the real one is kept. */
  lemma ZeroPlaceholderSuperseded()
    ensures var ts := [Tuple("20240101_01", "PODX", "0", "0.0"),
                       Tuple("20240101_01", "PODX", "1", "12.5")];
            Fold(ts) == map["20240101_01_PODX" := "12.5_1"] && Anomalies(map[], ts) == 0
  {
    var ts := [Tuple("20240101_01", "PODX", "0", "0.0"),
               Tuple("20240101_01", "PODX", "1", "12.5")];
    assert ts[..1] == [ts[0]] && [ts[0]][..0] == [];
    assert Fold([ts[0]]) == Put(Fold([]), ts[0]);
    assert MapKey(ts[0]) == "20240101_01_PODX" && MapKey(ts[1]) == "20240101_01_PODX";
    assert StoredText(ts[0]) == "0.0_0" && StoredText(ts[1]) == "12.5_1";
    assert Fold([ts[0]]) == map["20240101_01_PODX" := "0.0_0"];
    assert IsZeroPlaceholder("0.0_0");
  }

  /** A real reading followed by another for the same key: the first is kept
      and the second is an anomaly. */
  lemma FirstRealReadingKept()
    ensures var ts := [Tuple("20240101_01", "PODX", "0", "9.0"),
                       Tuple("20240101_01", "PODX", "1", "12.5")];
            Fold(ts) == map["20240101_01_PODX" := "9.0_0"] && Anomalies(map[], ts) == 1
  {
    var ts := [Tuple("20240101_01", "PODX", "0", "9.0"),
               Tuple("20240101_01", "PODX", "1", "12.5")];
    assert ts[..1] == [ts[0]] && [ts[0]][..0] == [];
    assert Fold([ts[0]]) == Put(Fold([]), ts[0]);
    assert MapKey(ts[0]) == "20240101_01_PODX" && MapKey(ts[1]) == "20240101_01_PODX";
    assert StoredText(ts[0]) == "9.0_0" && StoredText(ts[1]) == "12.5_1";
    assert Fold([ts[0]]) == map["20240101_01_PODX" := "9.0_0"];
    assert !IsZeroPlaceholder("9.0_0") by {
      assert "9.0_0"[..4] != ZeroPrefix by { assert "9.0_0"[0] != ZeroPrefix[0]; }
    }
  }
}
