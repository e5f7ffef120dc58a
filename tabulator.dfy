/**
 * LSSTT2Tabulator: turns the data points of a transient into the columns that
 * downstream T2 units fit (a flux table, positions, Julian dates, stock ids).
 */
module Tabulator {
  import opened Wrappers

  /** A body field: a number (int or float in the source) or a string. */
  datatype Value = Num(x: real) | Str(s: string)

  /** A data point: its tags, its body of named fields and its `stock` id. */
  datatype DataPoint = DataPoint(tag: set<string>, body: map<string, Value>, stock: int)

  /** The flux table of `get_flux_table`, as six parallel columns. */
  datatype Table = Table(
    time: seq<Value>,
    flux: seq<Value>,
    fluxerr: seq<Value>,
    band: seq<Option<string>>,
    zp: seq<int>,
    zpsys: seq<string>)

  const LSST_TAG: string := "LSST"
  const ZTF_TAG: string := "ZTF"

  /** Offset from Modified Julian Date (the TAI mid-point of LSST) to Julian Date. */
  const JD_OFFSET: real := 2400000.5

  const ZERO_POINT: int := 25
  const ZP_SYSTEM: string := "ab"

  /** `LSST_BANDPASSES`: LSST filter names to the names of the LSST bandpasses. */
  const LSST_BANDPASSES: map<string, string> := map[
    "u" := "lsstu",
    "g" := "lsstg",
    "r" := "lsstr",
    "i" := "lssti",
    "z" := "lsstz",
    "y" := "lssty"]

  /** The body keys that `get_flux_table` asks for, in the order it unpacks them. */
  const FLUX_PARAMS: seq<string> := ["psFlux", "psFluxErr", "filterName", "midPointTai"]

  const POS_PARAMS: seq<string> := ["ra", "decl"]

  // ---------------------------------------------------------------------------
  // Selection of LSST data points
  // ---------------------------------------------------------------------------

  predicate IsLsst(dp: DataPoint)
  {
    LSST_TAG in dp.tag
  }

  /** The data points tagged "LSST", in input order. */
  function LsstRows(dps: seq<DataPoint>): (r: seq<DataPoint>)
    ensures |r| <= |dps|
    ensures forall i :: 0 <= i < |r| ==> r[i] in dps && IsLsst(r[i])
  {
    if dps == [] then []
    else (if IsLsst(dps[0]) then [dps[0]] else []) + LsstRows(dps[1..])
  }

  lemma {:induction false} LsstRowsAppend(a: seq<DataPoint>, b: seq<DataPoint>)
    ensures LsstRows(a + b) == LsstRows(a) + LsstRows(b)
  {
    if a == [] {
      assert a + b == b;
    } else {
      assert (a + b)[1..] == a[1..] + b;
      LsstRowsAppend(a[1..], b);
    }
  }

  /** A data point without the "LSST" tag, inserted anywhere, changes no column. */
  lemma NonLsstIgnored(before: seq<DataPoint>, d: DataPoint, after: seq<DataPoint>)
    requires !IsLsst(d)
    ensures LsstRows(before + [d] + after) == LsstRows(before + after)
  {
    LsstRowsAppend(before + [d], after);
    LsstRowsAppend(before, [d]);
    LsstRowsAppend(before, after);
    assert [d][1..] == [];
  }

  /** When every data point is tagged "LSST", all of them are kept, in order. */
  lemma {:induction false} AllLsstKept(dps: seq<DataPoint>)
    requires forall d :: d in dps ==> IsLsst(d)
    ensures LsstRows(dps) == dps
  {
    if dps != [] {
      assert forall d :: d in dps[1..] ==> d in dps;
      AllLsstKept(dps[1..]);
    }
  }

  /** Every LSST data point has the field `key` (otherwise `KeyError`). */
  predicate HasKey(dps: seq<DataPoint>, key: string)
  {
    forall d :: d in dps && IsLsst(d) ==> key in d.body
  }

  /** Every LSST data point has every requested key. */
  predicate HasParams(dps: seq<DataPoint>, params: seq<string>)
  {
    forall j :: 0 <= j < |params| ==> HasKey(dps, params[j])
  }

  /** Every LSST data point has a numeric field `key` (otherwise `KeyError` or `TypeError`). */
  predicate NumericAt(dps: seq<DataPoint>, key: string)
  {
    forall d :: d in dps && IsLsst(d) ==> key in d.body && d.body[key].Num?
  }

  /** Field `key` of every LSST data point, in input order. */
  function Column(dps: seq<DataPoint>, key: string): (col: seq<Value>)
    requires HasKey(dps, key)
    ensures |col| == |LsstRows(dps)|
    ensures NumericAt(dps, key) ==> forall i :: 0 <= i < |col| ==> col[i].Num?
  {
    var lsst := LsstRows(dps);
    seq(|lsst|, i requires 0 <= i < |lsst| => lsst[i].body[key])
  }

  /** The fields `get_flux_table` reads exist in every LSST data point. */
  predicate FluxFields(dps: seq<DataPoint>)
  {
    HasKey(dps, "psFlux") && HasKey(dps, "psFluxErr") &&
    HasKey(dps, "filterName") && HasKey(dps, "midPointTai")
  }

  // ---------------------------------------------------------------------------
  // get_values
  // ---------------------------------------------------------------------------

  /** `[el["body"][param] for param in params]`. */
  function Pick(d: DataPoint, params: seq<string>): (r: seq<Value>)
    requires forall j :: 0 <= j < |params| ==> params[j] in d.body
    ensures |r| == |params|
  {
    seq(|params|, j requires 0 <= j < |params| => d.body[params[j]])
  }

  /** The generator of `get_values`: one list of the requested fields per LSST data point. */
  function Rows(dps: seq<DataPoint>, params: seq<string>): (rows: seq<seq<Value>>)
    requires HasParams(dps, params)
  {
    var lsst := LsstRows(dps);
    seq(|lsst|, i requires 0 <= i < |lsst| => Pick(lsst[i], params))
  }

  /** The length of the shortest row: where Python's `zip` stops. */
  function MinLen(rows: seq<seq<Value>>): (n: nat)
    requires rows != []
    ensures forall i :: 0 <= i < |rows| ==> n <= |rows[i]|
    ensures exists i :: 0 <= i < |rows| && n == |rows[i]|
  {
    if |rows| == 1 then |rows[0]|
    else
      var n' := MinLen(rows[1..]);
      assert forall i :: 1 <= i < |rows| ==> rows[i] == rows[1..][i - 1];
      if |rows[0]| < n' then |rows[0]| else n'
  }

  /** `zip(*rows)`: column `j` holds the `j`-th item of every row; no column without rows. */
  function Zip(rows: seq<seq<Value>>): (cols: seq<seq<Value>>)
  {
    if rows == [] then []
    else
      var n := MinLen(rows);
      seq(n, j requires 0 <= j < n =>
        seq(|rows|, i requires 0 <= i < |rows| => rows[i][j]))
  }

  /** Transposing rows of equal width `w` gives `w` columns, one item per row each. */
  lemma ZipColumns(rows: seq<seq<Value>>, w: nat)
    requires rows != []
    requires forall i :: 0 <= i < |rows| ==> |rows[i]| == w
    ensures |Zip(rows)| == w
    ensures forall j :: 0 <= j < w ==> |Zip(rows)[j]| == |rows|
    ensures forall j, i :: 0 <= j < w && 0 <= i < |rows| ==> Zip(rows)[j][i] == rows[i][j]
  {
  }

  /**
   * `get_values`: one column per requested key, holding that key of every LSST
   * data point in input order; `len(params)` empty columns when there is none.
   */
  function GetValues(dps: seq<DataPoint>, params: seq<string>): (cols: seq<seq<Value>>)
    requires HasParams(dps, params)
    ensures |cols| == |params|
    ensures forall j :: 0 <= j < |params| ==> cols[j] == Column(dps, params[j])
  {
    var rows := Rows(dps, params);
    var tup := Zip(rows);
    if tup != [] then
      ZipColumns(rows, |params|);
      tup
    else
      assert rows != [] ==> params == [] by {
        if rows != [] { ZipColumns(rows, |params|); }
      }
      seq(|params|, _ => [])
  }

  // ---------------------------------------------------------------------------
  // The public views
  // ---------------------------------------------------------------------------

  /** `_to_jd`: each date shifted from MJD to JD, order and length kept. */
  function ToJd(dates: seq<Value>): (r: seq<Value>)
    requires forall i :: 0 <= i < |dates| ==> dates[i].Num?
  {
    seq(|dates|, i requires 0 <= i < |dates| => Num(dates[i].x + JD_OFFSET))
  }

  /** `LSST_BANDPASSES.get(name)`: `None` for anything but the six LSST filter names. */
  function Band(name: Value): (r: Option<string>)
    ensures r.Some? <==> name.Str? && name.s in {"u", "g", "r", "i", "z", "y"}
    ensures r.Some? ==> r.value == "lsst" + name.s
  {
    if name.Str? && name.s in LSST_BANDPASSES then Some(LSST_BANDPASSES[name.s]) else None
  }

  /** The six LSST filter names give six different bandpasses. */
  lemma BandInjective(a: Value, b: Value)
    requires Band(a).Some? && Band(a) == Band(b)
    ensures a == b
  {
    assert ("lsst" + a.s)[4..] == a.s;
    assert ("lsst" + b.s)[4..] == b.s;
  }

  /** `list(map(LSST_BANDPASSES.get, filtername))`. */
  function Bands(names: seq<Value>): (r: seq<Option<string>>)
    ensures |r| == |names|
    ensures forall i :: 0 <= i < |names| ==> r[i] == Band(names[i])
  {
    if names == [] then [] else [Band(names[0])] + Bands(names[1..])
  }

  /**
   * `get_flux_table`: six columns of one row per LSST data point; the time
   * column in JD when `convert2jd`, band names mapped, zero point 25 (AB).
   */
  function GetFluxTable(dps: seq<DataPoint>, convert2jd: bool): (t: Table)
    requires FluxFields(dps)
    requires convert2jd ==> NumericAt(dps, "midPointTai")
    ensures t.flux == Column(dps, "psFlux") && t.fluxerr == Column(dps, "psFluxErr")
    ensures convert2jd ==> t.time == ToJd(Column(dps, "midPointTai"))
    ensures !convert2jd ==> t.time == Column(dps, "midPointTai")
    ensures t.band == Bands(Column(dps, "filterName"))
    ensures |t.zp| == |t.zpsys| == |LsstRows(dps)|
    ensures forall i :: 0 <= i < |t.zp| ==> t.zp[i] == ZERO_POINT && t.zpsys[i] == ZP_SYSTEM
  {
    assert HasParams(dps, FLUX_PARAMS);
    var cols := GetValues(dps, FLUX_PARAMS);
    var flux, fluxerr, filtername, tai := cols[0], cols[1], cols[2], cols[3];
    var time := if convert2jd then ToJd(tai) else tai;
    var filters := Bands(filtername);
    Table(time, flux, fluxerr, filters,
          seq(|filters|, _ => ZERO_POINT), seq(|filters|, _ => ZP_SYSTEM))
  }

  /**
   * Row `i` of the flux table is the `i`-th LSST data point: its time (shifted
   * to JD when `convert2jd`), flux, flux error and mapped band, and all six
   * columns have one entry per LSST data point.
   */
  lemma FluxTableRow(dps: seq<DataPoint>, convert2jd: bool, i: int)
    requires FluxFields(dps)
    requires convert2jd ==> NumericAt(dps, "midPointTai")
    requires 0 <= i < |LsstRows(dps)|
    ensures var t := GetFluxTable(dps, convert2jd);
      var body := LsstRows(dps)[i].body;
      |t.time| == |t.flux| == |t.fluxerr| == |t.band| == |LsstRows(dps)| &&
      "midPointTai" in body && "psFlux" in body && "psFluxErr" in body && "filterName" in body &&
      (convert2jd ==> t.time[i] == Num(body["midPointTai"].x + JD_OFFSET)) &&
      (!convert2jd ==> t.time[i] == body["midPointTai"]) &&
      t.flux[i] == body["psFlux"] && t.fluxerr[i] == body["psFluxErr"] &&
      t.band[i] == Band(body["filterName"])
  {
    ColumnAt(dps, "psFlux", i);
    ColumnAt(dps, "psFluxErr", i);
    ColumnAt(dps, "filterName", i);
    ColumnAt(dps, "midPointTai", i);
    if convert2jd {
      JdColumnAt(dps, "midPointTai", i);
    }
  }

  /**
   * Without LSST data points every flux-table column is empty (and no field
   * is required of the others).
   */
  lemma EmptyWithoutLsst(dps: seq<DataPoint>, convert2jd: bool)
    requires forall d :: d in dps ==> !IsLsst(d)
    ensures FluxFields(dps) && NumericAt(dps, "midPointTai")
    ensures var t := GetFluxTable(dps, convert2jd);
      t.time == [] && t.flux == [] && t.fluxerr == [] && t.band == [] && t.zp == [] && t.zpsys == []
  {
    NoLsstRows(dps);
  }

  lemma {:induction false} NoLsstRows(dps: seq<DataPoint>)
    requires forall d :: d in dps ==> !IsLsst(d)
    ensures LsstRows(dps) == []
  {
    if dps != [] {
      assert dps[0] in dps;
      NoLsstRows(dps[1..]);
    }
  }

  /** Entry `i` of a column is field `key` of the `i`-th LSST data point. */
  lemma ColumnAt(dps: seq<DataPoint>, key: string, i: int)
    requires HasKey(dps, key)
    requires 0 <= i < |LsstRows(dps)|
    ensures key in LsstRows(dps)[i].body
    ensures Column(dps, key)[i] == LsstRows(dps)[i].body[key]
  {
    assert LsstRows(dps)[i] in dps && IsLsst(LsstRows(dps)[i]);
  }

  /** Entry `i` of a converted column is field `key` of the `i`-th LSST data point, shifted to JD. */
  lemma JdColumnAt(dps: seq<DataPoint>, key: string, i: int)
    requires NumericAt(dps, key)
    requires 0 <= i < |LsstRows(dps)|
    ensures key in LsstRows(dps)[i].body
    ensures ToJd(Column(dps, key))[i] == Num(LsstRows(dps)[i].body[key].x + JD_OFFSET)
  {
    assert LsstRows(dps)[i] in dps && IsLsst(LsstRows(dps)[i]);
  }

  /** A converted column holds field `key` of every LSST data point, shifted to JD. */
  lemma JdColumn(dps: seq<DataPoint>, key: string)
    requires NumericAt(dps, key)
    ensures |ToJd(Column(dps, key))| == |LsstRows(dps)|
    ensures forall i :: 0 <= i < |LsstRows(dps)| ==>
      key in LsstRows(dps)[i].body &&
      ToJd(Column(dps, key))[i] == Num(LsstRows(dps)[i].body[key].x + JD_OFFSET)
  {
    forall i | 0 <= i < |LsstRows(dps)|
      ensures key in LsstRows(dps)[i].body
      ensures ToJd(Column(dps, key))[i] == Num(LsstRows(dps)[i].body[key].x + JD_OFFSET)
    {
      JdColumnAt(dps, key, i);
    }
  }

  /** `get_pos`: the `(ra, decl)` pair of every LSST data point, in input order. */
  function GetPos(dps: seq<DataPoint>): (r: seq<(Value, Value)>)
    requires HasKey(dps, "ra") && HasKey(dps, "decl")
    ensures |r| == |LsstRows(dps)|
    ensures forall i :: 0 <= i < |r| ==>
      var body := LsstRows(dps)[i].body;
      "ra" in body && "decl" in body && r[i] == (body["ra"], body["decl"])
  {
    assert HasParams(dps, POS_PARAMS);
    var cols := GetValues(dps, POS_PARAMS);
    ZipColumns(cols, |LsstRows(dps)|);
    var pairs := Zip(cols);
    PairsAreFields(dps, cols, pairs);
    seq(|pairs|, i requires 0 <= i < |pairs| => (pairs[i][0], pairs[i][1]))
  }

  lemma PairsAreFields(dps: seq<DataPoint>, cols: seq<seq<Value>>, pairs: seq<seq<Value>>)
    requires HasKey(dps, "ra") && HasKey(dps, "decl")
    requires cols == [Column(dps, "ra"), Column(dps, "decl")]
    requires |pairs| == |LsstRows(dps)|
    requires forall i :: 0 <= i < |pairs| ==> |pairs[i]| == 2
    requires forall j, i :: 0 <= j < 2 && 0 <= i < |pairs| ==> pairs[i][j] == cols[j][i]
    ensures forall i :: 0 <= i < |pairs| ==>
      var body := LsstRows(dps)[i].body;
      "ra" in body && "decl" in body && pairs[i][0] == body["ra"] && pairs[i][1] == body["decl"]
  {
    forall i | 0 <= i < |pairs|
      ensures "ra" in LsstRows(dps)[i].body && "decl" in LsstRows(dps)[i].body
      ensures pairs[i][0] == LsstRows(dps)[i].body["ra"]
      ensures pairs[i][1] == LsstRows(dps)[i].body["decl"]
    {
      assert LsstRows(dps)[i] in dps && IsLsst(LsstRows(dps)[i]);
      assert pairs[i][0] == cols[0][i] == Column(dps, "ra")[i];
      assert pairs[i][1] == cols[1][i] == Column(dps, "decl")[i];
    }
  }

  /** The keys Python iterates when a string stands where a list of keys is expected. */
  function Chars(s: string): (r: seq<string>)
  {
    seq(|s|, i requires 0 <= i < |s| => [s[i]])
  }

  /**
   * `get_jd` as written: `get_values(dps, "midPointTai")` looks up the eleven
   * one-letter keys "m", "i", "d", ... and keeps the column of key "m".
   */
  function GetJd(dps: seq<DataPoint>): (r: seq<Value>)
    requires HasParams(dps, Chars("midPointTai"))
    requires NumericAt(dps, "m")
    ensures |r| == |LsstRows(dps)|
    ensures forall i :: 0 <= i < |r| ==>
      "m" in LsstRows(dps)[i].body && r[i] == Num(LsstRows(dps)[i].body["m"].x + JD_OFFSET)
  {
    var cols := GetValues(dps, Chars("midPointTai"));
    FirstCharKey();
    JdColumn(dps, "m");
    ToJd(cols[0])
  }

  /** The first key `get_jd` looks up is "m". */
  lemma FirstCharKey()
    ensures |Chars("midPointTai")| == 11 && Chars("midPointTai")[0] == "m"
  {
  }

  /**
   * An LSST data point that carries its time under "midPointTai" and no
   * one-letter keys is refused by `get_jd` (a `KeyError` on "m").
   */
  lemma GetJdRejectsTimedPoint()
    ensures var dp := DataPoint({LSST_TAG}, map["midPointTai" := Num(60000.0)], 1);
      NumericAt([dp], "midPointTai") && !HasParams([dp], Chars("midPointTai"))
  {
    var dp := DataPoint({LSST_TAG}, map["midPointTai" := Num(60000.0)], 1);
    var keys := Chars("midPointTai");
    FirstCharKey();
    assert keys[0] in keys;
    assert dp in [dp] && IsLsst(dp) && keys[0] !in dp.body;
  }

  /** `get_jd` as intended: the Julian date of every LSST data point's "midPointTai". */
  function GetJdIntended(dps: seq<DataPoint>): (r: seq<Value>)
    requires NumericAt(dps, "midPointTai")
    ensures |r| == |LsstRows(dps)|
    ensures forall i :: 0 <= i < |r| ==>
      "midPointTai" in LsstRows(dps)[i].body &&
      r[i] == Num(LsstRows(dps)[i].body["midPointTai"].x + JD_OFFSET)
  {
    assert HasParams(dps, ["midPointTai"]);
    var cols := GetValues(dps, ["midPointTai"]);
    JdColumn(dps, "midPointTai");
    ToJd(cols[0])
  }

  /** The intended `get_jd` agrees with the time column of the JD flux table. */
  lemma GetJdIntendedIsFluxTime(dps: seq<DataPoint>)
    requires FluxFields(dps) && NumericAt(dps, "midPointTai")
    ensures GetJdIntended(dps) == GetFluxTable(dps, true).time
  {
  }

  /** `get_stock_id`: the stock ids of the data points tagged "ZTF" (not "LSST"). */
  function GetStockId(dps: seq<DataPoint>): (r: set<int>)
    ensures forall s :: s in r <==> exists d :: d in dps && ZTF_TAG in d.tag && d.stock == s
  {
    if dps == [] then {}
    else
      assert forall d :: d in dps <==> d == dps[0] || d in dps[1..];
      (if ZTF_TAG in dps[0].tag then {dps[0].stock} else {}) + GetStockId(dps[1..])
  }

  /** `get_stock_name` returns `get_stock_id`. */
  function GetStockName(dps: seq<DataPoint>): (r: set<int>)
    ensures forall s :: s in r <==> exists d :: d in dps && ZTF_TAG in d.tag && d.stock == s
  {
    GetStockId(dps)
  }
}
