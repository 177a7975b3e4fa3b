/**
 * The dictionaries that `from_dict` and `from_records` read (property.py:35-81),
 * and the rows they turn them into.  A record maps field names to Python
 * values; `record.get(name)` is `None` for a missing name.
 */
module Records {
  import opened Wrappers
  import opened Keys

  datatype Datum = DNone | DInt(i: int) | DReal(r: real) | DStr(s: string)

  type Record = map<string, Datum>

  /** `record.get(name)`. */
  function Get(rec: Record, name: string): (d: Datum)
    ensures name !in rec ==> d == DNone
  {
    if name in rec then rec[name] else DNone
  }

  /** Python truthiness of a record value. */
  predicate DatumTruthy(d: Datum) {
    match d
    case DNone => false
    case DInt(i) => i != 0
    case DReal(r) => r != 0.0
    case DStr(s) => s != ""
  }

  /** `a or b` on record values. */
  function OrDatum(a: Datum, b: Datum): (d: Datum)
    ensures DatumTruthy(a) ==> d == a
    ensures !DatumTruthy(a) ==> d == b
  {
    if DatumTruthy(a) then a else b
  }

  function AsString(d: Datum): Option<string> {
    if d.DStr? then Some(d.s) else None
  }

  function AsId(d: Datum): Option<int> {
    if d.DInt? then Some(d.i) else None
  }

  function AsNumber(d: Datum): Option<real> {
    match d
    case DInt(i) => Some(i as real)
    case DReal(r) => Some(r)
    case _ => None
  }

  function FromString(s: Option<string>): Datum {
    if s.Some? then DStr(s.value) else DNone
  }

  /**
   * `record.get("band", 1)`.  A whole float such as `2.0` is the same key as
   * the integer band, since Python hashes and compares them alike.
   */
  function BandOf(rec: Record): (b: int)
    ensures "band" !in rec ==> b == 1
    ensures "band" in rec && rec["band"].DInt? ==> b == rec["band"].i
    ensures "band" in rec && rec["band"].DReal? && rec["band"].r == rec["band"].r.Floor as real ==> b as real == rec["band"].r
  {
    if "band" !in rec then 1
    else match rec["band"]
      case DInt(i) => i
      case DReal(r) => if r == r.Floor as real then r.Floor else 1
      case _ => 1
  }

  /**
   * The row that `from_records` adds for one record (property.py:68-80):
   * `time_slice` and `variable` are aliases used when the main name is empty,
   * and the record's units fall back to the collection's.
   */
  function RecordRow(rec: Record, units: Option<string>): (row: Row)
    ensures row.value == AsNumber(Get(rec, "value")) && row.band == BandOf(rec)
    ensures row.scenarioName == AsString(Get(rec, "scenario"))
    ensures DatumTruthy(Get(rec, "timeslice")) ==> row.timesliceName == AsString(Get(rec, "timeslice"))
    ensures !DatumTruthy(Get(rec, "timeslice")) ==> row.timesliceName == AsString(Get(rec, "time_slice"))
    ensures !DatumTruthy(Get(rec, "variable_name")) ==> row.variableName == AsString(Get(rec, "variable"))
    ensures !DatumTruthy(Get(rec, "units")) ==> row.units == units
    ensures row.datafileName == None && row.datafileId == None && row.columnName == None && row.variableId == None
  {
    Row(AsNumber(Get(rec, "value")), AsString(Get(rec, "scenario")), BandOf(rec),
        AsString(OrDatum(Get(rec, "timeslice"), Get(rec, "time_slice"))),
        AsString(Get(rec, "date_from")), AsString(Get(rec, "date_to")),
        None, None, None,
        AsString(OrDatum(Get(rec, "variable_name"), Get(rec, "variable"))), None,
        AsString(Get(rec, "action")),
        AsString(OrDatum(Get(rec, "units"), FromString(units))),
        AsString(Get(rec, "text")))
  }

  /** The rows of `from_records`, one per record, in order. */
  function RecordRows(records: seq<Record>, units: Option<string>): (rows: seq<Row>)
    ensures |rows| == |records|
    ensures forall i :: 0 <= i < |records| ==> rows[i] == RecordRow(records[i], units)
  {
    seq(|records|, i requires 0 <= i < |records| => RecordRow(records[i], units))
  }

  /**
   * The row that `from_dict` adds (property.py:39-53): `datafile`, `column`
   * and `variable` are aliases, but only `timeslice` names the timeslice.
   */
  function DictRow(d: Record): (row: Row)
    ensures row.value == AsNumber(Get(d, "value")) && row.band == BandOf(d)
    ensures row.timesliceName == AsString(Get(d, "timeslice"))
    ensures !DatumTruthy(Get(d, "datafile_name")) ==> row.datafileName == AsString(Get(d, "datafile"))
    ensures !DatumTruthy(Get(d, "column_name")) ==> row.columnName == AsString(Get(d, "column"))
    ensures !DatumTruthy(Get(d, "variable_name")) ==> row.variableName == AsString(Get(d, "variable"))
    ensures row.units == AsString(Get(d, "units"))
  {
    Row(AsNumber(Get(d, "value")), AsString(Get(d, "scenario")), BandOf(d),
        AsString(Get(d, "timeslice")),
        AsString(Get(d, "date_from")), AsString(Get(d, "date_to")),
        AsString(OrDatum(Get(d, "datafile_name"), Get(d, "datafile"))), AsId(Get(d, "datafile_id")),
        AsString(OrDatum(Get(d, "column_name"), Get(d, "column"))),
        AsString(OrDatum(Get(d, "variable_name"), Get(d, "variable"))), AsId(Get(d, "variable_id")),
        AsString(Get(d, "action")),
        AsString(Get(d, "units")),
        AsString(Get(d, "text")))
  }

  /** `from_dict` ignores a `time_slice` field, whereas `from_records` reads it when `timeslice` is empty. */
  lemma TimeSliceAliasOnlyInRecords(d: Record, t: string, units: Option<string>)
    requires "timeslice" !in d && t != ""
    ensures DictRow(d["time_slice" := DStr(t)]) == DictRow(d)
    ensures RecordRow(d["time_slice" := DStr(t)], units).timesliceName == Some(t)
  {
    var d' := d["time_slice" := DStr(t)];
    assert forall n :: n != "time_slice" ==> Get(d', n) == Get(d, n);
  }
}
