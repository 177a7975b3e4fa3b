/**
 * The atomic unit of an overlay: the structural key of one entry and the row
 * stored under it (property.py:102-129), plus Python's truthiness on the
 * optional fields and the sort keys the lookups use.
 */
module Keys {
  import opened Wrappers
  import opened Ordering

  /** A `(date_from, date_to)` pair, the key of the date index. */
  type DateRange = (Option<string>, Option<string>)

  /** PLEXOSPropertyKey: equality is structural over all nine fields. */
  datatype Key = Key(
    scenario: Option<string>,
    band: int,
    timeslice: Option<string>,
    dateFrom: Option<string>,
    dateTo: Option<string>,
    periodTypeId: Option<int>,
    action: Option<string>,
    variable: Option<string>,
    text: Option<string>)

  /** PLEXOSRow: the value of an entry together with its provenance. */
  datatype Row = Row(
    value: Option<real>,
    scenarioName: Option<string>,
    band: int,
    timesliceName: Option<string>,
    dateFrom: Option<string>,
    dateTo: Option<string>,
    datafileName: Option<string>,
    datafileId: Option<int>,
    columnName: Option<string>,
    variableName: Option<string>,
    variableId: Option<int>,
    action: Option<string>,
    units: Option<string>,
    text: Option<string>)

  /** Python's `bool(s)` for an optional string: neither None nor "". */
  predicate Truthy(s: Option<string>) {
    s.Some? && s.value != ""
  }

  /** Python's `bool(i)` for an optional integer: neither None nor 0. */
  predicate TruthyId(i: Option<int>) {
    i.Some? && i.value != 0
  }

  /** Python's `s or d` for an optional string and a string default. */
  function OrString(s: Option<string>, d: string): (r: string)
    ensures Truthy(s) ==> r == s.value
    ensures !Truthy(s) ==> r == d
  {
    if Truthy(s) then s.value else d
  }

  /** Python's `a or b` for two optional strings. */
  function OrOption(a: Option<string>, b: Option<string>): (r: Option<string>)
    ensures Truthy(a) ==> r == a
    ensures !Truthy(a) ==> r == b
  {
    if Truthy(a) then a else b
  }

  /** Python's `band or 1`. */
  function BandOrOne(band: int): int {
    if band == 0 then 1 else band
  }

  /** The key `PLEXOSPropertyKey(scenario=, band=, timeslice=, date_from=, date_to=)`, every other field None. */
  function DimensionKey(scenario: Option<string>, band: int, timeslice: Option<string>,
                        dateFrom: Option<string>, dateTo: Option<string>): Key
  {
    Key(scenario, band, timeslice, dateFrom, dateTo, None, None, None, None)
  }

  /** The "pure default" key: band 1 and every other field None (property.py:489). */
  const PureDefault: Key := DimensionKey(None, 1, None, None, None)

  /** The key `add_entry` files a row under (property.py:102-112). */
  function EntryKey(row: Row, periodTypeId: Option<int>): (k: Key)
    ensures k.scenario == row.scenarioName && k.band == row.band && k.timeslice == row.timesliceName
    ensures k.dateFrom == row.dateFrom && k.dateTo == row.dateTo && k.periodTypeId == periodTypeId
    ensures k.action == row.action && k.variable == row.variableName && k.text == row.text
  {
    Key(row.scenarioName, row.band, row.timesliceName, row.dateFrom, row.dateTo,
        periodTypeId, row.action, row.variableName, row.text)
  }

  /** A "simple" entry for priority resolution: band 1, no timeslice, no dates (property.py:457). */
  predicate IsSimple(k: Key) {
    k.band == 1 && k.timeslice.None? && k.dateFrom.None? && k.dateTo.None?
  }

  /** Sort key of a scenario bucket: `(k.timeslice or "", k.band or 1)` (property.py:222). */
  function ScenarioBucketOrder(k: Key): seq<Atom> {
    [AStr(OrString(k.timeslice, "")), AInt(BandOrOne(k.band))]
  }

  /** Sort key of a timeslice bucket: `(k.band or 1, k.scenario or "")` (property.py:229). */
  function TimesliceBucketOrder(k: Key): seq<Atom> {
    [AInt(BandOrOne(k.band)), AStr(OrString(k.scenario, ""))]
  }

  /** Sort key of a band bucket: `(k.scenario or "", k.timeslice or "", k.date_from or "")` (property.py:251). */
  function BandBucketOrder(k: Key): seq<Atom> {
    [AStr(OrString(k.scenario, "")), AStr(OrString(k.timeslice, "")), AStr(OrString(k.dateFrom, ""))]
  }

  /** Sort keys of index keys: strings, band numbers and date pairs (None before any string). */
  function StringOrder(s: string): seq<Atom> { [AStr(s)] }

  function IntOrder(i: int): seq<Atom> { [AInt(i)] }

  function OptionAtom(s: Option<string>): Atom {
    match s
    case None => AInt(0)
    case Some(t) => AStr(t)
  }

  function DateOrder(d: DateRange): seq<Atom> { [OptionAtom(d.0), OptionAtom(d.1)] }

  lemma OrdersInjective(ss: set<string>, bs: set<int>, ds: set<DateRange>)
    ensures InjectiveOn(ss, StringOrder)
    ensures InjectiveOn(bs, IntOrder)
    ensures InjectiveOn(ds, DateOrder)
  {
    forall a, b | a in ds && b in ds && DateOrder(a) == DateOrder(b)
      ensures a == b
    {
      assert DateOrder(a)[0] == DateOrder(b)[0] && DateOrder(a)[1] == DateOrder(b)[1];
    }
    forall a, b | a in ss && b in ss && StringOrder(a) == StringOrder(b)
      ensures a == b
    {
      assert StringOrder(a)[0] == StringOrder(b)[0];
    }
    forall a, b | a in bs && b in bs && IntOrder(a) == IntOrder(b)
      ensures a == b
    {
      assert IntOrder(a)[0] == IntOrder(b)[0];
    }
  }
}
