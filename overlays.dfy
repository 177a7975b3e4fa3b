/**
 * The state of one PLEXOSPropertyValue as a value: the entries in insertion
 * order (a Python dict keeps the position of a key that is written again),
 * the overlay-level units and action, and the six indexes.  Insertion,
 * metadata and the `get_*` / `has_*` accessors of property.py are functions of
 * this value.
 */
module Overlays {
  import opened Wrappers
  import opened Ordering
  import opened Keys
  import opened Indexes

  datatype Overlay = Overlay(
    order: seq<Key>,
    rows: map<Key, Row>,
    units: Option<string>,
    action: Option<string>,
    ix: Index)

  /** `PLEXOSPropertyValue(units=units)`: no entries, empty indexes. */
  function Empty(units: Option<string>): (o: Overlay)
    ensures o.rows == map[] && o.order == [] && o.units == units && o.action == None
  {
    Overlay([], map[], units, None, EmptyIndex)
  }

  ghost predicate Distinct(keys: seq<Key>) {
    forall i, j :: 0 <= i < j < |keys| ==> keys[i] != keys[j]
  }

  /** A list without repeats is as long as its set of elements. */
  lemma {:induction false} DistinctLength(keys: seq<Key>)
    requires Distinct(keys)
    ensures |Elems(keys)| == |keys|
    decreases |keys|
  {
    if |keys| > 0 {
      var init := keys[..|keys| - 1];
      var last := keys[|keys| - 1];
      assert Distinct(init);
      DistinctLength(init);
      assert Elems(keys) == Elems(init) + {last};
      assert last !in Elems(init);
    }
  }

  /** The class invariant: the order lists each entry key once, and the indexes are the ones the entries determine. */
  ghost predicate WellFormed(o: Overlay) {
    && Distinct(o.order)
    && o.rows.Keys == Elems(o.order)
    && o.ix == IndexFor(o.rows.Keys)
  }

  /**
   * Over distinct entry keys, well-formedness is exactly that the indexes are
   * the ones `_rebuild_indexes` (property.py:424-437) computes from the
   * entries in insertion order.
   */
  lemma WellFormedRebuilt(o: Overlay)
    requires Distinct(o.order) && o.rows.Keys == Elems(o.order)
    ensures WellFormed(o) <==> o.ix == BuildIndex(o.order)
  {
    BuildIndexFor(o.order);
  }

  lemma EmptyWellFormed(units: Option<string>)
    ensures WellFormed(Empty(units))
  {
    assert Elems([]) == {};
    assert IndexFor({}) == EmptyIndex;
  }

  /** `self.entries[key] = row` followed by `self._add_to_indexes(key)` (property.py:131-132). */
  function Inserted(o: Overlay, k: Key, row: Row): Overlay {
    Overlay(if k in o.rows then o.order else o.order + [k], o.rows[k := row], o.units, o.action, AddToIndex(o.ix, k))
  }

  /** `_update_metadata` (property.py:154-159): a field is set only while it is still empty. */
  function WithMetadata(o: Overlay, units: Option<string>, action: Option<string>): Overlay {
    o.(units := if !Truthy(o.units) && Truthy(units) then units else o.units,
       action := if !Truthy(o.action) && Truthy(action) then action else o.action)
  }

  /** `add_entry` (property.py:83-133) with the row and the period type it is given. */
  function AddEntry(o: Overlay, row: Row, periodTypeId: Option<int>): Overlay {
    WithMetadata(Inserted(o, EntryKey(row, periodTypeId), row), row.units, row.action)
  }

  /** `add_entry` called on each row in turn, no period type (the loops of from_records and add_from_db_rows). */
  function AddAll(o: Overlay, rows: seq<Row>): Overlay
    decreases |rows|
  {
    if |rows| == 0 then o else AddEntry(AddAll(o, rows[..|rows| - 1]), rows[|rows| - 1], None)
  }

  /** One more row of a fold is one more `add_entry`. */
  lemma AddAllStep(o: Overlay, rows: seq<Row>, i: int)
    requires 0 <= i < |rows|
    ensures AddAll(o, rows[..i + 1]) == AddEntry(AddAll(o, rows[..i]), rows[i], None)
  {
    assert rows[..i + 1][..i] == rows[..i];
  }

  /** Inserting keeps the invariant: this is the index-consistency property of every insert. */
  lemma InsertedWellFormed(o: Overlay, k: Key, row: Row)
    requires WellFormed(o)
    ensures WellFormed(Inserted(o, k, row))
  {
    var o' := Inserted(o, k, row);
    AddToIndexFor(o.rows.Keys, k);
    assert o'.rows.Keys == o.rows.Keys + {k};
    if k !in o.rows {
      AppendDistinct(o.order, k);
    }
  }

  /** Appending a new key keeps the keys distinct and adds it to their set. */
  lemma AppendDistinct(keys: seq<Key>, k: Key)
    requires Distinct(keys) && k !in Elems(keys)
    ensures Distinct(keys + [k]) && Elems(keys + [k]) == Elems(keys) + {k}
  {
    var keys' := keys + [k];
    forall i, j | 0 <= i < j < |keys'|
      ensures keys'[i] != keys'[j]
    {
      if j == |keys| {
        assert keys[i] in Elems(keys);
      }
    }
  }

  /**
   * Writing to a key that is already present replaces its row and keeps the
   * entry count and the order; a new key is appended.  Every other entry is
   * untouched.
   */
  lemma InsertedEntries(o: Overlay, k: Key, row: Row)
    requires WellFormed(o)
    ensures Inserted(o, k, row).rows[k] == row
    ensures forall k' :: k' in o.rows && k' != k ==> k' in Inserted(o, k, row).rows && Inserted(o, k, row).rows[k'] == o.rows[k']
    ensures k in o.rows ==> |Inserted(o, k, row).rows| == |o.rows| && Inserted(o, k, row).order == o.order
    ensures k !in o.rows ==> |Inserted(o, k, row).rows| == |o.rows| + 1 && Inserted(o, k, row).order == o.order + [k]
  {
    var r := o.rows[k := row];
    if k in o.rows {
      assert r.Keys == o.rows.Keys;
    } else {
      assert r.Keys == o.rows.Keys + {k};
    }
  }

  /** The same in the class's terms: inserting keeps the indexes equal to the ones rebuilt from the entries. */
  lemma InsertedRebuilt(o: Overlay, k: Key, row: Row)
    requires Distinct(o.order) && o.rows.Keys == Elems(o.order) && o.ix == BuildIndex(o.order)
    ensures var o' := Inserted(o, k, row);
            Distinct(o'.order) && o'.rows.Keys == Elems(o'.order) && o'.ix == BuildIndex(o'.order)
  {
    WellFormedRebuilt(o);
    InsertedWellFormed(o, k, row);
    WellFormedRebuilt(Inserted(o, k, row));
  }

  lemma AddEntryWellFormed(o: Overlay, row: Row, periodTypeId: Option<int>)
    requires WellFormed(o)
    ensures WellFormed(AddEntry(o, row, periodTypeId))
  {
    InsertedWellFormed(o, EntryKey(row, periodTypeId), row);
  }

  lemma {:induction false} AddAllWellFormed(o: Overlay, rows: seq<Row>)
    requires WellFormed(o)
    ensures WellFormed(AddAll(o, rows))
    decreases |rows|
  {
    if |rows| > 0 {
      AddAllWellFormed(o, rows[..|rows| - 1]);
      AddEntryWellFormed(AddAll(o, rows[..|rows| - 1]), rows[|rows| - 1], None);
    }
  }

  /** The overlay-level units (`action` false) or action (`action` true). */
  function Meta(o: Overlay, action: bool): Option<string> {
    if action then o.action else o.units
  }

  /** The same field of a row. */
  function RowMeta(r: Row, action: bool): Option<string> {
    if action then r.action else r.units
  }

  /** One more row sets the field only while it is still empty. */
  lemma MetaAfterRow(o: Overlay, rows: seq<Row>, action: bool)
    requires |rows| > 0
    ensures var before := Meta(AddAll(o, rows[..|rows| - 1]), action);
            var given := RowMeta(rows[|rows| - 1], action);
            Meta(AddAll(o, rows), action) == if !Truthy(before) && Truthy(given) then given else before
  {
  }

  /** A field that is already set is never overwritten. */
  lemma {:induction false} MetaKept(o: Overlay, rows: seq<Row>, action: bool)
    requires Truthy(Meta(o, action))
    ensures Meta(AddAll(o, rows), action) == Meta(o, action)
    decreases |rows|
  {
    if |rows| > 0 {
      MetaKept(o, rows[..|rows| - 1], action);
      MetaAfterRow(o, rows, action);
    }
  }

  /** An empty field stays as it is when no row supplies a value. */
  lemma {:induction false} MetaAbsent(o: Overlay, rows: seq<Row>, action: bool)
    requires !Truthy(Meta(o, action))
    requires forall j :: 0 <= j < |rows| ==> !Truthy(RowMeta(rows[j], action))
    ensures Meta(AddAll(o, rows), action) == Meta(o, action)
    decreases |rows|
  {
    if |rows| > 0 {
      MetaAbsent(o, rows[..|rows| - 1], action);
      MetaAfterRow(o, rows, action);
    }
  }

  /** An empty field takes the value of the first row that supplies one. */
  lemma {:induction false} MetaFromRow(o: Overlay, rows: seq<Row>, i: int, action: bool)
    requires !Truthy(Meta(o, action)) && 0 <= i < |rows| && Truthy(RowMeta(rows[i], action))
    requires forall j :: 0 <= j < i ==> !Truthy(RowMeta(rows[j], action))
    ensures Meta(AddAll(o, rows), action) == RowMeta(rows[i], action)
    decreases |rows|
  {
    var init := rows[..|rows| - 1];
    MetaAfterRow(o, rows, action);
    if i == |rows| - 1 {
      MetaAbsent(o, init, action);
    } else {
      MetaFromRow(o, init, i, action);
    }
  }

  /**
   * Overlay-level units take the first non-empty value supplied and are never
   * overwritten afterwards: after adding `rows`, the units are the overlay's
   * own if it had some, else those of the first row that names units, else
   * unchanged.
   */
  lemma UnitsFirstNonEmpty(o: Overlay, rows: seq<Row>, i: int)
    ensures Truthy(o.units) ==> AddAll(o, rows).units == o.units
    ensures !Truthy(o.units) && 0 <= i < |rows| && Truthy(rows[i].units) && (forall j :: 0 <= j < i ==> !Truthy(rows[j].units))
            ==> AddAll(o, rows).units == rows[i].units
    ensures !Truthy(o.units) && (forall j :: 0 <= j < |rows| ==> !Truthy(rows[j].units)) ==> AddAll(o, rows).units == o.units
  {
    if Truthy(o.units) {
      MetaKept(o, rows, false);
    } else {
      if 0 <= i < |rows| && Truthy(rows[i].units) && (forall j :: 0 <= j < i ==> !Truthy(rows[j].units)) {
        MetaFromRow(o, rows, i, false);
      }
      if forall j :: 0 <= j < |rows| ==> !Truthy(rows[j].units) {
        MetaAbsent(o, rows, false);
      }
    }
  }

  /** The same first-non-empty rule for the overlay-level action. */
  lemma ActionFirstNonEmpty(o: Overlay, rows: seq<Row>, i: int)
    ensures Truthy(o.action) ==> AddAll(o, rows).action == o.action
    ensures !Truthy(o.action) && 0 <= i < |rows| && Truthy(rows[i].action) && (forall j :: 0 <= j < i ==> !Truthy(rows[j].action))
            ==> AddAll(o, rows).action == rows[i].action
    ensures !Truthy(o.action) && (forall j :: 0 <= j < |rows| ==> !Truthy(rows[j].action)) ==> AddAll(o, rows).action == o.action
  {
    if Truthy(o.action) {
      MetaKept(o, rows, true);
    } else {
      if 0 <= i < |rows| && Truthy(rows[i].action) && (forall j :: 0 <= j < i ==> !Truthy(rows[j].action)) {
        MetaFromRow(o, rows, i, true);
      }
      if forall j :: 0 <= j < |rows| ==> !Truthy(rows[j].action) {
        MetaAbsent(o, rows, true);
      }
    }
  }

  /** Keys that differ only in their action are separate entries: `=` and `+` on one scenario give two (test_multiple_actions.py:6-17). */
  lemma TwoActionsTwoEntries(base: Row, v1: Option<real>, v2: Option<real>)
    ensures var o := AddAll(Empty(None), [base.(value := v1, action := Some("=")), base.(value := v2, action := Some("+"))]);
            |o.rows| == 2 && o.action == Some("=")
  {
    var r1, r2 := base.(value := v1, action := Some("=")), base.(value := v2, action := Some("+"));
    AddTwo(Empty(None), r1, r2);
    var k1, k2 := EntryKey(r1, None), EntryKey(r2, None);
    assert k1 != k2;
    var o1 := AddEntry(Empty(None), r1, None);
    assert o1.rows == map[k1 := r1] && o1.action == Some("=");
    var o2 := AddEntry(o1, r2, None);
    assert o2.rows.Keys == {k1, k2};
  }

  /** Adding two rows is adding the first, then the second. */
  lemma AddTwo(o: Overlay, r1: Row, r2: Row)
    ensures AddAll(o, [r1, r2]) == AddEntry(AddEntry(o, r1, None), r2, None)
  {
    var rows := [r1, r2];
    AddAllStep(o, rows, 0);
    AddAllStep(o, rows, 1);
    assert rows[..0] == [] && rows[..2] == rows;
  }

  // ----- accessors (property.py:261-315) -----

  /** `get_bands()`: the distinct bands of the band index, ascending. */
  function Bands(o: Overlay): (r: seq<int>)
    ensures forall b :: b in r <==> b in o.ix.byBand
    ensures |r| == |o.ix.byBand|
    ensures StrictlyIncreasing(r, IntOrder)
  {
    OrdersInjective({}, o.ix.byBand.Keys, {});
    SortedBy(o.ix.byBand.Keys, IntOrder)
  }

  /** `get_dates()`: the distinct date ranges of the date index, ascending. */
  function Dates(o: Overlay): (r: seq<DateRange>)
    ensures forall d :: d in r <==> d in o.ix.byDate
    ensures StrictlyIncreasing(r, DateOrder)
  {
    OrdersInjective({}, {}, o.ix.byDate.Keys);
    SortedBy(o.ix.byDate.Keys, DateOrder)
  }

  function SortedNames(names: set<string>): (r: seq<string>)
    ensures forall s :: s in r <==> s in names
    ensures |r| == |names|
    ensures StrictlyIncreasing(r, StringOrder)
  {
    OrdersInjective(names, {}, {});
    SortedBy(names, StringOrder)
  }

  /** `get_timeslices()`. */
  function Timeslices(o: Overlay): (r: seq<string>)
    ensures forall s :: s in r <==> s in o.ix.byTimeslice
    ensures |r| == |o.ix.byTimeslice|
    ensures StrictlyIncreasing(r, StringOrder)
  {
    SortedNames(o.ix.byTimeslice.Keys)
  }

  /** `get_scenarios()`. */
  function Scenarios(o: Overlay): (r: seq<string>)
    ensures forall s :: s in r <==> s in o.ix.byScenario
    ensures |r| == |o.ix.byScenario|
    ensures StrictlyIncreasing(r, StringOrder)
  {
    SortedNames(o.ix.byScenario.Keys)
  }

  /** `get_text()`. */
  function Texts(o: Overlay): (r: seq<string>)
    ensures forall s :: s in r <==> s in o.ix.byText
    ensures StrictlyIncreasing(r, StringOrder)
  {
    SortedNames(o.ix.byText.Keys)
  }

  /** `get_variables()`. */
  function Variables(o: Overlay): (r: seq<string>)
    ensures forall s :: s in r <==> s in o.ix.byVariable
    ensures StrictlyIncreasing(r, StringOrder)
  {
    SortedNames(o.ix.byVariable.Keys)
  }

  /** `get_scenarios()` lists exactly the non-empty scenario names of the entries; the scenario index is keyed by them. */
  lemma ScenarioNamesListed(o: Overlay, s: string)
    requires WellFormed(o)
    ensures s in Scenarios(o) <==> s != "" && exists k :: k in o.rows && k.scenario == Some(s)
    ensures s in o.ix.byScenario <==> s != "" && exists k :: k in o.rows && k.scenario == Some(s)
  {
    assert o.ix.byScenario == IndexBy(o.rows.Keys, ScenarioTag);
    IndexByKeys(o.rows.Keys, ScenarioTag, s);
    if s != "" && exists k :: k in o.rows && k.scenario == Some(s) {
      var k :| k in o.rows && k.scenario == Some(s);
      assert ScenarioTag(k) == Some(s);
    }
  }

  /** `get_timeslices()` lists exactly the non-empty timeslice names of the entries; the timeslice index is keyed by them. */
  lemma TimesliceNamesListed(o: Overlay, s: string)
    requires WellFormed(o)
    ensures s in Timeslices(o) <==> s != "" && exists k :: k in o.rows && k.timeslice == Some(s)
    ensures s in o.ix.byTimeslice <==> s != "" && exists k :: k in o.rows && k.timeslice == Some(s)
  {
    assert o.ix.byTimeslice == IndexBy(o.rows.Keys, TimesliceTag);
    IndexByKeys(o.rows.Keys, TimesliceTag, s);
    if s != "" && exists k :: k in o.rows && k.timeslice == Some(s) {
      var k :| k in o.rows && k.timeslice == Some(s);
      assert TimesliceTag(k) == Some(s);
    }
  }

  /** `get_variables()` lists exactly the non-empty variable names of the entries; the variable index is keyed by them. */
  lemma VariableNamesListed(o: Overlay, s: string)
    requires WellFormed(o)
    ensures s in Variables(o) <==> s != "" && exists k :: k in o.rows && k.variable == Some(s)
    ensures s in o.ix.byVariable <==> s != "" && exists k :: k in o.rows && k.variable == Some(s)
  {
    assert o.ix.byVariable == IndexBy(o.rows.Keys, VariableTag);
    IndexByKeys(o.rows.Keys, VariableTag, s);
    if s != "" && exists k :: k in o.rows && k.variable == Some(s) {
      var k :| k in o.rows && k.variable == Some(s);
      assert VariableTag(k) == Some(s);
    }
  }

  /** `get_text()` lists exactly the non-empty text names of the entries; the text index is keyed by them. */
  lemma TextNamesListed(o: Overlay, s: string)
    requires WellFormed(o)
    ensures s in Texts(o) <==> s != "" && exists k :: k in o.rows && k.text == Some(s)
    ensures s in o.ix.byText <==> s != "" && exists k :: k in o.rows && k.text == Some(s)
  {
    assert o.ix.byText == IndexBy(o.rows.Keys, TextTag);
    IndexByKeys(o.rows.Keys, TextTag, s);
    if s != "" && exists k :: k in o.rows && k.text == Some(s) {
      var k :| k in o.rows && k.text == Some(s);
      assert TextTag(k) == Some(s);
    }
  }

  /** On a well-formed overlay the name getters list exactly the non-empty values of that field among the entries. */
  lemma NamesListed(o: Overlay, s: string)
    requires WellFormed(o)
    ensures s in Scenarios(o) <==> s != "" && exists k :: k in o.rows && k.scenario == Some(s)
    ensures s in Timeslices(o) <==> s != "" && exists k :: k in o.rows && k.timeslice == Some(s)
    ensures s in Variables(o) <==> s != "" && exists k :: k in o.rows && k.variable == Some(s)
    ensures s in Texts(o) <==> s != "" && exists k :: k in o.rows && k.text == Some(s)
  {
    ScenarioNamesListed(o, s);
    TimesliceNamesListed(o, s);
    VariableNamesListed(o, s);
    TextNamesListed(o, s);
  }

  /** `get_bands()` lists exactly the bands of the entries. */
  lemma BandsListed(o: Overlay, b: int)
    requires WellFormed(o)
    ensures b in Bands(o) <==> exists k :: k in o.rows && k.band == b
    ensures b in o.ix.byBand <==> exists k :: k in o.rows && k.band == b
  {
    IndexByKeys(o.rows.Keys, BandTag, b);
    if exists k :: k in o.rows && k.band == b {
      var k :| k in o.rows && k.band == b;
      assert BandTag(k) == Some(b);
    }
  }

  /** `get_dates()` lists exactly the date ranges of the entries that carry a date. */
  lemma DatesListed(o: Overlay, d: DateRange)
    requires WellFormed(o)
    ensures d in Dates(o) <==> d != (None, None) && exists k :: k in o.rows && (k.dateFrom, k.dateTo) == d
  {
    IndexByKeys(o.rows.Keys, DateTag, d);
    if d != (None, None) && exists k :: k in o.rows && (k.dateFrom, k.dateTo) == d {
      var k :| k in o.rows && (k.dateFrom, k.dateTo) == d;
      assert DateTag(k) == Some(d);
    }
  }

  /** `has_bands()`: more than one distinct band in the band index. */
  function HasBands(o: Overlay): bool {
    |o.ix.byBand| > 1
  }

  /** `has_bands()` holds exactly when two entries have different bands (test_multiband_properties.py:66-88). */
  lemma HasBandsMeans(o: Overlay)
    requires WellFormed(o)
    ensures HasBands(o) <==> exists k1, k2 :: k1 in o.rows && k2 in o.rows && k1.band != k2.band
  {
    var bands := o.ix.byBand.Keys;
    MoreThanOne(bands);
    if HasBands(o) {
      var b1, b2 :| b1 in bands && b2 in bands && b1 != b2;
      BandsListed(o, b1);
      BandsListed(o, b2);
      var k1 :| k1 in o.rows && k1.band == b1;
      var k2 :| k2 in o.rows && k2.band == b2;
    }
    if exists k1, k2 :: k1 in o.rows && k2 in o.rows && k1.band != k2.band {
      var k1, k2 :| k1 in o.rows && k2 in o.rows && k1.band != k2.band;
      BandsListed(o, k1.band);
      BandsListed(o, k2.band);
    }
  }

  lemma MoreThanOne<T>(s: set<T>)
    ensures |s| > 1 <==> exists a, b :: a in s && b in s && a != b
  {
    if |s| > 1 {
      var a :| a in s;
      assert |s - {a}| > 0;
      var b :| b in s - {a};
    }
    if exists a, b :: a in s && b in s && a != b {
      var a, b :| a in s && b in s && a != b;
      assert {a, b} <= s;
      assert |{a, b}| == 2;
      SubsetCardinality({a, b}, s);
    }
  }

  lemma SubsetCardinality<T>(a: set<T>, b: set<T>)
    requires a <= b
    ensures |a| <= |b|
  {
    assert b == a + (b - a);
  }

  /** `has_date_from()`. */
  predicate HasDateFrom(o: Overlay) {
    exists k :: k in o.rows && k.dateFrom.Some?
  }

  /** `has_date_to()`. */
  predicate HasDateTo(o: Overlay) {
    exists k :: k in o.rows && k.dateTo.Some?
  }

  /** `has_scenarios()`. */
  function HasScenarios(o: Overlay): bool { |o.ix.byScenario| > 0 }

  /** `has_timeslices()`. */
  function HasTimeslices(o: Overlay): bool { |o.ix.byTimeslice| > 0 }

  /** `has_text()`. */
  function HasText(o: Overlay): bool { |o.ix.byText| > 0 }

  /** `has_datafile()`: some row names a datafile by name or id. */
  predicate HasDatafile(o: Overlay) {
    exists k :: k in o.rows && NamesDatafile(o.rows[k])
  }

  /** The per-row test of `has_datafile()`: a non-empty datafile name or a non-zero datafile id. */
  predicate NamesDatafile(row: Row) {
    Truthy(row.datafileName) || TruthyId(row.datafileId)
  }

  /** `has_variable()`: some row names a variable by name or id. */
  predicate HasVariable(o: Overlay) {
    exists k :: k in o.rows && NamesVariable(o.rows[k])
  }

  /** The per-row test of `has_variable()`: a non-empty variable name or a non-zero variable id. */
  predicate NamesVariable(row: Row) {
    Truthy(row.variableName) || TruthyId(row.variableId)
  }

  /** `has_scenarios()` holds exactly when some entry names a scenario. */
  lemma HasScenariosMeans(o: Overlay)
    requires WellFormed(o)
    ensures HasScenarios(o) <==> exists k :: k in o.rows && Truthy(k.scenario)
  {
    if exists k :: k in o.rows && Truthy(k.scenario) {
      var k :| k in o.rows && Truthy(k.scenario);
      ScenarioNamesListed(o, k.scenario.value);
    }
    if HasScenarios(o) {
      var s :| s in o.ix.byScenario;
      ScenarioNamesListed(o, s);
    }
  }

  /** `has_timeslices()` holds exactly when some entry names a timeslice. */
  lemma HasTimeslicesMeans(o: Overlay)
    requires WellFormed(o)
    ensures HasTimeslices(o) <==> exists k :: k in o.rows && Truthy(k.timeslice)
  {
    if exists k :: k in o.rows && Truthy(k.timeslice) {
      var k :| k in o.rows && Truthy(k.timeslice);
      TimesliceNamesListed(o, k.timeslice.value);
    }
    if HasTimeslices(o) {
      var s :| s in o.ix.byTimeslice;
      TimesliceNamesListed(o, s);
    }
  }

  /** `has_text()` holds exactly when some entry carries text. */
  lemma HasTextMeans(o: Overlay)
    requires WellFormed(o)
    ensures HasText(o) <==> exists k :: k in o.rows && Truthy(k.text)
  {
    if exists k :: k in o.rows && Truthy(k.text) {
      var k :| k in o.rows && Truthy(k.text);
      TextNamesListed(o, k.text.value);
    }
    if HasText(o) {
      var s :| s in o.ix.byText;
      TextNamesListed(o, s);
    }
  }

  /** An overlay with no entries has no bands, scenarios, timeslices, dates, text, datafile or variable. */
  lemma EmptyHasNothing(units: Option<string>)
    ensures var o := Empty(units);
            !HasBands(o) && !HasScenarios(o) && !HasTimeslices(o) && !HasText(o) &&
            !HasDateFrom(o) && !HasDateTo(o) && !HasDatafile(o) && !HasVariable(o) &&
            Bands(o) == [] && Scenarios(o) == [] && Timeslices(o) == []
  {
  }
  /** After `add_entry`, some key has a date_from exactly when one had before or the new row has one. */
  lemma HasDateFromAdd(o: Overlay, row: Row, periodTypeId: Option<int>)
    ensures HasDateFrom(AddEntry(o, row, periodTypeId)) <==> HasDateFrom(o) || row.dateFrom.Some?
  {
    var k := EntryKey(row, periodTypeId);
    if HasDateFrom(o) {
      var k' :| k' in o.rows && k'.dateFrom.Some?;
      assert k' in AddEntry(o, row, periodTypeId).rows;
    }
    if row.dateFrom.Some? {
      assert k in AddEntry(o, row, periodTypeId).rows;
    }
  }

  /** After `add_entry`, some key has a date_to exactly when one had before or the new row has one. */
  lemma HasDateToAdd(o: Overlay, row: Row, periodTypeId: Option<int>)
    ensures HasDateTo(AddEntry(o, row, periodTypeId)) <==> HasDateTo(o) || row.dateTo.Some?
  {
    var k := EntryKey(row, periodTypeId);
    if HasDateTo(o) {
      var k' :| k' in o.rows && k'.dateTo.Some?;
      assert k' in AddEntry(o, row, periodTypeId).rows;
    }
    if row.dateTo.Some? {
      assert k in AddEntry(o, row, periodTypeId).rows;
    }
  }

  /**
   * After `add_entry`, some row names a datafile exactly when the new row does or
   * a row under another key did: the row replaced under the same key no longer counts.
   */
  lemma HasDatafileAdd(o: Overlay, row: Row, periodTypeId: Option<int>)
    ensures var k := EntryKey(row, periodTypeId);
            HasDatafile(AddEntry(o, row, periodTypeId)) <==>
            NamesDatafile(row) || exists k' :: k' in o.rows && k' != k && NamesDatafile(o.rows[k'])
  {
    var k := EntryKey(row, periodTypeId);
    var o' := AddEntry(o, row, periodTypeId);
    if HasDatafile(o') {
      var k' :| k' in o'.rows && NamesDatafile(o'.rows[k']);
      if k' != k {
        assert k' in o.rows && o.rows[k'] == o'.rows[k'];
      }
    }
    if NamesDatafile(row) {
      assert k in o'.rows && o'.rows[k] == row;
    }
    if exists k' :: k' in o.rows && k' != k && NamesDatafile(o.rows[k']) {
      var k' :| k' in o.rows && k' != k && NamesDatafile(o.rows[k']);
      assert k' in o'.rows && o'.rows[k'] == o.rows[k'];
    }
  }

  /**
   * After `add_entry`, some row names a variable exactly when the new row does or
   * a row under another key did: the row replaced under the same key no longer counts.
   */
  lemma HasVariableAdd(o: Overlay, row: Row, periodTypeId: Option<int>)
    ensures var k := EntryKey(row, periodTypeId);
            HasVariable(AddEntry(o, row, periodTypeId)) <==>
            NamesVariable(row) || exists k' :: k' in o.rows && k' != k && NamesVariable(o.rows[k'])
  {
    var k := EntryKey(row, periodTypeId);
    var o' := AddEntry(o, row, periodTypeId);
    if HasVariable(o') {
      var k' :| k' in o'.rows && NamesVariable(o'.rows[k']);
      if k' != k {
        assert k' in o.rows && o.rows[k'] == o'.rows[k'];
      }
    }
    if NamesVariable(row) {
      assert k in o'.rows && o'.rows[k] == row;
    }
    if exists k' :: k' in o.rows && k' != k && NamesVariable(o.rows[k']) {
      var k' :| k' in o.rows && k' != k && NamesVariable(o.rows[k']);
      assert k' in o'.rows && o'.rows[k'] == o.rows[k'];
    }
  }
}
