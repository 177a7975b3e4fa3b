/**
 * PLEXOSPropertyValue as the mutable object of property.py: the entry dict
 * (its keys in insertion order and its rows), the overlay-level units and
 * action, and the six index dicts.  Every method is proved against the value
 * model: `View()` is the object's state as an `Overlay`, and the class
 * invariant `Valid()` is that the entry keys are distinct and the indexes
 * are the ones rebuilt from the entries in order, which
 * `Overlays.WellFormedRebuilt` shows is the view being well formed.
 */
module PropertyValues {
  import opened Wrappers
  import opened Keys
  import opened Indexes
  import opened Records
  import opened Overlays
  import opened Lookup
  import opened Resolution

  class PropertyValue {
    var order: seq<Key>
    var entries: map<Key, Row>
    var units: Option<string>
    var action: Option<string>
    var byScenario: map<string, set<Key>>
    var byBand: map<int, set<Key>>
    var byTimeslice: map<string, set<Key>>
    var byDate: map<DateRange, set<Key>>
    var byVariable: map<string, set<Key>>
    var byText: map<string, set<Key>>

    function Indexes(): Index
      reads this
    {
      Index(byScenario, byBand, byTimeslice, byDate, byVariable, byText)
    }

    function View(): Overlay
      reads this
    {
      Overlay(order, entries, units, action, Indexes())
    }

    ghost predicate Valid()
      reads this
    {
      Distinct(order) && entries.Keys == Elems(order) && Indexes() == BuildIndex(order)
    }

    /** `PLEXOSPropertyValue(units=units)`. */
    constructor (units: Option<string>)
      ensures View() == Empty(units) && Valid()
    {
      order, entries := [], map[];
      this.units, action := units, None;
      byScenario, byBand, byTimeslice, byDate, byVariable, byText := map[], map[], map[], map[], map[], map[];
      new;
      EmptyWellFormed(units);
    }

    /** `from_dict` (property.py:35-54): one entry from one dictionary. */
    constructor FromDict(d: Record)
      ensures View() == AddEntry(Empty(AsString(Get(d, "units"))), DictRow(d), None) && Valid()
    {
      order, entries := [], map[];
      units, action := AsString(Get(d, "units")), None;
      byScenario, byBand, byTimeslice, byDate, byVariable, byText := map[], map[], map[], map[], map[], map[];
      new;
      EmptyWellFormed(units);
      Add(DictRow(d), None);
    }

    /** `from_records` (property.py:64-81): one entry per record, in order. */
    constructor FromRecords(records: seq<Record>, units: Option<string>)
      ensures View() == AddAll(Empty(units), RecordRows(records, units)) && Valid()
    {
      order, entries := [], map[];
      this.units, action := units, None;
      byScenario, byBand, byTimeslice, byDate, byVariable, byText := map[], map[], map[], map[], map[], map[];
      new;
      EmptyWellFormed(units);
      ghost var start := Empty(units);
      ghost var rows := RecordRows(records, units);
      var i := 0;
      while i < |records|
        invariant 0 <= i <= |records|
        invariant Valid() && View() == AddAll(start, rows[..i])
      {
        AddAllStep(start, rows, i);
        assert rows[i] == RecordRow(records[i], units);
        Add(RecordRow(records[i], units), None);
        i := i + 1;
      }
      assert rows[..|records|] == rows;
    }

    /** `from_db_results` (property.py:56-62). */
    constructor FromDbResults(results: seq<Row>)
      ensures View() == AddAll(Empty(None), results) && Valid()
    {
      order, entries := [], map[];
      units, action := None, None;
      byScenario, byBand, byTimeslice, byDate, byVariable, byText := map[], map[], map[], map[], map[], map[];
      new;
      EmptyWellFormed(None);
      AddFromDbRows(results);
    }

    /** One step of `_add_to_indexes` per index: file the key under its value in that index, if it has one. */
    method FileScenario(k: Key)
      modifies this
      ensures byScenario == AddTagged(old(byScenario), ScenarioTag(k), k)
      ensures byBand == old(byBand) && byTimeslice == old(byTimeslice) && byDate == old(byDate) && byVariable == old(byVariable) && byText == old(byText)
      ensures order == old(order) && entries == old(entries) && units == old(units) && action == old(action)
    {
      if Truthy(k.scenario) {
        byScenario := AddToBucket(byScenario, k.scenario.value, k);
      }
    }

    method FileBand(k: Key)
      modifies this
      ensures byBand == AddTagged(old(byBand), BandTag(k), k)
      ensures byScenario == old(byScenario) && byTimeslice == old(byTimeslice) && byDate == old(byDate) && byVariable == old(byVariable) && byText == old(byText)
      ensures order == old(order) && entries == old(entries) && units == old(units) && action == old(action)
    {
      byBand := AddToBucket(byBand, k.band, k);
    }

    method FileTimeslice(k: Key)
      modifies this
      ensures byTimeslice == AddTagged(old(byTimeslice), TimesliceTag(k), k)
      ensures byScenario == old(byScenario) && byBand == old(byBand) && byDate == old(byDate) && byVariable == old(byVariable) && byText == old(byText)
      ensures order == old(order) && entries == old(entries) && units == old(units) && action == old(action)
    {
      if Truthy(k.timeslice) {
        byTimeslice := AddToBucket(byTimeslice, k.timeslice.value, k);
      }
    }

    method FileDate(k: Key)
      modifies this
      ensures byDate == AddTagged(old(byDate), DateTag(k), k)
      ensures byScenario == old(byScenario) && byBand == old(byBand) && byTimeslice == old(byTimeslice) && byVariable == old(byVariable) && byText == old(byText)
      ensures order == old(order) && entries == old(entries) && units == old(units) && action == old(action)
    {
      if (k.dateFrom, k.dateTo) != (None, None) {
        byDate := AddToBucket(byDate, (k.dateFrom, k.dateTo), k);
      }
    }

    method FileVariable(k: Key)
      modifies this
      ensures byVariable == AddTagged(old(byVariable), VariableTag(k), k)
      ensures byScenario == old(byScenario) && byBand == old(byBand) && byTimeslice == old(byTimeslice) && byDate == old(byDate) && byText == old(byText)
      ensures order == old(order) && entries == old(entries) && units == old(units) && action == old(action)
    {
      if Truthy(k.variable) {
        byVariable := AddToBucket(byVariable, k.variable.value, k);
      }
    }

    method FileText(k: Key)
      modifies this
      ensures byText == AddTagged(old(byText), TextTag(k), k)
      ensures byScenario == old(byScenario) && byBand == old(byBand) && byTimeslice == old(byTimeslice) && byDate == old(byDate) && byVariable == old(byVariable)
      ensures order == old(order) && entries == old(entries) && units == old(units) && action == old(action)
    {
      if Truthy(k.text) {
        byText := AddToBucket(byText, k.text.value, k);
      }
    }

    /** `_add_to_indexes(key)` (property.py:374-399). */
    method AddToIndexes(k: Key)
      modifies this
      ensures Indexes() == AddToIndex(old(Indexes()), k)
      ensures order == old(order) && entries == old(entries) && units == old(units) && action == old(action)
    {
      FileScenario(k);
      FileBand(k);
      FileTimeslice(k);
      FileDate(k);
      FileVariable(k);
      FileText(k);
    }

    /** `_update_metadata` (property.py:154-159). */
    method UpdateMetadata(newUnits: Option<string>, newAction: Option<string>)
      modifies this
      ensures View() == WithMetadata(old(View()), newUnits, newAction)
    {
      if !Truthy(units) && Truthy(newUnits) {
        units := newUnits;
      }
      if !Truthy(action) && Truthy(newAction) {
        action := newAction;
      }
    }

    /** `add_entry` (property.py:83-133): write the row under its key, index the key, update the metadata. */
    method Add(row: Row, periodTypeId: Option<int>)
      requires Valid()
      modifies this
      ensures Valid() && View() == AddEntry(old(View()), row, periodTypeId)
    {
      var k := EntryKey(row, periodTypeId);
      ghost var before := View();
      if k !in entries {
        order := order + [k];
      }
      entries := entries[k := row];
      AddToIndexes(k);
      InsertedRebuilt(before, k, row);
      assert View() == Inserted(before, k, row);
      UpdateMetadata(row.units, row.action);
    }

    /**
     * `add_from_db_rows` (property.py:135-152): each stored row under its own key, with no period
     * type; the loop body is the same three steps as `add_entry`.
     */
    method AddFromDbRows(rows: seq<Row>)
      requires Valid()
      modifies this
      ensures Valid() && View() == AddAll(old(View()), rows)
    {
      ghost var start := View();
      var i := 0;
      while i < |rows|
        invariant 0 <= i <= |rows|
        invariant Valid() && View() == AddAll(start, rows[..i])
      {
        AddAllStep(start, rows, i);
        Add(rows[i], None);
        i := i + 1;
      }
      assert rows[..|rows|] == rows;
    }

    /** `_rebuild_indexes` (property.py:424-437): clear the six indexes and index every entry again. */
    method RebuildIndexes()
      requires Distinct(order) && entries.Keys == Elems(order)
      modifies this
      ensures Indexes() == BuildIndex(order) && Valid()
      ensures order == old(order) && entries == old(entries) && units == old(units) && action == old(action)
    {
      byScenario, byBand, byTimeslice, byDate, byVariable, byText := map[], map[], map[], map[], map[], map[];
      var i := 0;
      while i < |order|
        invariant 0 <= i <= |order|
        invariant Indexes() == BuildIndex(order[..i])
        invariant order == old(order) && entries == old(entries) && units == old(units) && action == old(action)
      {
        AddToIndexes(order[i]);
        assert order[..i + 1][..i] == order[..i];
        i := i + 1;
      }
      assert order[..|order|] == order;
    }

    /** `_save_indexes` (property.py:471-476). */
    method SaveIndexes() returns (saved: Index)
      ensures saved == Indexes()
    {
      saved := Index(byScenario, byBand, byTimeslice, byDate, byVariable, byText);
    }

    /** `_restore_indexes` (property.py:478-481). */
    method RestoreIndexes(saved: Index)
      modifies this
      ensures Indexes() == saved
      ensures order == old(order) && entries == old(entries) && units == old(units) && action == old(action)
    {
      byScenario, byBand, byTimeslice := saved.byScenario, saved.byBand, saved.byTimeslice;
      byDate, byVariable, byText := saved.byDate, saved.byVariable, saved.byText;
    }

    /** `_filter_by_horizon` (property.py:518-539): the entries under the horizon, in insertion order. */
    method FilterByHorizon(h: Horizon) returns (keys: seq<Key>, filtered: map<Key, Row>)
      requires entries.Keys == Elems(order)
      ensures keys == Filtered(View(), h).order && filtered == Filtered(View(), h).rows
    {
      var ord, rows := order, entries;
      keys, filtered := [], map[];
      var i := 0;
      while i < |ord|
        invariant 0 <= i <= |ord|
        invariant keys == KeysUnder(ord[..i], rows, h)
        invariant filtered.Keys == Elems(keys)
        invariant forall k :: k in filtered ==> k in rows && filtered[k] == rows[k]
      {
        var k := ord[i];
        KeysUnderStep(ord, rows, h, i);
        assert k in Elems(ord);
        if UnderHorizon(k, h) {
          keys := keys + [k];
          filtered := filtered[k := rows[k]];
        }
        i := i + 1;
      }
      assert ord[..|ord|] == ord;
      RowsUnderOf(ord, rows, h, keys, filtered);
    }

    /**
     * `_resolve_by_priority` (property.py:439-469): split the entries into
     * simple and complex candidates in insertion order, take the simple ones if
     * any, and return the value of the first candidate a stable sort by rank
     * puts first.
     */
    method ResolveByPriority(p: Priority) returns (r: Resolved)
      requires entries.Keys == Elems(order)
      ensures r == ByPriority(View(), p)
    {
      var o := View();
      var simple, complex := SplitBySimplicity(o.order, o.rows);
      var candidates := if |simple| > 0 then simple else complex;
      assert candidates == Candidates(o);
      if |candidates| == 0 {
        return Single(DefaultValue(o));
      }
      var best := FirstByRank(candidates, p);
      r := Single(o.rows[candidates[best]].value);
    }

    /** `_resolve_value` (property.py:483-516). */
    method ResolveValue(priority: Option<Priority>) returns (r: Resolved)
      requires entries.Keys == Elems(order)
      ensures r == Resolve(View(), priority)
    {
      if priority.Some? && |priority.value| > 0 {
        r := ResolveByPriority(priority.value);
      } else {
        r := Cascade(View());
      }
    }

    /**
     * `get_value` (property.py:161-194): under a horizon, swap in the
     * surviving entries with rebuilt indexes, resolve, and put the original
     * entries and indexes back.
     */
    method GetValue(priority: Option<Priority>, horizon: Option<Horizon>) returns (r: Resolved)
      requires Valid()
      modifies this
      ensures Valid() && View() == old(View())
      ensures r == Resolution.GetValue(old(View()), priority, horizon)
    {
      if |entries| == 0 {
        return Single(None);
      }
      if horizon.Some? {
        var keys, filtered := FilterByHorizon(horizon.value);
        if |filtered| == 0 {
          return Single(None);
        }
        FilteredStored(View(), horizon.value);
        r := ResolveSwapped(keys, filtered, priority);
      } else {
        r := ResolveValue(priority);
      }
    }

    /**
     * The horizon branch of `get_value` (property.py:175-194): swap the
     * surviving entries in with rebuilt indexes, resolve, and swap the
     * original entries and indexes back.
     */
    method ResolveSwapped(keys: seq<Key>, filtered: map<Key, Row>, priority: Option<Priority>) returns (r: Resolved)
      requires Valid() && Distinct(keys) && filtered.Keys == Elems(keys)
      modifies this
      ensures Valid() && View() == old(View())
      ensures r == Resolve(Overlay(keys, filtered, units, action, BuildIndex(keys)), priority)
    {
      var originalOrder, originalEntries := order, entries;
      var saved := SaveIndexes();
      order, entries := keys, filtered;
      RebuildIndexes();
      r := ResolveValue(priority);
      order, entries := originalOrder, originalEntries;
      RestoreIndexes(saved);
    }
  }

  /** Calling `get_value` twice gives the same answer, and leaves the property as it found it. */
  method RepeatedGetValue(p: PropertyValue, priority: Option<Priority>, horizon: Option<Horizon>)
    returns (first: Resolved, second: Resolved)
    requires p.Valid()
    modifies p
    ensures first == second
    ensures p.Valid() && p.View() == old(p.View())
  {
    first := p.GetValue(priority, horizon);
    second := p.GetValue(priority, horizon);
  }

  /** The loop of `_resolve_by_priority` that splits the entries into simple and complex ones, in insertion order (property.py:448-461). */
  method SplitBySimplicity(order: seq<Key>, entries: map<Key, Row>) returns (simple: seq<Key>, complex: seq<Key>)
    requires entries.Keys == Elems(order)
    ensures simple == SimpleKeys(order, entries)
    ensures complex == ComplexKeys(order, entries)
  {
    simple, complex := [], [];
    var i := 0;
    while i < |order|
      invariant 0 <= i <= |order|
      invariant simple == SimpleKeys(order[..i], entries)
      invariant complex == ComplexKeys(order[..i], entries)
    {
      var k := order[i];
      SplitStep(order, entries, i);
      assert k in Elems(order);
      if IsSimple(k) {
        simple := simple + [k];
      } else {
        complex := complex + [k];
      }
      i := i + 1;
    }
    assert order[..|order|] == order;
  }

  /**
   * The head of `candidates.sort(key=rank)` (property.py:468-469): the
   * first position of least rank, which is what a stable sort puts first.
   */
  method FirstByRank(candidates: seq<Key>, p: Priority) returns (best: nat)
    requires |candidates| > 0
    ensures best < |candidates|
    ensures forall j :: 0 <= j < |candidates| ==> !RankLt(RankOf(candidates[j], p), RankOf(candidates[best], p))
    ensures forall j :: 0 <= j < best ==> RankLt(RankOf(candidates[best], p), RankOf(candidates[j], p))
    ensures best == FirstBest(candidates, p)
  {
    best := 0;
    var j := 1;
    while j < |candidates|
      invariant 1 <= j <= |candidates|
      invariant best == FirstBest(candidates[..j], p)
    {
      assert candidates[..j + 1][..j] == candidates[..j];
      if RankLt(RankOf(candidates[j], p), RankOf(candidates[best], p)) {
        best := j;
      }
      j := j + 1;
    }
    assert candidates[..|candidates|] == candidates;
  }
}
