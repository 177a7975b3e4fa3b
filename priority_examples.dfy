/**
 * The scenarios of test_property_priority.py: `from_records` over records
 * `{"scenario": s, "value": v}`, resolved by the model.  The general lemmas
 * hold for any list of distinct scenario names; the tests are instances.
 */
module PriorityExamples {
  import opened Wrappers
  import opened Keys
  import opened Indexes
  import opened Records
  import opened Overlays
  import opened Lookup
  import opened Resolution
  import opened ValueFacts

  /** The record `{"scenario": s, "value": v}`. */
  function ScenarioRecord(s: string, v: int): Record {
    map["scenario" := DStr(s), "value" := DInt(v)]
  }

  function ScenarioRow(s: string, v: int): Row {
    Row(Some(v as real), Some(s), 1, None, None, None, None, None, None, None, None, None, None, None)
  }

  function ScenarioKey(s: string): Key {
    DimensionKey(Some(s), 1, None, None, None)
  }

  /** The row `from_records` makes of `{"scenario": s, "value": v}`, and its key. */
  lemma ScenarioRecordRow(s: string, v: int)
    ensures RecordRow(ScenarioRecord(s, v), None) == ScenarioRow(s, v)
    ensures EntryKey(ScenarioRow(s, v), None) == ScenarioKey(s)
  {
  }

  function ScenarioRecords(ps: seq<(string, int)>): seq<Record> {
    seq(|ps|, i requires 0 <= i < |ps| => ScenarioRecord(ps[i].0, ps[i].1))
  }

  function ScenarioRows(ps: seq<(string, int)>): seq<Row> {
    seq(|ps|, i requires 0 <= i < |ps| => ScenarioRow(ps[i].0, ps[i].1))
  }

  /** `PLEXOSPropertyValue.from_records([{"scenario": s, "value": v}, ...])`. */
  function FromScenarioRecords(ps: seq<(string, int)>): Overlay {
    AddAll(Empty(None), RecordRows(ScenarioRecords(ps), None))
  }

  lemma RecordsAreRows(ps: seq<(string, int)>)
    ensures FromScenarioRecords(ps) == AddAll(Empty(None), ScenarioRows(ps))
  {
    var rows := RecordRows(ScenarioRecords(ps), None);
    forall i | 0 <= i < |ps| ensures rows[i] == ScenarioRows(ps)[i] {
      ScenarioRecordRow(ps[i].0, ps[i].1);
    }
    assert rows == ScenarioRows(ps);
  }

  ghost predicate NamesDistinct(ps: seq<(string, int)>) {
    forall i, j :: 0 <= i < j < |ps| ==> ps[i].0 != ps[j].0
  }

  /** One simple entry per pair, in the order given. */
  ghost predicate Listed(o: Overlay, ps: seq<(string, int)>) {
    && |o.order| == |ps|
    && o.rows.Keys == Elems(o.order)
    && forall i :: 0 <= i < |ps| ==>
         o.order[i] == ScenarioKey(ps[i].0) && o.order[i] in o.rows && o.rows[o.order[i]] == ScenarioRow(ps[i].0, ps[i].1)
  }

  /** The overlay of the examples: well formed, and listing the pairs. */
  ghost predicate ShapedAs(o: Overlay, ps: seq<(string, int)>) {
    WellFormed(o) && Listed(o, ps)
  }

  /** Appending the entry of one more pair, under a new key, keeps the listing. */
  lemma ListedStep(prev: Overlay, o: Overlay, ps: seq<(string, int)>)
    requires |ps| > 0 && NamesDistinct(ps) && Listed(prev, ps[..|ps| - 1])
    requires var n := |ps| - 1;
             o.order == prev.order + [ScenarioKey(ps[n].0)] && o.rows == prev.rows[ScenarioKey(ps[n].0) := ScenarioRow(ps[n].0, ps[n].1)]
    ensures Listed(o, ps)
  {
    var n := |ps| - 1;
    var init := ps[..n];
    var k := ScenarioKey(ps[n].0);
    assert Elems(o.order) == Elems(prev.order) + {k};
    forall i | 0 <= i < |ps|
      ensures o.order[i] == ScenarioKey(ps[i].0) && o.order[i] in o.rows && o.rows[o.order[i]] == ScenarioRow(ps[i].0, ps[i].1)
    {
      if i < n {
        assert init[i] == ps[i];
        assert ps[i].0 != ps[n].0;
      }
    }
  }

  /** A key of a listing belongs to one of its pairs. */
  lemma ListedKey(o: Overlay, ps: seq<(string, int)>, s: string)
    requires Listed(o, ps) && forall i :: 0 <= i < |ps| ==> ps[i].0 != s
    ensures ScenarioKey(s) !in o.rows
  {
    forall k | k in o.rows ensures k != ScenarioKey(s) {
      assert k in Elems(o.order);
      var j :| 0 <= j < |o.order| && o.order[j] == k;
    }
  }

  /** One more `add_entry` of a row under a new key appends the key and stores the row. */
  lemma AddEntryAppends(o: Overlay, row: Row)
    requires EntryKey(row, None) !in o.rows
    ensures AddEntry(o, row, None).order == o.order + [EntryKey(row, None)]
    ensures AddEntry(o, row, None).rows == o.rows[EntryKey(row, None) := row]
  {
  }

  lemma {:induction false} ScenarioRowsListed(ps: seq<(string, int)>)
    requires NamesDistinct(ps)
    ensures Listed(AddAll(Empty(None), ScenarioRows(ps)), ps)
    decreases |ps|
  {
    var rows := ScenarioRows(ps);
    if |ps| == 0 {
      assert Elems([]) == {};
    } else {
      var n := |ps| - 1;
      var init := ps[..n];
      assert rows[..n] == ScenarioRows(init);
      ScenarioRowsListed(init);
      var prev := AddAll(Empty(None), rows[..n]);
      ScenarioRecordRow(ps[n].0, ps[n].1);
      forall i | 0 <= i < |init| ensures init[i].0 != ps[n].0 {
        assert init[i] == ps[i];
      }
      ListedKey(prev, init, ps[n].0);
      AddAllStep(Empty(None), rows, n);
      assert rows[..n + 1] == rows;
      AddEntryAppends(prev, rows[n]);
      ListedStep(prev, AddAll(Empty(None), rows), ps);
    }
  }

  /** `from_records` over distinct scenario records gives one entry per record, in order. */
  lemma FromScenarioRecordsShaped(ps: seq<(string, int)>)
    requires NamesDistinct(ps)
    ensures ShapedAs(FromScenarioRecords(ps), ps)
  {
    RecordsAreRows(ps);
    ScenarioRowsListed(ps);
    EmptyWellFormed(None);
    AddAllWellFormed(Empty(None), ScenarioRows(ps));
  }

  /** Every entry of a shaped overlay is the entry of one of the pairs. */
  lemma ShapedEntry(o: Overlay, ps: seq<(string, int)>, k: Key) returns (i: nat)
    requires Listed(o, ps) && k in o.rows
    ensures i < |ps| && k == ScenarioKey(ps[i].0) && o.rows[k] == ScenarioRow(ps[i].0, ps[i].1)
  {
    assert k in Elems(o.order);
    i :| 0 <= i < |o.order| && o.order[i] == k;
  }

  /** Every entry of a listing is simple, so all of them are candidates, in insertion order. */
  lemma ListedCandidates(o: Overlay, ps: seq<(string, int)>)
    requires Listed(o, ps)
    ensures Candidates(o) == o.order
  {
    forall k | k in o.order && k in o.rows ensures IsSimple(k) {
      var i := ShapedEntry(o, ps, k);
    }
    AllSimple(o.order, o.rows);
    if |o.order| > 0 {
      assert o.order[0] in o.rows;
    }
  }

  /** Under a priority with a non-empty overlay, `get_value` is the priority pick. */
  lemma PickedUnderPriority(o: Overlay, p: Priority)
    requires |o.rows| > 0 && |p| > 0
    ensures GetValue(o, Some(p), None) == ByPriority(o, p)
  {
  }

  lemma ShapedPick(o: Overlay, ps: seq<(string, int)>, p: Priority, w: nat)
    requires Listed(o, ps) && NamesDistinct(ps) && w < |ps| && ps[w].0 in p
    requires forall i :: 0 <= i < |ps| && i != w && ps[i].0 in p ==> p[ps[w].0] < p[ps[i].0]
    ensures ByPriority(o, p) == Single(Some(ps[w].1 as real))
  {
    var kw := o.order[w];
    ListedCandidates(o, ps);
    forall k | k in Candidates(o) && k != kw
      ensures RankLt(RankOf(kw, p), RankOf(k, p))
    {
      var i := ShapedEntry(o, ps, k);
      if i < w {
        assert ps[i].0 != ps[w].0;
      } else if i > w {
        assert ps[w].0 != ps[i].0;
      }
    }
    BestScenarioWins(o, p, kw);
  }

  /**
   * Under a priority that ranks the scenario of pair `w` strictly before the
   * scenario of every other pair it ranks, `get_value` returns the value of
   * pair `w`.
   */
  lemma ShapedPriority(o: Overlay, ps: seq<(string, int)>, p: Priority, w: nat)
    requires Listed(o, ps) && NamesDistinct(ps) && w < |ps| && ps[w].0 in p
    requires forall i :: 0 <= i < |ps| && i != w && ps[i].0 in p ==> p[ps[w].0] < p[ps[i].0]
    ensures GetValue(o, Some(p), None) == Single(Some(ps[w].1 as real))
  {
    assert |p| > 0 by { assert ps[w].0 in p.Keys; }
    assert o.order[w] in o.rows;
    ShapedPick(o, ps, p, w);
    PickedUnderPriority(o, p);
  }

  lemma UnrankedPick(o: Overlay, ps: seq<(string, int)>, p: Priority)
    requires Listed(o, ps) && |ps| > 0
    requires forall i :: 0 <= i < |ps| ==> ps[i].0 !in p
    ensures ByPriority(o, p) == Single(Some(ps[0].1 as real))
  {
    assert o.order[0] in o.rows;
    forall k | k in o.rows ensures k.scenario.None? || k.scenario.value !in p {
      var i := ShapedEntry(o, ps, k);
    }
    UnrankedTakesFirst(o, p);
    ListedCandidates(o, ps);
  }

  /** With no scenario of the pairs in the priority, the first record's value wins. */
  lemma ShapedUnranked(o: Overlay, ps: seq<(string, int)>, p: Priority)
    requires Listed(o, ps) && |ps| > 0 && |p| > 0
    requires forall i :: 0 <= i < |ps| ==> ps[i].0 !in p
    ensures GetValue(o, Some(p), None) == Single(Some(ps[0].1 as real))
  {
    assert o.order[0] in o.rows;
    UnrankedPick(o, ps, p);
    PickedUnderPriority(o, p);
  }

  /** The scenario index of a shaped overlay names exactly the pairs' (non-empty) scenarios. */
  lemma ShapedScenarios(o: Overlay, ps: seq<(string, int)>, s: string)
    requires ShapedAs(o, ps) && forall i :: 0 <= i < |ps| ==> ps[i].0 != ""
    ensures s in o.ix.byScenario <==> exists i :: 0 <= i < |ps| && ps[i].0 == s
  {
    ScenarioNamesListed(o, s);
    ScenarioNamed(o, ps, s);
  }

  /** Some entry has scenario `s` exactly when some pair does, `s` being non-empty then. */
  lemma ScenarioNamed(o: Overlay, ps: seq<(string, int)>, s: string)
    requires Listed(o, ps) && forall i :: 0 <= i < |ps| ==> ps[i].0 != ""
    ensures (s != "" && exists k :: k in o.rows && k.scenario == Some(s)) <==> exists i :: 0 <= i < |ps| && ps[i].0 == s
  {
    if exists k :: k in o.rows && k.scenario == Some(s) {
      var k :| k in o.rows && k.scenario == Some(s);
      var i := ShapedEntry(o, ps, k);
    }
    if exists i :: 0 <= i < |ps| && ps[i].0 == s {
      var i :| 0 <= i < |ps| && ps[i].0 == s;
      assert o.order[i] in o.rows;
    }
  }

  /** A listing of two or more scenarios passes every earlier test of the cascade. */
  lemma ShapedCascadeGuards(o: Overlay, ps: seq<(string, int)>)
    requires ShapedAs(o, ps) && NamesDistinct(ps) && |ps| >= 2
    requires forall i :: 0 <= i < |ps| ==> ps[i].0 != ""
    ensures PureDefault !in o.rows && NonScenarioTimeslices(o) == {} && NonScenarioBands(o) == {}
    ensures |o.ix.byScenario| >= 2
  {
    forall k | k in o.rows ensures k.scenario.Some? {
      var i := ShapedEntry(o, ps, k);
    }
    ShapedScenarios(o, ps, ps[0].0);
    ShapedScenarios(o, ps, ps[1].0);
    assert ps[0].0 != ps[1].0;
    SubsetCardinality({ps[0].0, ps[1].0}, o.ix.byScenario.Keys);
  }

  /** The value the scenario dict holds for pair `i` is that pair's value. */
  lemma ShapedDictValue(o: Overlay, ps: seq<(string, int)>, r: Resolved, i: nat)
    requires Listed(o, ps) && NamesDistinct(ps) && i < |ps| && r.ByScenario? && ps[i].0 in r.scenarios
    requires exists k :: k in o.rows && k.scenario == Some(ps[i].0) && r.scenarios[ps[i].0] == o.rows[k].value
    ensures r.scenarios[ps[i].0] == Some(ps[i].1 as real)
  {
    var k :| k in o.rows && k.scenario == Some(ps[i].0) && r.scenarios[ps[i].0] == o.rows[k].value;
    var j := ShapedEntry(o, ps, k);
    if j < i {
      assert ps[j].0 != ps[i].0;
    } else if j > i {
      assert ps[i].0 != ps[j].0;
    }
  }

  /**
   * Without a priority, two or more distinct scenarios give the dict from
   * each scenario to its record's value.
   */
  lemma ShapedCascade(o: Overlay, ps: seq<(string, int)>)
    requires ShapedAs(o, ps) && NamesDistinct(ps) && |ps| >= 2
    requires forall i :: 0 <= i < |ps| ==> ps[i].0 != ""
    ensures Cascade(o).ByScenario?
    ensures forall s :: s in Cascade(o).scenarios <==> exists i :: 0 <= i < |ps| && ps[i].0 == s
    ensures forall i :: 0 <= i < |ps| ==>
              ps[i].0 in Cascade(o).scenarios && Cascade(o).scenarios[ps[i].0] == Some(ps[i].1 as real)
  {
    ShapedCascadeGuards(o, ps);
    ScenarioDict(o);
    var r := Cascade(o);
    forall s ensures s in r.scenarios <==> exists i :: 0 <= i < |ps| && ps[i].0 == s {
      ShapedScenarios(o, ps, s);
    }
    forall i | 0 <= i < |ps|
      ensures ps[i].0 in r.scenarios && r.scenarios[ps[i].0] == Some(ps[i].1 as real)
    {
      ShapedScenarios(o, ps, ps[i].0);
      ShapedDictValue(o, ps, r, i);
    }
  }

  /** A dict over exactly Base, High and Low with their values is the literal dict. */
  lemma BaseHighLowDict(r: Resolved, ps: seq<(string, int)>)
    requires BaseHighLow(ps, true) && r.ByScenario?
    requires forall s :: s in r.scenarios <==> exists i :: 0 <= i < |ps| && ps[i].0 == s
    requires forall i :: 0 <= i < |ps| ==> ps[i].0 in r.scenarios && r.scenarios[ps[i].0] == Some(ps[i].1 as real)
    ensures r == ByScenario(map["Base" := Some(100.0), "High" := Some(120.0), "Low" := Some(80.0)])
  {
    var m := r.scenarios;
    forall s | s in m ensures s == "Base" || s == "High" || s == "Low" {
      var i :| 0 <= i < |ps| && ps[i].0 == s;
      if i == 0 {} else if i == 1 {} else {}
    }
    assert m.Keys == {"Base", "High", "Low"} by {
      assert ps[0].0 in m && ps[1].0 in m && ps[2].0 in m;
    }
  }

  // ----- the tests -----

  /** The records Scenario1: 100, Scenario2: 200, Scenario3: 300. */
  ghost predicate Numbered(ps: seq<(string, int)>) {
    |ps| == 3 && ps[0] == ("Scenario1", 100) && ps[1] == ("Scenario2", 200) && ps[2] == ("Scenario3", 300)
  }

  /** The records Base: 100, High: 120 and, when `withLow`, Low: 80. */
  ghost predicate BaseHighLow(ps: seq<(string, int)>, withLow: bool) {
    && |ps| == (if withLow then 3 else 2)
    && ps[0] == ("Base", 100) && ps[1] == ("High", 120)
    && (withLow ==> ps[2] == ("Low", 80))
  }

  /** Scenario3 ranked first wins on the numbered records, and so does Scenario1. */
  lemma PriorityOrderOn(o: Overlay, ps: seq<(string, int)>)
    requires Numbered(ps) && NamesDistinct(ps) && Listed(o, ps)
    ensures GetValue(o, Some(map["Scenario3" := 1, "Scenario1" := 2, "Scenario2" := 3]), None) == Single(Some(300.0))
    ensures GetValue(o, Some(map["Scenario1" := 1, "Scenario3" := 2, "Scenario2" := 3]), None) == Single(Some(100.0))
  {
    var p1 := map["Scenario3" := 1, "Scenario1" := 2, "Scenario2" := 3];
    var p2 := map["Scenario1" := 1, "Scenario3" := 2, "Scenario2" := 3];
    forall i | 0 <= i < 3 && i != 2 ensures ps[i].0 in p1 && p1[ps[2].0] < p1[ps[i].0] {
      if i == 0 {} else {}
    }
    ShapedPriority(o, ps, p1, 2);
    forall i | 0 <= i < 3 && i != 0 ensures ps[i].0 in p2 && p2[ps[0].0] < p2[ps[i].0] {
      if i == 1 {} else {}
    }
    ShapedPriority(o, ps, p2, 0);
  }

  /** test_priority_order (tests/test_property_priority.py:92-104): the scenario ranked 1 wins, whichever it is. */
  lemma PriorityOrderExample(ps: seq<(string, int)>)
    requires Numbered(ps)
    ensures GetValue(FromScenarioRecords(ps), Some(map["Scenario3" := 1, "Scenario1" := 2, "Scenario2" := 3]), None)
            == Single(Some(300.0))
    ensures GetValue(FromScenarioRecords(ps), Some(map["Scenario1" := 1, "Scenario3" := 2, "Scenario2" := 3]), None)
            == Single(Some(100.0))
  {
    assert NamesDistinct(ps);
    FromScenarioRecordsShaped(ps);
    PriorityOrderOn(FromScenarioRecords(ps), ps);
  }

  lemma HighestOn(o: Overlay, ps: seq<(string, int)>)
    requires BaseHighLow(ps, true) && NamesDistinct(ps) && Listed(o, ps)
    ensures GetValue(o, Some(map["Test" := 1, "High" := 2, "Base" := 3]), None) == Single(Some(120.0))
  {
    var p := map["Test" := 1, "High" := 2, "Base" := 3];
    forall i | 0 <= i < 3 && i != 1 && ps[i].0 in p ensures p[ps[1].0] < p[ps[i].0] {
      if i == 0 {} else {}
    }
    ShapedPriority(o, ps, p, 1);
  }

  /** test_get_value_with_priority_returns_highest (tests/test_property_priority.py:18-28): "Test" is ignored and "High" wins. */
  lemma HighestExample(ps: seq<(string, int)>)
    requires BaseHighLow(ps, true)
    ensures GetValue(FromScenarioRecords(ps), Some(map["Test" := 1, "High" := 2, "Base" := 3]), None)
            == Single(Some(120.0))
  {
    assert NamesDistinct(ps);
    FromScenarioRecordsShaped(ps);
    HighestOn(FromScenarioRecords(ps), ps);
  }

  lemma MissingScenarioOn(o: Overlay, ps: seq<(string, int)>)
    requires BaseHighLow(ps, false) && NamesDistinct(ps) && Listed(o, ps)
    ensures GetValue(o, Some(map["Test" := 1, "Base" := 2]), None) == Single(Some(100.0))
  {
    ShapedPriority(o, ps, map["Test" := 1, "Base" := 2], 0);
  }

  /** test_get_value_priority_missing_scenario (tests/test_property_priority.py:31-40): "Base", the only ranked scenario present, wins. */
  lemma MissingScenarioExample(ps: seq<(string, int)>)
    requires BaseHighLow(ps, false)
    ensures GetValue(FromScenarioRecords(ps), Some(map["Test" := 1, "Base" := 2]), None) == Single(Some(100.0))
  {
    assert NamesDistinct(ps);
    FromScenarioRecordsShaped(ps);
    MissingScenarioOn(FromScenarioRecords(ps), ps);
  }

  lemma UnmatchedScenarioOn(o: Overlay, ps: seq<(string, int)>)
    requires BaseHighLow(ps, false) && Listed(o, ps)
    ensures GetValue(o, Some(map["Test" := 1, "Production" := 2]), None) == Single(Some(100.0))
  {
    var p := map["Test" := 1, "Production" := 2];
    assert |p| > 0 by { assert "Test" in p.Keys; }
    ShapedUnranked(o, ps, p);
  }

  /**
   * test_get_value_no_matching_scenarios (tests/test_property_priority.py:43-53):
   * no scenario is ranked, every entry ranks infinite, and the stable sort
   * keeps the first record first.  The test accepts either value; the model
   * fixes it at 100.
   */
  lemma UnmatchedScenarioExample(ps: seq<(string, int)>)
    requires BaseHighLow(ps, false)
    ensures GetValue(FromScenarioRecords(ps), Some(map["Test" := 1, "Production" := 2]), None) == Single(Some(100.0))
  {
    assert NamesDistinct(ps);
    FromScenarioRecordsShaped(ps);
    UnmatchedScenarioOn(FromScenarioRecords(ps), ps);
  }

  lemma SingleScenarioOn(o: Overlay, ps: seq<(string, int)>)
    requires ps == [("Base", 100)] && ShapedAs(o, ps)
    ensures GetValue(o, None, None) == Single(Some(100.0))
  {
    var k := ScenarioKey("Base");
    assert o.order == [k];
    assert o.rows.Keys == {k} by { assert Elems([k]) == {k}; }
    LoneEntryGetValue(o, k, None, None);
  }

  /** test_get_value_single_scenario (tests/test_property_priority.py:56-59): one record gives its bare value. */
  lemma SingleScenarioExample(ps: seq<(string, int)>)
    requires ps == [("Base", 100)]
    ensures GetValue(FromScenarioRecords(ps), None, None) == Single(Some(100.0))
  {
    FromScenarioRecordsShaped(ps);
    SingleScenarioOn(FromScenarioRecords(ps), ps);
  }

  lemma NoPriorityCascadeOn(o: Overlay, ps: seq<(string, int)>)
    requires BaseHighLow(ps, true) && NamesDistinct(ps) && ShapedAs(o, ps)
    ensures Cascade(o) == ByScenario(map["Base" := Some(100.0), "High" := Some(120.0), "Low" := Some(80.0)])
  {
    ShapedCascade(o, ps);
    BaseHighLowDict(Cascade(o), ps);
  }

  lemma NoPriorityDictOn(o: Overlay, ps: seq<(string, int)>)
    requires BaseHighLow(ps, true) && NamesDistinct(ps) && ShapedAs(o, ps)
    ensures GetValue(o, None, None) == ByScenario(map["Base" := Some(100.0), "High" := Some(120.0), "Low" := Some(80.0)])
  {
    assert o.order[0] in o.rows;
    NoPriorityCascadeOn(o, ps);
  }

  /** test_get_value_no_priority_returns_dict (tests/test_property_priority.py:6-15): without a priority, a dict over the scenarios. */
  lemma NoPriorityDictExample(ps: seq<(string, int)>)
    requires BaseHighLow(ps, true)
    ensures GetValue(FromScenarioRecords(ps), None, None)
            == ByScenario(map["Base" := Some(100.0), "High" := Some(120.0), "Low" := Some(80.0)])
  {
    assert NamesDistinct(ps);
    FromScenarioRecordsShaped(ps);
    NoPriorityDictOn(FromScenarioRecords(ps), ps);
  }
}
