/**
 * `get_value` (property.py:161-194) and everything it calls: the horizon
 * filter, priority-based resolution and the no-priority cascade.  The active
 * scenario priority and horizon are the parameters `priority` and `horizon`.
 */
module Resolution {
  import opened Wrappers
  import opened Ordering
  import opened Keys
  import opened Indexes
  import opened Overlays
  import opened Lookup

  /** What `get_value` returns: one value (Python None included), or a dict keyed by scenario, timeslice or band. */
  datatype Resolved =
    | Single(value: Option<real>)
    | ByScenario(scenarios: map<string, Option<real>>)
    | ByTimeslice(timeslices: map<string, Option<real>>)
    | ByBand(bands: map<int, Option<real>>)

  type Priority = map<string, int>

  type Horizon = (string, string)

  /** The keys of `keys` that satisfy `keep`, in their order. */
  function Filter(keys: seq<Key>, keep: Key -> bool): (r: seq<Key>)
    ensures forall k :: k in r <==> k in keys && keep(k)
    ensures Distinct(keys) ==> Distinct(r)
    decreases |keys|
  {
    if |keys| == 0 then []
    else
      var init := keys[..|keys| - 1];
      var last := keys[|keys| - 1];
      var r := Filter(init, keep);
      assert forall k :: k in keys <==> k in init || k == last;
      if keep(last) then
        assert Distinct(keys) ==> last !in init;
        r + [last]
      else r
  }

  /** One more key of a filtered sequence. */
  lemma FilterStep(keys: seq<Key>, keep: Key -> bool, i: int)
    requires 0 <= i < |keys|
    ensures Filter(keys[..i + 1], keep) == Filter(keys[..i], keep) + (if keep(keys[i]) then [keys[i]] else [])
  {
    assert keys[..i + 1][..i] == keys[..i];
  }

  // ----- horizon (property.py:518-539) -----

  /** An entry survives the horizon if it has no dates or its dates overlap the horizon (a missing end is open). */
  predicate UnderHorizon(k: Key, h: Horizon) {
    if k.dateFrom.None? && k.dateTo.None? then true
    else StrLe(OrString(k.dateFrom, "0000-00-00"), h.1) && StrLe(h.0, OrString(k.dateTo, "9999-99-99"))
  }

  /** The keys of `keys` that have a row and survive the horizon, in their order. */
  function KeysUnder(keys: seq<Key>, rows: map<Key, Row>, h: Horizon): seq<Key> {
    Filter(keys, k => k in rows && UnderHorizon(k, h))
  }

  lemma KeysUnderStep(keys: seq<Key>, rows: map<Key, Row>, h: Horizon, i: int)
    requires 0 <= i < |keys|
    ensures KeysUnder(keys[..i + 1], rows, h) ==
            KeysUnder(keys[..i], rows, h) + (if keys[i] in rows && UnderHorizon(keys[i], h) then [keys[i]] else [])
  {
    FilterStep(keys, k => k in rows && UnderHorizon(k, h), i);
  }

  /** The rows of `rows` whose keys survive the horizon. */
  function RowsUnder(rows: map<Key, Row>, h: Horizon): map<Key, Row> {
    map k | k in rows && UnderHorizon(k, h) :: rows[k]
  }

  /** A map holding exactly the rows of the surviving keys, unchanged, is the surviving rows. */
  lemma RowsUnderOf(keys: seq<Key>, rows: map<Key, Row>, h: Horizon, kept: seq<Key>, m: map<Key, Row>)
    requires rows.Keys == Elems(keys) && kept == KeysUnder(keys, rows, h)
    requires m.Keys == Elems(kept) && forall k :: k in m ==> k in rows && m[k] == rows[k]
    ensures m == RowsUnder(rows, h)
  {
    assert forall k :: k in kept <==> k in keys && k in rows && UnderHorizon(k, h);
  }

  /** `_filter_by_horizon`: the surviving entries, in insertion order. */
  function HorizonKeys(o: Overlay, h: Horizon): seq<Key> {
    KeysUnder(o.order, o.rows, h)
  }

  /** The overlay `get_value` resolves under a horizon: the surviving entries with rebuilt indexes. */
  function Filtered(o: Overlay, h: Horizon): Overlay {
    var keys := HorizonKeys(o, h);
    Overlay(keys, RowsUnder(o.rows, h), o.units, o.action, BuildIndex(keys))
  }

  /** The filter keeps exactly the entries under the horizon, with their rows, and keeps the invariant. */
  lemma FilteredEntries(o: Overlay, h: Horizon)
    requires WellFormed(o)
    ensures forall k :: k in Filtered(o, h).rows <==> k in o.rows && UnderHorizon(k, h)
    ensures forall k :: k in Filtered(o, h).rows ==> Filtered(o, h).rows[k] == o.rows[k]
    ensures WellFormed(Filtered(o, h))
  {
    var f := Filtered(o, h);
    BuildIndexFor(f.order);
    assert f.rows.Keys == Elems(f.order);
  }

  /** The filter keeps the entry keys distinct and in step with the rows. */
  lemma FilteredStored(o: Overlay, h: Horizon)
    requires Distinct(o.order) && o.rows.Keys == Elems(o.order)
    ensures Distinct(Filtered(o, h).order) && Filtered(o, h).rows.Keys == Elems(Filtered(o, h).order)
  {
  }

  /** Entries without dates apply to every horizon. */
  lemma DatelessSurvives(k: Key, h: Horizon)
    requires k.dateFrom.None? && k.dateTo.None?
    ensures UnderHorizon(k, h)
  {
  }

  /** Filtering twice by the same horizon is filtering once. */
  lemma FilterIdempotent(o: Overlay, h: Horizon)
    requires WellFormed(o)
    ensures Filtered(Filtered(o, h), h) == Filtered(o, h)
  {
    var f := Filtered(o, h);
    FilteredEntries(o, h);
    KeptRowsUnchanged(f, h);
    FilterKeepsAll(f.order, k => k in f.rows && UnderHorizon(k, h));
    assert HorizonKeys(f, h) == f.order;
  }

  lemma KeptRowsUnchanged(f: Overlay, h: Horizon)
    requires forall k :: k in f.rows ==> UnderHorizon(k, h)
    ensures RowsUnder(f.rows, h) == f.rows
  {
  }

  /** Filtering a list all of whose keys pass gives the list back. */
  lemma {:induction false} FilterKeepsAll(keys: seq<Key>, keep: Key -> bool)
    requires forall k :: k in keys ==> keep(k)
    ensures Filter(keys, keep) == keys
    decreases |keys|
  {
    if |keys| > 0 {
      FilterKeepsAll(keys[..|keys| - 1], keep);
      assert keys[..|keys| - 1] + [keys[|keys| - 1]] == keys;
    }
  }

  // ----- scenario priority (property.py:439-469) -----

  /** The sort weight of an entry: its scenario's priority, or infinity when it has no scenario or an unknown one (`inf - 1` is `inf`). */
  datatype Rank = Finite(n: int) | Infinite

  function RankOf(k: Key, p: Priority): Rank {
    if k.scenario.Some? && k.scenario.value in p then Finite(p[k.scenario.value]) else Infinite
  }

  predicate RankLt(a: Rank, b: Rank) {
    a.Finite? && (b.Infinite? || a.n < b.n)
  }

  /** The keys of `keys` that have a row and are simple, in their order. */
  function SimpleKeys(keys: seq<Key>, rows: map<Key, Row>): seq<Key> {
    Filter(keys, k => k in rows && IsSimple(k))
  }

  /** The keys of `keys` that have a row and are not simple, in their order. */
  function ComplexKeys(keys: seq<Key>, rows: map<Key, Row>): seq<Key> {
    Filter(keys, k => k in rows && !IsSimple(k))
  }

  lemma SplitStep(keys: seq<Key>, rows: map<Key, Row>, i: int)
    requires 0 <= i < |keys|
    ensures SimpleKeys(keys[..i + 1], rows) ==
            SimpleKeys(keys[..i], rows) + (if keys[i] in rows && IsSimple(keys[i]) then [keys[i]] else [])
    ensures ComplexKeys(keys[..i + 1], rows) ==
            ComplexKeys(keys[..i], rows) + (if keys[i] in rows && !IsSimple(keys[i]) then [keys[i]] else [])
  {
    FilterStep(keys, k => k in rows && IsSimple(k), i);
    FilterStep(keys, k => k in rows && !IsSimple(k), i);
  }

  /** When every key has a row and is simple, all of them are simple candidates. */
  lemma AllSimple(keys: seq<Key>, rows: map<Key, Row>)
    requires forall k :: k in keys ==> k in rows && IsSimple(k)
    ensures SimpleKeys(keys, rows) == keys
  {
    FilterKeepsAll(keys, k => k in rows && IsSimple(k));
  }

  /** The entries priority resolution chooses among: the simple ones if any, else the rest, in insertion order. */
  function Candidates(o: Overlay): (c: seq<Key>)
    ensures forall k :: k in c ==> k in o.rows
    ensures Distinct(o.order) ==> Distinct(c)
    ensures (exists k :: k in o.order && k in o.rows && IsSimple(k)) ==> forall k :: k in c <==> k in o.order && k in o.rows && IsSimple(k)
    ensures !(exists k :: k in o.order && k in o.rows && IsSimple(k)) ==> forall k :: k in c <==> k in o.order && k in o.rows
  {
    var simple := SimpleKeys(o.order, o.rows);
    var complex := ComplexKeys(o.order, o.rows);
    if |simple| > 0 then
      assert simple[0] in simple;
      simple
    else
      assert forall k :: k !in simple;
      complex
  }

  /**
   * The position a stable sort by rank puts first: no candidate ranks
   * strictly better, and every earlier candidate ranks strictly worse.
   */
  function FirstBest(c: seq<Key>, p: Priority): (i: nat)
    requires |c| > 0
    ensures i < |c|
    ensures forall j :: 0 <= j < |c| ==> !RankLt(RankOf(c[j], p), RankOf(c[i], p))
    ensures forall j :: 0 <= j < i ==> RankLt(RankOf(c[i], p), RankOf(c[j], p))
    decreases |c|
  {
    if |c| == 1 then 0
    else
      var i := FirstBest(c[..|c| - 1], p);
      if RankLt(RankOf(c[|c| - 1], p), RankOf(c[i], p)) then |c| - 1 else i
  }

  /** Those two properties pin the position down. */
  lemma FirstBestUnique(c: seq<Key>, p: Priority, i: nat)
    requires i < |c|
    requires forall j :: 0 <= j < |c| ==> !RankLt(RankOf(c[j], p), RankOf(c[i], p))
    requires forall j :: 0 <= j < i ==> RankLt(RankOf(c[i], p), RankOf(c[j], p))
    ensures FirstBest(c, p) == i
  {
    var f := FirstBest(c, p);
    assert !RankLt(RankOf(c[i], p), RankOf(c[f], p));
    assert !RankLt(RankOf(c[f], p), RankOf(c[i], p));
  }

  /** `_resolve_by_priority`: the value of the first best-ranked candidate, or `get_value_for()` with no candidates. */
  function ByPriority(o: Overlay, p: Priority): (r: Resolved)
    ensures r.Single?
  {
    var c := Candidates(o);
    if |c| == 0 then Single(DefaultValue(o))
    else Single(o.rows[c[FirstBest(c, p)]].value)
  }

  /** When the order lists the entries and there is one, there is always a candidate, and the result is a best-ranked candidate's value. */
  lemma ByPriorityPicksBest(o: Overlay, p: Priority)
    requires o.rows.Keys == Elems(o.order) && |o.rows| > 0
    ensures |Candidates(o)| > 0
    ensures var c := Candidates(o); var i := FirstBest(c, p);
            ByPriority(o, p) == Single(o.rows[c[i]].value) &&
            forall k :: k in c ==> !RankLt(RankOf(k, p), RankOf(c[i], p))
  {
    var k :| k in o.rows;
    assert k in Elems(o.order);
    var c := Candidates(o);
    if !exists k :: k in o.order && k in o.rows && IsSimple(k) {
      assert k in c;
    }
    var i := FirstBest(c, p);
    forall k | k in c ensures !RankLt(RankOf(k, p), RankOf(c[i], p)) {
      var j :| 0 <= j < |c| && c[j] == k;
    }
  }

  /**
   * Raising the priority (lowering the number) of the winning scenario keeps
   * the same winner.
   */
  lemma PriorityMonotone(c: seq<Key>, p: Priority, s: string, n: int)
    requires |c| > 0 && s in p && n <= p[s]
    requires c[FirstBest(c, p)].scenario == Some(s)
    ensures FirstBest(c, p[s := n]) == FirstBest(c, p)
  {
    var i := FirstBest(c, p);
    var p' := p[s := n];
    forall j | 0 <= j < |c|
      ensures !RankLt(RankOf(c[j], p'), RankOf(c[i], p'))
    {
      if c[j].scenario != Some(s) {
        assert RankOf(c[j], p') == RankOf(c[j], p);
      }
    }
    forall j | 0 <= j < i
      ensures RankLt(RankOf(c[i], p'), RankOf(c[j], p'))
    {
      assert RankLt(RankOf(c[i], p), RankOf(c[j], p));
      assert c[j].scenario != Some(s);
    }
    FirstBestUnique(c, p', i);
  }

  // ----- the cascade without priority (property.py:401-422, 483-516) -----

  /** `_get_non_scenario_timeslices`: timeslices of entries with no scenario (`is None` tests, so "" counts). */
  function NonScenarioTimeslices(o: Overlay): set<string> {
    set k | k in o.rows && k.scenario.None? && k.timeslice.Some? :: k.timeslice.value
  }

  /** `_get_non_scenario_bands`: entries with no scenario and a band other than 1. */
  function NonScenarioBands(o: Overlay): set<Key> {
    set k | k in o.rows && k.scenario.None? && k.band != 1
  }

  /**
   * `_resolve_scenarios`: a single scenario that covers every entry gives its
   * bare value (wrapped in a one-key dict when there are several bands);
   * otherwise a dict over the scenarios.
   */
  function ResolveScenarios(o: Overlay, scenarios: seq<string>, bands: seq<int>): Resolved
    requires forall s :: s in scenarios ==> s in o.ix.byScenario
  {
    if |scenarios| == 1 && |o.rows| == |o.ix.byScenario[scenarios[0]]| then
      if |bands| > 1 then ByScenario(map[scenarios[0] := GetValueFor(o, Some(scenarios[0]), 1, None, None, None)])
      else Single(GetValueFor(o, Some(scenarios[0]), 1, None, None, None))
    else ByScenario(map s | s in scenarios :: GetValueFor(o, Some(s), 1, None, None, None))
  }

  /** `_resolve_timeslices`: one timeslice gives its value, several a dict. */
  function ResolveTimeslices(o: Overlay, timeslices: seq<string>): Resolved {
    if |timeslices| == 1 then Single(GetValueFor(o, None, 1, Some(timeslices[0]), None, None))
    else ByTimeslice(map t | t in timeslices :: GetValueFor(o, None, 1, Some(t), None, None))
  }

  /** `_resolve_value` without a priority: the pure default, then non-scenario timeslices, non-scenario bands, scenarios, timeslices, bands, and `get_value_for()`. */
  function Cascade(o: Overlay): Resolved {
    var scenarios := Scenarios(o);
    var timeslices := Timeslices(o);
    var bands := Bands(o);
    var nst := NonScenarioTimeslices(o);
    if PureDefault in o.rows && |o.rows| > 1 && (|scenarios| > 0 || |timeslices| > 0) then Single(o.rows[PureDefault].value)
    else if |scenarios| > 0 && nst != {} then ByTimeslice(map t | t in nst :: GetValueFor(o, None, 1, Some(t), None, None))
    else if |scenarios| > 0 && NonScenarioBands(o) != {} then Single(DefaultValue(o))
    else if |scenarios| > 0 then ResolveScenarios(o, scenarios, bands)
    else if |timeslices| > 0 then ResolveTimeslices(o, timeslices)
    else if HasBands(o) then ByBand(map b | b in bands :: GetValueFor(o, None, b, None, None, None))
    else Single(DefaultValue(o))
  }

  /** `_resolve_value`: priority resolution when a non-empty priority is active, else the cascade. */
  function Resolve(o: Overlay, priority: Option<Priority>): Resolved {
    if priority.Some? && |priority.value| > 0 then ByPriority(o, priority.value) else Cascade(o)
  }

  /** `get_value`: None with no entries; under a horizon, None when nothing survives, else the surviving entries resolved. */
  function GetValue(o: Overlay, priority: Option<Priority>, horizon: Option<Horizon>): Resolved {
    if |o.rows| == 0 then Single(None)
    else if horizon.Some? then
      var f := Filtered(o, horizon.value);
      if |f.rows| == 0 then Single(None) else Resolve(f, priority)
    else Resolve(o, priority)
  }
}
