/**
 * What `get_value` promises, stated over whole overlays: a lone entry always
 * resolves to its value, the pure default wins over scenario and timeslice
 * variants, scenario and band dicts hold values of their own scenario or band,
 * and the priority examples of test_property_priority.py.
 */
module ValueFacts {
  import opened Wrappers
  import opened Ordering
  import opened Keys
  import opened Indexes
  import opened Overlays
  import opened Lookup
  import opened Resolution

  /** The index of a single key: one bucket holding it, or none when the key carries no tag. */
  lemma SingletonIndexBy<T>(k: Key, tag: Key -> Option<T>)
    ensures tag(k).None? ==> IndexBy({k}, tag) == map[]
    ensures tag(k).Some? ==> IndexBy({k}, tag) == map[tag(k).value := {k}]
  {
    var m := IndexBy({k}, tag);
    forall v ensures v in m <==> tag(k) == Some(v) {
      IndexByKeys({k}, tag, v);
    }
    if tag(k).Some? {
      forall k' ensures k' in m[tag(k).value] <==> k' == k {
        IndexByBucket({k}, tag, tag(k).value, k');
      }
      assert m.Keys == {tag(k).value};
      assert m[tag(k).value] == {k};
    } else {
      assert m.Keys == {};
    }
  }

  lemma LoneEntryOrder(o: Overlay, k: Key)
    requires Distinct(o.order) && Elems(o.order) == {k}
    ensures o.order == [k]
  {
    DistinctLength(o.order);
    assert o.order[0] in Elems(o.order);
  }

  /** The indexes of an overlay with exactly one entry. */
  lemma LoneEntryIndex(o: Overlay, k: Key)
    requires WellFormed(o) && o.rows.Keys == {k}
    ensures o.order == [k]
    ensures |o.ix.byBand| == 1
    ensures Truthy(k.scenario) ==> |o.ix.byScenario| == 1 && k.scenario.value in o.ix.byScenario && o.ix.byScenario[k.scenario.value] == {k}
    ensures !Truthy(k.scenario) ==> |o.ix.byScenario| == 0
    ensures Truthy(k.timeslice) ==> |o.ix.byTimeslice| == 1
    ensures !Truthy(k.timeslice) ==> |o.ix.byTimeslice| == 0
  {
    LoneEntryOrder(o, k);
    SingletonIndexBy(k, BandTag);
    SingletonIndexBy(k, ScenarioTag);
    SingletonIndexBy(k, TimesliceTag);
  }

  /** Every lookup on a one-entry overlay lands on that entry. */
  lemma LoneEntryLookup(o: Overlay, k: Key, scenario: Option<string>, band: int, timeslice: Option<string>,
                        dateFrom: Option<string>, dateTo: Option<string>)
    requires WellFormed(o) && o.rows.Keys == {k}
    ensures GetValueFor(o, scenario, band, timeslice, dateFrom, dateTo) == o.rows[k].value
  {
    LookupFindsIffEntries(o, scenario, band, timeslice, dateFrom, dateTo);
  }

  /** Under a priority, a property with one entry picks that entry. */
  lemma LoneEntryByPriority(o: Overlay, k: Key, p: Priority)
    requires o.rows.Keys == Elems(o.order) && o.rows.Keys == {k}
    ensures ByPriority(o, p) == Single(o.rows[k].value)
  {
    ByPriorityPicksBest(o, p);
  }

  /** With one scenario entry and nothing else, the cascade asks for that scenario. */
  lemma LoneScenarioCascade(o: Overlay, k: Key)
    requires WellFormed(o) && o.rows.Keys == {k} && |Scenarios(o)| > 0
    ensures Cascade(o) == Single(o.rows[k].value)
  {
    LoneEntryIndex(o, k);
    LoneScenarioNames(o, k);
    LoneEntryLookup(o, k, Some(k.scenario.value), 1, None, None, None);
  }

  /** A lone entry with a scenario is the only scenario, and leaves no unscenario'd timeslice or band. */
  lemma LoneScenarioNames(o: Overlay, k: Key)
    requires WellFormed(o) && o.rows.Keys == {k} && |Scenarios(o)| > 0
    ensures Truthy(k.scenario) && Scenarios(o) == [k.scenario.value]
    ensures NonScenarioTimeslices(o) == {} && NonScenarioBands(o) == {}
  {
    LoneEntryIndex(o, k);
    var scenarios := Scenarios(o);
    assert Truthy(k.scenario);
    var s := k.scenario.value;
    assert s in scenarios;
    assert |scenarios| == 1;
    assert scenarios[0] in o.ix.byScenario;
  }

  /** Without a priority, a property with one entry resolves to that entry. */
  lemma LoneEntryCascade(o: Overlay, k: Key)
    requires WellFormed(o) && o.rows.Keys == {k}
    ensures Cascade(o) == Single(o.rows[k].value)
  {
    if |Scenarios(o)| > 0 {
      LoneScenarioCascade(o, k);
    } else {
      LoneEntryIndex(o, k);
      LoneEntryLookup(o, k, None, 1, None, None, None);
      if |Timeslices(o)| > 0 {
        LoneEntryLookup(o, k, None, 1, Some(Timeslices(o)[0]), None, None);
      }
    }
  }

  /** A property with one entry resolves to that entry's value whatever priority is active. */
  lemma LoneEntryResolves(o: Overlay, k: Key, priority: Option<Priority>)
    requires WellFormed(o) && o.rows.Keys == {k}
    ensures Resolve(o, priority) == Single(o.rows[k].value)
  {
    if priority.Some? && |priority.value| > 0 {
      LoneEntryByPriority(o, k, priority.value);
    } else {
      LoneEntryCascade(o, k);
    }
  }

  /** A horizon keeps a lone entry, unchanged, or drops it. */
  lemma LoneEntryFiltered(o: Overlay, k: Key, h: Horizon)
    requires WellFormed(o) && o.rows.Keys == {k}
    ensures UnderHorizon(k, h) ==>
              WellFormed(Filtered(o, h)) && Filtered(o, h).rows.Keys == {k} && Filtered(o, h).rows[k] == o.rows[k]
    ensures !UnderHorizon(k, h) ==> |Filtered(o, h).rows| == 0
  {
    var f := Filtered(o, h);
    FilteredEntries(o, h);
    if UnderHorizon(k, h) {
      assert f.rows.Keys == {k};
    } else {
      assert f.rows.Keys == {};
    }
  }

  /**
   * `get_value` on a one-entry property is that entry's value, unless a
   * horizon excludes the entry, when it is None.
   */
  lemma LoneEntryGetValue(o: Overlay, k: Key, priority: Option<Priority>, horizon: Option<Horizon>)
    requires WellFormed(o) && o.rows.Keys == {k}
    ensures horizon.None? || UnderHorizon(k, horizon.value) ==> GetValue(o, priority, horizon) == Single(o.rows[k].value)
    ensures horizon.Some? && !UnderHorizon(k, horizon.value) ==> GetValue(o, priority, horizon) == Single(None)
  {
    assert k in o.rows;
    if horizon.Some? {
      LoneEntryFiltered(o, k, horizon.value);
      if UnderHorizon(k, horizon.value) {
        LoneEntryResolves(Filtered(o, horizon.value), k, priority);
      }
    } else {
      LoneEntryResolves(o, k, priority);
    }
  }

  /**
   * Without a priority, the pure default entry is the answer whenever there
   * are other entries and some entry names a scenario or a timeslice.
   */
  lemma PureDefaultWins(o: Overlay)
    requires WellFormed(o) && PureDefault in o.rows && |o.rows| > 1
    requires exists k :: k in o.rows && (Truthy(k.scenario) || Truthy(k.timeslice))
    ensures Cascade(o) == Single(o.rows[PureDefault].value)
    ensures GetValue(o, None, None) == Single(o.rows[PureDefault].value)
  {
    HasScenariosMeans(o);
    HasTimeslicesMeans(o);
  }

  /**
   * Without a priority, a property with several scenarios and no pure
   * default, no unscenario'd timeslice and no unscenario'd non-1 band gives a
   * dict over exactly its scenarios, each value taken from an entry of that
   * scenario.
   */
  lemma ScenarioDict(o: Overlay)
    requires WellFormed(o) && PureDefault !in o.rows
    requires NonScenarioTimeslices(o) == {} && NonScenarioBands(o) == {}
    requires |o.ix.byScenario| >= 2
    ensures Cascade(o).ByScenario?
    ensures forall s :: s in Cascade(o).scenarios <==> s in o.ix.byScenario
    ensures forall s :: s in Cascade(o).scenarios ==>
              exists k :: k in o.rows && k.scenario == Some(s) && Cascade(o).scenarios[s] == o.rows[k].value
  {
    var r := Cascade(o);
    forall s | s in r.scenarios
      ensures exists k :: k in o.rows && k.scenario == Some(s) && r.scenarios[s] == o.rows[k].value
    {
      ScenarioNamesListed(o, s);
      var exact := DimensionKey(Some(s), 1, None, None, None);
      if exact !in o.rows {
        ScenarioFallback(o, s, 1, None, None, None);
      }
    }
  }

  /**
   * Without scenarios or timeslices, entries in several bands give a dict over
   * exactly those bands, each value taken from an entry of that band.
   */
  lemma BandDict(o: Overlay)
    requires WellFormed(o)
    requires forall k :: k in o.rows ==> !Truthy(k.scenario) && !Truthy(k.timeslice)
    requires exists k1, k2 :: k1 in o.rows && k2 in o.rows && k1.band != k2.band
    ensures Cascade(o).ByBand?
    ensures forall b :: b in Cascade(o).bands <==> exists k :: k in o.rows && k.band == b
    ensures forall b :: b in Cascade(o).bands ==>
              exists k :: k in o.rows && k.band == b && Cascade(o).bands[b] == o.rows[k].value
  {
    HasScenariosMeans(o);
    HasTimeslicesMeans(o);
    HasBandsMeans(o);
    var r := Cascade(o);
    forall b ensures b in r.bands <==> exists k :: k in o.rows && k.band == b {
      BandsListed(o, b);
    }
    forall b | b in r.bands
      ensures exists k :: k in o.rows && k.band == b && r.bands[b] == o.rows[k].value
    {
      BandsListed(o, b);
      BandLookup(o, b);
    }
  }

  /**
   * With scenarios present, timeslices of unscenario'd entries take over: the
   * result is a dict over exactly those timeslices, and a non-empty one is
   * answered by an entry of that timeslice.
   */
  lemma NonScenarioTimeslicesTakeOver(o: Overlay)
    requires WellFormed(o) && !(PureDefault in o.rows && |o.rows| > 1)
    requires exists k :: k in o.rows && Truthy(k.scenario)
    requires NonScenarioTimeslices(o) != {}
    ensures Cascade(o).ByTimeslice?
    ensures Cascade(o).timeslices.Keys == NonScenarioTimeslices(o)
    ensures forall t :: t in Cascade(o).timeslices && t != "" ==>
              exists k :: k in o.rows && k.timeslice == Some(t) && Cascade(o).timeslices[t] == o.rows[k].value
  {
    HasScenariosMeans(o);
    var r := Cascade(o);
    forall t | t in r.timeslices && t != ""
      ensures exists k :: k in o.rows && k.timeslice == Some(t) && r.timeslices[t] == o.rows[k].value
    {
      var k :| k in o.rows && k.scenario.None? && k.timeslice == Some(t);
      var exact := DimensionKey(None, 1, Some(t), None, None);
      if exact !in o.rows {
        TimesliceFallback(o, None, 1, t, None, None);
      }
    }
  }

  /**
   * Cascade step 3: with scenarios present, no pure default and no
   * unscenario'd timeslice, an unscenario'd entry outside band 1 makes the
   * answer `get_value_for(band=1)`: an entry of band 1 when there is one,
   * else the first entry inserted.
   */
  lemma NonScenarioBandsTakeDefault(o: Overlay)
    requires WellFormed(o) && PureDefault !in o.rows
    requires exists k :: k in o.rows && Truthy(k.scenario)
    requires NonScenarioTimeslices(o) == {}
    requires exists k :: k in o.rows && k.scenario.None? && k.band != 1
    ensures Cascade(o) == Single(DefaultValue(o))
    ensures (exists k :: k in o.rows && k.band == 1) ==>
              exists k :: k in o.rows && k.band == 1 && Cascade(o) == Single(o.rows[k].value)
    ensures (forall k :: k in o.rows ==> k.band != 1) ==> Cascade(o) == Single(o.rows[o.order[0]].value)
  {
    HasScenariosMeans(o);
    var k :| k in o.rows && k.scenario.None? && k.band != 1;
    assert k in NonScenarioBands(o);
    if exists k :: k in o.rows && k.band == 1 {
      BandLookup(o, 1);
    } else {
      FirstEntryLastResort(o, None, 1, None, None, None);
    }
  }

  /** The scenario index of an overlay whose only non-empty scenario is `s`. */
  lemma OneScenarioIndex(o: Overlay, s: string)
    requires WellFormed(o) && s != ""
    requires exists k :: k in o.rows && k.scenario == Some(s)
    requires forall k :: k in o.rows && Truthy(k.scenario) ==> k.scenario == Some(s)
    ensures Scenarios(o) == [s]
    ensures s in o.ix.byScenario && o.ix.byScenario[s] == set k | k in o.rows && k.scenario == Some(s)
  {
    var keys := o.rows.Keys;
    forall x ensures x in o.ix.byScenario <==> x == s {
      ScenarioNamesListed(o, x);
    }
    assert o.ix.byScenario.Keys == {s};
    forall k' ensures k' in o.ix.byScenario[s] <==> k' in keys && k'.scenario == Some(s) {
      IndexByBucket(keys, ScenarioTag, s, k');
    }
    var sc := Scenarios(o);
    assert |sc| == 1;
    assert sc[0] in sc;
  }

  /** With one scenario and steps 1-3 not firing, the cascade resolves that scenario. */
  lemma OneScenarioCascade(o: Overlay, s: string)
    requires WellFormed(o) && s != "" && PureDefault !in o.rows
    requires NonScenarioTimeslices(o) == {} && NonScenarioBands(o) == {}
    requires exists k :: k in o.rows && k.scenario == Some(s)
    requires forall k :: k in o.rows && Truthy(k.scenario) ==> k.scenario == Some(s)
    ensures Cascade(o) == ResolveScenarios(o, [s], Bands(o))
  {
    OneScenarioIndex(o, s);
  }

  /** The scenario's bucket is as large as the entries exactly when every entry carries it. */
  lemma CoverCount(o: Overlay, s: string)
    requires WellFormed(o) && s != ""
    requires exists k :: k in o.rows && k.scenario == Some(s)
    requires forall k :: k in o.rows && Truthy(k.scenario) ==> k.scenario == Some(s)
    ensures s in o.ix.byScenario
    ensures |o.ix.byScenario[s]| == |o.rows| <==> forall k :: k in o.rows ==> k.scenario == Some(s)
  {
    OneScenarioIndex(o, s);
    var bucket := o.ix.byScenario[s];
    var all := o.rows.Keys;
    assert bucket <= all;
    if forall k :: k in o.rows ==> k.scenario == Some(s) {
      assert bucket == all;
    } else {
      var k :| k in o.rows && k.scenario != Some(s);
      assert k in all - bucket;
      assert all == bucket + (all - bucket);
      assert |all| == |bucket| + |all - bucket|;
    }
  }

  /** `_resolve_scenarios` for a single scenario: unwrapped only when it covers every entry and there is at most one band. */
  lemma ResolveOneScenario(o: Overlay, s: string, bands: seq<int>)
    requires s in o.ix.byScenario
    ensures var v := GetValueFor(o, Some(s), 1, None, None, None);
            && (|o.ix.byScenario[s]| == |o.rows| && |bands| <= 1 ==> ResolveScenarios(o, [s], bands) == Single(v))
            && (!(|o.ix.byScenario[s]| == |o.rows| && |bands| <= 1) ==> ResolveScenarios(o, [s], bands) == ByScenario(map[s := v]))
  {
    var v := GetValueFor(o, Some(s), 1, None, None, None);
    assert (map t | t in [s] :: GetValueFor(o, Some(t), 1, None, None, None)) == map[s := v];
  }

  /** A named scenario's value comes from an entry of that scenario. */
  lemma ScenarioValueFromEntry(o: Overlay, s: string)
    requires WellFormed(o) && s != ""
    requires exists k :: k in o.rows && k.scenario == Some(s)
    ensures exists k :: k in o.rows && k.scenario == Some(s) && GetValueFor(o, Some(s), 1, None, None, None) == o.rows[k].value
  {
    if DimensionKey(Some(s), 1, None, None, None) !in o.rows {
      ScenarioFallback(o, s, 1, None, None, None);
    }
  }

  /**
   * Cascade step 4 with one scenario: if it covers every entry the answer is
   * its bare value, or `{s: value}` when there are several bands; if some
   * entry lacks it, the answer is `{s: value}`.  The value comes from an
   * entry of that scenario.
   */
  lemma SingleScenarioCovers(o: Overlay, s: string)
    requires WellFormed(o) && s != "" && PureDefault !in o.rows
    requires NonScenarioTimeslices(o) == {} && NonScenarioBands(o) == {}
    requires exists k :: k in o.rows && k.scenario == Some(s)
    requires forall k :: k in o.rows && Truthy(k.scenario) ==> k.scenario == Some(s)
    ensures var v := GetValueFor(o, Some(s), 1, None, None, None);
            && ((forall k :: k in o.rows ==> k.scenario == Some(s)) && !HasBands(o) ==> Cascade(o) == Single(v))
            && ((forall k :: k in o.rows ==> k.scenario == Some(s)) && HasBands(o) ==> Cascade(o) == ByScenario(map[s := v]))
            && (!(forall k :: k in o.rows ==> k.scenario == Some(s)) ==> Cascade(o) == ByScenario(map[s := v]))
            && exists k :: k in o.rows && k.scenario == Some(s) && v == o.rows[k].value
  {
    OneScenarioCascade(o, s);
    CoverCount(o, s);
    ResolveOneScenario(o, s, Bands(o));
    ScenarioValueFromEntry(o, s);
  }

  /**
   * Cascade step 5: without scenarios or a pure default, timeslices decide.
   * One timeslice gives a single value from an entry of that timeslice;
   * several give a dict over exactly the timeslice index, each value from an
   * entry of its timeslice.
   */
  lemma TimesliceDict(o: Overlay)
    requires WellFormed(o) && PureDefault !in o.rows
    requires forall k :: k in o.rows ==> !Truthy(k.scenario)
    requires exists k :: k in o.rows && Truthy(k.timeslice)
    ensures |o.ix.byTimeslice| == 1 ==>
              Cascade(o).Single? && exists k :: k in o.rows && Truthy(k.timeslice) && Cascade(o).value == o.rows[k].value
    ensures |o.ix.byTimeslice| > 1 ==> Cascade(o).ByTimeslice?
    ensures |o.ix.byTimeslice| > 1 ==> forall t :: t in Cascade(o).timeslices <==> t in o.ix.byTimeslice
    ensures |o.ix.byTimeslice| > 1 ==> forall t :: t in Cascade(o).timeslices ==>
              exists k :: k in o.rows && k.timeslice == Some(t) && Cascade(o).timeslices[t] == o.rows[k].value
  {
    HasScenariosMeans(o);
    HasTimeslicesMeans(o);
    var ts := Timeslices(o);
    assert |Scenarios(o)| == 0;
    forall t | t in ts
      ensures exists k :: k in o.rows && k.timeslice == Some(t) && GetValueFor(o, None, 1, Some(t), None, None) == o.rows[k].value
    {
      TimesliceNamesListed(o, t);
      if DimensionKey(None, 1, Some(t), None, None) !in o.rows {
        TimesliceFallback(o, None, 1, t, None, None);
      }
    }
    if |ts| == 1 {
      assert ts[0] in ts;
    }
  }

  /** The position of the first occurrence of `k` in `c`. */
  lemma FirstIndex(c: seq<Key>, k: Key) returns (i: nat)
    requires k in c
    ensures i < |c| && c[i] == k
    ensures forall j :: 0 <= j < i ==> c[j] != k
  {
    if c[0] == k {
      i := 0;
    } else {
      var r := FirstIndex(c[1..], k);
      i := r + 1;
    }
  }

  /**
   * A candidate whose scenario ranks strictly better than every other
   * candidate is the answer under that priority.
   */
  lemma BestScenarioWins(o: Overlay, p: Priority, k: Key)
    requires k in Candidates(o)
    requires forall k' :: k' in Candidates(o) && k' != k ==> RankLt(RankOf(k, p), RankOf(k', p))
    ensures ByPriority(o, p) == Single(o.rows[k].value)
  {
    var c := Candidates(o);
    var i := FirstIndex(c, k);
    forall j | 0 <= j < |c| ensures !RankLt(RankOf(c[j], p), RankOf(c[i], p)) {
      if c[j] != k {
        assert RankLt(RankOf(c[i], p), RankOf(c[j], p));
      }
    }
    FirstBestUnique(c, p, i);
  }

  /**
   * When no candidate's scenario is in the priority, every candidate ranks
   * infinite and the stable sort leaves the first-inserted candidate first.
   */
  lemma UnrankedTakesFirst(o: Overlay, p: Priority)
    requires o.rows.Keys == Elems(o.order) && |o.rows| > 0
    requires forall k :: k in o.rows ==> k.scenario.None? || k.scenario.value !in p
    ensures ByPriority(o, p) == Single(o.rows[Candidates(o)[0]].value)
  {
    ByPriorityPicksBest(o, p);
    FirstBestUnique(Candidates(o), p, 0);
  }
}
