/**
 * `get_value_for` (property.py:196-259): the value for explicit dimensions,
 * reached through a fixed chain of fallbacks.  Where the source sorts a
 * bucket and takes the first key, the model takes the key with the least sort
 * key that comes first in insertion order; the source breaks such ties by
 * set iteration order, so the contracts promise only that the chosen key is
 * least.
 */
module Lookup {
  import opened Wrappers
  import opened Ordering
  import opened Keys
  import opened Indexes
  import opened Overlays

  /** The first key of `keys`, among those in both `bucket` and `present`, whose sort key no other such key beats. */
  function FirstLeast(keys: seq<Key>, bucket: set<Key>, present: set<Key>, order: Key -> seq<Atom>): (r: Option<Key>)
    ensures r.Some? ==> r.value in keys && r.value in bucket && r.value in present
    ensures r.Some? ==> forall k :: k in keys && k in bucket && k in present ==> !AtomsLt(order(k), order(r.value))
    ensures r.None? <==> forall k :: k in keys ==> !(k in bucket && k in present)
    decreases |keys|
  {
    if |keys| == 0 then None
    else
      var rest := FirstLeast(keys[1..], bucket, present, order);
      var k0 := keys[0];
      assert forall k :: k in keys ==> k == k0 || k in keys[1..];
      if !(k0 in bucket && k0 in present) then rest
      else if rest.Some? && AtomsLt(order(rest.value), order(k0)) then
        AtomsLtAsymmetric(order(rest.value), order(k0));
        rest
      else
        LeastKeeps(keys[1..], bucket, present, order, rest, k0);
        AtomsLtIrreflexive(order(k0));
        Some(k0)
  }

  lemma AtomsLtAsymmetric(x: seq<Atom>, y: seq<Atom>)
    requires AtomsLt(x, y)
    ensures !AtomsLt(y, x)
  {
    if AtomsLt(y, x) {
      AtomsLtTransitive(x, y, x);
      AtomsLtIrreflexive(x);
    }
  }

  lemma LeastKeeps(keys: seq<Key>, bucket: set<Key>, present: set<Key>, order: Key -> seq<Atom>, rest: Option<Key>, k0: Key)
    requires rest.Some? ==> forall k :: k in keys && k in bucket && k in present ==> !AtomsLt(order(k), order(rest.value))
    requires rest.None? ==> forall k :: k in keys ==> !(k in bucket && k in present)
    requires rest.Some? ==> !AtomsLt(order(rest.value), order(k0))
    ensures forall k :: k in keys && k in bucket && k in present ==> !AtomsLt(order(k), order(k0))
  {
    if rest.Some? {
      var m := rest.value;
      AtomsLtTrichotomy(order(m), order(k0));
      forall k | k in keys && k in bucket && k in present
        ensures !AtomsLt(order(k), order(k0))
      {
        if AtomsLt(order(k0), order(m)) && AtomsLt(order(k), order(k0)) {
          AtomsLtTransitive(order(k), order(k0), order(m));
        }
      }
    }
  }

  /** The least key of a bucket, in the overlay's insertion order. */
  function BucketLeast(o: Overlay, bucket: set<Key>, order: Key -> seq<Atom>): Option<Key> {
    FirstLeast(o.order, bucket, o.rows.Keys, order)
  }

  /** Steps 3 and 4: the scenario bucket, sorted by `(timeslice or "", band or 1)`. */
  function ScenarioStep(o: Overlay, scenario: Option<string>): Option<Key> {
    if Truthy(scenario) && scenario.value in o.ix.byScenario then
      BucketLeast(o, o.ix.byScenario[scenario.value], ScenarioBucketOrder)
    else None
  }

  /** The timeslice bucket, sorted by `(band or 1, scenario or "")`. */
  function TimesliceStep(o: Overlay, timeslice: Option<string>): Option<Key> {
    if Truthy(timeslice) && timeslice.value in o.ix.byTimeslice then
      BucketLeast(o, o.ix.byTimeslice[timeslice.value], TimesliceBucketOrder)
    else None
  }

  /** The band bucket, sorted by `(scenario or "", timeslice or "", date_from or "")`. */
  function BandStep(o: Overlay, band: int): Option<Key> {
    if band in o.ix.byBand then BucketLeast(o, o.ix.byBand[band], BandBucketOrder) else None
  }

  /** A key, if it is an entry. */
  function Present(o: Overlay, k: Key): Option<Key> {
    if k in o.rows then Some(k) else None
  }

  /** The first entry inserted: `next(iter(self.entries.values()))`. */
  function FirstEntry(o: Overlay): Option<Key> {
    if |o.order| > 0 && o.order[0] in o.rows then Some(o.order[0]) else None
  }

  function OrElse(a: Option<Key>, b: Option<Key>): Option<Key> {
    if a.Some? then a else b
  }

  /**
   * The entry `get_value_for` reads, trying in order: the exact key; the key
   * without dates (when a date was given); the scenario bucket; the timeslice
   * bucket; the key without scenario; the key without timeslice; the bare band
   * key; the band bucket; the first entry.
   */
  function LookupKey(o: Overlay, scenario: Option<string>, band: int, timeslice: Option<string>,
                     dateFrom: Option<string>, dateTo: Option<string>): (r: Option<Key>)
    ensures r.Some? ==> r.value in o.rows
    ensures DimensionKey(scenario, band, timeslice, dateFrom, dateTo) in o.rows
            ==> r == Some(DimensionKey(scenario, band, timeslice, dateFrom, dateTo))
    ensures DimensionKey(scenario, band, timeslice, dateFrom, dateTo) !in o.rows && (Truthy(dateFrom) || Truthy(dateTo))
            && DimensionKey(scenario, band, timeslice, None, None) in o.rows
            ==> r == Some(DimensionKey(scenario, band, timeslice, None, None))
    ensures FirstEntry(o).Some? ==> r.Some?
  {
    OrElse(Present(o, DimensionKey(scenario, band, timeslice, dateFrom, dateTo)),
    OrElse(if Truthy(dateFrom) || Truthy(dateTo) then Present(o, DimensionKey(scenario, band, timeslice, None, None)) else None,
    OrElse(ScenarioStep(o, scenario),
    OrElse(TimesliceStep(o, timeslice),
    OrElse(if Truthy(scenario) then Present(o, DimensionKey(None, band, timeslice, None, None)) else None,
    OrElse(if Truthy(timeslice) then Present(o, DimensionKey(scenario, band, None, None, None)) else None,
    OrElse(Present(o, DimensionKey(None, band, None, None, None)),
    OrElse(BandStep(o, band),
           FirstEntry(o)))))))))
  }

  /** `get_value_for(scenario, band, timeslice, date_from, date_to)`. */
  function GetValueFor(o: Overlay, scenario: Option<string>, band: int, timeslice: Option<string>,
                       dateFrom: Option<string>, dateTo: Option<string>): (v: Option<real>)
    ensures DimensionKey(scenario, band, timeslice, dateFrom, dateTo) in o.rows
            ==> v == o.rows[DimensionKey(scenario, band, timeslice, dateFrom, dateTo)].value
  {
    match LookupKey(o, scenario, band, timeslice, dateFrom, dateTo)
    case Some(k) => o.rows[k].value
    case None => None
  }

  /** `get_value_for()` with every dimension at its default. */
  function DefaultValue(o: Overlay): Option<real> {
    GetValueFor(o, None, 1, None, None, None)
  }

  /** On a well-formed overlay the lookup finds an entry exactly when there is one. */
  lemma LookupFindsIffEntries(o: Overlay, scenario: Option<string>, band: int, timeslice: Option<string>,
                              dateFrom: Option<string>, dateTo: Option<string>)
    requires WellFormed(o)
    ensures LookupKey(o, scenario, band, timeslice, dateFrom, dateTo).Some? <==> |o.rows| > 0
  {
    if |o.rows| > 0 {
      var k :| k in o.rows;
      assert k in Elems(o.order);
      assert o.order[0] in Elems(o.order);
    }
  }

  /**
   * With no exact key, a named scenario that has entries answers from one of
   * them: the one with the least `(timeslice or "", band or 1)`.
   */
  lemma ScenarioFallback(o: Overlay, s: string, band: int, timeslice: Option<string>,
                         dateFrom: Option<string>, dateTo: Option<string>)
    requires WellFormed(o) && s != ""
    requires DimensionKey(Some(s), band, timeslice, dateFrom, dateTo) !in o.rows
    requires Truthy(dateFrom) || Truthy(dateTo) ==> DimensionKey(Some(s), band, timeslice, None, None) !in o.rows
    requires exists k :: k in o.rows && k.scenario == Some(s)
    ensures var r := LookupKey(o, Some(s), band, timeslice, dateFrom, dateTo);
            && r.Some? && r.value in o.rows && r.value.scenario == Some(s)
            && forall k :: k in o.rows && k.scenario == Some(s) ==> !AtomsLt(ScenarioBucketOrder(k), ScenarioBucketOrder(r.value))
  {
    var k :| k in o.rows && k.scenario == Some(s);
    var keys := o.rows.Keys;
    IndexByKeys(keys, ScenarioTag, s);
    assert ScenarioTag(k) == Some(s);
    var bucket := o.ix.byScenario[s];
    forall k' ensures k' in bucket <==> k' in keys && k'.scenario == Some(s) {
      IndexByBucket(keys, ScenarioTag, s, k');
    }
    assert k in o.order by { assert k in Elems(o.order); }
    var r := ScenarioStep(o, Some(s));
    assert r.Some?;
  }

  /** Steps 1 and 2 miss: the exact key is absent and, when a date was given, so is the key without dates. */
  predicate ExactMisses(o: Overlay, scenario: Option<string>, band: int, timeslice: Option<string>,
                        dateFrom: Option<string>, dateTo: Option<string>) {
    && DimensionKey(scenario, band, timeslice, dateFrom, dateTo) !in o.rows
    && ((Truthy(dateFrom) || Truthy(dateTo)) ==> DimensionKey(scenario, band, timeslice, None, None) !in o.rows)
  }

  /** A scenario asked for is empty or carried by no entry, so step 3 is skipped. */
  predicate ScenarioUnused(o: Overlay, scenario: Option<string>) {
    Truthy(scenario) ==> forall k :: k in o.rows ==> k.scenario != scenario
  }

  /** A timeslice asked for is empty or carried by no entry, so step 4 is skipped. */
  predicate TimesliceUnused(o: Overlay, timeslice: Option<string>) {
    Truthy(timeslice) ==> forall k :: k in o.rows ==> k.timeslice != timeslice
  }

  /** Steps 1-6 miss: no exact or dateless key, no scenario or timeslice bucket, and neither key with a dimension dropped. */
  predicate NamedStepsMiss(o: Overlay, scenario: Option<string>, band: int, timeslice: Option<string>,
                           dateFrom: Option<string>, dateTo: Option<string>) {
    && ExactMisses(o, scenario, band, timeslice, dateFrom, dateTo)
    && ScenarioUnused(o, scenario)
    && TimesliceUnused(o, timeslice)
    && (Truthy(scenario) ==> DimensionKey(None, band, timeslice, None, None) !in o.rows)
    && (Truthy(timeslice) ==> DimensionKey(scenario, band, None, None, None) !in o.rows)
  }

  /** On a well-formed overlay step 3 answers exactly when an entry carries the asked scenario, with a least such entry. */
  lemma ScenarioStepMeans(o: Overlay, scenario: Option<string>)
    requires WellFormed(o)
    ensures ScenarioStep(o, scenario).Some? <==> Truthy(scenario) && exists k :: k in o.rows && k.scenario == scenario
    ensures var r := ScenarioStep(o, scenario);
            r.Some? ==> r.value in o.rows && r.value.scenario == scenario &&
                        forall k :: k in o.rows && k.scenario == scenario ==> !AtomsLt(ScenarioBucketOrder(k), ScenarioBucketOrder(r.value))
  {
    if Truthy(scenario) {
      var s := scenario.value;
      var keys := o.rows.Keys;
      IndexByKeys(keys, ScenarioTag, s);
      if exists k :: k in o.rows && k.scenario == scenario {
        var k :| k in o.rows && k.scenario == scenario;
        assert ScenarioTag(k) == Some(s);
        forall k' ensures k' in o.ix.byScenario[s] <==> k' in keys && k'.scenario == Some(s) {
          IndexByBucket(keys, ScenarioTag, s, k');
        }
        assert k in o.order by { assert k in Elems(o.order); }
      } else {
        assert s !in o.ix.byScenario;
      }
    }
  }

  /** On a well-formed overlay step 4 answers exactly when an entry carries the asked timeslice, with a least such entry. */
  lemma TimesliceStepMeans(o: Overlay, timeslice: Option<string>)
    requires WellFormed(o)
    ensures TimesliceStep(o, timeslice).Some? <==> Truthy(timeslice) && exists k :: k in o.rows && k.timeslice == timeslice
    ensures var r := TimesliceStep(o, timeslice);
            r.Some? ==> r.value in o.rows && r.value.timeslice == timeslice &&
                        forall k :: k in o.rows && k.timeslice == timeslice ==> !AtomsLt(TimesliceBucketOrder(k), TimesliceBucketOrder(r.value))
  {
    if Truthy(timeslice) {
      var t := timeslice.value;
      var keys := o.rows.Keys;
      IndexByKeys(keys, TimesliceTag, t);
      if exists k :: k in o.rows && k.timeslice == timeslice {
        var k :| k in o.rows && k.timeslice == timeslice;
        assert TimesliceTag(k) == Some(t);
        forall k' ensures k' in o.ix.byTimeslice[t] <==> k' in keys && k'.timeslice == Some(t) {
          IndexByBucket(keys, TimesliceTag, t, k');
        }
        assert k in o.order by { assert k in Elems(o.order); }
      } else {
        assert t !in o.ix.byTimeslice;
      }
    }
  }

  /** On a well-formed overlay step 8 answers exactly when an entry has the band, with a least such entry. */
  lemma BandStepMeans(o: Overlay, band: int)
    requires WellFormed(o)
    ensures BandStep(o, band).Some? <==> exists k :: k in o.rows && k.band == band
    ensures var r := BandStep(o, band);
            r.Some? ==> r.value in o.rows && r.value.band == band &&
                        forall k :: k in o.rows && k.band == band ==> !AtomsLt(BandBucketOrder(k), BandBucketOrder(r.value))
  {
    var keys := o.rows.Keys;
    IndexByKeys(keys, BandTag, band);
    if exists k :: k in o.rows && k.band == band {
      var k :| k in o.rows && k.band == band;
      assert BandTag(k) == Some(band);
      forall k' ensures k' in o.ix.byBand[band] <==> k' in keys && k'.band == band {
        IndexByBucket(keys, BandTag, band, k');
      }
      assert k in o.order by { assert k in Elems(o.order); }
    } else {
      assert band !in o.ix.byBand;
    }
  }

  /**
   * Step 4: when steps 1-3 miss, a named timeslice that has entries answers
   * from one of them, the one with the least `(band or 1, scenario or "")`.
   */
  lemma TimesliceFallback(o: Overlay, scenario: Option<string>, band: int, t: string,
                          dateFrom: Option<string>, dateTo: Option<string>)
    requires WellFormed(o) && t != ""
    requires ExactMisses(o, scenario, band, Some(t), dateFrom, dateTo) && ScenarioUnused(o, scenario)
    requires exists k :: k in o.rows && k.timeslice == Some(t)
    ensures var r := LookupKey(o, scenario, band, Some(t), dateFrom, dateTo);
            && r.Some? && r.value in o.rows && r.value.timeslice == Some(t)
            && forall k :: k in o.rows && k.timeslice == Some(t) ==> !AtomsLt(TimesliceBucketOrder(k), TimesliceBucketOrder(r.value))
  {
    ScenarioStepMeans(o, scenario);
    TimesliceStepMeans(o, Some(t));
  }

  /** Step 5: a named scenario with no entries, and no timeslice bucket, falls back to the key without the scenario. */
  lemma ScenarioDroppedKey(o: Overlay, scenario: Option<string>, band: int, timeslice: Option<string>,
                           dateFrom: Option<string>, dateTo: Option<string>)
    requires WellFormed(o) && Truthy(scenario)
    requires ScenarioUnused(o, scenario) && TimesliceUnused(o, timeslice)
    requires DimensionKey(None, band, timeslice, None, None) in o.rows
    ensures LookupKey(o, scenario, band, timeslice, dateFrom, dateTo) == Some(DimensionKey(None, band, timeslice, None, None))
  {
    ScenarioStepMeans(o, scenario);
    TimesliceStepMeans(o, timeslice);
  }

  /** Step 6: a named timeslice with no entries, when step 5 misses, falls back to the key without the timeslice. */
  lemma TimesliceDroppedKey(o: Overlay, scenario: Option<string>, band: int, timeslice: Option<string>,
                            dateFrom: Option<string>, dateTo: Option<string>)
    requires WellFormed(o) && Truthy(timeslice)
    requires ScenarioUnused(o, scenario) && TimesliceUnused(o, timeslice)
    requires Truthy(scenario) ==> DimensionKey(None, band, timeslice, None, None) !in o.rows
    requires DimensionKey(scenario, band, None, None, None) in o.rows
    ensures LookupKey(o, scenario, band, timeslice, dateFrom, dateTo) == Some(DimensionKey(scenario, band, None, None, None))
  {
    ScenarioStepMeans(o, scenario);
    TimesliceStepMeans(o, timeslice);
  }

  /** Step 7: when steps 1-6 miss, the bare band key answers. */
  lemma BareBandKey(o: Overlay, scenario: Option<string>, band: int, timeslice: Option<string>,
                    dateFrom: Option<string>, dateTo: Option<string>)
    requires WellFormed(o) && NamedStepsMiss(o, scenario, band, timeslice, dateFrom, dateTo)
    requires DimensionKey(None, band, None, None, None) in o.rows
    ensures LookupKey(o, scenario, band, timeslice, dateFrom, dateTo) == Some(DimensionKey(None, band, None, None, None))
  {
    ScenarioStepMeans(o, scenario);
    TimesliceStepMeans(o, timeslice);
  }

  /**
   * Step 8: when steps 1-7 miss and the band has entries, the answer is the
   * entry of that band with the least `(scenario or "", timeslice or "", date_from or "")`.
   */
  lemma BandBucketFallback(o: Overlay, scenario: Option<string>, band: int, timeslice: Option<string>,
                           dateFrom: Option<string>, dateTo: Option<string>)
    requires WellFormed(o) && NamedStepsMiss(o, scenario, band, timeslice, dateFrom, dateTo)
    requires DimensionKey(None, band, None, None, None) !in o.rows
    requires exists k :: k in o.rows && k.band == band
    ensures var r := LookupKey(o, scenario, band, timeslice, dateFrom, dateTo);
            && r.Some? && r.value in o.rows && r.value.band == band
            && forall k :: k in o.rows && k.band == band ==> !AtomsLt(BandBucketOrder(k), BandBucketOrder(r.value))
  {
    ScenarioStepMeans(o, scenario);
    TimesliceStepMeans(o, timeslice);
    BandStepMeans(o, band);
  }

  /** The last resort: when every step misses, the first entry inserted answers; None only without entries. */
  lemma FirstEntryLastResort(o: Overlay, scenario: Option<string>, band: int, timeslice: Option<string>,
                             dateFrom: Option<string>, dateTo: Option<string>)
    requires WellFormed(o) && NamedStepsMiss(o, scenario, band, timeslice, dateFrom, dateTo)
    requires forall k :: k in o.rows ==> k.band != band
    ensures |o.rows| > 0 ==> LookupKey(o, scenario, band, timeslice, dateFrom, dateTo) == Some(o.order[0])
    ensures |o.rows| == 0 ==> LookupKey(o, scenario, band, timeslice, dateFrom, dateTo) == None
  {
    ScenarioStepMeans(o, scenario);
    TimesliceStepMeans(o, timeslice);
    BandStepMeans(o, band);
    LookupFindsIffEntries(o, scenario, band, timeslice, dateFrom, dateTo);
    if |o.rows| > 0 {
      var k :| k in o.rows;
      assert k in Elems(o.order);
      assert o.order[0] in Elems(o.order);
    }
  }

  /**
   * `get_value_for(band=b)` for a band that has entries answers from an entry
   * of that band: the bare band key if present, else the one with the least
   * `(scenario or "", timeslice or "", date_from or "")`.
   */
  lemma BandLookup(o: Overlay, b: int)
    requires WellFormed(o)
    requires exists k :: k in o.rows && k.band == b
    ensures var r := LookupKey(o, None, b, None, None, None);
            && r.Some? && r.value in o.rows && r.value.band == b
            && (DimensionKey(None, b, None, None, None) !in o.rows ==>
                forall k :: k in o.rows && k.band == b ==> !AtomsLt(BandBucketOrder(k), BandBucketOrder(r.value)))
  {
    if DimensionKey(None, b, None, None, None) !in o.rows {
      var k :| k in o.rows && k.band == b;
      var keys := o.rows.Keys;
      IndexByKeys(keys, BandTag, b);
      assert BandTag(k) == Some(b);
      var bucket := o.ix.byBand[b];
      forall k' ensures k' in bucket <==> k' in keys && k'.band == b {
        IndexByBucket(keys, BandTag, b, k');
      }
      assert k in o.order by { assert k in Elems(o.order); }
      var r := BandStep(o, b);
      assert r.Some?;
    }
  }
}
