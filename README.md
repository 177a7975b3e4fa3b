# PLEXOS property values, priority context and property specifications

This project models the core of r2x-plexos, the translator between PLEXOS
models and the infrasys component system. It covers four parts.

- **`PLEXOSPropertyValue`.** A property value holds several *entries*. Each
  entry is keyed by its dimensions: scenario, band, timeslice, date range,
  period type, action, variable and text. The object keeps six secondary
  indexes over those keys and one property-level `units` and `action`.
  `get_value()` collapses the entries to what the property means in the
  current context:
  - a horizon filter is applied first;
  - then a scenario-priority pick;
  - otherwise a cascade of rules that returns either one value or a
    dictionary over scenarios, timeslices or bands.
- **The ambient scenario priority.** A module global holds it. A scoped
  block installs a priority and reinstates the previous one on the way out.
- **Component attribute reads.** Reading a model field of a component that
  stores a property value resolves that value.
- **`PropertySpecification`.** It validates and coerces what is assigned to
  a property field: numbers, property values and dictionaries. Its factory
  builds the annotation. Alongside it sits `apply_action`, which combines a
  base value with a new one under a PLEXOS action.

## Layout

- `wrappers.dfy`: Option and Result.
- `ordering.dfy`: Python's ordering of strings and tuples; a sort specified
  as "the strictly increasing listing" of a set.
- `keys.dfy`: the entry key, the row, truthiness, and the sort keys that
  `get_value_for` sorts with.
- `records.dfy`: the rows that `from_dict` and `from_records` build from
  Python dictionaries.
- `indexes.dfy`: the six indexes, `_add_to_indexes`, `_rebuild_indexes`,
  and the index that a key set determines.
- `overlays.dfy`: one property value as a value (`Overlay`). It covers
  adding entries, the metadata rule, the getters and the `has_*`
  predicates.
- `lookup.dfy`: the `get_value_for` fallback chain.
- `resolution.dfy`: the horizon filter, the priority pick, the cascade of
  `_resolve_value`, and `get_value`.
- `facts.dfy`, `priority_examples.dfy`: whole-overlay properties and the
  scenarios from the test suite, proved on the model.
- `property_value.dfy`: the `PLEXOSPropertyValue` class. Its ten fields are
  updated in place. Every method is proved against the functions above.
- `context.dfy`: the priority global and its scoped block.
- `component.dfy`: `__getattribute__`.
- `property_spec.dfy`: the validators, `_validate_value` and the factory.
- `actions.dfy`: `apply_action`.

The class keeps the invariant `Valid()`:
- the insertion order lists each entry key once;
- the order lists exactly the entries' keys;
- the indexes equal those that `_rebuild_indexes` builds from that order.

`Overlays.WellFormedRebuilt` shows this is the same as the indexes being the
unique index the entry keys determine.

Where the documentation and the code differ, the model follows the code:
- The priority pick of `_resolve_by_priority` sorts stably over insertion
  order. So when no scenario is ranked, the test that says "could be either"
  always gets the first entry inserted. `PriorityExamples.UnmatchedScenarioExample`
  proves 100.
- `_apply_units` injects a dictionary's units when the `"units"` key is
  absent, not when its value is empty (property_specification.py:57-59).
  The model does the same (`PropertySpecs.ApplyUnitsToDict`).

## Model

| member | source | states |
|---|---|---|
| Overlays.Empty | src/r2x_plexos/models/property.py:22-32 | a fresh property value has no entries, no action and the given units |
| Overlays.EmptyWellFormed | src/r2x_plexos/models/property.py:22-32 | the fresh property value satisfies the ordering and index invariant |
| Overlays.Inserted | src/r2x_plexos/models/property.py:131-132 | `entries[key] = row` then `_add_to_indexes(key)`: an existing key keeps its place in the order, a new one is appended (partner: `Overlays.InsertedEntries`, `Overlays.InsertedWellFormed`) |
| Overlays.WithMetadata | src/r2x_plexos/models/property.py:154-159 | `_update_metadata`: units and action are each set only while empty and only to a non-empty value (partner: `Overlays.MetaKept`, `Overlays.MetaFromRow`) |
| Overlays.AddEntry | src/r2x_plexos/models/property.py:83-133 | add_entry: the row is stored under its nine-field key and the metadata rule applied (partner: `Overlays.AddEntryWellFormed`) |
| Overlays.AddAll | src/r2x_plexos/models/property.py:135-152 | add_entry on each row in turn, as the loops of add_from_db_rows and from_records do (partner: `Overlays.AddAllWellFormed`, `Overlays.UnitsFirstNonEmpty`) |
| Overlays.WellFormedRebuilt | src/r2x_plexos/models/property.py:424-437 | for distinct entry keys, the indexes equal those rebuilt from the keys exactly when they are the one index those keys determine |
| Overlays.DistinctLength | src/r2x_plexos/models/property.py:22 | a duplicate-free key order is as long as its set of keys |
| Overlays.InsertedWellFormed | src/r2x_plexos/models/property.py:131-132 | storing an entry and filing its key keeps the order duplicate-free and the indexes consistent |
| Overlays.AppendDistinct | src/r2x_plexos/models/property.py:131 | appending a key not yet present keeps the keys distinct and adds it to their set |
| Overlays.InsertedRebuilt | src/r2x_plexos/models/property.py:131-132 | storing an entry keeps the indexes equal to those rebuilt from the entry keys |
| Overlays.InsertedEntries | src/r2x_plexos/models/property.py:131 | storing a key sets its row and keeps every other row; a new key is appended to the order and the count grows by one; a known key is overwritten in place |
| Overlays.AddEntryWellFormed | src/r2x_plexos/models/property.py:83-133 | add_entry keeps the invariant |
| Overlays.AddAllWellFormed | src/r2x_plexos/models/property.py:135-152 | adding any sequence of rows keeps the invariant |
| Overlays.AddAllStep | src/r2x_plexos/models/property.py:138-152 | adding a prefix plus one row is adding the prefix and then that row |
| Overlays.AddTwo | src/r2x_plexos/models/property.py:135-152 | adding two rows is adding the first and then the second |
| Overlays.MetaAfterRow | src/r2x_plexos/models/property.py:154-159 | one more row sets the units or action only while it is still empty, to the row's non-empty value |
| Overlays.MetaKept | src/r2x_plexos/models/property.py:154-159 | units or action once set are never overwritten by later rows |
| Overlays.MetaAbsent | src/r2x_plexos/models/property.py:154-159 | an empty units or action stays as it is when no row supplies one |
| Overlays.MetaFromRow | src/r2x_plexos/models/property.py:154-159 | an empty units or action takes the value of the first row that supplies one |
| Overlays.UnitsFirstNonEmpty | src/r2x_plexos/models/property.py:154-157 | the property's units are its own if set, otherwise the first non-empty units of the added rows, otherwise unchanged |
| Overlays.ActionFirstNonEmpty | src/r2x_plexos/models/property.py:158-159 | the same rule for the action: first non-empty wins |
| Overlays.TwoActionsTwoEntries | tests/test_multiple_actions.py:6-17 | two rows differing only in action (`=` and `+`) are two entries; the property's action is the first one |
| Overlays.Bands | src/r2x_plexos/models/property.py:261-263 | get_bands lists every band of the band index once, strictly increasing |
| Overlays.Dates | src/r2x_plexos/models/property.py:265-267 | get_dates lists exactly the date ranges of the date index, strictly increasing |
| Overlays.SortedNames | src/r2x_plexos/models/property.py:269-283 | a sorted() of string keys lists each name once, in increasing string order |
| Overlays.Timeslices | src/r2x_plexos/models/property.py:269-271 | get_timeslices lists every timeslice of the index once, strictly increasing |
| Overlays.Scenarios | src/r2x_plexos/models/property.py:273-275 | get_scenarios lists every scenario of the index once, strictly increasing |
| Overlays.Texts | src/r2x_plexos/models/property.py:277-279 | get_text lists exactly the text index's values, strictly increasing |
| Overlays.Variables | src/r2x_plexos/models/property.py:281-283 | get_variables lists exactly the variable index's values, strictly increasing |
| Overlays.ScenarioNamesListed | src/r2x_plexos/models/property.py:273-275 | a name is a get_scenarios entry and a scenario index key exactly when it is non-empty and some entry has that scenario |
| Overlays.TimesliceNamesListed | src/r2x_plexos/models/property.py:269-271 | the same for timeslices |
| Overlays.VariableNamesListed | src/r2x_plexos/models/property.py:281-283 | the same for variables |
| Overlays.TextNamesListed | src/r2x_plexos/models/property.py:277-279 | the same for text |
| Overlays.NamesListed | src/r2x_plexos/models/property.py:269-283 | a name is listed by get_scenarios, get_timeslices, get_variables or get_text exactly when it is non-empty and some entry key carries it |
| Overlays.BandsListed | src/r2x_plexos/models/property.py:261-263 | a band is listed exactly when some entry has it |
| Overlays.DatesListed | src/r2x_plexos/models/property.py:265-267 | a date range is listed exactly when it is not (None, None) and some entry has it |
| Overlays.HasBandsMeans | src/r2x_plexos/models/property.py:285-287 | has_bands holds exactly when two entries have different bands |
| Overlays.HasBands | src/r2x_plexos/models/property.py:285-287 | has_bands: more than one band bucket (partner: `Overlays.HasBandsMeans`) |
| Overlays.MoreThanOne | src/r2x_plexos/models/property.py:287 | a set has more than one element exactly when it holds two different ones |
| Overlays.SubsetCardinality | src/r2x_plexos/models/property.py:287 | a subset is no larger than its superset |
| Overlays.HasScenariosMeans | src/r2x_plexos/models/property.py:297-299 | has_scenarios holds exactly when some entry has a non-empty scenario |
| Overlays.HasTimeslicesMeans | src/r2x_plexos/models/property.py:301-303 | has_timeslices holds exactly when some entry has a non-empty timeslice |
| Overlays.HasTextMeans | src/r2x_plexos/models/property.py:313-315 | has_text holds exactly when some entry has a non-empty text |
| Overlays.HasScenarios | src/r2x_plexos/models/property.py:297-299 | has_scenarios: the scenario index is non-empty (partner: `Overlays.HasScenariosMeans`) |
| Overlays.HasTimeslices | src/r2x_plexos/models/property.py:301-303 | has_timeslices: the timeslice index is non-empty (partner: `Overlays.HasTimeslicesMeans`) |
| Overlays.HasText | src/r2x_plexos/models/property.py:313-315 | has_text: the text index is non-empty (partner: `Overlays.HasTextMeans`) |
| Overlays.HasDateFrom | src/r2x_plexos/models/property.py:289-291 | has_date_from: some entry key has a date_from that is not None (partners: `Overlays.EmptyHasNothing`, `Overlays.HasDateFromAdd`) |
| Overlays.HasDateTo | src/r2x_plexos/models/property.py:293-295 | has_date_to: some entry key has a date_to that is not None (partners: `Overlays.EmptyHasNothing`, `Overlays.HasDateToAdd`) |
| Overlays.HasDatafile | src/r2x_plexos/models/property.py:305-307 | has_datafile: some row has a non-empty datafile name or a non-zero datafile id (partners: `Overlays.EmptyHasNothing`, `Overlays.HasDatafileAdd`) |
| Overlays.HasVariable | src/r2x_plexos/models/property.py:309-311 | has_variable: some row has a non-empty variable name or a non-zero variable id (partners: `Overlays.EmptyHasNothing`, `Overlays.HasVariableAdd`) |
| Overlays.EmptyHasNothing | src/r2x_plexos/models/property.py:285-315 | a fresh property value answers no to every has_* question |
| Overlays.HasDateFromAdd | src/r2x_plexos/models/property.py:83-133 | after add_entry, has_date_from holds exactly when it held before or the new row has a date_from |
| Overlays.HasDateToAdd | src/r2x_plexos/models/property.py:83-133 | after add_entry, has_date_to holds exactly when it held before or the new row has a date_to |
| Overlays.HasDatafileAdd | src/r2x_plexos/models/property.py:83-133 | after add_entry, has_datafile holds exactly when the new row names a datafile or a row under another key did (the replaced row no longer counts) |
| Overlays.HasVariableAdd | src/r2x_plexos/models/property.py:83-133 | after add_entry, has_variable holds exactly when the new row names a variable or a row under another key did (the replaced row no longer counts) |
| Indexes.AddToBucket | src/r2x_plexos/models/property.py:377-381 | add_to_index creates the bucket if missing, puts the key in it and touches no other bucket |
| Indexes.ScenarioTag | src/r2x_plexos/models/property.py:383-384 | a key is filed by scenario only when its scenario is non-empty (partner: `Indexes.ConsistentMeans`) |
| Indexes.BandTag | src/r2x_plexos/models/property.py:386 | every key is filed under its band (partner: `Indexes.ConsistentMeans`) |
| Indexes.TimesliceTag | src/r2x_plexos/models/property.py:388-389 | a key is filed by timeslice only when its timeslice is non-empty (partner: `Indexes.ConsistentMeans`) |
| Indexes.DateTag | src/r2x_plexos/models/property.py:391-393 | a key is filed by date pair only when the pair is not (None, None) (partner: `Indexes.ConsistentMeans`) |
| Indexes.VariableTag | src/r2x_plexos/models/property.py:395-396 | a key is filed by variable only when its variable is non-empty (partner: `Indexes.ConsistentMeans`) |
| Indexes.TextTag | src/r2x_plexos/models/property.py:398-399 | a key is filed by text only when its text is non-empty (partner: `Indexes.ConsistentMeans`) |
| Indexes.AddTagged | src/r2x_plexos/models/property.py:377-381 | file a key in one index under its tag, if it has one (partner: `Indexes.AddTaggedIndexBy`) |
| Indexes.AddToIndex | src/r2x_plexos/models/property.py:374-399 | `_add_to_indexes`: the key filed in all six indexes (partner: `Indexes.AddToIndexFor`) |
| Indexes.BuildIndex | src/r2x_plexos/models/property.py:424-437 | `_rebuild_indexes`: the six indexes refilled from empty, key by key in insertion order (partner: `Indexes.BuildIndexFor`) |
| Indexes.IndexByFiles | src/r2x_plexos/models/property.py:374-399 | the index a key set determines files every tagged key in its bucket and nothing else |
| Indexes.AddTaggedIndexBy | src/r2x_plexos/models/property.py:377-399 | filing one more key into the index of a set gives the index of the set with that key |
| Indexes.AddToIndexFor | src/r2x_plexos/models/property.py:374-399 | _add_to_indexes turns the index of a set into the index of the set plus the key, in all six indexes |
| Indexes.BuildIndexFor | src/r2x_plexos/models/property.py:424-437 | _rebuild_indexes yields exactly the index the entry keys determine, whatever their order |
| Indexes.IndexByKeys | src/r2x_plexos/models/property.py:379-381 | a value has a bucket exactly when some key is filed under it |
| Indexes.IndexByBucket | src/r2x_plexos/models/property.py:379-381 | a bucket holds exactly the keys filed under its value |
| Indexes.IndexForConsistent | src/r2x_plexos/models/property.py:374-399 | the determined index is consistent, and each index's bucket values are the tags of the keys |
| Indexes.ConsistentMeans | src/r2x_plexos/models/property.py:383-399 | every entry is in its band's bucket; it is in a scenario, timeslice, variable or text bucket exactly when that field is non-empty; it is in a date bucket exactly when its dates are not both None |
| Indexes.ConsistentBucketsAreEntries | src/r2x_plexos/models/property.py:374-399 | every key in any bucket is an entry |
| Keys.OrString | src/r2x_plexos/models/property.py:222 | `s or d` is s when s is non-empty, else d |
| Keys.OrOption | src/r2x_plexos/models/property.py:45-48 | `a or b` is a when a is truthy, else b |
| Keys.EntryKey | src/r2x_plexos/models/property.py:102-112 | the key of a row carries exactly the row's scenario, band, timeslice, dates, action, variable and text, and the given period type |
| Keys.PureDefault | src/r2x_plexos/models/property.py:489 | the "pure default" key: band 1 and every other field None (partner: `ValueFacts.PureDefaultWins`) |
| Keys.IsSimple | src/r2x_plexos/models/property.py:457 | a priority candidate is simple when it has band 1, no timeslice and no dates (partner: `Resolution.Candidates`) |
| Keys.ScenarioBucketOrder | src/r2x_plexos/models/property.py:222 | the sort key `(timeslice or "", band or 1)` of the scenario bucket (partner: `Lookup.ScenarioStepMeans`) |
| Keys.TimesliceBucketOrder | src/r2x_plexos/models/property.py:229 | the sort key `(band or 1, scenario or "")` of the timeslice bucket (partner: `Lookup.TimesliceStepMeans`) |
| Keys.BandBucketOrder | src/r2x_plexos/models/property.py:251 | the sort key `(scenario or "", timeslice or "", date_from or "")` of the band bucket (partner: `Lookup.BandStepMeans`) |
| Keys.OrdersInjective | src/r2x_plexos/models/property.py:263-283 | sorting keys by the string, band and date orders never ties two different values |
| Records.Get | src/r2x_plexos/models/property.py:37-52 | `d.get(name)` is None when the key is missing |
| Records.OrDatum | src/r2x_plexos/models/property.py:45-48 | Python's `or` on dictionary values |
| Records.BandOf | src/r2x_plexos/models/property.py:41 | `get("band", 1)`: band 1 when absent, the integer when an int, the same band for a whole float; other values under Left out |
| Records.RecordRow | src/r2x_plexos/models/property.py:68-80 | the row from_records builds: `timeslice` falls back to `time_slice`, `variable_name` to `variable`, the record's units to the call's units; no datafile fields |
| Records.RecordRows | src/r2x_plexos/models/property.py:68-80 | one row per record, in order |
| Records.DictRow | src/r2x_plexos/models/property.py:37-53 | the row from_dict builds: the datafile, column and variable name fall back to their short keys, and the units come from the dictionary |
| Records.TimeSliceAliasOnlyInRecords | src/r2x_plexos/models/property.py:37-80 | the `time_slice` spelling is read by from_records but ignored by from_dict |
| Lookup.FirstLeast | src/r2x_plexos/models/property.py:220-254 | `sorted(bucket)[0]` is a stored key of the bucket with no smaller sort key; None exactly when the bucket holds no stored key |
| Lookup.AtomsLtAsymmetric | src/r2x_plexos/models/property.py:221-252 | the sort-key order is asymmetric |
| Lookup.LeastKeeps | src/r2x_plexos/models/property.py:221-252 | a running minimum stays minimal when one more key is considered |
| Lookup.ScenarioStep | src/r2x_plexos/models/property.py:220-225 | step 3: the least key of the scenario bucket, when a non-empty scenario is asked for and has one (partner: `Lookup.ScenarioStepMeans`) |
| Lookup.TimesliceStep | src/r2x_plexos/models/property.py:227-232 | step 4: the least key of the timeslice bucket (partner: `Lookup.TimesliceStepMeans`) |
| Lookup.BandStep | src/r2x_plexos/models/property.py:249-254 | step 8: the least key of the band bucket (partner: `Lookup.BandStepMeans`) |
| Lookup.FirstEntry | src/r2x_plexos/models/property.py:256-257 | the last resort: the first entry inserted (partner: `Lookup.FirstEntryLastResort`) |
| Lookup.DefaultValue | src/r2x_plexos/models/property.py:516 | `get_value_for()` with every dimension at its default (partner: `ValueFacts.NonScenarioBandsTakeDefault`) |
| Lookup.ScenarioStepMeans | src/r2x_plexos/models/property.py:220-225 | step 3 answers exactly when some entry carries the non-empty scenario asked for, and then with such an entry of least (timeslice, band) |
| Lookup.TimesliceStepMeans | src/r2x_plexos/models/property.py:227-232 | step 4 answers exactly when some entry carries the non-empty timeslice asked for, and then with such an entry of least (band, scenario) |
| Lookup.BandStepMeans | src/r2x_plexos/models/property.py:249-254 | step 8 answers exactly when some entry has the band, and then with such an entry of least (scenario, timeslice, date_from) |
| Lookup.LookupKey | src/r2x_plexos/models/property.py:196-259 | the key get_value_for reads is stored; the exact key wins; the dateless key is next; an entry is found whenever one exists (steps 3-9 are stated one by one by the step lemmas below) |
| Lookup.GetValueFor | src/r2x_plexos/models/property.py:196-259 | the exact key's value is returned when it is stored |
| Lookup.LookupFindsIffEntries | src/r2x_plexos/models/property.py:256-259 | get_value_for finds some entry exactly when the property has entries |
| Lookup.ScenarioFallback | src/r2x_plexos/models/property.py:220-225 | without the exact or dateless key, a scenario that has entries answers with an entry of that scenario that has the least (timeslice, band) |
| Lookup.TimesliceFallback | src/r2x_plexos/models/property.py:227-232 | step 4: when the exact and dateless keys miss and the scenario asked for has no entries (or none is asked for), a timeslice that has entries answers with an entry of that timeslice that has the least (band, scenario) |
| Lookup.BandLookup | src/r2x_plexos/models/property.py:244-254 | a band that has entries answers with an entry of that band |
| Lookup.ScenarioDroppedKey | src/r2x_plexos/models/property.py:234-237 | step 5: a named scenario with no entries and no timeslice bucket answers with the key without the scenario, when it is stored |
| Lookup.TimesliceDroppedKey | src/r2x_plexos/models/property.py:239-242 | step 6: a named timeslice with no entries, once step 5 misses, answers with the key without the timeslice, when it is stored |
| Lookup.BareBandKey | src/r2x_plexos/models/property.py:244-246 | step 7: once steps 1-6 miss, for any scenario, timeslice and dates asked for, the bare band key answers when it is stored |
| Lookup.BandBucketFallback | src/r2x_plexos/models/property.py:248-254 | step 8: once steps 1-7 miss, an entry of the band with the least (scenario, timeslice, date_from) answers |
| Lookup.FirstEntryLastResort | src/r2x_plexos/models/property.py:256-259 | once every step misses, the first entry inserted answers; None only when there are no entries |
| Resolution.Filter | src/r2x_plexos/models/property.py:528-537 | the filtered key list holds exactly the kept keys, in order, without duplicates |
| Resolution.FilterStep | src/r2x_plexos/models/property.py:528-537 | filtering one more key appends it exactly when it is kept |
| Resolution.KeysUnderStep | src/r2x_plexos/models/property.py:528-537 | one more key of the horizon loop is appended exactly when it has a row and overlaps the horizon |
| Resolution.RowsUnderOf | src/r2x_plexos/models/property.py:528-539 | a map holding exactly the rows of the surviving keys, unchanged, is the filtered entry dict |
| Resolution.FilteredEntries | src/r2x_plexos/models/property.py:518-539 | the horizon filter keeps exactly the entries that overlap the horizon, with their rows, and keeps the invariant |
| Resolution.FilteredStored | src/r2x_plexos/models/property.py:518-539 | the filtered order lists exactly the filtered entries, once each |
| Resolution.DatelessSurvives | src/r2x_plexos/models/property.py:530-531 | an entry without dates survives every horizon |
| Resolution.FilterIdempotent | src/r2x_plexos/models/property.py:518-539 | filtering twice by one horizon is filtering once |
| Resolution.KeptRowsUnchanged | src/r2x_plexos/models/property.py:528-537 | filtering entries that all overlap keeps them all |
| Resolution.FilterKeepsAll | src/r2x_plexos/models/property.py:528-537 | a filter that keeps every key returns the list unchanged |
| Resolution.UnderHorizon | src/r2x_plexos/models/property.py:530-536 | an entry survives when it has no dates, or `(date_from or "0000-00-00") <= to` and `(date_to or "9999-99-99") >= from` in string order (partner: `Resolution.DatelessSurvives`, `Resolution.FilteredEntries`) |
| Resolution.Filtered | src/r2x_plexos/models/property.py:518-539 | `_filter_by_horizon` plus the index rebuild get_value does: the surviving entries in insertion order (partner: `Resolution.FilteredEntries`, `Resolution.FilterIdempotent`) |
| Resolution.RankOf | src/r2x_plexos/models/property.py:449-454 | the sort weight: the scenario's priority when it is ranked, else infinity, shared by unranked and scenario-less entries (partner: `Resolution.PriorityMonotone`, `ValueFacts.UnrankedTakesFirst`) |
| Resolution.Candidates | src/r2x_plexos/models/property.py:448-463 | the candidates are the simple entries when there is one, otherwise all entries, in insertion order |
| Resolution.SplitStep | src/r2x_plexos/models/property.py:448-461 | one more key of the split loop goes to the simple list or the complex list by its kind |
| Resolution.AllSimple | src/r2x_plexos/models/property.py:448-463 | when every key is a stored simple entry, the simple list is the whole order |
| Resolution.FirstBest | src/r2x_plexos/models/property.py:468-469 | the stable sort's first candidate has minimal rank and no earlier candidate ties with it |
| Resolution.FirstBestUnique | src/r2x_plexos/models/property.py:468-469 | the position with minimal rank and no earlier tie is unique |
| Resolution.ByPriority | src/r2x_plexos/models/property.py:439-469 | the priority pick returns one value |
| Resolution.ByPriorityPicksBest | src/r2x_plexos/models/property.py:439-469 | on a non-empty property the pick is the value of the first best-ranked candidate |
| Resolution.PriorityMonotone | src/r2x_plexos/models/property.py:449-454 | raising the winner's scenario in the priority keeps it the winner |
| Resolution.NonScenarioTimeslices | src/r2x_plexos/models/property.py:401-403 | `_get_non_scenario_timeslices`: timeslices of entries whose scenario is None (partner: `ValueFacts.NonScenarioTimeslicesTakeOver`) |
| Resolution.NonScenarioBands | src/r2x_plexos/models/property.py:405-407 | `_get_non_scenario_bands`: entries whose scenario is None and whose band is not 1 (partner: `ValueFacts.NonScenarioBandsTakeDefault`) |
| Resolution.ResolveScenarios | src/r2x_plexos/models/property.py:409-416 | `_resolve_scenarios`: one covering scenario unwrapped, or wrapped when there are several bands; else a dict over the scenarios (partner: `ValueFacts.SingleScenarioCovers`, `ValueFacts.ScenarioDict`) |
| Resolution.ResolveTimeslices | src/r2x_plexos/models/property.py:418-422 | `_resolve_timeslices`: one timeslice gives its value, several a dict (partner: `ValueFacts.TimesliceDict`) |
| Resolution.Cascade | src/r2x_plexos/models/property.py:489-516 | the seven-step cascade of `_resolve_value` without a priority, in the source's order (partners: the `ValueFacts` lemmas, one per step) |
| Resolution.Resolve | src/r2x_plexos/models/property.py:483-487 | `_resolve_value`: priority resolution for a non-empty priority, else the cascade (partner: `ValueFacts.LoneEntryResolves`) |
| Resolution.GetValue | src/r2x_plexos/models/property.py:161-194 | get_value: None without entries or when the horizon drops every entry, else the surviving entries resolved (partner: `PropertyValues.PropertyValue.GetValue`, `ValueFacts.LoneEntryGetValue`) |
| ValueFacts.SingletonIndexBy | src/r2x_plexos/models/property.py:374-399 | the index of one key has one bucket exactly when that key is tagged |
| ValueFacts.LoneEntryOrder | src/r2x_plexos/models/property.py:22 | a property with one entry lists that key alone |
| ValueFacts.LoneEntryIndex | src/r2x_plexos/models/property.py:374-399 | with one entry there is one band bucket, and a scenario or timeslice bucket exactly when the key has one |
| ValueFacts.LoneEntryLookup | src/r2x_plexos/models/property.py:196-259 | with one entry, get_value_for returns its value whatever is asked |
| ValueFacts.LoneEntryByPriority | src/r2x_plexos/models/property.py:439-469 | with one entry, the priority pick is that entry whatever the priority |
| ValueFacts.LoneScenarioNames | src/r2x_plexos/models/property.py:401-407 | a lone entry with a scenario is the only scenario and leaves no scenario-less timeslice or band |
| ValueFacts.LoneScenarioCascade | src/r2x_plexos/models/property.py:409-414 | the cascade over a lone scenario entry is that entry's value |
| ValueFacts.LoneEntryCascade | src/r2x_plexos/models/property.py:483-516 | without a priority, a lone entry resolves to its value |
| ValueFacts.LoneEntryResolves | src/r2x_plexos/models/property.py:483-516 | with one entry, _resolve_value returns its value under any priority |
| ValueFacts.LoneEntryFiltered | src/r2x_plexos/models/property.py:518-539 | a horizon keeps a lone entry unchanged, or drops it when the dates do not overlap |
| ValueFacts.LoneEntryGetValue | tests/test_multiband_properties.py:31-43 | with one entry, get_value returns its value, or None when the horizon excludes it |
| ValueFacts.PureDefaultWins | src/r2x_plexos/models/property.py:489-499 | a pure default entry beside scenario or timeslice entries is what get_value returns without a priority |
| ValueFacts.ScenarioDict | src/r2x_plexos/models/property.py:507-508 | several scenarios and no pure default give a dict over exactly the scenarios, each mapped to a value of that scenario |
| ValueFacts.BandDict | src/r2x_plexos/models/property.py:513-514 | without scenarios and timeslices, several bands give a dict over exactly the bands, each mapped to a value of that band |
| ValueFacts.NonScenarioTimeslicesTakeOver | src/r2x_plexos/models/property.py:501-502 | scenarios beside scenario-less timeslices give a dict over those timeslices |
| ValueFacts.NonScenarioBandsTakeDefault | src/r2x_plexos/models/property.py:504-505 | cascade step 3: scenarios beside a scenario-less entry outside band 1 give get_value_for(band=1): an entry of band 1 when there is one, else the first entry inserted |
| ValueFacts.OneScenarioIndex | src/r2x_plexos/models/property.py:273-275 | when every named scenario is s, get_scenarios() is [s] and its bucket is exactly the entries carrying s |
| ValueFacts.OneScenarioCascade | src/r2x_plexos/models/property.py:507-508 | with one scenario and steps 1-3 not firing, the cascade resolves that scenario |
| ValueFacts.CoverCount | src/r2x_plexos/models/property.py:411 | the bucket of s is as large as the entries exactly when every entry carries s |
| ValueFacts.ResolveOneScenario | src/r2x_plexos/models/property.py:409-416 | _resolve_scenarios on one scenario unwraps exactly when it covers every entry and there is at most one band, else gives {s: value} |
| ValueFacts.ScenarioValueFromEntry | src/r2x_plexos/models/property.py:220-225 | get_value_for(scenario=s) returns the value of an entry carrying s, when one exists |
| ValueFacts.SingleScenarioCovers | src/r2x_plexos/models/property.py:409-416 | cascade step 4 with one scenario: covering every entry gives the bare value, or {s: value} with several bands; not covering gives {s: value}; the value is from an entry of s |
| ValueFacts.TimesliceDict | src/r2x_plexos/models/property.py:418-422 | cascade step 5: without scenarios or a pure default, one timeslice gives a single value from an entry of that timeslice, several give a dict over exactly the timeslice index, each value from an entry of its timeslice |
| ValueFacts.BestScenarioWins | src/r2x_plexos/models/property.py:439-469 | the candidate ranked strictly best is the priority pick |
| ValueFacts.FirstIndex | src/r2x_plexos/models/property.py:468-469 | the first occurrence of a candidate in the list |
| ValueFacts.UnrankedTakesFirst | src/r2x_plexos/models/property.py:449-454 | when no entry's scenario is ranked, the first candidate inserted is the pick |
| PriorityExamples.ScenarioRecordRow | src/r2x_plexos/models/property.py:68-80 | the row from_records makes of `{"scenario": s, "value": v}` carries the scenario and the value, band 1, and is keyed by the scenario alone |
| PriorityExamples.RecordsAreRows | src/r2x_plexos/models/property.py:64-81 | from_records over scenario records adds exactly the scenario rows |
| PriorityExamples.ListedStep | src/r2x_plexos/models/property.py:83-133 | appending one more pair's entry under its new key keeps the one-entry-per-pair listing |
| PriorityExamples.ListedKey | src/r2x_plexos/models/property.py:131 | a scenario that no pair names has no entry |
| PriorityExamples.AddEntryAppends | src/r2x_plexos/models/property.py:131-132 | add_entry of a row under a new key appends the key and stores the row |
| PriorityExamples.ScenarioRowsListed | src/r2x_plexos/models/property.py:64-81 | from_records over records with distinct scenarios gives one entry per record, in record order |
| PriorityExamples.FromScenarioRecordsShaped | src/r2x_plexos/models/property.py:64-81 | that property value also keeps the ordering and index invariant |
| PriorityExamples.ShapedEntry | src/r2x_plexos/models/property.py:131 | every entry is the entry of one of the records |
| PriorityExamples.ListedCandidates | src/r2x_plexos/models/property.py:448-463 | every such entry is simple, so the candidates are all entries in insertion order |
| PriorityExamples.PickedUnderPriority | src/r2x_plexos/models/property.py:161-194 | with entries and a non-empty priority and no horizon, get_value is the priority pick |
| PriorityExamples.ShapedPick | src/r2x_plexos/models/property.py:439-469 | the record whose scenario the priority ranks strictly before every other ranked record's is picked |
| PriorityExamples.ShapedPriority | src/r2x_plexos/models/property.py:439-469 | get_value under such a priority returns that record's value |
| PriorityExamples.UnrankedPick | src/r2x_plexos/models/property.py:449-469 | when the priority ranks no record's scenario, the first record is picked |
| PriorityExamples.ShapedUnranked | src/r2x_plexos/models/property.py:449-469 | get_value under such a priority returns the first record's value |
| PriorityExamples.ScenarioNamed | src/r2x_plexos/models/property.py:383-384 | some entry carries a scenario exactly when some record names it |
| PriorityExamples.ShapedScenarios | src/r2x_plexos/models/property.py:273-275 | the scenario index holds exactly the records' scenarios |
| PriorityExamples.ShapedCascadeGuards | src/r2x_plexos/models/property.py:489-504 | two or more scenario records leave no pure default, no scenario-less timeslice or band, and at least two scenarios |
| PriorityExamples.ShapedDictValue | src/r2x_plexos/models/property.py:212-213 | the scenario dict maps each record's scenario to that record's value |
| PriorityExamples.ShapedCascade | src/r2x_plexos/models/property.py:409-416 | without a priority the result is the dict from each record's scenario to its value, over exactly those scenarios |
| PriorityExamples.BaseHighLowDict | tests/test_property_priority.py:15 | a dict over exactly Base, High and Low with values 100, 120 and 80 is the literal dict of the test |
| PriorityExamples.PriorityOrderOn | tests/test_property_priority.py:100-104 | on the Scenario1-3 records, ranking Scenario3 first returns 300 and ranking Scenario1 first returns 100 |
| PriorityExamples.PriorityOrderExample | tests/test_property_priority.py:92-104 | test_priority_order on the property value from_records builds |
| PriorityExamples.HighestOn | tests/test_property_priority.py:26-28 | on Base, High and Low, the priority Test, High, Base returns 120 |
| PriorityExamples.HighestExample | tests/test_property_priority.py:18-28 | test_get_value_with_priority_returns_highest |
| PriorityExamples.MissingScenarioOn | tests/test_property_priority.py:38-40 | on Base and High, the priority Test, Base returns 100 |
| PriorityExamples.MissingScenarioExample | tests/test_property_priority.py:31-40 | test_get_value_priority_missing_scenario |
| PriorityExamples.UnmatchedScenarioOn | tests/test_property_priority.py:50-53 | on Base and High, a priority naming neither returns the first record's 100 |
| PriorityExamples.UnmatchedScenarioExample | tests/test_property_priority.py:43-53 | test_get_value_no_matching_scenarios, with the value determined |
| PriorityExamples.SingleScenarioOn | tests/test_property_priority.py:57-59 | one Base record gives its bare value 100 |
| PriorityExamples.SingleScenarioExample | tests/test_property_priority.py:56-59 | test_get_value_single_scenario |
| PriorityExamples.NoPriorityCascadeOn | tests/test_property_priority.py:14-15 | the cascade over Base, High and Low is the dict Base 100, High 120, Low 80 |
| PriorityExamples.NoPriorityDictOn | tests/test_property_priority.py:14-15 | without a priority get_value returns that dict |
| PriorityExamples.NoPriorityDictExample | tests/test_property_priority.py:6-15 | test_get_value_no_priority_returns_dict |
| PropertyValues.PropertyValue.constructor | src/r2x_plexos/models/property.py:22-32 | a new object has no entries, empty indexes and the given units |
| PropertyValues.PropertyValue.FromDict | src/r2x_plexos/models/property.py:34-54 | one add_entry of the dictionary's row onto an empty property with the dictionary's units |
| PropertyValues.PropertyValue.FromRecords | src/r2x_plexos/models/property.py:64-81 | one add_entry per record, in order, onto an empty property with the given units |
| PropertyValues.PropertyValue.FromDbResults | src/r2x_plexos/models/property.py:56-62 | add_from_db_rows of the results onto an empty property |
| PropertyValues.PropertyValue.FileScenario | src/r2x_plexos/models/property.py:383-384 | a key with a non-empty scenario is filed in the scenario index; nothing else changes |
| PropertyValues.PropertyValue.FileBand | src/r2x_plexos/models/property.py:386 | every key is filed under its band; nothing else changes |
| PropertyValues.PropertyValue.FileTimeslice | src/r2x_plexos/models/property.py:388-389 | a key with a non-empty timeslice is filed in the timeslice index |
| PropertyValues.PropertyValue.FileDate | src/r2x_plexos/models/property.py:391-393 | a key whose dates are not both None is filed under its date range |
| PropertyValues.PropertyValue.FileVariable | src/r2x_plexos/models/property.py:395-396 | a key with a non-empty variable is filed in the variable index |
| PropertyValues.PropertyValue.FileText | src/r2x_plexos/models/property.py:398-399 | a key with a non-empty text is filed in the text index |
| PropertyValues.PropertyValue.AddToIndexes | src/r2x_plexos/models/property.py:374-399 | the indexes become AddToIndex of the old ones; entries and metadata unchanged |
| PropertyValues.PropertyValue.UpdateMetadata | src/r2x_plexos/models/property.py:154-159 | units and action are set only when currently empty and the new one is non-empty |
| PropertyValues.PropertyValue.Add | src/r2x_plexos/models/property.py:83-133 | add_entry keeps the invariant and leaves the state AddEntry describes |
| PropertyValues.PropertyValue.AddFromDbRows | src/r2x_plexos/models/property.py:135-152 | the rows are added in order, keeping the invariant |
| PropertyValues.PropertyValue.RebuildIndexes | src/r2x_plexos/models/property.py:424-437 | the indexes become those the entry keys determine, and the invariant holds again |
| PropertyValues.PropertyValue.SaveIndexes | src/r2x_plexos/models/property.py:471-476 | the saved copy equals the current indexes |
| PropertyValues.PropertyValue.RestoreIndexes | src/r2x_plexos/models/property.py:478-481 | the indexes become the saved ones; nothing else changes |
| PropertyValues.PropertyValue.FilterByHorizon | src/r2x_plexos/models/property.py:518-539 | the loop returns the entries that overlap the horizon, in insertion order |
| PropertyValues.PropertyValue.ResolveByPriority | src/r2x_plexos/models/property.py:439-469 | the loop and the sort return the priority pick of the current entries |
| PropertyValues.PropertyValue.ResolveValue | src/r2x_plexos/models/property.py:483-516 | returns the resolution of the current entries under the priority |
| PropertyValues.PropertyValue.GetValue | src/r2x_plexos/models/property.py:161-194 | returns get_value of the property, and after the entries and indexes are swapped out and back leaves the object as it was and valid |
| PropertyValues.PropertyValue.ResolveSwapped | src/r2x_plexos/models/property.py:175-194 | with the surviving entries swapped in and indexes rebuilt, returns their resolution, and after the swap back the object is as before |
| PropertyValues.RepeatedGetValue | src/r2x_plexos/models/property.py:182-192 | reading a property twice gives the same value; the object is unchanged |
| PropertyValues.SplitBySimplicity | src/r2x_plexos/models/property.py:448-461 | the loop splits the entries into the simple and the complex ones, each in insertion order |
| PropertyValues.FirstByRank | src/r2x_plexos/models/property.py:468-469 | the stable sort's first candidate has minimal rank and strictly beats every earlier one |
| Context.PriorityContext.constructor | src/r2x_plexos/models/context.py:8 | no priority is set at first |
| Context.PriorityContext.GetScenarioPriority | src/r2x_plexos/models/context.py:11-20 | returns the current priority |
| Context.PriorityContext.SetScenarioPriority | src/r2x_plexos/models/context.py:23-33 | the current priority becomes the given one |
| Context.PriorityContext.Enter | src/r2x_plexos/models/context.py:60-61 | returns the previous priority and installs the new one |
| Context.PriorityContext.Exit | src/r2x_plexos/models/context.py:62-65 | the previous priority is back |
| Context.PriorityContext.Scoped | src/r2x_plexos/models/context.py:36-65 | the body sees the block's priority; the body's outcome, an exception included, passes through; the previous priority is back afterwards even if the body set another |
| Context.PriorityContext.Nested | tests/test_context.py:33-41 | in nested blocks the inner priority wins inside, the outer is back after the inner exits, and the original after both |
| Context.SetThenGet | tests/test_context.py:16-21 | get after set returns what was set |
| Components.GetAttribute | src/r2x_plexos/models/component.py:19-29 | a missing name raises; a model field holding a property value reads as get_value under the ambient priority, leaving the property unchanged; anything else reads as stored, and a property under a name that is not a model field is left unchanged |
| Components.ResolvedBy | src/r2x_plexos/models/component.py:19-27 | the only object a read may touch: a property value stored under a model field (partner: the frame of `Components.GetAttribute`) |
| Components.ReadInScope | src/r2x_plexos/models/context.py:54-58 | a property field read inside a priority block resolves under that priority; afterwards the property and the ambient priority are as before |
| PropertySpecs.ValidateEnumValue | src/r2x_plexos/models/property_specification.py:41-44 | an enum value is rejected exactly when it is a float that is not whole |
| PropertySpecs.EnumCheck | src/r2x_plexos/models/property_specification.py:87-88 | a dictionary fails the enum rule exactly when the spec is an enum one and its set value is a non-whole float |
| PropertySpecs.ValidateBands | src/r2x_plexos/models/property_specification.py:46-51 | rejected, with the number of bands, exactly when bands are not allowed and the property has more than one |
| PropertySpecs.ValidateBandsMeans | src/r2x_plexos/models/property_specification.py:46-51 | the band check fails exactly when bands are not allowed and two entries carry different bands |
| PropertySpecs.PropertyOutcome | src/r2x_plexos/models/property_specification.py:69-81 | the band error first, untouched; else units applied, then an enum error for the first non-whole value (partner: `PropertySpecs.MultiBandRejected`, `PropertySpecs.EnumRuleOnEntries`) |
| PropertySpecs.BandOutcome | src/r2x_plexos/models/property_specification.py:92-93 | a validating spec applies the band rule to the property it built (partner: `PropertySpecs.DictNeverMultiBand`) |
| PropertySpecs.DictOutcome | src/r2x_plexos/models/property_specification.py:83-95 | units injected, the enum rule on "value", from_dict, then the band rule (partner: `PropertySpecs.DictUnitsInjected`, `PropertySpecs.DictEnumRule`) |
| PropertySpecs.UnitsFor | src/r2x_plexos/models/property_specification.py:60-61 | the spec's units are injected only when the property has none |
| PropertySpecs.UnitsForIdempotent | src/r2x_plexos/models/property_specification.py:60-61 | injecting units twice is injecting once |
| PropertySpecs.ApplyUnitsToDict | src/r2x_plexos/models/property_specification.py:55-59 | a dictionary without a units key gets the spec's units; one with the key keeps it |
| PropertySpecs.ApplyUnitsToDictIdempotent | src/r2x_plexos/models/property_specification.py:55-59 | injecting units into a dictionary twice is injecting once |
| PropertySpecs.ApplyUnitsToProperty | src/r2x_plexos/models/property_specification.py:60-61 | only the property's units change, by the injection rule |
| PropertySpecs.ValidateNumeric | src/r2x_plexos/models/property_specification.py:63-67 | a number passes unchanged, and fails exactly for a non-whole float under an enum spec |
| PropertySpecs.FirstNotWhole | src/r2x_plexos/models/property_specification.py:76-79 | finds a non-whole entry value exactly when there is one |
| PropertySpecs.MultiBandRejected | src/r2x_plexos/models/property_specification.py:69-72 | a multi-band property under a no-bands validator is rejected before anything else |
| PropertySpecs.SingleBandAccepted | src/r2x_plexos/models/property_specification.py:69-81 | a single-band property under a non-enum spec is accepted with units injected |
| PropertySpecs.EnumRuleOnEntries | src/r2x_plexos/models/property_specification.py:76-79 | under an enum spec a property is rejected exactly when some entry value is not whole |
| PropertySpecs.PropertyOutcomeKeepsEntries | src/r2x_plexos/models/property_specification.py:69-81 | validation leaves the entries and indexes alone and keeps the units when the band check fails, and otherwise sets them to the injected default |
| PropertySpecs.ValidateProperty | src/r2x_plexos/models/property_specification.py:69-81 | the object is updated in place as the outcome says; an error is raised exactly when the outcome has one |
| PropertySpecs.OneEntryOneBand | src/r2x_plexos/models/property_specification.py:83-95 | a property built from one dictionary has one band |
| PropertySpecs.DictNeverMultiBand | src/r2x_plexos/models/property_specification.py:90-93 | a dictionary can only fail the enum rule, never the band rule |
| PropertySpecs.DictUnitsInjected | tests/test_property_specification.py:75-78 | a dictionary without units gets the spec's units |
| PropertySpecs.DictUnitsKept | tests/test_property_specification.py:80-83 | a dictionary's own units are not overridden |
| PropertySpecs.DictEnumRule | src/r2x_plexos/models/property_specification.py:87-88 | under an enum spec, a dictionary is rejected exactly when its value is a non-whole float |
| PropertySpecs.ValidateDict | src/r2x_plexos/models/property_specification.py:83-95 | the caller's dictionary gets the units; the result is a fresh valid property built from it, or the outcome's error |
| PropertySpecs.ValidateValue | src/r2x_plexos/models/property_specification.py:97-134 | None passes; numbers, property values and dictionaries go to their validators, and a dictionary comes back with the units written into it; any other type is rejected |
| PropertySpecs.PropertySpec | src/r2x_plexos/models/property_specification.py:197-226 | the annotation made by the function carries the arguments and is a validator |
| PropertySpecs.FactoryCall | src/r2x_plexos/models/property_specification.py:237-244 | calling the factory gives a validator spec that carries the arguments and is not the default |
| PropertySpecs.FactoryRejectsMultiBand | tests/test_property_specification.py:90-99 | a factory spec with bands off rejects a two-band property |
| Actions.ApplyAction | src/r2x_plexos/utils_parser.py:4-30 | `*`, `+`, `-` combine; `/` divides unless the new value is zero; anything else returns the new value |
| Actions.ReplaceIgnoresBase | src/r2x_plexos/utils_parser.py:27-30 | a replacing action's result does not depend on the base |
| Actions.AddSubtractInverse | src/r2x_plexos/utils_parser.py:23-26 | in exact arithmetic, `-` undoes `+` and `+` undoes `-` |
| Actions.MultiplyDivideInverse | src/r2x_plexos/utils_parser.py:21-28 | in exact arithmetic, with a non-zero value, `/` undoes `*` and `*` undoes `/` |
| Actions.CombineSeesBase | src/r2x_plexos/utils_parser.py:21-28 | in exact arithmetic, a combining action maps different bases to different results, except through a zero factor |
| Ordering.StrLtIrreflexive | src/r2x_plexos/models/property.py:269-283 | Python's string order is irreflexive |
| Ordering.StrLtTransitive | src/r2x_plexos/models/property.py:269-283 | it is transitive |
| Ordering.StrLtTrichotomy | src/r2x_plexos/models/property.py:269-283 | it is total |
| Ordering.StrLtAsymmetric | src/r2x_plexos/models/property.py:269-283 | it is asymmetric |
| Ordering.AtomLtTransitive | src/r2x_plexos/models/property.py:221-252 | the order on tuple components is transitive |
| Ordering.AtomLtTrichotomy | src/r2x_plexos/models/property.py:221-252 | it is total |
| Ordering.AtomLtIrreflexive | src/r2x_plexos/models/property.py:221-252 | it is irreflexive |
| Ordering.AtomsLtIrreflexive | src/r2x_plexos/models/property.py:221-252 | the lexicographic tuple order is irreflexive |
| Ordering.AtomsLtTransitive | src/r2x_plexos/models/property.py:221-252 | it is transitive |
| Ordering.AtomsLtTrichotomy | src/r2x_plexos/models/property.py:221-252 | it is total |
| Ordering.LeastExists | src/r2x_plexos/models/property.py:221-254 | every non-empty set has an element with no smaller sort key |
| Ordering.Least | src/r2x_plexos/models/property.py:261-283 | the least element of a set under an injective key is below every other |
| Ordering.LeastBelowOthers | src/r2x_plexos/models/property.py:261-283 | a minimal element under an injective key is strictly below every other |
| Ordering.LeastUnique | src/r2x_plexos/models/property.py:261-283 | that element is unique |
| Ordering.ConsIncreasing | src/r2x_plexos/models/property.py:261-283 | putting a smaller element in front keeps a listing strictly increasing |
| Ordering.SortedBy | src/r2x_plexos/models/property.py:261-283 | sorted() of a set lists each element once, in strictly increasing order |

## Left out

- I/O and the pydantic hooks are not modelled: `__get_pydantic_core_schema__`,
  `__get_pydantic_json_schema__` and the factory's schema hook
  (property_specification.py:136-194, 246-252). Neither is the module-level
  factory instance. They only hand the validator to pydantic.
- `__repr__` and the comparison operators (property.py:317-372) are not
  modelled. They are display and convenience code, with no effect on
  resolution.
- get_dates sorts tuples that can hold None, and Python raises TypeError
  when it compares None with a string. The model orders None first instead.
  `Overlays.Dates` therefore promises more than the source delivers on such
  data.
- `get_horizon()` is imported by property.py, but context.py does not
  define it (context.py is not part of this model beyond what it shows).
  The horizon is a parameter of get_value and of the attribute read.
- Attribute values are modelled as numbers (Option<real>), and bands as
  integers. A non-numeric `value` is not modelled.
- Records.BandOf: a whole float band such as `2.0` is read as band 2, the
  same key in Python. A band present as `None`, a non-whole float or a
  string is read as band 1, whereas Python files the entry under that value
  itself; such bands cannot be expressed as the model's integer band.
- Floating point is modelled as exact reals. IEEE rounding, overflow,
  infinity and NaN are not modelled, nor is `is_integer` on infinity.
- Actions.AddSubtractInverse: holds in exact arithmetic only. On doubles,
  `apply_action(apply_action(1.0, 1e16, "+"), 1e16, "-")` is `0.0`, because
  `1.0 + 1e16` rounds to `1e16`.
- Actions.MultiplyDivideInverse: holds in exact arithmetic only. On doubles,
  `apply_action(apply_action(1e308, 10.0, "*"), 10.0, "/")` is `inf`,
  because the product overflows.
- Actions.CombineSeesBase: holds in exact arithmetic only. On doubles, the
  bases `0.0` and `1.0` under `"+"` with the new value `1e16` give the same
  result, because `1.0 + 1e16` rounds to `1e16`.
- The priority ranks `float("inf")` and `float("inf") - 1` are one rank,
  `Infinite`, because they are equal in IEEE arithmetic. So an entry whose
  scenario is not ranked ties with an entry without a scenario, and the
  stable sort's insertion order decides between them, as in the source.
  The expression `float("inf") - 1` at property.py:454 suggests an unranked
  scenario was meant to beat no scenario; in floating point it equals
  `float("inf")`, and the model follows the code.
- Python sets iterate in hash order. Where the source sorts a set and ties
  are possible, the model promises only some minimal element:
  - `Lookup.LookupKey`, `Lookup.ScenarioFallback`, `Lookup.TimesliceFallback`,
    `Lookup.BandLookup`, `Lookup.BandBucketFallback` and the three
    `Lookup.*StepMeans` lemmas do not say which of several tied keys is
    returned;
  - `ValueFacts.ScenarioDict`, `ValueFacts.BandDict`,
    `ValueFacts.SingleScenarioCovers`, `ValueFacts.TimesliceDict` and
    `ValueFacts.NonScenarioTimeslicesTakeOver` say only that each entry of
    the dict comes from an entry with that name.
- A single row passed to add_from_db_rows is not modelled. Only a list of
  rows is, and a single row is the one-element list.
- Python's int and float distinction is lost in stored values. This matters
  only for the enum rule, and there a non-whole value is always a float.
  `_validate_numeric` keeps the distinction (`Number`).
- pydantic's coercion of ints to floats when a field is declared float is
  not modelled.
- The caller's dictionary that `_validate_dict` updates in place is
  returned as an updated value, by `PropertySpecs.ValidateDict` and by
  `PropertySpecs.ValidateValue` for a dictionary input. Aliasing with other references to that
  dictionary is not modelled.
- The band check of `_validate_dict` can never fail on one dictionary. It
  is kept, and `PropertySpecs.DictNeverMultiBand` proves it dead.
- Concurrency is not modelled, since the priority global is process-wide.
- `apply_action_to_timeseries` and the other helpers of utils_parser that
  the tests use (the `×` and `x` spellings, the divide-by-zero error) are
  not part of this model. Only `apply_action` (utils_parser.py:4-30) is.
