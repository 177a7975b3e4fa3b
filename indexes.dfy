/**
 * The six secondary indexes of an overlay (property.py:27-32): each maps a
 * dimension value to the set of entry keys carrying it.  `AddToIndex` is
 * `_add_to_indexes` (property.py:374-399), `BuildIndex` is the loop of
 * `_rebuild_indexes` over the entries (property.py:424-437), and `IndexFor`
 * is the index that a set of keys determines.
 */
module Indexes {
  import opened Wrappers
  import opened Keys

  datatype Index = Index(
    byScenario: map<string, set<Key>>,
    byBand: map<int, set<Key>>,
    byTimeslice: map<string, set<Key>>,
    byDate: map<DateRange, set<Key>>,
    byVariable: map<string, set<Key>>,
    byText: map<string, set<Key>>)

  const EmptyIndex: Index := Index(map[], map[], map[], map[], map[], map[])

  /** The value a key is filed under in each index, or None when it is left out of that index. */
  function ScenarioTag(k: Key): Option<string> { if Truthy(k.scenario) then k.scenario else None }

  function BandTag(k: Key): Option<int> { Some(k.band) }

  function TimesliceTag(k: Key): Option<string> { if Truthy(k.timeslice) then k.timeslice else None }

  function DateTag(k: Key): Option<DateRange> {
    if (k.dateFrom, k.dateTo) != (None, None) then Some((k.dateFrom, k.dateTo)) else None
  }

  function VariableTag(k: Key): Option<string> { if Truthy(k.variable) then k.variable else None }

  function TextTag(k: Key): Option<string> { if Truthy(k.text) then k.text else None }

  /** The helper `add_to_index`: create the bucket if missing, then add the key to it. */
  function AddToBucket<T>(m: map<T, set<Key>>, v: T, k: Key): (r: map<T, set<Key>>)
    ensures r.Keys == m.Keys + {v}
    ensures k in r[v] && (v in m ==> m[v] <= r[v])
    ensures forall w :: w in m && w != v ==> r[w] == m[w]
  {
    m[v := (if v in m then m[v] else {}) + {k}]
  }

  /** File a key under its tag, if it has one. */
  function AddTagged<T>(m: map<T, set<Key>>, tag: Option<T>, k: Key): map<T, set<Key>> {
    if tag.Some? then AddToBucket(m, tag.value, k) else m
  }

  /** `_add_to_indexes(key)`. */
  function AddToIndex(ix: Index, k: Key): Index {
    Index(
      AddTagged(ix.byScenario, ScenarioTag(k), k),
      AddTagged(ix.byBand, BandTag(k), k),
      AddTagged(ix.byTimeslice, TimesliceTag(k), k),
      AddTagged(ix.byDate, DateTag(k), k),
      AddTagged(ix.byVariable, VariableTag(k), k),
      AddTagged(ix.byText, TextTag(k), k))
  }

  /** The indexes after `_add_to_indexes` has been called on every key, in order, starting from empty. */
  function BuildIndex(keys: seq<Key>): Index
    decreases |keys|
  {
    if |keys| == 0 then EmptyIndex
    else AddToIndex(BuildIndex(keys[..|keys| - 1]), keys[|keys| - 1])
  }

  /** The values that the keys of `s` are filed under. */
  ghost function TagsOf<T>(s: set<Key>, tag: Key -> Option<T>): set<T> {
    set k | k in s && tag(k).Some? :: tag(k).value
  }

  /** The one index consistent with the key set `s`. */
  ghost function IndexBy<T>(s: set<Key>, tag: Key -> Option<T>): map<T, set<Key>> {
    map v | v in TagsOf(s, tag) :: set k | k in s && tag(k) == Some(v)
  }

  ghost function IndexFor(s: set<Key>): Index {
    Index(IndexBy(s, ScenarioTag), IndexBy(s, BandTag), IndexBy(s, TimesliceTag),
          IndexBy(s, DateTag), IndexBy(s, VariableTag), IndexBy(s, TextTag))
  }

  ghost function Elems(keys: seq<Key>): set<Key> {
    set k | k in keys
  }

  /** One index files the keys of `s`: every bucket key is in `s` and carries the bucket's value, and every tagged key is in its bucket. */
  ghost predicate Files<T>(m: map<T, set<Key>>, s: set<Key>, tag: Key -> Option<T>) {
    && (forall v, k :: v in m && k in m[v] ==> k in s && tag(k) == Some(v))
    && (forall k :: k in s && tag(k).Some? ==> tag(k).value in m && k in m[tag(k).value])
  }

  /** The index-consistency invariant of an overlay whose entry keys are `s`. */
  ghost predicate Consistent(ix: Index, s: set<Key>) {
    && Files(ix.byScenario, s, ScenarioTag)
    && Files(ix.byBand, s, BandTag)
    && Files(ix.byTimeslice, s, TimesliceTag)
    && Files(ix.byDate, s, DateTag)
    && Files(ix.byVariable, s, VariableTag)
    && Files(ix.byText, s, TextTag)
  }

  lemma IndexByFiles<T>(s: set<Key>, tag: Key -> Option<T>)
    ensures Files(IndexBy(s, tag), s, tag)
    ensures IndexBy(s, tag).Keys == TagsOf(s, tag)
  {
    var m := IndexBy(s, tag);
    forall k | k in s && tag(k).Some?
      ensures tag(k).value in m && k in m[tag(k).value]
    {
      assert tag(k).value in TagsOf(s, tag);
    }
  }

  /** Filing one more key into the index of `s` gives the index of `s + {k}`. */
  lemma AddTaggedIndexBy<T>(s: set<Key>, tag: Key -> Option<T>, k: Key)
    ensures AddTagged(IndexBy(s, tag), tag(k), k) == IndexBy(s + {k}, tag)
  {
    var m, m' := IndexBy(s, tag), IndexBy(s + {k}, tag);
    var r := AddTagged(m, tag(k), k);
    if tag(k).Some? {
      assert TagsOf(s + {k}, tag) == TagsOf(s, tag) + {tag(k).value};
      forall v | v in r.Keys
        ensures v in m' && r[v] == m'[v]
      {
        assert v == tag(k).value || v in TagsOf(s, tag);
      }
    } else {
      assert TagsOf(s + {k}, tag) == TagsOf(s, tag);
      forall v | v in m.Keys
        ensures m[v] == m'[v]
      {
        assert (set k' | k' in s + {k} && tag(k') == Some(v)) == (set k' | k' in s && tag(k') == Some(v));
      }
    }
  }

  lemma {:induction false} AddToIndexFor(s: set<Key>, k: Key)
    ensures AddToIndex(IndexFor(s), k) == IndexFor(s + {k})
  {
    AddTaggedIndexBy(s, ScenarioTag, k);
    AddTaggedIndexBy(s, BandTag, k);
    AddTaggedIndexBy(s, TimesliceTag, k);
    AddTaggedIndexBy(s, DateTag, k);
    AddTaggedIndexBy(s, VariableTag, k);
    AddTaggedIndexBy(s, TextTag, k);
  }

  /** Index property of `_rebuild_indexes`: rebuilding from the entry keys gives exactly the consistent index. */
  lemma {:induction false} BuildIndexFor(keys: seq<Key>)
    ensures BuildIndex(keys) == IndexFor(Elems(keys))
    decreases |keys|
  {
    if |keys| == 0 {
      assert Elems(keys) == {};
      assert IndexFor({}) == EmptyIndex;
    } else {
      var init := keys[..|keys| - 1];
      BuildIndexFor(init);
      assert Elems(keys) == Elems(init) + {keys[|keys| - 1]} by {
        assert keys == init + [keys[|keys| - 1]];
      }
      AddToIndexFor(Elems(init), keys[|keys| - 1]);
    }
  }

  /** A value has a bucket in the index of `s` exactly when some key of `s` is filed under it. */
  lemma IndexByKeys<T>(s: set<Key>, tag: Key -> Option<T>, v: T)
    ensures v in IndexBy(s, tag) <==> exists k :: k in s && tag(k) == Some(v)
  {
    if exists k :: k in s && tag(k) == Some(v) {
      var k :| k in s && tag(k) == Some(v);
      assert v in TagsOf(s, tag);
    }
  }

  /** The bucket of a value in the index of `s` holds exactly the keys of `s` filed under that value. */
  lemma IndexByBucket<T>(s: set<Key>, tag: Key -> Option<T>, v: T, k: Key)
    requires v in IndexBy(s, tag)
    ensures k in IndexBy(s, tag)[v] <==> k in s && tag(k) == Some(v)
  {
  }

  /** The index that a key set determines satisfies the consistency invariant. */
  lemma IndexForConsistent(s: set<Key>)
    ensures Consistent(IndexFor(s), s)
    ensures IndexFor(s).byScenario.Keys == TagsOf(s, ScenarioTag)
    ensures IndexFor(s).byBand.Keys == TagsOf(s, BandTag)
    ensures IndexFor(s).byTimeslice.Keys == TagsOf(s, TimesliceTag)
    ensures IndexFor(s).byDate.Keys == TagsOf(s, DateTag)
    ensures IndexFor(s).byVariable.Keys == TagsOf(s, VariableTag)
    ensures IndexFor(s).byText.Keys == TagsOf(s, TextTag)
  {
    IndexByFiles(s, ScenarioTag);
    IndexByFiles(s, BandTag);
    IndexByFiles(s, TimesliceTag);
    IndexByFiles(s, DateTag);
    IndexByFiles(s, VariableTag);
    IndexByFiles(s, TextTag);
  }

  /**
   * The invariant spelled out field by field: every entry is in the bucket of
   * its band; it is in some scenario, timeslice, variable or text bucket
   * exactly when that field is non-empty, and in some date bucket exactly when
   * its dates are not both None; every bucket key is an entry.
   */
  lemma ConsistentMeans(ix: Index, s: set<Key>, k: Key)
    requires Consistent(ix, s) && k in s
    ensures k.band in ix.byBand && k in ix.byBand[k.band]
    ensures (exists v :: v in ix.byScenario && k in ix.byScenario[v]) <==> Truthy(k.scenario)
    ensures (exists v :: v in ix.byTimeslice && k in ix.byTimeslice[v]) <==> Truthy(k.timeslice)
    ensures (exists v :: v in ix.byVariable && k in ix.byVariable[v]) <==> Truthy(k.variable)
    ensures (exists v :: v in ix.byText && k in ix.byText[v]) <==> Truthy(k.text)
    ensures (exists d :: d in ix.byDate && k in ix.byDate[d]) <==> (k.dateFrom, k.dateTo) != (None, None)
  {
    assert BandTag(k).Some?;
    if Truthy(k.scenario) { assert ScenarioTag(k).Some?; }
    if Truthy(k.timeslice) { assert TimesliceTag(k).Some?; }
    if Truthy(k.variable) { assert VariableTag(k).Some?; }
    if Truthy(k.text) { assert TextTag(k).Some?; }
    if (k.dateFrom, k.dateTo) != (None, None) { assert DateTag(k).Some?; }
  }

  lemma ConsistentBucketsAreEntries(ix: Index, s: set<Key>)
    requires Consistent(ix, s)
    ensures forall v, k :: v in ix.byScenario && k in ix.byScenario[v] ==> k in s
    ensures forall v, k :: v in ix.byBand && k in ix.byBand[v] ==> k in s
    ensures forall v, k :: v in ix.byTimeslice && k in ix.byTimeslice[v] ==> k in s
    ensures forall d, k :: d in ix.byDate && k in ix.byDate[d] ==> k in s
    ensures forall v, k :: v in ix.byVariable && k in ix.byVariable[v] ==> k in s
    ensures forall v, k :: v in ix.byText && k in ix.byText[v] ==> k in s
  {
  }
}
