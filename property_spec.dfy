/**
 * PropertySpecification (property_specification.py:18-134): the field
 * validator that checks an input against a property's declared units, band
 * rule and enum rule, and turns a dictionary into a property value; and the
 * factory that builds validating specifications (property_specification.py:197-244).
 * The pure checks are functions; the validation of a property value object,
 * which writes its units in place, is a method on that object.
 */
module PropertySpecs {
  import opened Wrappers
  import opened Keys
  import opened Indexes
  import opened Records
  import opened Overlays
  import opened PropertyValues

  /** PropertySpecification, a frozen dataclass with its field defaults (property_specification.py:36-39). */
  datatype Spec = Spec(units: Option<string>, allowBands: bool, isEnum: bool, isValidator: bool)

  const DefaultSpec: Spec := Spec(None, true, false, false)

  /** The two ValueErrors and the TypeError the validator raises. */
  datatype ValidationError =
    | NotWholeNumber(value: real)
    | MultiBand(bands: nat)
    | UnsupportedType(typeName: string)

  /** A Python number: an `int`, or a `float` (modelled exactly, as a real). */
  datatype Number = IntNumber(i: int) | FloatNumber(r: real)

  /** `float.is_integer()`. */
  predicate IsWhole(r: real) {
    r == r.Floor as real
  }

  /**
   * `_validate_enum_value` (property_specification.py:41-44): only a float
   * that is not a whole number is rejected; an int, a whole float, None or a
   * string passes.
   */
  function ValidateEnumValue(v: Datum): (e: Option<ValidationError>)
    ensures e.Some? <==> v.DReal? && !IsWhole(v.r)
    ensures e.Some? ==> e.value == NotWholeNumber(v.r)
  {
    if v.DReal? && !IsWhole(v.r) then Some(NotWholeNumber(v.r)) else None
  }

  /** `_validate_bands` (property_specification.py:46-51): more than one distinct band is rejected unless bands are allowed. */
  function ValidateBands(spec: Spec, o: Overlay): (e: Option<ValidationError>)
    ensures e.Some? <==> !spec.allowBands && HasBands(o)
    ensures e.Some? ==> e.value == MultiBand(|o.ix.byBand|)
  {
    var bands := Bands(o);
    if !spec.allowBands && |bands| > 1 then Some(MultiBand(|bands|)) else None
  }

  /** The band rule in terms of the entries: a band error means two entries with different bands. */
  lemma ValidateBandsMeans(spec: Spec, o: Overlay)
    requires WellFormed(o)
    ensures ValidateBands(spec, o).Some? <==> !spec.allowBands && exists k1, k2 :: k1 in o.rows && k2 in o.rows && k1.band != k2.band
  {
    HasBandsMeans(o);
  }

  /** The units `_apply_units` leaves on a property value (property_specification.py:55-56, 60-61). */
  function UnitsFor(spec: Spec, current: Option<string>): (u: Option<string>)
    ensures Truthy(current) ==> u == current
    ensures !Truthy(spec.units) ==> u == current
    ensures Truthy(spec.units) && !Truthy(current) ==> u == spec.units
  {
    if Truthy(spec.units) && !Truthy(current) then spec.units else current
  }

  /** Applying the spec's units twice is applying them once. */
  lemma UnitsForIdempotent(spec: Spec, current: Option<string>)
    ensures UnitsFor(spec, UnitsFor(spec, current)) == UnitsFor(spec, current)
  {
  }

  /**
   * `_apply_units` on a dictionary (property_specification.py:55-59): the
   * `"units"` entry is added only when the spec has units and the dictionary
   * has no such key at all; an existing key, even one holding None, is kept.
   */
  function ApplyUnitsToDict(spec: Spec, d: Record): (r: Record)
    ensures "units" in d ==> r == d
    ensures !Truthy(spec.units) ==> r == d
    ensures Truthy(spec.units) && "units" !in d ==> r == d["units" := DStr(spec.units.value)]
  {
    if Truthy(spec.units) && "units" !in d then d["units" := DStr(spec.units.value)] else d
  }

  lemma ApplyUnitsToDictIdempotent(spec: Spec, d: Record)
    ensures ApplyUnitsToDict(spec, ApplyUnitsToDict(spec, d)) == ApplyUnitsToDict(spec, d)
  {
  }

  /** `_apply_units` on a property value (property_specification.py:53-56, 60-61): only its `units` field may change. */
  method ApplyUnitsToProperty(spec: Spec, p: PropertyValue)
    modifies p
    ensures p.units == UnitsFor(spec, old(p.units))
    ensures p.order == old(p.order) && p.entries == old(p.entries) && p.action == old(p.action)
    ensures p.Indexes() == old(p.Indexes())
  {
    if !Truthy(spec.units) {
      return;
    }
    if !Truthy(p.units) {
      p.units := spec.units;
    }
  }

  /** `_validate_numeric` (property_specification.py:63-67): the number comes back unchanged unless the enum rule rejects it. */
  function ValidateNumeric(spec: Spec, n: Number): (r: Result<Number, ValidationError>)
    ensures r.Ok? ==> r.value == n
    ensures r.Err? <==> spec.isEnum && n.FloatNumber? && !IsWhole(n.r)
  {
    if spec.isEnum then
      var e := ValidateEnumValue(if n.IntNumber? then DInt(n.i) else DReal(n.r));
      if e.Some? then Err(e.value) else Ok(n)
    else Ok(n)
  }

  /** The first entry value, in insertion order, that is not a whole number. */
  function FirstNotWhole(keys: seq<Key>, rows: map<Key, Row>): (r: Option<real>)
    ensures r.Some? ==> !IsWhole(r.value) && exists k :: k in keys && k in rows && rows[k].value == Some(r.value)
    ensures r.None? <==> forall k :: k in keys && k in rows && rows[k].value.Some? ==> IsWhole(rows[k].value.value)
    decreases |keys|
  {
    if |keys| == 0 then None
    else
      var k := keys[0];
      assert forall k' :: k' in keys <==> k' == k || k' in keys[1..];
      if k in rows && rows[k].value.Some? && !IsWhole(rows[k].value.value) then rows[k].value
      else FirstNotWhole(keys[1..], rows)
  }

  /**
   * `_validate_property` (property_specification.py:69-81) on the value of a
   * property: the object it leaves behind and the error it raises, if any.
   * A band error comes before the units are applied; an enum error comes
   * after, so the units stay applied.
   */
  function PropertyOutcome(spec: Spec, o: Overlay): (Overlay, Option<ValidationError>) {
    if spec.isValidator && ValidateBands(spec, o).Some? then (o, ValidateBands(spec, o))
    else
      var o' := o.(units := UnitsFor(spec, o.units));
      var bad := FirstNotWhole(o.order, o.rows);
      if spec.isEnum && bad.Some? then (o', Some(NotWholeNumber(bad.value))) else (o', None)
  }

  /** A validating spec that forbids bands rejects a property with two different bands, and touches nothing. */
  lemma MultiBandRejected(spec: Spec, o: Overlay, k1: Key, k2: Key)
    requires WellFormed(o) && spec.isValidator && !spec.allowBands
    requires k1 in o.rows && k2 in o.rows && k1.band != k2.band
    ensures PropertyOutcome(spec, o) == (o, Some(MultiBand(|o.ix.byBand|)))
  {
    ValidateBandsMeans(spec, o);
  }

  /** With every entry on the same band and no enum rule, validation succeeds and only the units can change. */
  lemma SingleBandAccepted(spec: Spec, o: Overlay)
    requires WellFormed(o) && !spec.isEnum
    requires forall k1, k2 :: k1 in o.rows && k2 in o.rows ==> k1.band == k2.band
    ensures PropertyOutcome(spec, o) == (o.(units := UnitsFor(spec, o.units)), None)
  {
    ValidateBandsMeans(spec, o);
  }

  /** When it gets past the band rule, an enum spec rejects a property exactly when some entry value is not whole. */
  lemma EnumRuleOnEntries(spec: Spec, o: Overlay)
    requires WellFormed(o) && spec.isEnum && !(spec.isValidator && ValidateBands(spec, o).Some?)
    ensures PropertyOutcome(spec, o).1.Some? <==> exists k :: k in o.rows && o.rows[k].value.Some? && !IsWhole(o.rows[k].value.value)
  {
    if exists k :: k in o.rows && o.rows[k].value.Some? && !IsWhole(o.rows[k].value.value) {
      var k :| k in o.rows && o.rows[k].value.Some? && !IsWhole(o.rows[k].value.value);
      assert k in Elems(o.order);
    }
  }

  /** Validation never changes the entries, the indexes or the action of a property. */
  lemma PropertyOutcomeKeepsEntries(spec: Spec, o: Overlay)
    ensures var o' := PropertyOutcome(spec, o).0;
            o'.order == o.order && o'.rows == o.rows && o'.ix == o.ix && o'.action == o.action
    ensures spec.isValidator && ValidateBands(spec, o).Some? ==> PropertyOutcome(spec, o).0.units == o.units
    ensures !(spec.isValidator && ValidateBands(spec, o).Some?) ==> PropertyOutcome(spec, o).0.units == UnitsFor(spec, o.units)
  {
  }

  /** `_validate_property` on the object: bands first, then units in place, then the enum rule over the entries in order. */
  method ValidateProperty(spec: Spec, p: PropertyValue) returns (r: Result<PropertyValue, ValidationError>)
    requires p.Valid()
    modifies p
    ensures p.View() == PropertyOutcome(spec, old(p.View())).0
    ensures r.Ok? ==> r.value == p && PropertyOutcome(spec, old(p.View())).1 == None
    ensures r.Err? ==> PropertyOutcome(spec, old(p.View())).1 == Some(r.error)
    ensures p.Valid()
  {
    if spec.isValidator {
      var e := ValidateBands(spec, p.View());
      if e.Some? {
        return Err(e.value);
      }
    }
    ApplyUnitsToProperty(spec, p);
    if spec.isEnum {
      var i := 0;
      while i < |p.order|
        invariant 0 <= i <= |p.order|
        invariant FirstNotWhole(p.order, p.entries) == FirstNotWhole(p.order[i..], p.entries)
      {
        assert p.order[i] in Elems(p.order);
        var row := p.entries[p.order[i]];
        if row.value.Some? && !IsWhole(row.value.value) {
          return Err(NotWholeNumber(row.value.value));
        }
        assert p.order[i..][1..] == p.order[i + 1..];
        i := i + 1;
      }
    }
    return Ok(p);
  }

  /** A property value built by `from_dict` has one entry, hence one band. */
  lemma OneEntryOneBand(units: Option<string>, row: Row)
    ensures |AddEntry(Empty(units), row, None).ix.byBand| == 1
  {
    var k := EntryKey(row, None);
    assert AddEntry(Empty(units), row, None).ix.byBand.Keys == {k.band};
  }

  /**
   * `_validate_dict` (property_specification.py:83-95) on values: inject the
   * units, check the `"value"` entry against the enum rule, build the
   * property with `from_dict`, then check its bands.
   */
  function DictOutcome(spec: Spec, d: Record): Result<Overlay, ValidationError> {
    var d' := ApplyUnitsToDict(spec, d);
    var e := EnumCheck(spec, d');
    if e.Some? then Err(e.value)
    else
      BandOutcome(spec, AddEntry(Empty(AsString(Get(d', "units"))), DictRow(d'), None))
  }

  /** The enum rule on a dictionary: a set value of an enum property must be whole. */
  function EnumCheck(spec: Spec, d: Record): (e: Option<ValidationError>)
    ensures e.Some? <==> spec.isEnum && "value" in d && d["value"].DReal? && !IsWhole(d["value"].r)
  {
    if spec.isEnum && "value" in d && d["value"] != DNone then ValidateEnumValue(d["value"]) else None
  }

  /** The band rule applied to the property a validator built, when the spec validates. */
  function BandOutcome(spec: Spec, o: Overlay): Result<Overlay, ValidationError> {
    var b := if spec.isValidator then ValidateBands(spec, o) else None;
    if b.Some? then Err(b.value) else Ok(o)
  }

  /** A dictionary never fails the band rule: it describes a single entry. */
  lemma DictNeverMultiBand(spec: Spec, d: Record)
    ensures DictOutcome(spec, d).Err? ==> DictOutcome(spec, d).error.NotWholeNumber?
  {
    var d' := ApplyUnitsToDict(spec, d);
    OneEntryOneBand(AsString(Get(d', "units")), DictRow(d'));
  }

  /** The spec's units reach a dictionary that names none (test_property_specification.py:75-77). */
  lemma DictUnitsInjected(spec: Spec, d: Record)
    requires Truthy(spec.units) && "units" !in d
    ensures DictOutcome(spec, d).Ok? ==> DictOutcome(spec, d).value.units == spec.units
  {
  }

  /** A dictionary's own units are kept (test_property_specification.py:80-82). */
  lemma DictUnitsKept(spec: Spec, d: Record, u: string)
    requires "units" in d && d["units"] == DStr(u)
    ensures DictOutcome(spec, d).Ok? ==> DictOutcome(spec, d).value.units == Some(u)
  {
  }

  /** On an enum spec a dictionary is rejected exactly when its `"value"` is a float that is not whole. */
  lemma DictEnumRule(spec: Spec, d: Record)
    requires spec.isEnum
    ensures DictOutcome(spec, d).Err? <==> "value" in d && d["value"].DReal? && !IsWhole(d["value"].r)
  {
    DictNeverMultiBand(spec, d);
  }

  /** `_validate_dict` on objects: the caller's dictionary gets the units, and a fresh property comes back. */
  method ValidateDict(spec: Spec, d: Record) returns (r: Result<PropertyValue, ValidationError>, updated: Record)
    ensures updated == ApplyUnitsToDict(spec, d)
    ensures r.Ok? <==> DictOutcome(spec, d).Ok?
    ensures r.Err? ==> DictOutcome(spec, d) == Err(r.error)
    ensures r.Ok? ==> fresh(r.value) && r.value.Valid() && r.value.View() == DictOutcome(spec, d).value
  {
    updated := ApplyUnitsToDict(spec, d);
    var e := EnumCheck(spec, updated);
    if e.Some? {
      return Err(e.value), updated;
    }
    var prop := new PropertyValue.FromDict(updated);
    if spec.isValidator {
      match ValidateBands(spec, prop.View())
      case Some(e) =>
        return Err(e), updated;
      case None =>
    }
    return Ok(prop), updated;
  }

  /** What reaches the validator: None, a number, a property value object, a dictionary, or anything else. */
  datatype Input = NoneInput | NumberInput(n: Number) | PropertyInput(p: PropertyValue) | DictInput(d: Record) | OtherInput(typeName: string)

  datatype Output = NoneOutput | NumberOutput(n: Number) | PropertyOutput(p: PropertyValue)

  /** The objects validating `input` may write: a property value input has its units applied in place. */
  function WrittenBy(input: Input): set<PropertyValue> {
    if input.PropertyInput? then {input.p} else {}
  }

  /** `_validate_value` (property_specification.py:97-134): dispatch on the kind of input. */
  method ValidateValue(spec: Spec, input: Input) returns (r: Result<Output, ValidationError>, updated: Option<Record>)
    requires input.PropertyInput? ==> input.p.Valid()
    modifies WrittenBy(input)
    ensures input.DictInput? ==> updated == Some(ApplyUnitsToDict(spec, input.d))
    ensures !input.DictInput? ==> updated == None
    ensures input.NoneInput? ==> r == Ok(NoneOutput)
    ensures input.NumberInput? ==> match ValidateNumeric(spec, input.n)
                                   case Ok(n) => r == Ok(NumberOutput(n))
                                   case Err(e) => r == Err(e)
    ensures input.PropertyInput? ==>
              input.p.View() == PropertyOutcome(spec, old(input.p.View())).0 &&
              (r.Ok? <==> PropertyOutcome(spec, old(input.p.View())).1.None?) &&
              (r.Ok? ==> r.value == PropertyOutput(input.p)) &&
              (r.Err? ==> PropertyOutcome(spec, old(input.p.View())).1 == Some(r.error))
    ensures input.DictInput? ==>
              (r.Ok? <==> DictOutcome(spec, input.d).Ok?) &&
              (r.Ok? ==> r.value.PropertyOutput? && fresh(r.value.p) && r.value.p.View() == DictOutcome(spec, input.d).value) &&
              (r.Err? ==> DictOutcome(spec, input.d) == Err(r.error))
    ensures input.OtherInput? ==> r == Err(UnsupportedType(input.typeName))
  {
    match input
    case NoneInput =>
      return Ok(NoneOutput), None;
    case NumberInput(n) =>
      var v := ValidateNumeric(spec, n);
      if v.Err? {
        return Err(v.error), None;
      }
      return Ok(NumberOutput(v.value)), None;
    case PropertyInput(p) =>
      var v := ValidateProperty(spec, p);
      if v.Err? {
        return Err(v.error), None;
      }
      return Ok(PropertyOutput(v.value)), None;
    case DictInput(d) =>
      var v, d' := ValidateDict(spec, d);
      if v.Err? {
        return Err(v.error), Some(d');
      }
      return Ok(PropertyOutput(v.value)), Some(d');
    case OtherInput(name) =>
      return Err(UnsupportedType(name)), None;
  }

  /** `_property_spec` (property_specification.py:197-226): always a validating spec. */
  function PropertySpec(units: Option<string>, allowBands: bool, isEnum: bool): (s: Spec)
    ensures s.isValidator
    ensures s.units == units && s.allowBands == allowBands && s.isEnum == isEnum
  {
    Spec(units, allowBands, isEnum, true)
  }

  /** `_PLEXOSPropertyFactory.__call__` (property_specification.py:237-244), with the same defaults. */
  function FactoryCall(units: Option<string>, allowBands: bool, isEnum: bool): (s: Spec)
    ensures s.isValidator && s != DefaultSpec
    ensures s.units == units && s.allowBands == allowBands && s.isEnum == isEnum
  {
    PropertySpec(units, allowBands, isEnum)
  }

  /** A spec from the factory with `allow_bands=False` rejects a multi-band property (test_property_specification.py:90-99). */
  lemma FactoryRejectsMultiBand(units: Option<string>, isEnum: bool, o: Overlay, k1: Key, k2: Key)
    requires WellFormed(o) && k1 in o.rows && k2 in o.rows && k1.band != k2.band
    ensures PropertyOutcome(FactoryCall(units, false, isEnum), o).1 == Some(MultiBand(|o.ix.byBand|))
  {
    MultiBandRejected(FactoryCall(units, false, isEnum), o, k1, k2);
  }
}
