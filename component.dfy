/**
 * `PLEXOSComponent.__getattribute__` (component.py:19-29): reading a model
 * field that holds a property value resolves it with `get_value()` under the
 * ambient scenario priority; any other attribute is returned as stored; a
 * name the object does not have raises.  The horizon, which the source reads
 * from a context not part of this model, is a parameter.
 */
module Components {
  import opened Wrappers
  import opened Records
  import opened Overlays
  import opened Resolution
  import opened PropertyValues
  import opened Context

  /** What an attribute holds: a plain Python value or a property value object. */
  datatype Attribute = Plain(value: Datum) | Property(prop: PropertyValue)

  /** A component's attributes, and the names its class declares as model fields (`cls.model_fields`). */
  datatype Component = Component(attributes: map<string, Attribute>, modelFields: set<string>)

  /** What a read returns: the stored attribute, or the value a property resolved to. */
  datatype Read = Raw(attribute: Attribute) | Resolved(value: Resolution.Resolved)

  /** `AttributeError` from `super().__getattribute__(name)`. */
  datatype AttributeError = NoAttribute(name: string)

  /** The property object a read of `name` resolves, if any: only a model field holding a property value. */
  function ResolvedBy(c: Component, name: string): set<PropertyValue> {
    if name in c.attributes && name in c.modelFields && c.attributes[name].Property? then {c.attributes[name].prop} else {}
  }

  /**
   * The read itself.  A resolved property is left exactly as it was: its
   * entries and indexes are swapped out and back in by `get_value`.
   */
  method GetAttribute(c: Component, name: string, ctx: PriorityContext, horizon: Option<Horizon>)
    returns (r: Result<Read, AttributeError>)
    requires name in c.attributes && name in c.modelFields && c.attributes[name].Property? ==> c.attributes[name].prop.Valid()
    modifies ResolvedBy(c, name)
    ensures name !in c.attributes ==> r == Err(NoAttribute(name))
    ensures name in c.attributes && name in c.modelFields && c.attributes[name].Property? ==>
              var p := c.attributes[name].prop;
              r == Ok(Resolved(Resolution.GetValue(old(p.View()), ctx.current, horizon))) &&
              p.Valid() && p.View() == old(p.View())
    ensures name in c.attributes && !(name in c.modelFields && c.attributes[name].Property?) ==>
              r == Ok(Raw(c.attributes[name]))
    ensures name in c.attributes && name !in c.modelFields && c.attributes[name].Property? ==>
              c.attributes[name].prop.View() == old(c.attributes[name].prop.View())
  {
    if name !in c.attributes {
      return Err(NoAttribute(name));
    }
    var value := c.attributes[name];
    if name in c.modelFields && value.Property? {
      var priority := ctx.GetScenarioPriority();
      var v := value.prop.GetValue(priority, horizon);
      return Ok(Resolved(v));
    }
    return Ok(Raw(value));
  }

  /**
   * Reading a property field inside `with scenario_priority(p):` resolves it
   * under `p`, and both the property and the ambient priority are as before
   * once the block is left.
   */
  method ReadInScope(c: Component, name: string, ctx: PriorityContext, p: Priority, horizon: Option<Horizon>)
    returns (r: Result<Read, AttributeError>)
    requires name in c.attributes && name in c.modelFields && c.attributes[name].Property?
    requires c.attributes[name].prop.Valid()
    modifies ctx, c.attributes[name].prop
    ensures r == Ok(Resolved(Resolution.GetValue(old(c.attributes[name].prop.View()), Some(p), horizon)))
    ensures c.attributes[name].prop.View() == old(c.attributes[name].prop.View())
    ensures ctx.current == old(ctx.current)
  {
    var previous := ctx.Enter(p);
    r := GetAttribute(c, name, ctx, horizon);
    ctx.Exit(previous);
  }
}
