/**
 * The ambient scenario priority of context.py: one module-level variable
 * (context.py:8), its getter and setter (context.py:11-33), and the
 * `scenario_priority` block that installs a priority for its body and
 * reinstates the previous one on the way out (context.py:36-65).  The
 * module global is the field of a `PriorityContext` object; the block is
 * split into its entry and its exit, and the body's outcome is a parameter.
 */
module Context {
  import opened Wrappers
  import opened Resolution

  /** How the body of a `with scenario_priority(...)` block ended. */
  datatype Outcome = Completed | Raised(error: string)

  class PriorityContext {
    /** `_current_scenario_priority`. */
    var current: Option<Priority>

    /** The module as first imported: no priority is set (context.py:8). */
    constructor ()
      ensures current == None
    {
      current := None;
    }

    /** `get_scenario_priority()` (context.py:11-20). */
    method GetScenarioPriority() returns (p: Option<Priority>)
      ensures p == current
    {
      p := current;
    }

    /** `set_scenario_priority(priority)` (context.py:23-33): nothing else changes. */
    method SetScenarioPriority(p: Option<Priority>)
      modifies this
      ensures current == p
    {
      current := p;
    }

    /** Entering `scenario_priority(p)` (context.py:60-61): remember the current priority, then install `p`. */
    method Enter(p: Priority) returns (previous: Option<Priority>)
      modifies this
      ensures previous == old(current)
      ensures current == Some(p)
    {
      previous := GetScenarioPriority();
      SetScenarioPriority(Some(p));
    }

    /** Leaving the block through `finally` (context.py:64-65), whether the body completed or raised. */
    method Exit(previous: Option<Priority>)
      modifies this
      ensures current == previous
    {
      SetScenarioPriority(previous);
    }

    /**
     * A whole `with scenario_priority(p):` block whose body reads the
     * priority once and may itself set another one before it ends with
     * `outcome`: the body sees `p`, the outcome (an exception included)
     * passes through unchanged, and the priority from before the block is
     * back afterwards.
     */
    method Scoped(p: Priority, bodySets: Option<Option<Priority>>, outcome: Outcome)
      returns (seen: Option<Priority>, result: Outcome)
      modifies this
      ensures seen == Some(p)
      ensures result == outcome
      ensures current == old(current)
    {
      var previous := Enter(p);
      seen := GetScenarioPriority();
      if bodySets.Some? {
        SetScenarioPriority(bodySets.value);
      }
      result := outcome;
      Exit(previous);
    }

    /**
     * Two nested blocks: inside the inner one its priority wins, after the
     * inner one exits the outer priority is back, and after both the
     * original one is.
     */
    method Nested(outer: Priority, inner: Priority)
      returns (inOuter: Option<Priority>, inInner: Option<Priority>, afterInner: Option<Priority>)
      modifies this
      ensures inOuter == Some(outer)
      ensures inInner == Some(inner)
      ensures afterInner == Some(outer)
      ensures current == old(current)
    {
      var savedOuter := Enter(outer);
      inOuter := GetScenarioPriority();
      var savedInner := Enter(inner);
      inInner := GetScenarioPriority();
      Exit(savedInner);
      afterInner := GetScenarioPriority();
      Exit(savedOuter);
    }
  }

  /** A client of the context: set, then get, returns what was set. */
  method SetThenGet(ctx: PriorityContext, p: Option<Priority>) returns (q: Option<Priority>)
    modifies ctx
    ensures q == p
    ensures ctx.current == p
  {
    ctx.SetScenarioPriority(p);
    q := ctx.GetScenarioPriority();
  }
}
