/**
 * `apply_action` (utils_parser.py:4-30): how a PLEXOS action combines a base
 * value with a new one.  Values are exact reals; a `/` by zero does not fail
 * but falls through to the new value, as any unrecognised action does.
 */
module Actions {
  import opened Wrappers

  /** The actions that combine rather than replace. */
  predicate Combines(action: Option<string>) {
    action == Some("*") || action == Some("+") || action == Some("-") || action == Some("/")
  }

  function ApplyAction(baseValue: real, newValue: real, action: Option<string>): (r: real)
    ensures action == Some("*") ==> r == baseValue * newValue
    ensures action == Some("+") ==> r == baseValue + newValue
    ensures action == Some("-") ==> r == baseValue - newValue
    ensures action == Some("/") && newValue != 0.0 ==> r == baseValue / newValue
    ensures action == Some("/") && newValue == 0.0 ==> r == newValue
    ensures !Combines(action) ==> r == newValue
  {
    if action == Some("*") then baseValue * newValue
    else if action == Some("+") then baseValue + newValue
    else if action == Some("-") then baseValue - newValue
    else if action == Some("/") && newValue != 0.0 then baseValue / newValue
    else newValue
  }

  /** `=`, None and any other action ignore the base: the result depends only on the new value. */
  lemma ReplaceIgnoresBase(b1: real, b2: real, newValue: real, action: Option<string>)
    requires !Combines(action) || (action == Some("/") && newValue == 0.0)
    ensures ApplyAction(b1, newValue, action) == ApplyAction(b2, newValue, action) == newValue
  {
  }

  /** `-` undoes `+` and `+` undoes `-`. */
  lemma AddSubtractInverse(baseValue: real, newValue: real)
    ensures ApplyAction(ApplyAction(baseValue, newValue, Some("+")), newValue, Some("-")) == baseValue
    ensures ApplyAction(ApplyAction(baseValue, newValue, Some("-")), newValue, Some("+")) == baseValue
  {
  }

  /** With a non-zero new value, `/` undoes `*` and `*` undoes `/`. */
  lemma MultiplyDivideInverse(baseValue: real, newValue: real)
    requires newValue != 0.0
    ensures ApplyAction(ApplyAction(baseValue, newValue, Some("*")), newValue, Some("/")) == baseValue
    ensures ApplyAction(ApplyAction(baseValue, newValue, Some("/")), newValue, Some("*")) == baseValue
  {
  }

  /** Every combining action tells two different bases apart, unless it multiplies or divides by zero. */
  lemma CombineSeesBase(b1: real, b2: real, newValue: real, action: Option<string>)
    requires Combines(action) && b1 != b2
    requires action == Some("*") || action == Some("/") ==> newValue != 0.0
    ensures ApplyAction(b1, newValue, action) != ApplyAction(b2, newValue, action)
  {
    if action == Some("/") {
      assert (b1 / newValue) * newValue == b1 && (b2 / newValue) * newValue == b2;
    }
  }
}
