/**
 * Type checking of a config node's values against the setting's definition
 * (_config_def_check_node_single_value and _config_def_check_node_value in
 * lib/config/config.c).
 *
 * Whether a string is a boolean literal is decided by libdm
 * (dm_config_value_is_bool), which is not part of this model: `isBool` stands
 * for it.
 */
module NodeCheck {
  import opened ConfigValues

  /** The outcome of checking one value; the rejections are the messages the source logs. */
  datatype Verdict =
    | Accepted
    | WrongType(found: CfgType)   // "has invalid type. Found …"
    | EmptyNotAllowed             // "Empty value not allowed."
    | NotBoolean                  // "Found string value …, expected boolean value"

  /**
   * Reference reading of a definition type: which values a single declared
   * type bit can hold.  An array type holds the empty array only with
   * CFG_ALLOW_EMPTY; a boolean holds integers and boolean literals.
   */
  predicate Holds(t: CfgType, v: Value, flags: set<CfgFlag>, isBool: string -> bool) {
    match t
    case Section => false
    case Array => v == EmptyArray && AllowEmpty in flags
    case Bool => v.IntV? || (v.StrV? && isBool(v.s))
    case Int => v.IntV?
    case Float => v.FloatV?
    case String => v.StrV?
  }

  /** Some declared type holds the value. */
  predicate Held(v: Value, types: set<CfgType>, flags: set<CfgFlag>, isBool: string -> bool) {
    exists t | t in types :: Holds(t, v, flags, isBool)
  }

  /**
   * _config_def_check_node_single_value.  A value is accepted only when one
   * of the declared types holds it; the one departure from "some declared
   * type holds it" is that a boolean definition rejects every string that is
   * not a boolean literal, even if it also declares the string type.
   */
  function CheckSingleValue(v: Value, types: set<CfgType>, flags: set<CfgFlag>, isBool: string -> bool): (r: Verdict)
    ensures r.Accepted? ==> Held(v, types, flags, isBool)
    ensures Held(v, types, flags, isBool) && !(v.StrV? && Bool in types && !isBool(v.s)) ==>
              r.Accepted?
    ensures r.WrongType? ==> r.found == KindOf(v) && r.found !in types
    ensures r.EmptyNotAllowed? ==> v == EmptyArray && Array in types && AllowEmpty !in flags
    ensures r.NotBoolean? ==> v.StrV? && Bool in types && !isBool(v.s)
  {
    match v
    case EmptyArray =>
      if Array !in types then WrongType(Array)
      else if AllowEmpty !in flags then EmptyNotAllowed
      else Accepted
    case IntV(_) =>
      if Int !in types && Bool !in types then WrongType(Int)
      else Accepted
    case FloatV(_) =>
      if Float !in types then WrongType(Float)
      else Accepted
    case StrV(s) =>
      if Bool in types then (if isBool(s) then Accepted else NotBoolean)
      else if String !in types then WrongType(String)
      else Accepted
  }

  /**
   * Reference for a whole node: a node without values must be declared as a
   * section and nothing else, several values need the array type, and each
   * value must pass the single-value check.
   */
  predicate NodeValuesOk(values: seq<Value>, types: set<CfgType>, flags: set<CfgFlag>, isBool: string -> bool) {
    if |values| == 0 then types == {Section}
    else
      && (|values| > 1 ==> Array in types)
      && forall j | 0 <= j < |values| :: CheckSingleValue(values[j], types, flags, isBool).Accepted?
  }

  /**
   * _config_def_check_node_value: the value list (empty for a section node)
   * is walked until the first value that fails.
   */
  method CheckNodeValue(values: seq<Value>, types: set<CfgType>, flags: set<CfgFlag>, isBool: string -> bool)
    returns (ok: bool)
    ensures ok <==> NodeValuesOk(values, types, flags, isBool)
  {
    if |values| == 0 {
      return types == {Section};
    }
    if |values| > 1 && Array !in types {
      return false;
    }
    var i := 0;
    while i < |values|
      invariant 0 <= i <= |values|
      invariant forall j | 0 <= j < i :: CheckSingleValue(values[j], types, flags, isBool).Accepted?
    {
      if !CheckSingleValue(values[i], types, flags, isBool).Accepted? {
        return false;
      }
      i := i + 1;
    }
    return true;
  }

  /** Every value of an accepted node is held by one of the declared types. */
  lemma {:induction false} AcceptedNodeValuesHeld(values: seq<Value>, types: set<CfgType>, flags: set<CfgFlag>, isBool: string -> bool)
    requires NodeValuesOk(values, types, flags, isBool)
    ensures forall j | 0 <= j < |values| :: Held(values[j], types, flags, isBool)
  {
    forall j | 0 <= j < |values|
      ensures Held(values[j], types, flags, isBool)
    {
      assert CheckSingleValue(values[j], types, flags, isBool).Accepted?;
    }
  }
}
