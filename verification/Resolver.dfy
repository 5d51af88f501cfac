/** Reference resolution between plan steps (`resolve_value`): an argument
    value `"$name"` or `"$name.field"` is replaced by what an earlier step
    saved under `name`. */
module Resolver {
  import opened Wrappers
  import opened Json
  import opened PyText

  /** The exceptions `resolve_value` raises; each carries what its message names. */
  datatype ResolveError =
    | VariableNotFound(step: int, name: string, arg: string)            // KeyError
    | NullVariable(step: int, name: string, arg: string, accessed: Option<string>) // ValueError
    | NotAnObject(step: int, name: string, field: string)               // TypeError
    | FieldNotFound(step: int, name: string, field: string)             // KeyError

  /** A reference is a string that starts with `$`. */
  predicate IsReference(value: Json) {
    value.JString? && StartsWith(value.s, "$")
  }

  /** The variable a reference reads: the text after `$` up to the first `.`.
      The name is dot-free and is either all of that text or followed in it
      by a dot, which together pin it down. */
  function ReferencedName(value: Json): (r: Option<string>)
    ensures r.Some? <==> IsReference(value)
    ensures r.Some? ==> '.' !in r.value
    ensures r.Some? ==> value.s[1..] == r.value || StartsWith(value.s[1..], r.value + ".")
  {
    if !IsReference(value) then None
    else
      var ref := value.s[1..];
      match IndexOf(ref, '.')
      case Some(i) =>
        assert ref[..i] + "." == ref[..i + 1];
        Some(ref[..i])
      case None => Some(ref)
  }

  /** `$name`: the stored value, unwrapped when it is a dict whose only key
      is "result". */
  function ResolveName(name: string, variables: map<string, Json>, stepIdx: int, key: string): Result<Json, ResolveError> {
    if name !in variables then Failure(VariableNotFound(stepIdx, name, key))
    else
      var obj := variables[name];
      if obj == JNull then Failure(NullVariable(stepIdx, name, key, None))
      else if obj.JObject? && Keys(obj.fields) == {"result"} then Success(Lookup(obj.fields, "result").value)
      else Success(obj)
  }

  /** `$name.field`: the field of the stored dict, with no unwrapping. */
  function ResolveField(name: string, field: string, variables: map<string, Json>, stepIdx: int, key: string): Result<Json, ResolveError> {
    if name !in variables then Failure(VariableNotFound(stepIdx, name, key))
    else
      var obj := variables[name];
      if obj == JNull then Failure(NullVariable(stepIdx, name, key, Some(field)))
      else if !obj.JObject? then Failure(NotAnObject(stepIdx, name, field))
      else match Lookup(obj.fields, field)
        case None => Failure(FieldNotFound(stepIdx, name, field))
        case Some(v) => Success(v)
  }

  /** `resolve_value(value, variables, step_idx, key)`. A value that is not a
      reference comes back unchanged; a failure is always about a reference
      and names the step it happened in. */
  function ResolveValue(value: Json, variables: map<string, Json>, stepIdx: int, key: string): (r: Result<Json, ResolveError>)
    ensures !IsReference(value) ==> r == Success(value)
    ensures r.Failure? ==> IsReference(value) && r.error.step == stepIdx
    ensures r.Failure? && (r.error.VariableNotFound? || r.error.NullVariable?) ==> r.error.arg == key
  {
    if !IsReference(value) then Success(value)
    else
      var ref := value.s[1..];
      match IndexOf(ref, '.')
      case Some(i) => ResolveField(ref[..i], ref[i + 1..], variables, stepIdx, key)
      case None => ResolveName(ref, variables, stepIdx, key)
  }

  /** `"$name"` with no dot: KeyError when `name` is unbound, ValueError when
      it is bound to null, the inner value when it is bound to a dict whose
      key set is exactly {"result"}, and the stored value otherwise. */
  lemma PlainReference(name: string, variables: map<string, Json>, stepIdx: int, key: string)
    requires '.' !in name
    ensures var r := ResolveValue(JString("$" + name), variables, stepIdx, key);
      && (name !in variables ==> r == Failure(VariableNotFound(stepIdx, name, key)))
      && (name in variables && variables[name] == JNull ==> r == Failure(NullVariable(stepIdx, name, key, None)))
      && (name in variables && variables[name].JObject? && Keys(variables[name].fields) == {"result"} ==>
            r.Success? && ("result", r.value) in variables[name].fields)
      && (name in variables && variables[name] != JNull && !(variables[name].JObject? && Keys(variables[name].fields) == {"result"}) ==>
            r == Success(variables[name]))
  {
    var s := "$" + name;
    assert s[1..] == name;
  }

  /** `"$name.field"` splits at the FIRST dot, so `field` may itself contain
      dots and is looked up literally. The checks run in the order KeyError
      (unbound), ValueError (null), TypeError (not a dict), KeyError (no such
      field); on success the field's value comes back without unwrapping. */
  lemma FieldReference(name: string, field: string, variables: map<string, Json>, stepIdx: int, key: string)
    requires '.' !in name
    ensures var r := ResolveValue(JString("$" + name + "." + field), variables, stepIdx, key);
      && (name !in variables ==> r == Failure(VariableNotFound(stepIdx, name, key)))
      && (name in variables && variables[name] == JNull ==> r == Failure(NullVariable(stepIdx, name, key, Some(field))))
      && (name in variables && variables[name] != JNull && !variables[name].JObject? ==> r == Failure(NotAnObject(stepIdx, name, field)))
      && (name in variables && variables[name].JObject? && field !in Keys(variables[name].fields) ==>
            r == Failure(FieldNotFound(stepIdx, name, field)))
      && (name in variables && variables[name].JObject? && field in Keys(variables[name].fields) ==>
            r.Success? && (field, r.value) in variables[name].fields)
  {
    var s := "$" + name + "." + field;
    assert s[1..] == name + "." + field;
    SplitAtFirstDot(name, field);
    assert ResolveValue(JString(s), variables, stepIdx, key) == ResolveField(name, field, variables, stepIdx, key);
  }

  /** A reference body `name.field` with no dot in `name` splits right after `name`. */
  lemma SplitAtFirstDot(name: string, field: string)
    requires '.' !in name
    ensures var ref := name + "." + field;
      IndexOf(ref, '.') == Some(|name|) && ref[..|name|] == name && ref[|name| + 1..] == field
  {
    var ref := name + "." + field;
    assert ref[..|name|] == name && ref[|name| + 1..] == field;
    assert ref[|name|] == '.';
    assert forall k :: 0 <= k < |name| ==> ref[k] == name[k];
  }

  /** Resolution reads only the variable the reference names: two stores that
      agree on it resolve the value identically. */
  lemma ReadsOnlyReferencedName(value: Json, v1: map<string, Json>, v2: map<string, Json>, stepIdx: int, key: string)
    requires ReferencedName(value).Some? ==>
      var n := ReferencedName(value).value;
      (n in v1 <==> n in v2) && (n in v1 ==> v1[n] == v2[n])
    ensures ResolveValue(value, v1, stepIdx, key) == ResolveValue(value, v2, stepIdx, key)
  {
  }
}
