/**
 * The data of a configuration object as the active configuration storage returns
 * it: a PHP array decoded from YAML, keyed by strings at the top level.
 */
module ConfigData {

  /** One value inside a configuration object. A PHP array is a Dict when it has
      string keys and a List when it is a plain sequence. */
  datatype Value =
    | Null
    | Bool(b: bool)
    | Int(i: int)
    | Str(s: string)
    | List(items: seq<Value>)
    | Dict(entries: map<string, Value>)

  /** The top-level array of a configuration object. */
  type Data = map<string, Value>

  /** PHP's `$v === []`: both an empty sequence and an empty mapping are the empty array. */
  predicate IsEmptyArray(v: Value) {
    v == List([]) || v == Dict(map[])
  }

  /** `$data['dependencies']['config']`, Null where PHP's `??` would fall back. */
  function DependencyValue(d: Data): Value {
    if "dependencies" in d && d["dependencies"].Dict? && "config" in d["dependencies"].entries
    then d["dependencies"].entries["config"]
    else Null
  }

  /** The configuration schema's shape for `dependencies.config`: absent, null, the
      empty array in either form, or a sequence of configuration names. */
  predicate WellFormedDependencies(d: Data) {
    var v := DependencyValue(d);
    v.Null? || IsEmptyArray(v) || (v.List? && forall i :: 0 <= i < |v.items| ==> v.items[i].Str?)
  }

  /** The declared configuration dependencies, in declaration order; `?? []` makes a
      missing list empty. */
  function Dependencies(d: Data): (deps: seq<string>)
    requires WellFormedDependencies(d)
    ensures DependencyValue(d).Null? || IsEmptyArray(DependencyValue(d)) ==> deps == []
    ensures DependencyValue(d).List? ==>
      |deps| == |DependencyValue(d).items| &&
      forall i :: 0 <= i < |deps| ==> DependencyValue(d).items[i] == Str(deps[i])
  {
    var v := DependencyValue(d);
    if v.Null? || v.Dict? then [] else Strings(v.items)
  }

  /** The strings of a sequence of string values, in order. */
  function Strings(items: seq<Value>): (strs: seq<string>)
    requires forall i :: 0 <= i < |items| ==> items[i].Str?
    ensures |strs| == |items| && forall i :: 0 <= i < |items| ==> items[i] == Str(strs[i])
  {
    if items == [] then [] else [items[0].s] + Strings(items[1..])
  }

  /** A configuration object without a `dependencies.config` entry declares no dependencies. */
  lemma MissingDependencyListIsEmpty(d: Data)
    requires "dependencies" !in d || !d["dependencies"].Dict? || "config" !in d["dependencies"].entries
    ensures WellFormedDependencies(d) && Dependencies(d) == []
  {
  }
}
