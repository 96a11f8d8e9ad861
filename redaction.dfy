/**
 * The two optional redactions applied to a configuration object just before it
 * is written: `--unset-uuid` and `--unset-config-hash`.
 */
module Redaction {
  import opened ConfigData
  import opened CommandOptions

  /** The data still carries `_core.default_config_hash`. */
  predicate HasConfigHash(d: Data) {
    "_core" in d && d["_core"].Dict? && "default_config_hash" in d["_core"].entries
  }

  /** `unset($data['_core']['default_config_hash'])`, then drop `_core` if it is the
      empty array. A `_core` that is null or a scalar is left alone. */
  function UnsetConfigHash(d: Data): Data {
    if "_core" !in d then d
    else match d["_core"]
      case Dict(entries) =>
        var rest := entries - {"default_config_hash"};
        if rest == map[] then d - {"_core"} else d["_core" := Dict(rest)]
      case List(items) =>
        if items == [] then d - {"_core"} else d
      case _ => d
  }

  /** The data written for a configuration object under the given options. */
  function Redact(d: Data, options: Options): (r: Data)
    ensures r.Keys <= d.Keys
    ensures forall k :: k in d && k != "uuid" && k != "_core" ==> k in r && r[k] == d[k]
    ensures options.unsetUuid ==> "uuid" !in r
    ensures !options.unsetUuid && "uuid" in d ==> "uuid" in r && r["uuid"] == d["uuid"]
    ensures options.unsetConfigHash ==> !HasConfigHash(r)
    ensures options.unsetConfigHash ==> !("_core" in r && IsEmptyArray(r["_core"]))
    ensures options.unsetConfigHash && "_core" in d && d["_core"].Dict? &&
            d["_core"].entries - {"default_config_hash"} != map[] ==>
      "_core" in r && r["_core"] == Dict(d["_core"].entries - {"default_config_hash"})
    ensures options.unsetConfigHash && "_core" in d &&
            (IsEmptyArray(d["_core"]) || (d["_core"].Dict? && d["_core"].entries - {"default_config_hash"} == map[])) ==>
      "_core" !in r
    ensures options.unsetConfigHash && "_core" in d && !d["_core"].Dict? && !IsEmptyArray(d["_core"]) ==>
      "_core" in r && r["_core"] == d["_core"]
    ensures !options.unsetConfigHash && "_core" in d ==> "_core" in r && r["_core"] == d["_core"]
    ensures !options.unsetUuid && !options.unsetConfigHash ==> r == d
  {
    var withoutUuid := if options.unsetUuid then d - {"uuid"} else d;
    if options.unsetConfigHash then UnsetConfigHash(withoutUuid) else withoutUuid
  }

  /** Redacting data that is already redacted changes nothing. */
  lemma RedactIdempotent(d: Data, options: Options)
    ensures Redact(Redact(d, options), options) == Redact(d, options)
  {
    var r := Redact(d, options);
    if options.unsetUuid {
      assert r - {"uuid"} == r;
    }
    if options.unsetConfigHash {
      UnsetConfigHashNoOp(r);
    }
  }

  /** Data with no config hash and no empty `_core` is a fixed point of UnsetConfigHash. */
  lemma UnsetConfigHashNoOp(d: Data)
    requires !HasConfigHash(d) && !("_core" in d && IsEmptyArray(d["_core"]))
    ensures UnsetConfigHash(d) == d
  {
    if "_core" in d && d["_core"].Dict? {
      var entries := d["_core"].entries;
      assert entries - {"default_config_hash"} == entries;
      assert d["_core" := Dict(entries)] == d;
    }
  }
}
