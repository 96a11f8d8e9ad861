/**
 * Small worked examples over any store of the given shape: a chain exported
 * dependency-first, a diamond whose shared dependency is written once per path
 * reaching it, and the redaction of one object.
 */
module ExportExamples {
  import opened ConfigData
  import opened CommandOptions
  import opened Redaction
  import opened Storage
  import opened ConfigExport

  /** The order of the names written. */
  function WrittenNames(log: seq<WriteOp>): (names: seq<string>)
    ensures |names| == |log| && forall i :: 0 <= i < |log| ==> names[i] == log[i].name
  {
    if log == [] then [] else WrittenNames(log[..|log| - 1]) + [log[|log| - 1].name]
  }

  /** `name` is stored and declares exactly `deps`. */
  predicate Declares(store: Store, name: string, deps: seq<string>) {
    name in store && WellFormedDependencies(store[name]) && Dependencies(store[name]) == deps
  }

  /** The write of `name`'s own redacted data. */
  function Own(store: Store, name: string, options: Options): WriteOp
    requires name in store
  {
    WriteOp(name, Redact(store[name], options))
  }

  /** A name without dependencies is exported by its own write alone. */
  lemma ExportLeaf(store: Store, rank: Rank, x: string, options: Options)
    requires Exportable(store, rank, x) && Declares(store, x, [])
    ensures ExportLog(store, rank, x, options) == [Own(store, x, options)]
  {
    ExportLogUnfold(store, rank, x, options);
  }

  /** A name with one dependency is exported after that dependency's export. */
  lemma ExportOne(store: Store, rank: Rank, x: string, y: string, options: Options)
    requires Exportable(store, rank, x) && Declares(store, x, [y])
    ensures Exportable(store, rank, y)
    ensures ExportLog(store, rank, x, options) == ExportLog(store, rank, y, options) + [Own(store, x, options)]
  {
    ExportLogUnfold(store, rank, x, options);
    assert [y][0] == y;
    ExportAllLogAppend(store, rank, [], y, options);
    assert [] + [y] == [y];
  }

  /** A name with two dependencies is exported after their exports, in order. */
  lemma ExportTwo(store: Store, rank: Rank, x: string, y: string, z: string, options: Options)
    requires Exportable(store, rank, x) && Declares(store, x, [y, z])
    ensures Exportable(store, rank, y) && Exportable(store, rank, z)
    ensures ExportLog(store, rank, x, options)
         == ExportLog(store, rank, y, options) + ExportLog(store, rank, z, options) + [Own(store, x, options)]
  {
    ExportLogUnfold(store, rank, x, options);
    assert [y, z][0] == y && [y, z][1] == z;
    assert [y, z][..1] == [y] && [y][..0] == [];
    assert ExportAllLog(store, rank, [y], options) == ExportLog(store, rank, y, options);
  }

  /** With A depending on B, B on C and C on nothing, exporting A writes C, B, A in that order. */
  lemma ChainIsExportedDependencyFirst(store: Store, rank: Rank, a: string, b: string, c: string, options: Options)
    requires Exportable(store, rank, a)
    requires Declares(store, a, [b]) && Declares(store, b, [c]) && Declares(store, c, [])
    ensures WrittenNames(ExportLog(store, rank, a, options)) == [c, b, a]
  {
    ExportOne(store, rank, a, b, options);
    ExportOne(store, rank, b, c, options);
    ExportLeaf(store, rank, c, options);
  }

  /** A depends on B and C, both depend on D, and D on nothing. */
  predicate Diamond(store: Store, a: string, b: string, c: string, d: string) {
    Declares(store, a, [b, c]) && Declares(store, b, [d]) && Declares(store, c, [d]) && Declares(store, d, [])
  }

  /** The writes of exporting a diamond: D, B, D again, C, then A. */
  lemma DiamondLog(store: Store, rank: Rank, a: string, b: string, c: string, d: string, options: Options)
    requires Exportable(store, rank, a) && Diamond(store, a, b, c, d)
    ensures ExportLog(store, rank, a, options)
         == ([Own(store, d, options)] + [Own(store, b, options)])
          + ([Own(store, d, options)] + [Own(store, c, options)])
          + [Own(store, a, options)]
  {
    ExportTwo(store, rank, a, b, c, options);
    ExportOne(store, rank, b, d, options);
    ExportOne(store, rank, c, d, options);
    ExportLeaf(store, rank, d, options);
  }

  /** There is no visited set: exporting A writes D twice, once per path to it. */
  lemma DiamondWritesSharedDependencyTwice(store: Store, rank: Rank, a: string, b: string, c: string, d: string, options: Options)
    requires Exportable(store, rank, a) && Diamond(store, a, b, c, d)
    ensures WrittenNames(ExportLog(store, rank, a, options)) == [d, b, d, c, a]
  {
    DiamondLog(store, rank, a, b, c, d, options);
  }

  /**
   * The repeated write of D is harmless: exporting the diamond into an empty
   * directory leaves one file for each of the four objects, with its redacted data.
   */
  lemma DiamondFilesAreDeduplicated(store: Store, rank: Rank, a: string, b: string, c: string, d: string, options: Options)
    requires Exportable(store, rank, a) && Diamond(store, a, b, c, d)
    ensures Replay(map[], ExportLog(store, rank, a, options)) == RedactedFiles(store, {a, b, c, d}, options)
  {
    DiamondWritesSharedDependencyTwice(store, rank, a, b, c, d, options);
    DiamondNames(ExportLog(store, rank, a, options), a, b, c, d);
    ExportWritesExactlyTheClosure(store, rank, a, options);
    ExportedFiles(store, rank, a, options, map[]);
    EmptyMerge(RedactedFiles(store, {a, b, c, d}, options));
  }

  lemma DiamondNames(log: seq<WriteOp>, a: string, b: string, c: string, d: string)
    requires WrittenNames(log) == [d, b, d, c, a]
    ensures Names(log) == {a, b, c, d}
  {
    assert log[0].name == d && log[1].name == b && log[3].name == c && log[4].name == a;
  }

  lemma EmptyMerge(m: map<string, Data>)
    ensures map[] + m == m
  {
  }

  /**
   * With both redactions, an object carrying a uuid, a `_core` holding only the
   * hash, and an empty dependency list is written without `uuid` and `_core`.
   */
  lemma RedactsUuidAndEmptyCore()
    ensures var data := map["uuid" := Str("abc-123"),
                            "_core" := Dict(map["default_config_hash" := Str("xyz")]),
                            "dependencies" := Dict(map["config" := List([])])];
      Redaction.Redact(data, Options(Wrappers.None, Wrappers.None, true, true))
        == map["dependencies" := Dict(map["config" := List([])])]
  {
    var data := map["uuid" := Str("abc-123"),
                    "_core" := Dict(map["default_config_hash" := Str("xyz")]),
                    "dependencies" := Dict(map["config" := List([])])];
    var core := map["default_config_hash" := Str("xyz")];
    assert core - {"default_config_hash"} == map[];
  }
}
