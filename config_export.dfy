/**
 * doExportConfig: export one configuration object and, before it, everything it
 * declares under `dependencies.config`, recursively and without a visited set.
 */
module ConfigExport {
  import opened ConfigData
  import opened CommandOptions
  import opened Redaction
  import opened Storage

  /** The active configuration storage: configuration name to data. */
  type Store = map<string, Data>

  /** A ranking of configuration names that decreases along dependency edges. */
  type Rank = map<string, nat>

  /**
   * `name` and every name it reaches are present in the store with a well-formed
   * dependency list, and the rank strictly decreases along every edge reached. The
   * export reads names without checking for them and has no visited set, so it
   * only terminates, and only reads real data, under this condition.
   */
  predicate Exportable(store: Store, rank: Rank, name: string)
    decreases if name in rank then rank[name] else 0
  {
    && name in store
    && name in rank
    && WellFormedDependencies(store[name])
    && var deps := Dependencies(store[name]);
       forall i :: 0 <= i < |deps| ==>
         deps[i] in rank && rank[deps[i]] < rank[name] && Exportable(store, rank, deps[i])
  }

  predicate AllExportable(store: Store, rank: Rank, names: seq<string>) {
    forall i :: 0 <= i < |names| ==> Exportable(store, rank, names[i])
  }

  /** A number above the rank of every name in `names`. */
  function RankBound(rank: Rank, names: seq<string>): (b: nat)
    requires forall i :: 0 <= i < |names| ==> names[i] in rank
    ensures forall i :: 0 <= i < |names| ==> rank[names[i]] < b
  {
    if names == [] then 0
    else
      var prefix := RankBound(rank, names[..|names| - 1]);
      var last := rank[names[|names| - 1]] + 1;
      if prefix < last then last else prefix
  }

  lemma {:induction false} RankBoundAtMost(rank: Rank, names: seq<string>, n: nat)
    requires forall i :: 0 <= i < |names| ==> names[i] in rank && rank[names[i]] < n
    ensures RankBound(rank, names) <= n
  {
    if names != [] {
      RankBoundAtMost(rank, names[..|names| - 1], n);
    }
  }

  /** The writes `doExportConfig(name)` performs, in order. */
  function ExportLog(store: Store, rank: Rank, name: string, options: Options): seq<WriteOp>
    requires Exportable(store, rank, name)
    decreases rank[name], 1, 0
  {
    var deps := Dependencies(store[name]);
    RankBoundAtMost(rank, deps, rank[name]);
    ExportAllLog(store, rank, deps, options) + [WriteOp(name, Redact(store[name], options))]
  }

  /** The writes of exporting each of `names` in turn. */
  function ExportAllLog(store: Store, rank: Rank, names: seq<string>, options: Options): seq<WriteOp>
    requires AllExportable(store, rank, names)
    decreases RankBound(rank, names), 0, |names|
  {
    if names == [] then []
    else
      ExportAllLog(store, rank, names[..|names| - 1], options)
        + ExportLog(store, rank, names[|names| - 1], options)
  }

  lemma ExportableDependencies(store: Store, rank: Rank, name: string)
    requires Exportable(store, rank, name)
    ensures AllExportable(store, rank, Dependencies(store[name]))
    ensures forall i :: 0 <= i < |Dependencies(store[name])| ==>
      rank[Dependencies(store[name])[i]] < rank[name]
  {
  }

  /** Exporting a name is exporting its dependencies, then writing its redacted data. */
  lemma ExportLogUnfold(store: Store, rank: Rank, name: string, options: Options)
    requires Exportable(store, rank, name)
    ensures AllExportable(store, rank, Dependencies(store[name]))
    ensures ExportLog(store, rank, name, options)
         == ExportAllLog(store, rank, Dependencies(store[name]), options) + [WriteOp(name, Redact(store[name], options))]
  {
  }

  /** Exporting one more name of a list appends that name's writes. */
  lemma ExportAllLogSnoc(store: Store, rank: Rank, names: seq<string>, i: nat, options: Options)
    requires AllExportable(store, rank, names) && i < |names|
    ensures AllExportable(store, rank, names[..i])
    ensures ExportAllLog(store, rank, names[..i + 1], options)
         == ExportAllLog(store, rank, names[..i], options) + ExportLog(store, rank, names[i], options)
  {
    assert names[..i + 1][..i] == names[..i];
  }

  /** The in-place `unset` steps of doExportConfig on the local copy of the data. */
  method UnsetKeys(configData: Data, options: Options) returns (redacted: Data)
    ensures redacted == Redact(configData, options)
  {
    redacted := configData;
    if options.unsetUuid {
      redacted := redacted - {"uuid"};
    }
    if options.unsetConfigHash {
      if "_core" in redacted && redacted["_core"].Dict? {
        redacted := redacted["_core" := Dict(redacted["_core"].entries - {"default_config_hash"})];
      }
      if "_core" in redacted && IsEmptyArray(redacted["_core"]) {
        redacted := redacted - {"_core"};
      }
    }
  }

  /**
   * doExportConfig. Reads the object, exports each declared dependency in order,
   * applies the redactions to its local copy and writes it.
   */
  method DoExportConfig(store: Store, destination: FileStorage, configName: string, options: Options, ghost rank: Rank)
    requires Exportable(store, rank, configName)
    modifies destination
    ensures destination.log == old(destination.log) + ExportLog(store, rank, configName, options)
    decreases rank[configName]
  {
    var configData := store[configName];
    var dependencies := Dependencies(configData);
    ExportableDependencies(store, rank, configName);
    var i := 0;
    while i < |dependencies|
      invariant 0 <= i <= |dependencies|
      invariant destination.log == old(destination.log) + ExportAllLog(store, rank, dependencies[..i], options)
    {
      ExportAllLogSnoc(store, rank, dependencies, i, options);
      ghost var before := destination.log;
      DoExportConfig(store, destination, dependencies[i], options, rank);
      LogStep(old(destination.log), before, destination.log,
              ExportAllLog(store, rank, dependencies[..i], options), ExportLog(store, rank, dependencies[i], options));
      i := i + 1;
    }
    assert dependencies[..i] == dependencies;
    configData := UnsetKeys(configData, options);
    ghost var before := destination.log;
    destination.Write(configName, configData);
    ExportLogUnfold(store, rank, configName, options);
    LogStep(old(destination.log), before, destination.log,
            ExportAllLog(store, rank, dependencies, options), [WriteOp(configName, configData)]);
  }

  // ----- What every write stores -----

  /** Each write stores the redacted data of a name of the store. */
  predicate WritesRedacted(store: Store, options: Options, log: seq<WriteOp>) {
    forall k :: 0 <= k < |log| ==> log[k].name in store && log[k].data == Redact(store[log[k].name], options)
  }

  /** Each written name is ranked below `bound`. */
  predicate RankedBelow(rank: Rank, log: seq<WriteOp>, bound: nat) {
    forall k :: 0 <= k < |log| ==> log[k].name in rank && rank[log[k].name] < bound
  }

  /** Each written name is exportable: stored, with well-formed dependencies, acyclic. */
  predicate WritesExportable(store: Store, rank: Rank, log: seq<WriteOp>) {
    forall k :: 0 <= k < |log| ==> Exportable(store, rank, log[k].name)
  }

  /**
   * The last write of exporting `name` is its own, with its redacted data; every
   * write stores the redacted data of the name it writes, and that name is
   * exportable; every write before the last is of a name ranked strictly below `name`.
   */
  lemma {:induction false} ExportLogWrites(store: Store, rank: Rank, name: string, options: Options)
    requires Exportable(store, rank, name)
    ensures var log := ExportLog(store, rank, name, options);
      && |log| > 0
      && log[|log| - 1] == WriteOp(name, Redact(store[name], options))
      && WritesRedacted(store, options, log)
      && WritesExportable(store, rank, log)
      && RankedBelow(rank, log[..|log| - 1], rank[name])
    decreases rank[name], 1, 0
  {
    var deps := Dependencies(store[name]);
    RankBoundAtMost(rank, deps, rank[name]);
    ExportAllLogWrites(store, rank, deps, options);
    ExportLogUnfold(store, rank, name, options);
    WritesSnoc(store, rank, options, ExportAllLog(store, rank, deps, options), WriteOp(name, Redact(store[name], options)));
  }

  lemma WritesSnoc(store: Store, rank: Rank, options: Options, a: seq<WriteOp>, w: WriteOp)
    requires WritesRedacted(store, options, a) && WritesExportable(store, rank, a)
    requires w.name in store && w.data == Redact(store[w.name], options) && Exportable(store, rank, w.name)
    ensures WritesRedacted(store, options, a + [w]) && WritesExportable(store, rank, a + [w])
    ensures (a + [w])[..|a|] == a && (a + [w])[|a|] == w
  {
    assert forall k :: 0 <= k < |a| ==> (a + [w])[k] == a[k];
  }

  lemma WritesConcat(store: Store, rank: Rank, options: Options, a: seq<WriteOp>, b: seq<WriteOp>, bound: nat)
    requires WritesRedacted(store, options, a) && WritesRedacted(store, options, b)
    requires RankedBelow(rank, a, bound) && |b| > 0 && RankedBelow(rank, b[..|b| - 1], bound)
    requires b[|b| - 1].name in rank && rank[b[|b| - 1].name] < bound
    requires WritesExportable(store, rank, a) && WritesExportable(store, rank, b)
    ensures WritesRedacted(store, options, a + b) && RankedBelow(rank, a + b, bound)
    ensures WritesExportable(store, rank, a + b)
  {
    forall k | 0 <= k < |a + b|
      ensures (a + b)[k].name in store && (a + b)[k].data == Redact(store[(a + b)[k].name], options)
      ensures (a + b)[k].name in rank && rank[(a + b)[k].name] < bound
      ensures Exportable(store, rank, (a + b)[k].name)
    {
      if k < |a| {
        assert (a + b)[k] == a[k];
      } else if k < |a + b| - 1 {
        assert (a + b)[k] == b[..|b| - 1][k - |a|];
      } else {
        assert (a + b)[k] == b[|b| - 1];
      }
    }
  }

  /** The list version of ExportLogWrites. */
  lemma {:induction false} ExportAllLogWrites(store: Store, rank: Rank, names: seq<string>, options: Options)
    requires AllExportable(store, rank, names)
    ensures WritesRedacted(store, options, ExportAllLog(store, rank, names, options))
    ensures RankedBelow(rank, ExportAllLog(store, rank, names, options), RankBound(rank, names))
    ensures WritesExportable(store, rank, ExportAllLog(store, rank, names, options))
    decreases RankBound(rank, names), 0, |names|
  {
    if names != [] {
      var prefix := names[..|names| - 1];
      var last := names[|names| - 1];
      ExportAllLogWrites(store, rank, prefix, options);
      ExportLogWrites(store, rank, last, options);
      var a := ExportAllLog(store, rank, prefix, options);
      var b := ExportLog(store, rank, last, options);
      WritesConcat(store, rank, options, a, b, RankBound(rank, names));
    }
  }

  /** Exporting `name` writes `name` exactly once, as its last write. */
  lemma ExportWritesOwnNameOnceLast(store: Store, rank: Rank, name: string, options: Options)
    requires Exportable(store, rank, name)
    ensures var log := ExportLog(store, rank, name, options);
      && |log| > 0
      && log[|log| - 1] == WriteOp(name, Redact(store[name], options))
      && forall k :: 0 <= k < |log| - 1 ==> log[k].name != name
  {
    ExportLogWrites(store, rank, name, options);
    RankedBelowExcludes(rank, ExportLog(store, rank, name, options), name);
  }

  /** A name ranked below `name` is not `name`. */
  lemma RankedBelowExcludes(rank: Rank, log: seq<WriteOp>, name: string)
    requires |log| > 0 && name in rank && RankedBelow(rank, log[..|log| - 1], rank[name])
    ensures forall k :: 0 <= k < |log| - 1 ==> log[k].name != name
  {
    assert forall k :: 0 <= k < |log| - 1 ==> log[..|log| - 1][k] == log[k];
  }

  // ----- Postorder -----

  /** `name` is written somewhere before position `j`. */
  predicate WrittenBefore(log: seq<WriteOp>, name: string, j: int) {
    exists k :: 0 <= k < j <= |log| && log[k].name == name
  }

  /** Every write comes after a write of each dependency its object declares. */
  predicate DependenciesFirst(store: Store, log: seq<WriteOp>) {
    forall j :: 0 <= j < |log| && log[j].name in store && WellFormedDependencies(store[log[j].name]) ==>
      forall d :: d in Dependencies(store[log[j].name]) ==> WrittenBefore(log, d, j)
  }

  lemma DependenciesFirstConcat(store: Store, a: seq<WriteOp>, b: seq<WriteOp>)
    requires DependenciesFirst(store, a) && DependenciesFirst(store, b)
    ensures DependenciesFirst(store, a + b)
  {
    var ab := a + b;
    forall j, d | 0 <= j < |ab| && ab[j].name in store && WellFormedDependencies(store[ab[j].name])
                  && d in Dependencies(store[ab[j].name])
      ensures WrittenBefore(ab, d, j)
    {
      if j < |a| {
        assert ab[j] == a[j];
        var k :| 0 <= k < j && a[k].name == d;
        assert ab[k] == a[k];
      } else {
        assert ab[j] == b[j - |a|];
        var k :| 0 <= k < j - |a| && b[k].name == d;
        assert ab[|a| + k] == b[k];
      }
    }
  }

  /** The writes of one name of a list are among the writes of the whole list. */
  lemma {:induction false} ExportAllLogIncludes(store: Store, rank: Rank, names: seq<string>, i: nat, options: Options)
    requires AllExportable(store, rank, names) && i < |names|
    ensures Names(ExportLog(store, rank, names[i], options)) <= Names(ExportAllLog(store, rank, names, options))
    decreases |names|
  {
    var prefix := names[..|names| - 1];
    NamesConcat(ExportAllLog(store, rank, prefix, options), ExportLog(store, rank, names[|names| - 1], options));
    if i < |names| - 1 {
      ExportAllLogIncludes(store, rank, prefix, i, options);
    }
  }

  /** Every write of a list export belongs to the export of one of its names. */
  lemma {:induction false} ExportAllLogNames(store: Store, rank: Rank, names: seq<string>, options: Options, x: string)
    requires AllExportable(store, rank, names)
    requires x in Names(ExportAllLog(store, rank, names, options))
    ensures exists i :: 0 <= i < |names| && x in Names(ExportLog(store, rank, names[i], options))
    decreases |names|
  {
    var prefix := names[..|names| - 1];
    var last := names[|names| - 1];
    NamesConcat(ExportAllLog(store, rank, prefix, options), ExportLog(store, rank, last, options));
    if x !in Names(ExportLog(store, rank, last, options)) {
      ExportAllLogNames(store, rank, prefix, options, x);
      var i :| 0 <= i < |prefix| && x in Names(ExportLog(store, rank, prefix[i], options));
      assert prefix[i] == names[i];
    }
  }

  /** Appending a write whose dependencies are all already written keeps the postorder. */
  lemma DependenciesFirstSnoc(store: Store, log: seq<WriteOp>, w: WriteOp)
    requires DependenciesFirst(store, log)
    requires w.name in store && WellFormedDependencies(store[w.name])
    requires forall d :: d in Dependencies(store[w.name]) ==> d in Names(log)
    ensures DependenciesFirst(store, log + [w])
  {
    var ext := log + [w];
    forall j, d | 0 <= j < |ext| && ext[j].name in store && WellFormedDependencies(store[ext[j].name])
                  && d in Dependencies(store[ext[j].name])
      ensures WrittenBefore(ext, d, j)
    {
      var k :| 0 <= k < (if j < |log| then j else |log|) && log[k].name == d;
      assert ext[k] == log[k];
    }
  }

  /** Each declared dependency of a list is written by the list's export. */
  lemma ExportAllLogWritesEachName(store: Store, rank: Rank, names: seq<string>, options: Options)
    requires AllExportable(store, rank, names)
    ensures forall d :: d in names ==> d in Names(ExportAllLog(store, rank, names, options))
  {
    forall d | d in names ensures d in Names(ExportAllLog(store, rank, names, options)) {
      var i :| 0 <= i < |names| && names[i] == d;
      ExportAllLogIncludes(store, rank, names, i, options);
      ExportLogWrites(store, rank, d, options);
      var own := ExportLog(store, rank, d, options);
      assert own[|own| - 1].name == d;
    }
  }

  /**
   * Postorder: in the writes of exporting `name`, every write of a name comes
   * after a write of each of that name's declared dependencies.
   */
  lemma {:induction false} ExportLogDependenciesFirst(store: Store, rank: Rank, name: string, options: Options)
    requires Exportable(store, rank, name)
    ensures DependenciesFirst(store, ExportLog(store, rank, name, options))
    decreases rank[name], 1, 0
  {
    var deps := Dependencies(store[name]);
    RankBoundAtMost(rank, deps, rank[name]);
    ExportAllLogDependenciesFirst(store, rank, deps, options);
    ExportAllLogWritesEachName(store, rank, deps, options);
    DependenciesFirstSnoc(store, ExportAllLog(store, rank, deps, options), WriteOp(name, Redact(store[name], options)));
  }

  /** The list version of ExportLogDependenciesFirst. */
  lemma {:induction false} ExportAllLogDependenciesFirst(store: Store, rank: Rank, names: seq<string>, options: Options)
    requires AllExportable(store, rank, names)
    ensures DependenciesFirst(store, ExportAllLog(store, rank, names, options))
    decreases RankBound(rank, names), 0, |names|
  {
    if names != [] {
      var prefix := names[..|names| - 1];
      ExportAllLogDependenciesFirst(store, rank, prefix, options);
      ExportLogDependenciesFirst(store, rank, names[|names| - 1], options);
      DependenciesFirstConcat(store, ExportAllLog(store, rank, prefix, options),
                              ExportLog(store, rank, names[|names| - 1], options));
    }
  }

  // ----- Closure -----

  /** A chain of configuration names, each declared as a dependency of the one before. */
  ghost predicate IsPath(store: Store, p: seq<string>)
    decreases |p|
  {
    && |p| > 0
    && (|p| > 1 ==>
         && p[0] in store && WellFormedDependencies(store[p[0]]) && p[1] in Dependencies(store[p[0]])
         && IsPath(store, p[1..]))
  }

  /** `target` is in the transitive closure of `source` under `dependencies.config`. */
  ghost predicate Reachable(store: Store, source: string, target: string) {
    exists p :: IsPath(store, p) && p[0] == source && p[|p| - 1] == target
  }

  /** The transitive closure of `source` (including `source` itself). */
  ghost function Closure(store: Store, source: string): set<string> {
    set x | x in store && Reachable(store, source, x)
  }

  /** A path extends backwards along a declared dependency. */
  lemma PathCons(store: Store, name: string, p: seq<string>)
    requires IsPath(store, p)
    requires name in store && WellFormedDependencies(store[name]) && p[0] in Dependencies(store[name])
    ensures IsPath(store, [name] + p)
    ensures ([name] + p)[0] == name && ([name] + p)[|p|] == p[|p| - 1]
  {
    assert ([name] + p)[1..] == p;
  }

  /** What a declared dependency reaches, its dependent reaches too. */
  lemma ReachableThroughDependency(store: Store, name: string, d: string, x: string)
    requires name in store && WellFormedDependencies(store[name]) && d in Dependencies(store[name])
    requires Reachable(store, d, x)
    ensures Reachable(store, name, x)
  {
    var p :| IsPath(store, p) && p[0] == d && p[|p| - 1] == x;
    PathCons(store, name, p);
    var q := [name] + p;
    assert IsPath(store, q) && q[0] == name && q[|q| - 1] == x;
  }

  lemma {:induction false} WrittenIsReachable(store: Store, rank: Rank, name: string, options: Options, x: string)
    requires Exportable(store, rank, name)
    requires x in Names(ExportLog(store, rank, name, options))
    ensures Reachable(store, name, x)
    decreases rank[name]
  {
    var deps := Dependencies(store[name]);
    RankBoundAtMost(rank, deps, rank[name]);
    var own := WriteOp(name, Redact(store[name], options));
    NamesConcat(ExportAllLog(store, rank, deps, options), [own]);
    NamesSingleton(own);
    if x == name {
      assert IsPath(store, [name]);
    } else {
      ExportAllLogNames(store, rank, deps, options, x);
      var i :| 0 <= i < |deps| && x in Names(ExportLog(store, rank, deps[i], options));
      WrittenIsReachable(store, rank, deps[i], options, x);
      ReachableThroughDependency(store, name, deps[i], x);
    }
  }

  lemma {:induction false} ReachableIsWritten(store: Store, rank: Rank, name: string, options: Options, p: seq<string>)
    requires Exportable(store, rank, name)
    requires IsPath(store, p) && p[0] == name
    ensures p[|p| - 1] in Names(ExportLog(store, rank, name, options))
    decreases |p|
  {
    var deps := Dependencies(store[name]);
    RankBoundAtMost(rank, deps, rank[name]);
    var own := WriteOp(name, Redact(store[name], options));
    NamesConcat(ExportAllLog(store, rank, deps, options), [own]);
    NamesSingleton(own);
    if |p| > 1 {
      var j :| 0 <= j < |deps| && deps[j] == p[1];
      var rest := p[1..];
      assert rest[0] == p[1] && rest[|rest| - 1] == p[|p| - 1];
      ReachableIsWritten(store, rank, p[1], options, rest);
      ExportAllLogIncludes(store, rank, deps, j, options);
    }
  }

  /**
   * Closure only: the names written by exporting `name` are exactly the transitive
   * closure of `name` under the declared configuration dependencies.
   */
  lemma ExportWritesExactlyTheClosure(store: Store, rank: Rank, name: string, options: Options)
    requires Exportable(store, rank, name)
    ensures Names(ExportLog(store, rank, name, options)) == Closure(store, name)
  {
    ExportLogWrites(store, rank, name, options);
    var log := ExportLog(store, rank, name, options);
    forall x | x in Names(log) ensures x in Closure(store, name) {
      WrittenIsReachable(store, rank, name, options, x);
    }
    forall x | x in Closure(store, name) ensures x in Names(log) {
      var p :| IsPath(store, p) && p[0] == name && p[|p| - 1] == x;
      ReachableIsWritten(store, rank, name, options, p);
    }
  }

  // ----- Final destination contents -----

  /** The files a deduplicated export of `names` would leave: each name once, redacted. */
  function RedactedFiles(store: Store, names: set<string>, options: Options): map<string, Data> {
    map x | x in names && x in store :: Redact(store[x], options)
  }

  lemma RedactedFilesInsert(store: Store, names: set<string>, options: Options, n: string)
    requires n in store
    ensures RedactedFiles(store, names + {n}, options)
         == RedactedFiles(store, names, options)[n := Redact(store[n], options)]
  {
  }

  lemma MergeUpdate(base: map<string, Data>, m: map<string, Data>, k: string, v: Data)
    ensures (base + m)[k := v] == base + m[k := v]
  {
  }

  lemma {:induction false} ReplayRedactedWrites(base: map<string, Data>, store: Store, options: Options, log: seq<WriteOp>)
    requires WritesRedacted(store, options, log)
    ensures Replay(base, log) == base + RedactedFiles(store, Names(log), options)
    decreases |log|
  {
    if log != [] {
      var prefix := log[..|log| - 1];
      var last := log[|log| - 1];
      assert WritesRedacted(store, options, prefix);
      ReplayRedactedWrites(base, store, options, prefix);
      assert Names(log) == Names(prefix) + {last.name};
      RedactedFilesInsert(store, Names(prefix), options, last.name);
      MergeUpdate(base, RedactedFiles(store, Names(prefix), options), last.name, last.data);
    }
  }

  /**
   * Repeated writes are harmless: whatever the number of paths to a shared
   * dependency, the files after exporting `name` are the files before, overwritten
   * by the redacted data of each name of the closure.
   */
  lemma ExportedFiles(store: Store, rank: Rank, name: string, options: Options, base: map<string, Data>)
    requires Exportable(store, rank, name)
    ensures Replay(base, ExportLog(store, rank, name, options))
         == base + RedactedFiles(store, Closure(store, name), options)
  {
    ExportLogWrites(store, rank, name, options);
    ReplayRedactedWrites(base, store, options, ExportLog(store, rank, name, options));
    ExportWritesExactlyTheClosure(store, rank, name, options);
  }

  lemma AllExportableConcat(store: Store, rank: Rank, a: seq<string>, b: seq<string>)
    requires AllExportable(store, rank, a) && AllExportable(store, rank, b)
    ensures AllExportable(store, rank, a + b)
  {
    forall i | 0 <= i < |a + b| ensures Exportable(store, rank, (a + b)[i]) {
      if i >= |a| { assert (a + b)[i] == b[i - |a|]; }
    }
  }

  lemma ConcatSnoc(a: seq<string>, b: seq<string>)
    requires b != []
    ensures a + b == (a + b[..|b| - 1]) + [b[|b| - 1]]
  {
    assert b == b[..|b| - 1] + [b[|b| - 1]];
  }

  /** Exporting a list is exporting its two parts one after the other. */
  lemma {:induction false} ExportAllLogConcat(store: Store, rank: Rank, a: seq<string>, b: seq<string>, options: Options)
    requires AllExportable(store, rank, a) && AllExportable(store, rank, b)
    ensures AllExportable(store, rank, a + b)
    ensures ExportAllLog(store, rank, a + b, options)
         == ExportAllLog(store, rank, a, options) + ExportAllLog(store, rank, b, options)
    decreases |b|
  {
    AllExportableConcat(store, rank, a, b);
    if b == [] {
      assert a + b == a;
    } else {
      var prefix, last := b[..|b| - 1], b[|b| - 1];
      assert AllExportable(store, rank, prefix);
      ExportAllLogConcat(store, rank, a, prefix, options);
      ConcatSnoc(a, b);
      ExportAllLogAppend(store, rank, a + prefix, last, options);
      LogStep(ExportAllLog(store, rank, a, options), ExportAllLog(store, rank, a + prefix, options),
              ExportAllLog(store, rank, a + b, options), ExportAllLog(store, rank, prefix, options),
              ExportLog(store, rank, last, options));
    }
  }

  /** Exporting one more name appends that name's writes. */
  lemma ExportAllLogAppend(store: Store, rank: Rank, names: seq<string>, name: string, options: Options)
    requires AllExportable(store, rank, names) && Exportable(store, rank, name)
    ensures AllExportable(store, rank, names + [name])
    ensures ExportAllLog(store, rank, names + [name], options)
         == ExportAllLog(store, rank, names, options) + ExportLog(store, rank, name, options)
  {
    assert (names + [name])[..|names|] == names;
  }

  /** The union of the closures of `names`. */
  ghost function ClosureOfAll(store: Store, names: seq<string>): set<string> {
    set x | x in store && exists i :: 0 <= i < |names| && Reachable(store, names[i], x)
  }

  /** Exporting a list of names writes exactly the union of their closures. */
  lemma ExportAllWritesExactlyTheClosures(store: Store, rank: Rank, names: seq<string>, options: Options)
    requires AllExportable(store, rank, names)
    ensures Names(ExportAllLog(store, rank, names, options)) == ClosureOfAll(store, names)
  {
    var log := ExportAllLog(store, rank, names, options);
    ExportAllLogWrites(store, rank, names, options);
    forall x | x in Names(log) ensures x in ClosureOfAll(store, names) {
      ExportAllLogNames(store, rank, names, options, x);
      var i :| 0 <= i < |names| && x in Names(ExportLog(store, rank, names[i], options));
      ExportWritesExactlyTheClosure(store, rank, names[i], options);
    }
    forall x | x in ClosureOfAll(store, names) ensures x in Names(log) {
      var i :| 0 <= i < |names| && Reachable(store, names[i], x);
      ExportWritesExactlyTheClosure(store, rank, names[i], options);
      ExportAllLogIncludes(store, rank, names, i, options);
    }
  }

  /** The files after exporting a list of names: each name of their closures, once, redacted. */
  lemma ExportAllFiles(store: Store, rank: Rank, names: seq<string>, options: Options, base: map<string, Data>)
    requires AllExportable(store, rank, names)
    ensures Replay(base, ExportAllLog(store, rank, names, options))
         == base + RedactedFiles(store, ClosureOfAll(store, names), options)
  {
    ExportAllLogWrites(store, rank, names, options);
    ReplayRedactedWrites(base, store, options, ExportAllLog(store, rank, names, options));
    ExportAllWritesExactlyTheClosures(store, rank, names, options);
  }
}
