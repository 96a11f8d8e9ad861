# Configuration export with dependencies

This project models the core of the `config:export:entity:bundle` and
`config:export:entity:non-bundle` Drush commands. These commands are added by the Drupal module
`drush_config_export_entity`, and their core is the class `ConfigExportEntityDrushCommands`. A run picks seed configuration objects that belong to
one entity type and, optionally, one bundle. It exports each seed together with the
configuration objects it depends on, directly or transitively, into a file storage
directory. Before writing, it can redact the `uuid` key and the
`_core.default_config_hash` key.

The model is organised as follows:

- `config_data.dfy`: configuration values and the `dependencies.config` list.
- `command_options.dfy`: the command options and error kinds, and `checkPathFromOptions`.
- `redaction.dfy`: the two `unset` rules of `doExportConfig`, as the function `Redact`.
- `file_storage.dfy`: the destination `FileStorage`. It is a class whose state is its write
  log. Its contents are the replay of that log over the files it started with.
- `config_export.dfy`: `doExportConfig`.
  - It is an imperative method with the source's loop over the dependencies and its recursion.
  - It is proved against the specification function `ExportLog`, the sequence of writes
    the export performs.
  - Lemmas about `ExportLog` state postorder, the closure, and the final files.
- `entity_types.dfy`: `isBundleEntity`, `isNotBundleEntity`, `ensureEntityTypeId` and
  `ensureBundleExists`.
- `seed_selection.dfy`: `doExportEntityConfig`, with its two nested loops, and the seed
  selection rule.
- `export_examples.dfy`: worked examples over any store of a given shape. A chain, a
  diamond whose shared dependency is written twice, and the redaction of one object.

Reading the active configuration storage is a read-only map from configuration name to
data (`Store`). The recursion terminates only when dependencies are acyclic. So every
export requires `Exportable(store, rank, name)`: the name and everything it depends on
are present with well-formed dependency lists. `rank` is a ghost map that strictly
decreases along every declared dependency.

Four points of the code's behaviour shape the model:

- The code keeps no visited set. A dependency reached by several paths is read and written
  again on each of them, as in the diamond (`DiamondWritesSharedDependencyTwice`). What is deduplicated is the final
  set of files, not the writes (`ExportedFiles`).
- The redacted keys are `uuid` at the top level and `default_config_hash` inside `_core`.
  An emptied `_core` is removed too.
- The code has no unresolved-dependency error. A missing name is read as `FALSE`, and
  writing that fails with a type error. The model makes presence a precondition instead
  of modelling that failure.
- The active storage is a value the export only reads, so reads are not logged. Each call
  of `doExportConfig` reads exactly the one name it then writes
  (`src/Drush/Commands/ConfigExportEntityDrushCommands.php:341` and `:354`). The names read
  are therefore the names written, and `ExportWritesExactlyTheClosure` proves that set is the
  closure. So nothing outside the closure is read either.

## Model

| member | source | states |
|---|---|---|
| ConfigData.Dependencies | src/Drush/Commands/ConfigExportEntityDrushCommands.php:342 | a missing or null `dependencies.config`, or the empty array in either form, gives no dependencies; otherwise the dependencies are the list's strings, in order |
| ConfigData.Strings | src/Drush/Commands/ConfigExportEntityDrushCommands.php:342 | the names iterated are the list's string values, one for one and in order |
| ConfigData.MissingDependencyListIsEmpty | src/Drush/Commands/ConfigExportEntityDrushCommands.php:342 | data with no `dependencies` dict, or one without `config`, is well formed and declares no dependencies (`?? []`) |
| CommandOptions.CheckPathFromOptions | src/Drush/Commands/ConfigExportEntityDrushCommands.php:135-152 | fails exactly when both path and module are given, or only an unknown module is; neither gives no path; a path alone is returned as given; a known module alone gives its `/config/install` directory |
| Redaction.Redact | src/Drush/Commands/ConfigExportEntityDrushCommands.php:345-353 | only `uuid` and `_core` can change or disappear; with unset-uuid, no `uuid` remains; with unset-config-hash, no `_core.default_config_hash` remains, a `_core` left empty (or already empty) is removed, a non-empty `_core` keeps its other keys, and a scalar `_core` is kept; with both flags off the data is unchanged |
| Redaction.UnsetConfigHash | src/Drush/Commands/ConfigExportEntityDrushCommands.php:348-353 | the unset-config-hash step alone: removes `default_config_hash` from a `_core` mapping and drops `_core` when it is then the empty array; its properties are stated through `Redact` |
| Redaction.RedactIdempotent | src/Drush/Commands/ConfigExportEntityDrushCommands.php:345-353 | redacting already-redacted data with the same options changes nothing |
| Storage.Replay | src/Drush/Commands/ConfigExportEntityDrushCommands.php:354 | after a sequence of writes the file names are the old ones plus the written ones; a name never written keeps its old data |
| Storage.ReplayLastWriteWins | src/Drush/Commands/ConfigExportEntityDrushCommands.php:354 | a name's file holds the data of the last write of that name |
| Storage.ReplayConcat | src/Drush/Commands/ConfigExportEntityDrushCommands.php:354 | replaying two batches of writes one after the other equals replaying them together |
| Storage.FileStorage.constructor | src/Drush/Commands/ConfigExportEntityDrushCommands.php:313 | a storage opened on a directory holds the files already there and has written nothing |
| Storage.FileStorage.Write | src/Drush/Commands/ConfigExportEntityDrushCommands.php:354 | one write is appended to the log; the files become the old files with that name overwritten |
| ConfigExport.UnsetKeys | src/Drush/Commands/ConfigExportEntityDrushCommands.php:345-353 | the in-place `unset` steps produce exactly `Redact` of the data |
| ConfigExport.ExportLog | src/Drush/Commands/ConfigExportEntityDrushCommands.php:340-355 | the specification of one export: the sequence of writes, each declared dependency's export in order followed by the object's own redacted write; defined only for exportable names, and described by the lemmas below |
| ConfigExport.ExportAllLog | src/Drush/Commands/ConfigExportEntityDrushCommands.php:342-344 | the writes of exporting a list of names one after the other; described by the lemmas below |
| ConfigExport.DoExportConfig | src/Drush/Commands/ConfigExportEntityDrushCommands.php:340-355 | the destination receives exactly the writes of `ExportLog`: each dependency's export in declared order, then the object's own redacted data |
| ConfigExport.ExportLogWrites | src/Drush/Commands/ConfigExportEntityDrushCommands.php:340-355 | the last write is the object's own redacted data; every write stores the redacted data of the name it writes, and that name is exportable (stored, with well-formed dependencies), so the postorder guard holds for every write; every earlier write is of a name ranked below it |
| ConfigExport.ExportWritesOwnNameOnceLast | src/Drush/Commands/ConfigExportEntityDrushCommands.php:342-354 | exporting a name writes that name exactly once, as the final write |
| ConfigExport.ExportLogDependenciesFirst | src/Drush/Commands/ConfigExportEntityDrushCommands.php:342-354 | postorder: every write of a name comes after a write of each of that name's declared dependencies |
| ConfigExport.ExportAllLogDependenciesFirst | src/Drush/Commands/ConfigExportEntityDrushCommands.php:342-344 | the postorder property for exporting a list of names one after the other |
| ConfigExport.ExportWritesExactlyTheClosure | src/Drush/Commands/ConfigExportEntityDrushCommands.php:341-354 | the set of names written is exactly the transitive closure of the name under declared dependencies, nothing outside it |
| ConfigExport.ExportedFiles | src/Drush/Commands/ConfigExportEntityDrushCommands.php:340-355 | repeated writes are harmless: the final files equal the old files overwritten once per closure name with its redacted data |
| ConfigExport.ExportAllLogConcat | src/Drush/Commands/ConfigExportEntityDrushCommands.php:315-327 | exporting a list is exporting its two parts in sequence |
| ConfigExport.ExportAllWritesExactlyTheClosures | src/Drush/Commands/ConfigExportEntityDrushCommands.php:315-327 | exporting a list of seeds writes exactly the union of their closures |
| ConfigExport.ExportAllFiles | src/Drush/Commands/ConfigExportEntityDrushCommands.php:315-327 | the final files after exporting a list of seeds are the old files overwritten once per name of the union of closures, redacted |
| EntityTypes.IsBundleEntity | src/Drush/Commands/ConfigExportEntityDrushCommands.php:200-202 | an entity type is a bundle entity when it has a `bundle` key |
| EntityTypes.IsNotBundleEntity | src/Drush/Commands/ConfigExportEntityDrushCommands.php:213-215 | an entity type qualifies for the non-bundle command when it has no `bundle` key and its group is `content`; disjointness from the bundle check is `CommandsAcceptDisjointEntityTypes` |
| EntityTypes.EnsureEntityTypeId | src/Drush/Commands/ConfigExportEntityDrushCommands.php:232-243 | no id passes as none; an undefined id fails as nonexistent; a defined id the callback rejects fails as not selectable; otherwise the id is returned unchanged |
| EntityTypes.CommandsAcceptDisjointEntityTypes | src/Drush/Commands/ConfigExportEntityDrushCommands.php:200-215 | no entity type id passes both the `isBundleEntity` and the `isNotBundleEntity` check |
| EntityTypes.EnsureBundleExists | src/Drush/Commands/ConfigExportEntityDrushCommands.php:258-266 | fails, with the bundle error, exactly when a bundle is given and is not among the entity type's bundles |
| SeedSelection.TargetEntityType | src/Drush/Commands/ConfigExportEntityDrushCommands.php:320 | `entity_type ?? targetEntityType`: the entity's `entity_type` when set, otherwise its `targetEntityType` |
| SeedSelection.IsSeed | src/Drush/Commands/ConfigExportEntityDrushCommands.php:319-321 | the seed filter: no bundle given or the entity's bundle equals it, and the target entity type equals the chosen one; its use is stated by `SeedSelectionRule` |
| SeedSelection.ConfigEntityTypeIds | src/Drush/Commands/ConfigExportEntityDrushCommands.php:315 | the four configuration entity types searched, in the fixed order entity_form_display, entity_view_display, field_config, base_field_override |
| SeedSelection.SeedsOf | src/Drush/Commands/ConfigExportEntityDrushCommands.php:318-323 | the configuration names of the entities that pass the seed filter, in load order; its membership is `SeedsOfMembers` |
| SeedSelection.SeedsOfType | src/Drush/Commands/ConfigExportEntityDrushCommands.php:316-318 | the seeds among one configuration entity type's loaded entities, and none when the type has no definition |
| SeedSelection.SeedsOfTypes | src/Drush/Commands/ConfigExportEntityDrushCommands.php:315-326 | the seeds of a list of configuration entity types, type by type in list order; its membership is `SeedsOfTypesMembers` |
| SeedSelection.Seeds | src/Drush/Commands/ConfigExportEntityDrushCommands.php:315-326 | the configuration names of the filtered entities, type by type in the fixed order, each type's entities in load order; its membership is `SeedSelectionRule` and its type order is `SeedsInTypeOrder` |
| SeedSelection.SeedsInTypeOrder | src/Drush/Commands/ConfigExportEntityDrushCommands.php:315-318 | the seeds are those of entity_form_display, then entity_view_display, then field_config, then base_field_override |
| SeedSelection.SeedSelectionRule | src/Drush/Commands/ConfigExportEntityDrushCommands.php:315-322 | a name is a seed exactly when some loaded entity of a defined listed type matches the bundle filter, has `entity_type ?? targetEntityType` equal to the chosen type, and has that configuration name |
| SeedSelection.ExportIfSeed | src/Drush/Commands/ConfigExportEntityDrushCommands.php:319-323 | one loaded entity is exported with its dependencies exactly when it passes the seed filter; otherwise nothing is written |
| SeedSelection.ExportSeedsOf | src/Drush/Commands/ConfigExportEntityDrushCommands.php:318-325 | the inner loop exports the seeds among one type's entities, in load order, each with its dependencies |
| SeedSelection.ExportSeedsOfType | src/Drush/Commands/ConfigExportEntityDrushCommands.php:316-326 | one pass of the outer loop exports the seeds of that configuration entity type, or nothing when the type is not defined |
| SeedSelection.DoExportEntityConfig | src/Drush/Commands/ConfigExportEntityDrushCommands.php:312-328 | the destination receives exactly the exports of all seeds, in seed order |
| SeedSelection.ExportEntityConfigToDirectory | src/Drush/Commands/ConfigExportEntityDrushCommands.php:312-328 | a destination opened on a directory holding some files ends up holding those files, overwritten once per name of the union of the seeds' closures with its redacted data |
| ExportExamples.ChainIsExportedDependencyFirst | src/Drush/Commands/ConfigExportEntityDrushCommands.php:340-355 | in any store where A depends on B, B on C and C on nothing, the writes of exporting A are C, B, A |
| ExportExamples.DiamondLog | src/Drush/Commands/ConfigExportEntityDrushCommands.php:340-355 | in any store where A depends on B and C, both on D and D on nothing, the export writes D, B, D again, C, then A, each with its redacted data |
| ExportExamples.DiamondWritesSharedDependencyTwice | src/Drush/Commands/ConfigExportEntityDrushCommands.php:342-344 | the diamond's writes are D, B, D, C, A: D is written twice |
| ExportExamples.DiamondFilesAreDeduplicated | src/Drush/Commands/ConfigExportEntityDrushCommands.php:354 | despite the double write, exporting the diamond into an empty directory leaves exactly one file per object, with its redacted data |
| ExportExamples.RedactsUuidAndEmptyCore | src/Drush/Commands/ConfigExportEntityDrushCommands.php:345-353 | data with a `uuid`, a `_core` holding only the hash, and empty dependencies keeps only `dependencies` when both options are on |

## Left out

- Prompts (`promptPath`, `modulePicker`, `promptEntityType`, `promptBundle`) and the command
  entry points with their messages are interactive I/O, outside the model.
- `prepareDirectory` is left out. Its result is ignored by the code, and it only touches
  the file system.
- The chosen path string reaches the model only as the `FileStorage` the caller opens on it.
- YAML serialisation, the logger and `dt()` translation are left out.
- The entity type manager, bundle info and loaded entities are parameters given as values.
  The services behind them are left out.
- DoExportConfig: dependency cycles are not modelled. The code recurses forever on a cycle,
  so the model requires acyclicity through the ghost rank.
- DoExportConfig: a configuration name absent from the active storage is not modelled. The
  code writes `FALSE` and fails with a type error there, so the model requires presence.
- Dependencies: a `dependencies.config` that is neither missing, null, the empty array nor a
  list of strings is not modelled:
  - A mapping is iterated by its values in insertion order, which the unordered `Dict`
    cannot carry.
  - A scalar makes the `foreach` warn and skip.
  - A non-string item fails with a type error under `strict_types` (line 3).
- Redact: a `_core` that is a scalar is kept as is. In PHP 8, unsetting an offset of a
  string, integer, float or `true` `_core` throws an error; only null and false pass
  silently. The model does not include that error path.
- PHP arrays are ordered, and the model's maps are not, so key order in written data is
  not modelled.
- A failing write aborting the export is not modelled. Writes always succeed in the model.
