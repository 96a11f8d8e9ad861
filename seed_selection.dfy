/**
 * doExportEntityConfig: pick the configuration entities tied to an entity type
 * (and bundle) and export each of them with its dependencies.
 */
module SeedSelection {
  import opened Wrappers
  import opened ConfigData
  import opened CommandOptions
  import opened Storage
  import opened EntityTypes
  import opened ConfigExport

  /** The configuration entity types searched, in this order. */
  const ConfigEntityTypeIds: seq<string> :=
    ["entity_form_display", "entity_view_display", "field_config", "base_field_override"]

  /** `entity_type ?? targetEntityType`. */
  function TargetEntityType(entity: ConfigEntity): Option<string> {
    if entity.entityType.Some? then entity.entityType else entity.targetEntityType
  }

  /** The seed filter of doExportEntityConfig. */
  predicate IsSeed(entity: ConfigEntity, entityTypeId: string, bundle: Option<string>) {
    && (bundle.None? || entity.bundle == bundle)
    && TargetEntityType(entity) == Some(entityTypeId)
  }

  /** The configuration names of the seeds among `entities`, in their order. */
  function SeedsOf(entities: seq<ConfigEntity>, entityTypeId: string, bundle: Option<string>): seq<string> {
    if entities == [] then []
    else
      var last := entities[|entities| - 1];
      SeedsOf(entities[..|entities| - 1], entityTypeId, bundle)
        + (if IsSeed(last, entityTypeId, bundle) then [last.configDependencyName] else [])
  }

  /** The seeds of one configuration entity type; none when the type is not defined. */
  function SeedsOfType(manager: EntityTypeManager, typeId: string, entityTypeId: string, bundle: Option<string>): seq<string> {
    if typeId in manager then SeedsOf(manager[typeId].entities, entityTypeId, bundle) else []
  }

  /** The seeds of each configuration entity type of `typeIds`, type by type. */
  function SeedsOfTypes(manager: EntityTypeManager, typeIds: seq<string>, entityTypeId: string, bundle: Option<string>): seq<string> {
    if typeIds == [] then []
    else
      SeedsOfTypes(manager, typeIds[..|typeIds| - 1], entityTypeId, bundle)
        + SeedsOfType(manager, typeIds[|typeIds| - 1], entityTypeId, bundle)
  }

  /** The configuration names doExportEntityConfig exports, in order. */
  function Seeds(manager: EntityTypeManager, entityTypeId: string, bundle: Option<string>): seq<string> {
    SeedsOfTypes(manager, ConfigEntityTypeIds, entityTypeId, bundle)
  }

  /** Seeds are taken type by type, in the fixed order of ConfigEntityTypeIds. */
  lemma SeedsInTypeOrder(manager: EntityTypeManager, entityTypeId: string, bundle: Option<string>)
    ensures Seeds(manager, entityTypeId, bundle)
         == SeedsOfType(manager, "entity_form_display", entityTypeId, bundle)
          + SeedsOfType(manager, "entity_view_display", entityTypeId, bundle)
          + SeedsOfType(manager, "field_config", entityTypeId, bundle)
          + SeedsOfType(manager, "base_field_override", entityTypeId, bundle)
  {
    var ids1: seq<string> := ["entity_form_display"];
    var ids2 := ids1 + ["entity_view_display"];
    var ids3 := ids2 + ["field_config"];
    var ids4 := ids3 + ["base_field_override"];
    assert ids4 == ConfigEntityTypeIds;
    assert ids4[..3] == ids3 && ids3[..2] == ids2 && ids2[..1] == ids1 && ids1[..0] == [];
    assert SeedsOfTypes(manager, ids1, entityTypeId, bundle)
        == SeedsOfType(manager, "entity_form_display", entityTypeId, bundle);
    assert SeedsOfTypes(manager, ids2, entityTypeId, bundle)
        == SeedsOfTypes(manager, ids1, entityTypeId, bundle) + SeedsOfType(manager, "entity_view_display", entityTypeId, bundle);
    assert SeedsOfTypes(manager, ids3, entityTypeId, bundle)
        == SeedsOfTypes(manager, ids2, entityTypeId, bundle) + SeedsOfType(manager, "field_config", entityTypeId, bundle);
    assert SeedsOfTypes(manager, ids4, entityTypeId, bundle)
        == SeedsOfTypes(manager, ids3, entityTypeId, bundle) + SeedsOfType(manager, "base_field_override", entityTypeId, bundle);
  }

  lemma {:induction false} SeedsOfMembers(entities: seq<ConfigEntity>, entityTypeId: string, bundle: Option<string>, x: string)
    ensures x in SeedsOf(entities, entityTypeId, bundle) <==>
      exists j :: 0 <= j < |entities| && IsSeed(entities[j], entityTypeId, bundle) && entities[j].configDependencyName == x
    decreases |entities|
  {
    if entities != [] {
      var prefix := entities[..|entities| - 1];
      SeedsOfMembers(prefix, entityTypeId, bundle, x);
      assert forall j :: 0 <= j < |prefix| ==> prefix[j] == entities[j];
    }
  }

  lemma {:induction false} SeedsOfTypesMembers(manager: EntityTypeManager, typeIds: seq<string>, entityTypeId: string,
                                               bundle: Option<string>, x: string)
    ensures x in SeedsOfTypes(manager, typeIds, entityTypeId, bundle) <==>
      exists t :: 0 <= t < |typeIds| && x in SeedsOfType(manager, typeIds[t], entityTypeId, bundle)
    decreases |typeIds|
  {
    if typeIds != [] {
      var prefix := typeIds[..|typeIds| - 1];
      SeedsOfTypesMembers(manager, prefix, entityTypeId, bundle, x);
      assert forall t :: 0 <= t < |prefix| ==> prefix[t] == typeIds[t];
    }
  }

  /**
   * Seed selection rule: a name is exported as a seed iff some loaded entity of a
   * defined type among ConfigEntityTypeIds passes the filter and has that
   * configuration name.
   */
  lemma SeedSelectionRule(manager: EntityTypeManager, entityTypeId: string, bundle: Option<string>, x: string)
    ensures x in Seeds(manager, entityTypeId, bundle) <==>
      exists t, j :: 0 <= t < |ConfigEntityTypeIds| && ConfigEntityTypeIds[t] in manager &&
        0 <= j < |manager[ConfigEntityTypeIds[t]].entities| &&
        IsSeed(manager[ConfigEntityTypeIds[t]].entities[j], entityTypeId, bundle) &&
        manager[ConfigEntityTypeIds[t]].entities[j].configDependencyName == x
  {
    SeedsOfTypesMembers(manager, ConfigEntityTypeIds, entityTypeId, bundle, x);
    forall t | 0 <= t < |ConfigEntityTypeIds| && ConfigEntityTypeIds[t] in manager {
      SeedsOfMembers(manager[ConfigEntityTypeIds[t]].entities, entityTypeId, bundle, x);
    }
  }

  lemma SeedsOfSnoc(entities: seq<ConfigEntity>, j: nat, entityTypeId: string, bundle: Option<string>)
    requires j < |entities|
    ensures SeedsOf(entities[..j + 1], entityTypeId, bundle)
         == SeedsOf(entities[..j], entityTypeId, bundle)
          + (if IsSeed(entities[j], entityTypeId, bundle) then [entities[j].configDependencyName] else [])
  {
    assert entities[..j + 1][..j] == entities[..j];
  }

  lemma SeedsOfTypesSnoc(manager: EntityTypeManager, typeIds: seq<string>, t: nat, entityTypeId: string, bundle: Option<string>)
    requires t < |typeIds|
    ensures SeedsOfTypes(manager, typeIds[..t + 1], entityTypeId, bundle)
         == SeedsOfTypes(manager, typeIds[..t], entityTypeId, bundle) + SeedsOfType(manager, typeIds[t], entityTypeId, bundle)
  {
    assert typeIds[..t + 1][..t] == typeIds[..t];
  }

  /** A filtered entity of a searched type is a seed. */
  lemma SelectedEntityIsSeed(manager: EntityTypeManager, entityTypeId: string, bundle: Option<string>, t: nat, j: nat)
    requires t < |ConfigEntityTypeIds| && ConfigEntityTypeIds[t] in manager
    requires j < |manager[ConfigEntityTypeIds[t]].entities|
    requires IsSeed(manager[ConfigEntityTypeIds[t]].entities[j], entityTypeId, bundle)
    ensures manager[ConfigEntityTypeIds[t]].entities[j].configDependencyName in Seeds(manager, entityTypeId, bundle)
  {
    SeedSelectionRule(manager, entityTypeId, bundle, manager[ConfigEntityTypeIds[t]].entities[j].configDependencyName);
  }

  /** The body of the inner loop of doExportEntityConfig: export one loaded entity if it passes the filter. */
  method ExportIfSeed(store: Store, destination: FileStorage, entity: ConfigEntity,
                      entityTypeId: string, bundle: Option<string>, options: Options, ghost rank: Rank)
    requires IsSeed(entity, entityTypeId, bundle) ==> Exportable(store, rank, entity.configDependencyName)
    modifies destination
    ensures destination.log == old(destination.log)
      + (if IsSeed(entity, entityTypeId, bundle) then ExportLog(store, rank, entity.configDependencyName, options) else [])
  {
    if bundle.None? || entity.bundle == bundle {
      var entityType := if entity.entityType.Some? then entity.entityType else entity.targetEntityType;
      if entityType == Some(entityTypeId) {
        DoExportConfig(store, destination, entity.configDependencyName, options, rank);
        return;
      }
    }
    assert destination.log == old(destination.log) + [];
  }

  /** One step of the inner loop on the specification side: the seeds and the writes grow by the next entity's. */
  lemma SeedsOfStep(store: Store, rank: Rank, entities: seq<ConfigEntity>, j: nat,
                    entityTypeId: string, bundle: Option<string>, options: Options)
    requires j < |entities|
    requires AllExportable(store, rank, SeedsOf(entities[..j], entityTypeId, bundle))
    requires IsSeed(entities[j], entityTypeId, bundle) ==> Exportable(store, rank, entities[j].configDependencyName)
    ensures AllExportable(store, rank, SeedsOf(entities[..j + 1], entityTypeId, bundle))
    ensures ExportAllLog(store, rank, SeedsOf(entities[..j + 1], entityTypeId, bundle), options)
         == ExportAllLog(store, rank, SeedsOf(entities[..j], entityTypeId, bundle), options)
          + (if IsSeed(entities[j], entityTypeId, bundle)
             then ExportLog(store, rank, entities[j].configDependencyName, options) else [])
  {
    SeedsOfSnoc(entities, j, entityTypeId, bundle);
    var exported := SeedsOf(entities[..j], entityTypeId, bundle);
    if IsSeed(entities[j], entityTypeId, bundle) {
      ExportAllLogAppend(store, rank, exported, entities[j].configDependencyName, options);
    } else {
      assert SeedsOf(entities[..j + 1], entityTypeId, bundle) == exported + [] == exported;
    }
  }

  /** The inner loop of doExportEntityConfig: export each seed among the loaded entities of one type. */
  method ExportSeedsOf(store: Store, destination: FileStorage, entities: seq<ConfigEntity>,
                       entityTypeId: string, bundle: Option<string>, options: Options, ghost rank: Rank)
    requires forall j :: 0 <= j < |entities| && IsSeed(entities[j], entityTypeId, bundle) ==>
      Exportable(store, rank, entities[j].configDependencyName)
    modifies destination
    ensures AllExportable(store, rank, SeedsOf(entities, entityTypeId, bundle))
    ensures destination.log == old(destination.log) + ExportAllLog(store, rank, SeedsOf(entities, entityTypeId, bundle), options)
  {
    ghost var exported: seq<string> := [];
    var j := 0;
    assert entities[..0] == [];
    while j < |entities|
      invariant 0 <= j <= |entities|
      invariant exported == SeedsOf(entities[..j], entityTypeId, bundle)
      invariant AllExportable(store, rank, exported)
      invariant destination.log == old(destination.log) + ExportAllLog(store, rank, exported, options)
    {
      var entity := entities[j];
      ghost var before := destination.log;
      ExportIfSeed(store, destination, entity, entityTypeId, bundle, options, rank);
      SeedsOfStep(store, rank, entities, j, entityTypeId, bundle, options);
      LogStep(old(destination.log), before, destination.log, ExportAllLog(store, rank, exported, options),
              if IsSeed(entity, entityTypeId, bundle) then ExportLog(store, rank, entity.configDependencyName, options) else []);
      exported := SeedsOf(entities[..j + 1], entityTypeId, bundle);
      j := j + 1;
    }
    assert entities[..j] == entities;
  }

  lemma SelectedEntitiesExportable(store: Store, rank: Rank, manager: EntityTypeManager,
                                   entityTypeId: string, bundle: Option<string>, t: nat)
    requires AllExportable(store, rank, Seeds(manager, entityTypeId, bundle))
    requires t < |ConfigEntityTypeIds| && ConfigEntityTypeIds[t] in manager
    ensures var entities := manager[ConfigEntityTypeIds[t]].entities;
      forall j :: 0 <= j < |entities| && IsSeed(entities[j], entityTypeId, bundle) ==>
        Exportable(store, rank, entities[j].configDependencyName)
  {
    var entities := manager[ConfigEntityTypeIds[t]].entities;
    forall j | 0 <= j < |entities| && IsSeed(entities[j], entityTypeId, bundle)
      ensures Exportable(store, rank, entities[j].configDependencyName)
    {
      SelectedEntityIsSeed(manager, entityTypeId, bundle, t, j);
      var seeds := Seeds(manager, entityTypeId, bundle);
      var i :| 0 <= i < |seeds| && seeds[i] == entities[j].configDependencyName;
    }
  }

  /** One pass of the outer loop of doExportEntityConfig: the seeds of one configuration entity type, if it is defined. */
  method ExportSeedsOfType(store: Store, manager: EntityTypeManager, destination: FileStorage, t: nat,
                           entityTypeId: string, bundle: Option<string>, options: Options, ghost rank: Rank)
    requires AllExportable(store, rank, Seeds(manager, entityTypeId, bundle))
    requires t < |ConfigEntityTypeIds|
    modifies destination
    ensures AllExportable(store, rank, SeedsOfType(manager, ConfigEntityTypeIds[t], entityTypeId, bundle))
    ensures destination.log
         == old(destination.log) + ExportAllLog(store, rank, SeedsOfType(manager, ConfigEntityTypeIds[t], entityTypeId, bundle), options)
  {
    var typeId := ConfigEntityTypeIds[t];
    if typeId in manager {
      SelectedEntitiesExportable(store, rank, manager, entityTypeId, bundle, t);
      ExportSeedsOf(store, destination, manager[typeId].entities, entityTypeId, bundle, options, rank);
    } else {
      assert SeedsOfType(manager, typeId, entityTypeId, bundle) == [];
      assert destination.log == old(destination.log) + [];
    }
  }

  /**
   * doExportEntityConfig over the destination storage opened on the chosen path.
   * Every seed must be exportable (present, with its dependencies, and acyclic).
   */
  method DoExportEntityConfig(store: Store, manager: EntityTypeManager, destination: FileStorage,
                              entityTypeId: string, bundle: Option<string>, options: Options, ghost rank: Rank)
    requires AllExportable(store, rank, Seeds(manager, entityTypeId, bundle))
    modifies destination
    ensures destination.log == old(destination.log) + ExportAllLog(store, rank, Seeds(manager, entityTypeId, bundle), options)
  {
    ghost var exported: seq<string> := [];
    var t := 0;
    while t < |ConfigEntityTypeIds|
      invariant 0 <= t <= |ConfigEntityTypeIds|
      invariant exported == SeedsOfTypes(manager, ConfigEntityTypeIds[..t], entityTypeId, bundle)
      invariant AllExportable(store, rank, exported)
      invariant destination.log == old(destination.log) + ExportAllLog(store, rank, exported, options)
    {
      SeedsOfTypesSnoc(manager, ConfigEntityTypeIds, t, entityTypeId, bundle);
      ghost var seeds := SeedsOfType(manager, ConfigEntityTypeIds[t], entityTypeId, bundle);
      ghost var before := destination.log;
      ExportSeedsOfType(store, manager, destination, t, entityTypeId, bundle, options, rank);
      ExportAllLogConcat(store, rank, exported, seeds, options);
      LogStep(old(destination.log), before, destination.log,
              ExportAllLog(store, rank, exported, options), ExportAllLog(store, rank, seeds, options));
      exported := exported + seeds;
      t := t + 1;
    }
    assert ConfigEntityTypeIds[..t] == ConfigEntityTypeIds;
  }

  /**
   * doExportEntityConfig from the opening of the destination: a FileStorage on a
   * directory holding `existing` ends up holding those files, overwritten by the
   * redacted data of every name in the closures of the seeds.
   */
  method ExportEntityConfigToDirectory(store: Store, manager: EntityTypeManager, existing: map<string, Data>,
                                       entityTypeId: string, bundle: Option<string>, options: Options, ghost rank: Rank)
    returns (destination: FileStorage)
    requires AllExportable(store, rank, Seeds(manager, entityTypeId, bundle))
    ensures destination.Files()
         == existing + RedactedFiles(store, ClosureOfAll(store, Seeds(manager, entityTypeId, bundle)), options)
  {
    destination := new FileStorage(existing);
    DoExportEntityConfig(store, manager, destination, entityTypeId, bundle, options, rank);
    ghost var seeds := Seeds(manager, entityTypeId, bundle);
    assert destination.log == ExportAllLog(store, rank, seeds, options);
    ExportAllFiles(store, rank, seeds, options, existing);
  }
}
