/**
 * The entity type manager and bundle information as the commands consult them,
 * and the validators of the `entity_type_id` and `bundle` arguments.
 */
module EntityTypes {
  import opened Wrappers
  import opened CommandOptions

  /** A loaded configuration entity, with the properties the seed filter reads. */
  datatype ConfigEntity = ConfigEntity(
    bundle: Option<string>,
    entityType: Option<string>,
    targetEntityType: Option<string>,
    configDependencyName: string)

  /** An entity type definition: whether it has a `bundle` key, its group, and the
      entities its storage's `loadMultiple()` returns. */
  datatype EntityTypeDefinition = EntityTypeDefinition(
    hasBundleKey: bool,
    group: string,
    entities: seq<ConfigEntity>)

  /** The entity type manager's definitions, by entity type id. */
  type EntityTypeManager = map<string, EntityTypeDefinition>

  /** The bundle information: entity type id to its bundle names. */
  type BundleInfo = map<string, set<string>>

  /** isBundleEntity: the type has a `bundle` entity key. */
  predicate IsBundleEntity(entityType: EntityTypeDefinition) {
    entityType.hasBundleKey
  }

  /** isNotBundleEntity: a content entity type without a `bundle` key. */
  predicate IsNotBundleEntity(entityType: EntityTypeDefinition) {
    !entityType.hasBundleKey && entityType.group == "content"
  }

  /**
   * ensureEntityTypeId: NULL passes through; a given id must be defined and pass
   * `callback`, and is then returned unchanged.
   */
  function EnsureEntityTypeId(manager: EntityTypeManager, entityTypeId: Option<string>,
                              callback: EntityTypeDefinition -> bool): (r: Result<Option<string>, CommandError>)
    ensures entityTypeId.None? ==> r == Success(None)
    ensures r.Success? ==> r.value == entityTypeId
    ensures r.Success? <==> entityTypeId.None? || (entityTypeId.value in manager && callback(manager[entityTypeId.value]))
    ensures r == Failure(EntityTypeDoesNotExist) <==> entityTypeId.Some? && entityTypeId.value !in manager
    ensures r == Failure(EntityTypeNotSelectable) <==>
      entityTypeId.Some? && entityTypeId.value in manager && !callback(manager[entityTypeId.value])
  {
    if entityTypeId.None? then Success(None)
    else if entityTypeId.value !in manager then Failure(EntityTypeDoesNotExist)
    else if !callback(manager[entityTypeId.value]) then Failure(EntityTypeNotSelectable)
    else Success(entityTypeId)
  }

  /** No entity type id is accepted by both the bundle and the non-bundle command. */
  lemma CommandsAcceptDisjointEntityTypes(manager: EntityTypeManager, entityTypeId: string)
    ensures !(EnsureEntityTypeId(manager, Some(entityTypeId), IsBundleEntity).Success? &&
              EnsureEntityTypeId(manager, Some(entityTypeId), IsNotBundleEntity).Success?)
  {
  }

  /** `getBundleInfo($entity_type_id)`: no bundles for an unknown type. */
  function BundlesOf(info: BundleInfo, entityTypeId: string): set<string> {
    if entityTypeId in info then info[entityTypeId] else {}
  }

  /** ensureBundleExists: a given bundle must be one of the entity type's bundles. */
  function EnsureBundleExists(info: BundleInfo, entityTypeId: string, bundle: Option<string>): (r: Outcome<CommandError>)
    ensures r.Fail? <==> bundle.Some? && bundle.value !in BundlesOf(info, entityTypeId)
    ensures r.Fail? ==> r.error == BundleDoesNotExist
  {
    if bundle.None? then Pass
    else if bundle.value !in BundlesOf(info, entityTypeId) then Fail(BundleDoesNotExist)
    else Pass
  }
}
