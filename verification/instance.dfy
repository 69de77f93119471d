/** The schema view of an ElectroDB export: attributes, facets, indexes and their
    translations, read through one `Instance` per entity or collection. */
module Instances {
  import opened Wrappers
  import opened Records
  import Sets

  /** `'pk' | 'sk'`: the role of a facet in a composite key. */
  datatype KeyType = PK | SK

  function KeyTypeText(k: KeyType): string {
    match k
    case PK => "pk"
    case SK => "sk"
  }

  datatype AttributeType = StringType | NumberType | BooleanType | AnyType | EnumType

  /** The declared type as the schema spells it. */
  function AttributeTypeText(t: AttributeType): string {
    match t
    case StringType => "string"
    case NumberType => "number"
    case BooleanType => "boolean"
    case AnyType => "any"
    case EnumType => "enum"
  }

  datatype Attribute = Attribute(attrType: AttributeType, name: string, required: bool, readOnly: bool, enumArray: seq<string>)

  datatype Facet = Facet(keyType: KeyType, name: string)

  datatype IndexKey = IndexKey(field: string, facets: seq<string>)

  /** `index` is `""` for the table's own index. */
  datatype Index = Index(index: string, pk: IndexKey, sk: Option<IndexKey>)

  datatype AccessType = EntityAccess | CollectionAccess

  function AccessTypeText(t: AccessType): string {
    match t
    case EntityAccess => "entity"
    case CollectionAccess => "collection"
  }

  /** `entity.model`: the entity name, `facets.byIndex[i].all`, `facets.fields`,
      `schema.attributes`, `indexes` and the two index/access-pattern translations. */
  datatype EntityModel = EntityModel(
    entity: string,
    byIndex: Rec<seq<Facet>>,
    fields: seq<string>,
    attributes: Rec<Attribute>,
    indexes: Rec<Index>,
    fromIndexToAccessPattern: Rec<string>,
    fromAccessPatternToIndex: Rec<string>)

  /** A service's collection: its attributes, member entities and key index (`keys`, named `keysName`). */
  datatype CollectionSchema = CollectionSchema(attributes: Rec<Attribute>, entities: Rec<EntityModel>, keys: Index, keysName: string)

  /** What a schema file exports, told apart by its `_instance.description` tag. */
  datatype Export =
    | EntityExport(model: EntityModel)
    | ServiceExport(serviceName: string, table: string, entities: Rec<Export>, collectionSchema: Rec<CollectionSchema>)
    | OtherExport(description: string)

  /** The payload an `Instance` reads: an entity's model or a collection's schema. */
  datatype Source = EntitySource(model: EntityModel) | CollectionSource(schema: CollectionSchema)

  /** The text JavaScript raises when a property of `undefined` is read. */
  function UndefinedRead(property: string): string {
    "Cannot read properties of undefined (reading '" + property + "')"
  }

  const NOT_AN_ENTITY := "Instance is not of type Service"
  const NOT_AN_INSTANCE := "File does not export instance of either Entity or Service."

  /** The facets of a collection: every partition facet tagged `PK`, then every sort facet tagged `SK`. */
  function CollectionFacets(keys: Index): seq<Facet> {
    Tagged(keys.pk.facets, PK) + (if keys.sk.Some? then Tagged(keys.sk.value.facets, SK) else [])
  }

  /** Each facet name with the same tag. */
  function Tagged(names: seq<string>, k: KeyType): (r: seq<Facet>)
    ensures |r| == |names|
    ensures forall i :: 0 <= i < |names| ==> r[i] == Facet(k, names[i])
  {
    seq(|names|, i requires 0 <= i < |names| => Facet(k, names[i]))
  }

  /** The key fields of every member entity, concatenated in entity order. */
  function AllEntityFields(entities: Rec<EntityModel>): seq<string> {
    if entities == [] then []
    else AllEntityFields(entities[..|entities| - 1]) + entities[|entities| - 1].value.fields
  }

  /** `getEnums` as a value: the enum attributes, each mapped to its values, by `enums[name] = …`. */
  function EnumsOf(attributes: Rec<Attribute>): Rec<seq<string>> {
    if attributes == [] then []
    else
      var init := EnumsOf(attributes[..|attributes| - 1]);
      var last := attributes[|attributes| - 1];
      if last.value.attrType == EnumType then Set(init, last.key, last.value.enumArray) else init
  }

  /** Every key of `getEnums()` names an enum attribute and maps to a copy of its values, and
      every enum attribute is there. */
  lemma {:induction false} EnumsOfExactly(attributes: Rec<Attribute>, k: string)
    requires WellFormed(attributes)
    ensures Get(EnumsOf(attributes), k) ==
      (var a := Get(attributes, k); if a.Some? && a.value.attrType == EnumType then Some(a.value.enumArray) else None)
  {
    if attributes != [] {
      var init := attributes[..|attributes| - 1];
      var last := attributes[|attributes| - 1];
      assert attributes == init + [last];
      assert WellFormed(init);
      EnumsOfExactly(init, k);
      GetAppend(init, last, k);
      if last.value.attrType == EnumType {
        SetSemantics(EnumsOf(init), last.key, last.value.enumArray);
      }
      if last.key == k {
        assert k !in Keys(init);
      }
    }
  }

  /** An entity or a collection as the command surface and the type generator see it. `name`
      and `source` never change; `hasSKCache` is the `__hasSK` field that `HasSK` fills in. */
  class Instance {
    const name: string
    const source: Source
    var hasSKCache: Option<bool>

    /** The cache, once filled, holds what `HasSK` computes. */
    ghost predicate Valid()
      reads this
    {
      hasSKCache.Some? ==> DefaultHasSK() == Success(hasSKCache.value)
    }

    constructor (name: string, source: Source)
      ensures this.name == name && this.source == source && hasSKCache == None && Valid()
    {
      this.name := name;
      this.source := source;
      hasSKCache := None;
    }

    function Type(): AccessType {
      if source.EntitySource? then EntityAccess else CollectionAccess
    }

    /** `getAccessPatternName(index = "")`: the translation for an entity (`None` for
        `undefined`), the instance name for a collection. */
    function GetAccessPatternName(index: string): Option<string> {
      match source
      case EntitySource(m) => Get(m.fromIndexToAccessPattern, index)
      case CollectionSource(_) => Some(name)
    }

    /** `getIndexName(accessPattern = "")`. */
    function GetIndexName(accessPattern: string): Option<string> {
      match source
      case EntitySource(m) => Get(m.fromAccessPatternToIndex, accessPattern)
      case CollectionSource(c) => Some(c.keysName)
    }

    /** `getAccessPattern(accessPattern = "")`: an `undefined` argument takes the default `""`. */
    function GetAccessPattern(accessPattern: Option<string>): Option<Index> {
      match source
      case EntitySource(m) => Get(m.indexes, accessPattern.GetOr(""))
      case CollectionSource(c) => Some(c.keys)
    }

    function GetAttributes(): Rec<Attribute> {
      match source
      case EntitySource(m) => m.attributes
      case CollectionSource(c) => c.attributes
    }

    /** `getIndexes()`: an entity's indexes in declaration order, a collection's one key index. */
    function GetIndexes(): seq<Index> {
      match source
      case EntitySource(m) => Values(m.indexes)
      case CollectionSource(c) => [c.keys]
    }

    /** `getFacets(name = "")` as a value: an entity reads `byIndex[name].all` (which throws
        when there is no such index), a collection ignores `name`. */
    function Facets(index: string): Result<seq<Facet>, string> {
      match source
      case EntitySource(m) =>
        var f := Get(m.byIndex, index);
        if f.None? then Failure(UndefinedRead("all")) else Success(f.value)
      case CollectionSource(c) => Success(CollectionFacets(c.keys))
    }

    /** `hasSK()` without the cache: whether a facet of the default index is a sort facet. */
    function DefaultHasSK(): Result<bool, string> {
      var f := Facets("");
      if f.Failure? then Failure(f.error)
      else Success(exists i :: 0 <= i < |f.value| && f.value[i].keyType == SK)
    }

    /** `getFacets`: a collection builds its list with two loops, partition facets first. */
    method GetFacets(index: string) returns (r: Result<seq<Facet>, string>)
      ensures r == Facets(index)
      ensures source.CollectionSource? ==>
        var keys := source.schema.keys;
        var sk := if keys.sk.Some? then keys.sk.value.facets else [];
        && r.Success?
        && |r.value| == |keys.pk.facets| + |sk|
        && (forall i :: 0 <= i < |keys.pk.facets| ==> r.value[i] == Facet(PK, keys.pk.facets[i]))
        && (forall i :: 0 <= i < |sk| ==> r.value[|keys.pk.facets| + i] == Facet(SK, sk[i]))
    {
      match source
      case EntitySource(m) =>
        var f := Get(m.byIndex, index);
        if f.None? {
          return Failure(UndefinedRead("all"));
        }
        return Success(f.value);
      case CollectionSource(c) =>
        var pk := c.keys.pk.facets;
        var facets: seq<Facet> := [];
        for i := 0 to |pk|
          invariant facets == Tagged(pk[..i], PK)
        {
          assert Tagged(pk[..i + 1], PK) == Tagged(pk[..i], PK) + [Facet(PK, pk[i])];
          facets := facets + [Facet(PK, pk[i])];
        }
        assert pk[..|pk|] == pk;
        if c.keys.sk.Some? {
          var sk := c.keys.sk.value.facets;
          for i := 0 to |sk|
            invariant facets == Tagged(pk, PK) + Tagged(sk[..i], SK)
          {
            assert Tagged(sk[..i + 1], SK) == Tagged(sk[..i], SK) + [Facet(SK, sk[i])];
            facets := facets + [Facet(SK, sk[i])];
          }
          assert sk[..|sk|] == sk;
        } else {
          assert facets + [] == facets;
        }
        assert facets == CollectionFacets(c.keys);
        return Success(facets);
    }

    /** `getKeyFieldNames(indexName = "")`: the physical partition key field, then the sort key
        field when the index has one; reading the index of an unknown name throws. */
    function GetKeyFieldNames(indexName: string): (r: Result<seq<string>, string>)
      ensures var index := GetAccessPattern(GetAccessPatternName(indexName));
        && (r.Success? <==> index.Some?)
        && (index.None? ==> r == Failure(UndefinedRead("pk")))
        && (index.Some? ==> |r.value| == (if index.value.sk.Some? then 2 else 1) && r.value[0] == index.value.pk.field)
        && (index.Some? && index.value.sk.Some? ==> r.value[1] == index.value.sk.value.field)
    {
      var index := GetAccessPattern(GetAccessPatternName(indexName));
      if index.None? then Failure(UndefinedRead("pk"))
      else Success([index.value.pk.field] + if index.value.sk.Some? then [index.value.sk.value.field] else [])
    }

    /** `getAttribute(name)`: the declared attribute, or the error naming the unknown one. */
    function GetAttribute(attributeName: string): (r: Result<Attribute, string>)
      ensures r.Failure? <==> attributeName !in Keys(GetAttributes())
      ensures r.Failure? ==> r.error == "Attribute invalid: " + attributeName
      ensures r.Success? ==> Entry(attributeName, r.value) in GetAttributes()
    {
      var a := Get(GetAttributes(), attributeName);
      if a.None? then Failure("Attribute invalid: " + attributeName) else Success(a.value)
    }

    /** `getAttributeTypeName(attribute)`: `<name>_enum` for an enum, the declared type otherwise. */
    function GetAttributeTypeName(attributeName: string): (r: Result<string, string>)
      ensures r.Failure? <==> attributeName !in Keys(GetAttributes())
      ensures r.Success? ==>
        var a := GetAttribute(attributeName).value;
        r.value == if a.attrType == EnumType then attributeName + "_enum" else AttributeTypeText(a.attrType)
    {
      var a :- GetAttribute(attributeName);
      if a.attrType == EnumType then Success(attributeName + "_enum") else Success(AttributeTypeText(a.attrType))
    }

    /** `getEnums()`: loops over the attributes and copies each enum's values under its name. */
    method GetEnums() returns (enums: Rec<seq<string>>)
      ensures enums == EnumsOf(GetAttributes())
      ensures WellFormed(GetAttributes()) ==> forall k ::
        Get(enums, k) == (var a := Get(GetAttributes(), k); if a.Some? && a.value.attrType == EnumType then Some(a.value.enumArray) else None)
    {
      var attributes := GetAttributes();
      enums := [];
      for i := 0 to |attributes|
        invariant enums == EnumsOf(attributes[..i])
      {
        assert attributes[..i + 1][..i] == attributes[..i];
        if attributes[i].value.attrType == EnumType {
          enums := Set(enums, attributes[i].key, attributes[i].value.enumArray);
        }
      }
      assert attributes[..|attributes|] == attributes;
      if WellFormed(attributes) {
        forall k ensures Get(enums, k) == (var a := Get(attributes, k); if a.Some? && a.value.attrType == EnumType then Some(a.value.enumArray) else None) {
          EnumsOfExactly(attributes, k);
        }
      }
    }

    /** The key fields `getAllKeyFieldNames` returns. */
    function AllKeyFieldNames(): seq<string> {
      match source
      case EntitySource(m) => m.fields
      case CollectionSource(c) => Sets.Unique(AllEntityFields(c.entities))
    }

    /** `getAllKeyFieldNames()`: an entity's `facets.fields`; for a collection every member
        entity's fields concatenated, then de-duplicated keeping first occurrences. */
    method GetAllKeyFieldNames() returns (fields: seq<string>)
      ensures fields == AllKeyFieldNames()
      ensures source.EntitySource? ==> fields == source.model.fields
      ensures source.CollectionSource? ==>
        && fields == Sets.Unique(AllEntityFields(source.schema.entities))
        && Sets.Distinct(fields)
        && forall f :: f in fields <==> exists i :: 0 <= i < |source.schema.entities| && f in source.schema.entities[i].value.fields
    {
      match source
      case EntitySource(m) =>
        return m.fields;
      case CollectionSource(c) =>
        var all: seq<string> := [];
        for i := 0 to |c.entities|
          invariant all == AllEntityFields(c.entities[..i])
        {
          assert c.entities[..i + 1][..i] == c.entities[..i];
          all := all + c.entities[i].value.fields;
        }
        assert c.entities[..|c.entities|] == c.entities;
        AllEntityFieldsMembers(c.entities);
        Sets.UniqueSpec(all);
        return Sets.Unique(all);
    }

    /** `hasSK()`: answers from the cache when it is filled; otherwise scans the default
        index's facets for a sort facet and stores the answer. A failure to read the facets
        propagates and leaves the cache empty. */
    method HasSK() returns (r: Result<bool, string>)
      requires Valid()
      modifies this`hasSKCache
      ensures Valid()
      ensures r == DefaultHasSK()
      ensures old(hasSKCache).Some? ==> hasSKCache == old(hasSKCache)
      ensures hasSKCache == if r.Success? then Some(r.value) else old(hasSKCache)
    {
      if hasSKCache.Some? {
        return Success(hasSKCache.value);
      }
      var f := GetFacets("");
      if f.Failure? {
        return Failure(f.error);
      }
      var facets := f.value;
      for i := 0 to |facets|
        invariant forall j :: 0 <= j < i ==> facets[j].keyType != SK
      {
        if facets[i].keyType == SK {
          hasSKCache := Some(true);
          return Success(true);
        }
      }
      hasSKCache := Some(false);
      return Success(false);
    }
  }

  lemma {:induction false} AllEntityFieldsMembers(entities: Rec<EntityModel>)
    ensures forall f :: f in AllEntityFields(entities) <==> exists i :: 0 <= i < |entities| && f in entities[i].value.fields
  {
    if entities != [] {
      var init := entities[..|entities| - 1];
      AllEntityFieldsMembers(init);
      assert AllEntityFields(entities) == AllEntityFields(init) + entities[|entities| - 1].value.fields;
      forall f ensures f in AllEntityFields(entities) <==> exists i :: 0 <= i < |entities| && f in entities[i].value.fields {
        if f in AllEntityFields(entities) && f !in entities[|entities| - 1].value.fields {
          var i :| 0 <= i < |init| && f in init[i].value.fields;
          assert entities[i] == init[i];
        }
        if exists i :: 0 <= i < |entities| && f in entities[i].value.fields {
          var i :| 0 <= i < |entities| && f in entities[i].value.fields;
          if i < |init| { assert init[i] == entities[i]; }
        }
      }
    }
  }

  /** The `EntityInstance` constructor: only an export tagged as an entity is accepted. */
  method NewEntityInstance(name: string, e: Export) returns (r: Result<Instance, string>)
    ensures r.Success? <==> e.EntityExport?
    ensures r.Failure? ==> r.error == NOT_AN_ENTITY
    ensures r.Success? ==>
      && fresh(r.value) && r.value.name == name && r.value.source == EntitySource(e.model)
      && r.value.hasSKCache == None && r.value.Valid()
  {
    if !e.EntityExport? {
      return Failure(NOT_AN_ENTITY);
    }
    var instance := new Instance(name, EntitySource(e.model));
    return Success(instance);
  }

  /** The name `parse` reports: the entity's own name, or the service's. */
  function ExportName(e: Export): string
    requires !e.OtherExport?
  {
    if e.EntityExport? then e.model.entity else e.serviceName
  }

  /** `instances` are the ones `parse` builds for `e`, by name and source and in order: the
      entity itself, or one per member entity and then one per collection. */
  predicate Instantiates(e: Export, instances: seq<Instance>) {
    match e
    case EntityExport(m) =>
      |instances| == 1 && instances[0].name == m.entity && instances[0].source == EntitySource(m)
    case ServiceExport(_, _, entities, collections) =>
      && |instances| == |entities| + |collections|
      && (forall i :: 0 <= i < |entities| ==>
            && entities[i].value.EntityExport?
            && instances[i].name == entities[i].key && instances[i].source == EntitySource(entities[i].value.model))
      && (forall i :: 0 <= i < |collections| ==>
            instances[|entities| + i].name == collections[i].key
            && instances[|entities| + i].source == CollectionSource(collections[i].value))
    case OtherExport(_) => false
  }

  /** `parse`'s loop over a service's entities: one entity instance per member, in key
      order; a member that is not an entity throws. */
  method EntityInstances(entities: Rec<Export>) returns (r: Result<seq<Instance>, string>)
    ensures r.Success? <==> forall i :: 0 <= i < |entities| ==> entities[i].value.EntityExport?
    ensures r.Failure? ==> r.error == NOT_AN_ENTITY
    ensures r.Success? ==>
      && |r.value| == |entities|
      && forall i :: 0 <= i < |entities| ==>
        && entities[i].value.EntityExport?
        && r.value[i].name == entities[i].key && r.value[i].source == EntitySource(entities[i].value.model)
        && fresh(r.value[i]) && r.value[i].hasSKCache == None
  {
    var instances: seq<Instance> := [];
    for i := 0 to |entities|
      invariant |instances| == i
      invariant forall j :: 0 <= j < i ==>
        && entities[j].value.EntityExport?
        && instances[j].name == entities[j].key && instances[j].source == EntitySource(entities[j].value.model)
        && fresh(instances[j]) && instances[j].hasSKCache == None
    {
      var made := NewEntityInstance(entities[i].key, entities[i].value);
      if made.Failure? {
        return Failure(made.error);
      }
      ghost var before := instances;
      instances := instances + [made.value];
      forall j | 0 <= j < i + 1
        ensures && entities[j].value.EntityExport?
                && instances[j].name == entities[j].key && instances[j].source == EntitySource(entities[j].value.model)
                && fresh(instances[j]) && instances[j].hasSKCache == None
      {
        if j < i {
          assert instances[j] == before[j];
        }
      }
    }
    return Success(instances);
  }

  /** `parse`'s loop over a service's collections: one collection instance per schema, in key
      order. */
  method CollectionInstances(collections: Rec<CollectionSchema>) returns (instances: seq<Instance>)
    ensures |instances| == |collections|
    ensures forall i :: 0 <= i < |collections| ==>
      && instances[i].name == collections[i].key && instances[i].source == CollectionSource(collections[i].value)
      && fresh(instances[i]) && instances[i].hasSKCache == None
  {
    instances := [];
    for i := 0 to |collections|
      invariant |instances| == i
      invariant forall j :: 0 <= j < i ==>
        && instances[j].name == collections[j].key && instances[j].source == CollectionSource(collections[j].value)
        && fresh(instances[j]) && instances[j].hasSKCache == None
    {
      var instance := new Instance(collections[i].key, CollectionSource(collections[i].value));
      ghost var before := instances;
      instances := instances + [instance];
      forall j | 0 <= j < i + 1
        ensures && instances[j].name == collections[j].key && instances[j].source == CollectionSource(collections[j].value)
                && fresh(instances[j]) && instances[j].hasSKCache == None
      {
        if j < i {
          assert instances[j] == before[j];
        }
      }
    }
  }

  /** `ElectroInstance.parse`: an entity export gives its own name and one entity instance; a
      service gives its name, one instance per entity (any member that is not an entity
      throws), then one per collection; anything else throws. */
  method Parse(e: Export) returns (r: Result<(string, seq<Instance>), string>)
    ensures r.Success? <==> e.EntityExport? || (e.ServiceExport? && forall i :: 0 <= i < |e.entities| ==> e.entities[i].value.EntityExport?)
    ensures e.OtherExport? ==> r == Failure(NOT_AN_INSTANCE)
    ensures e.ServiceExport? && r.Failure? ==> r.error == NOT_AN_ENTITY
    ensures r.Success? ==> r.value.0 == ExportName(e) && Instantiates(e, r.value.1)
    ensures r.Success? ==> forall i :: 0 <= i < |r.value.1| ==> fresh(r.value.1[i]) && r.value.1[i].hasSKCache == None
  {
    match e
    case EntityExport(m) =>
      var instance := new Instance(m.entity, EntitySource(m));
      return Success((m.entity, [instance]));
    case ServiceExport(serviceName, _, entities, collections) =>
      var made := EntityInstances(entities);
      if made.Failure? {
        return Failure(made.error);
      }
      var collectionInstances := CollectionInstances(collections);
      var instances := made.value + collectionInstances;
      return Success((serviceName, instances));
    case OtherExport(_) =>
      return Failure(NOT_AN_INSTANCE);
  }

  /** `ElectroInstance`: the export's name, whether it is a service, and its instances. */
  class ElectroInstance {
    const name: string
    const isService: bool
    const instances: seq<Instance>

    constructor (name: string, isService: bool, instances: seq<Instance>)
      ensures this.name == name && this.isService == isService && this.instances == instances
    {
      this.name := name;
      this.isService := isService;
      this.instances := instances;
    }
  }

  /** `new ElectroInstance(electro)`: parses the export; throws what `Parse` throws. */
  method Load(e: Export) returns (r: Result<ElectroInstance, string>)
    ensures r.Success? <==> (e.EntityExport? || (e.ServiceExport? && forall i :: 0 <= i < |e.entities| ==> e.entities[i].value.EntityExport?))
    ensures r.Success? ==>
      && fresh(r.value) && r.value.isService == e.ServiceExport?
      && r.value.name == ExportName(e)
      && Instantiates(e, r.value.instances)
      && forall i :: 0 <= i < |r.value.instances| ==>
        fresh(r.value.instances[i]) && r.value.instances[i].hasSKCache == None && r.value.instances[i].Valid()
  {
    var parsed := Parse(e);
    if parsed.Failure? {
      return Failure(parsed.error);
    }
    var electro := new ElectroInstance(parsed.value.0, e.ServiceExport?, parsed.value.1);
    return Success(electro);
  }
}
