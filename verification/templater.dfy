/** The data handed to the type-definition template: one record per instance with its
    attributes, enums, facets, key fields and indexes. Reading the template file and running
    Handlebars are not part of this model. */
module Templater {
  import opened Wrappers
  import opened Records
  import opened Instances

  datatype AttributeDetail = AttributeDetail(typeName: string, name: string, optional: bool, readonly: bool)

  datatype AttributeEnums = AttributeEnums(name: string, values: seq<string>)

  /** A facet with its pk/sk tag (`key`) and its attribute's type name. */
  datatype FacetDetail = FacetDetail(key: KeyType, name: string, typeName: string)

  /** `name` is the access pattern (`None` for `undefined`); `index` is `None` for the table index. */
  datatype IndexDetail = IndexDetail(hasSK: bool, name: Option<string>, typeName: string, index: Option<string>, facets: seq<FacetDetail>)

  datatype TemplateDataInstance = TemplateDataInstance(
    name: string,
    accessType: AccessType,
    attributes: seq<AttributeDetail>,
    enums: seq<AttributeEnums>,
    facets: seq<FacetDetail>,
    keyNames: seq<string>,
    tableIndexName: string,
    tableIndexFields: seq<string>,
    indexes: seq<IndexDetail>,
    attributeNames: seq<string>)

  datatype TemplateData = TemplateData(isService: bool, exportName: string, instances: seq<TemplateDataInstance>)

  /** A template literal renders `undefined` as the text "undefined". */
  function Show(s: Option<string>): string {
    s.GetOr("undefined")
  }

  /** `formatAttributeType`: an enum is named after its attribute, `<name>_enum`; every other
      type keeps its own name. */
  function FormatAttributeType(attributeName: string, t: AttributeType): (r: string)
    ensures t == EnumType ==> r == attributeName + "_enum"
    ensures t != EnumType ==> r == AttributeTypeText(t)
  {
    if t == EnumType then attributeName + "_enum" else AttributeTypeText(t)
  }

  /** `formatAccessPatternName`: appends `_index`. */
  function FormatAccessPatternName(name: string): (r: string)
    ensures |r| == |name| + 6 && r[..|name|] == name && r[|name|..] == "_index"
  {
    name + "_index"
  }

  /** The templater and the instance name an attribute's type the same way. */
  lemma FormatAgreesWithInstance(instance: Instances.Instance, attributeName: string)
    requires attributeName in Keys(instance.GetAttributes())
    ensures instance.GetAttributeTypeName(attributeName).Success?
    ensures instance.GetAttributeTypeName(attributeName).value
      == FormatAttributeType(attributeName, instance.GetAttribute(attributeName).value.attrType)
  {
  }

  /** `formatAttributes`: one entry per attribute, in declaration order; an attribute is
      optional exactly when it is not required and read-only exactly when declared so. */
  function FormatAttributes(attributes: Rec<Attribute>): (r: seq<AttributeDetail>)
    ensures |r| == |attributes|
    ensures forall i :: 0 <= i < |r| ==>
      var a := attributes[i].value;
      r[i] == AttributeDetail(FormatAttributeType(a.name, a.attrType), a.name, !a.required, a.readOnly)
  {
    var values := Values(attributes);
    seq(|values|, i requires 0 <= i < |values| =>
      AttributeDetail(FormatAttributeType(values[i].name, values[i].attrType), values[i].name, !values[i].required, values[i].readOnly))
  }

  /** The enum attributes among `values`, in order. */
  function EnumAttributes(values: seq<Attribute>): seq<Attribute> {
    if values == [] then []
    else
      var init := EnumAttributes(values[..|values| - 1]);
      var last := values[|values| - 1];
      if last.attrType == EnumType then init + [last] else init
  }

  /** Exactly the enum attributes are kept. */
  lemma {:induction false} EnumAttributesMembers(values: seq<Attribute>)
    ensures |EnumAttributes(values)| <= |values|
    ensures forall a :: a in EnumAttributes(values) <==> a in values && a.attrType == EnumType
  {
    if values != [] {
      EnumAttributesMembers(values[..|values| - 1]);
      assert values == values[..|values| - 1] + [values[|values| - 1]];
    }
  }

  /** The template entry for one enum attribute: its type name and its values. */
  function EnumDetail(a: Attribute): AttributeEnums {
    AttributeEnums(FormatAttributeType(a.name, EnumType), a.enumArray)
  }

  /** The enum entries of the template: one per enum attribute, in order. */
  function EnumDetails(attributes: Rec<Attribute>): seq<AttributeEnums> {
    var enums := EnumAttributes(Values(attributes));
    seq(|enums|, i requires 0 <= i < |enums| => EnumDetail(enums[i]))
  }

  /** `formatAttributeEnums`: loops over the attributes and pushes, for each enum, its type
      name `<attr>_enum` and a copy of its values. */
  method FormatAttributeEnums(attributes: Rec<Attribute>) returns (r: seq<AttributeEnums>)
    ensures r == EnumDetails(attributes)
    ensures |r| == |EnumAttributes(Values(attributes))|
    ensures forall i :: 0 <= i < |r| ==> r[i] == EnumDetail(EnumAttributes(Values(attributes))[i])
  {
    var values := Values(attributes);
    r := [];
    for i := 0 to |values|
      invariant |r| == |EnumAttributes(values[..i])|
      invariant forall j :: 0 <= j < |r| ==> r[j] == EnumDetail(EnumAttributes(values[..i])[j])
    {
      assert values[..i + 1][..i] == values[..i];
      if values[i].attrType == EnumType {
        r := r + [AttributeEnums(FormatAttributeType(values[i].name, values[i].attrType), values[i].enumArray)];
      }
    }
    assert values[..|values|] == values;
    assert r == EnumDetails(attributes);
  }

  /** Every facet names an attribute. */
  predicate FacetsNamed(facets: seq<Facet>, attributes: Rec<Attribute>) {
    forall i :: 0 <= i < |facets| ==> facets[i].name in Keys(attributes)
  }

  /** The detail of one facet that names an attribute: its tag, its name, and the type name
      of its attribute. */
  function FacetDetailOf(f: Facet, attributes: Rec<Attribute>): FacetDetail
    requires f.name in Keys(attributes)
  {
    FacetDetail(f.keyType, f.name, FormatAttributeType(f.name, Get(attributes, f.name).value.attrType))
  }

  /** The details of `facets`, or the error of reading the type of a missing attribute. */
  function FacetDetails(facets: seq<Facet>, attributes: Rec<Attribute>): Result<seq<FacetDetail>, string> {
    if FacetsNamed(facets, attributes) then Success(NamedFacetDetails(facets, attributes))
    else Failure(UndefinedRead("type"))
  }

  function NamedFacetDetails(facets: seq<Facet>, attributes: Rec<Attribute>): (r: seq<FacetDetail>)
    requires FacetsNamed(facets, attributes)
    ensures |r| == |facets|
    ensures forall i :: 0 <= i < |facets| ==> r[i] == FacetDetailOf(facets[i], attributes)
  {
    seq(|facets|, i requires 0 <= i < |facets| => FacetDetailOf(facets[i], attributes))
  }

  /** The details are formed exactly when every facet names an attribute, and otherwise fail
      reading `type`; they keep the facets' order, each with its pk/sk tag, its name and the
      type name of the attribute it names. */
  lemma FacetDetailsSpec(facets: seq<Facet>, attributes: Rec<Attribute>)
    ensures FacetDetails(facets, attributes).Success? <==> forall i :: 0 <= i < |facets| ==> facets[i].name in Keys(attributes)
    ensures FacetDetails(facets, attributes).Failure? ==> FacetDetails(facets, attributes).error == UndefinedRead("type")
    ensures FacetDetails(facets, attributes).Success? ==>
      && |FacetDetails(facets, attributes).value| == |facets|
      && forall i :: 0 <= i < |facets| ==>
        var d := FacetDetails(facets, attributes).value[i];
        && d.key == facets[i].keyType && d.name == facets[i].name
        && Get(attributes, facets[i].name).Some?
        && d.typeName == FormatAttributeType(facets[i].name, Get(attributes, facets[i].name).value.attrType)
  {
  }

  /** Details formed one per facet are `FacetDetails`' success. */
  lemma FacetDetailsFormed(facets: seq<Facet>, attributes: Rec<Attribute>, details: seq<FacetDetail>)
    requires FacetsNamed(facets, attributes) && |details| == |facets|
    requires forall j :: 0 <= j < |facets| ==> details[j] == FacetDetailOf(facets[j], attributes)
    ensures FacetDetails(facets, attributes) == Success(details)
  {
    assert details == NamedFacetDetails(facets, attributes);
  }

  /** One facet naming no attribute makes `FacetDetails` fail reading `type`. */
  lemma FacetDetailsUnnamed(facets: seq<Facet>, attributes: Rec<Attribute>, i: nat)
    requires i < |facets| && facets[i].name !in Keys(attributes)
    ensures FacetDetails(facets, attributes) == Failure(UndefinedRead("type"))
  {
  }

  /** `formatFacets`: one detail per facet, in order; a facet naming no attribute throws. */
  method FormatFacets(facets: seq<Facet>, attributes: Rec<Attribute>) returns (r: Result<seq<FacetDetail>, string>)
    ensures r == FacetDetails(facets, attributes)
  {
    var details: seq<FacetDetail> := [];
    for i := 0 to |facets|
      invariant |details| == i
      invariant forall j :: 0 <= j < i ==> facets[j].name in Keys(attributes)
      invariant forall j :: 0 <= j < i ==> details[j] == FacetDetailOf(facets[j], attributes)
    {
      if facets[i].name !in Keys(attributes) {
        FacetDetailsUnnamed(facets, attributes, i);
        return Failure(UndefinedRead("type"));
      }
      details := details + [FacetDetailOf(facets[i], attributes)];
    }
    FacetDetailsFormed(facets, attributes, details);
    return Success(details);
  }

  /** One element of `formatIndexes`' map: the access pattern's name and type name, the
      instance-wide `hasSK`, `index` (`undefined` for the table index) and the index's facets. */
  function IndexEntry(instance: Instances.Instance, index: Index, hasSK: bool): Result<IndexDetail, string> {
    var ap := instance.GetAccessPatternName(index.index);
    var facets :- instance.Facets(index.index);
    var formatted :- FacetDetails(facets, instance.GetAttributes());
    Success(IndexDetail(hasSK, ap, FormatAccessPatternName(Show(ap)), if index.index == "" then None else ap, formatted))
  }

  function IndexEntries(instance: Instances.Instance, hasSK: bool): (r: seq<Result<IndexDetail, string>>)
    ensures |r| == |instance.GetIndexes()|
    ensures forall i :: 0 <= i < |r| ==> r[i] == IndexEntry(instance, instance.GetIndexes()[i], hasSK)
  {
    var indexes := instance.GetIndexes();
    seq(|indexes|, i requires 0 <= i < |indexes| => IndexEntry(instance, indexes[i], hasSK))
  }

  /** `formatIndexes` as a value: no entries without indexes; otherwise `hasSK()` must succeed
      (it is asked first, for the first index) and the entries are folded in index order. */
  function IndexDetails(instance: Instances.Instance): Result<seq<IndexDetail>, string> {
    if instance.GetIndexes() == [] then Success([])
    else
      var hasSK :- instance.DefaultHasSK();
      Collect(IndexEntries(instance, hasSK))
  }

  /** An index whose facets can be read and formatted. */
  predicate IndexReadable(instance: Instances.Instance, index: Index) {
    instance.Facets(index.index).Success? && FacetsNamed(instance.Facets(index.index).value, instance.GetAttributes())
  }

  /** One entry is formed exactly when its index is readable, and fails with the error of
      reading its facets or else of formatting them; a formed entry carries `hasSK`, the
      access-pattern name, its `_index` type name, `index` only for a secondary index, and
      the index's formatted facets. */
  lemma IndexEntrySpec(instance: Instances.Instance, index: Index, hasSK: bool)
    ensures IndexEntry(instance, index, hasSK).Success? <==> IndexReadable(instance, index)
    ensures IndexEntry(instance, index, hasSK).Failure? ==>
      IndexEntry(instance, index, hasSK).error ==
        (if instance.Facets(index.index).Failure? then instance.Facets(index.index).error else UndefinedRead("type"))
    ensures IndexEntry(instance, index, hasSK).Success? ==>
      var d := IndexEntry(instance, index, hasSK).value;
      var ap := instance.GetAccessPatternName(index.index);
      && d.hasSK == hasSK
      && d.name == ap
      && d.typeName == FormatAccessPatternName(Show(ap))
      && d.index == (if index.index == "" then None else ap)
      && d.facets == FacetDetails(instance.Facets(index.index).value, instance.GetAttributes()).value
  {
  }

  /** The entries are formed exactly when there is no index, or `hasSK()` succeeds and every
      index is readable; they are then the indexes' entries, in order. */
  lemma IndexDetailsSuccess(instance: Instances.Instance)
    ensures var indexes := instance.GetIndexes();
      IndexDetails(instance).Success? <==>
        indexes == [] || (instance.DefaultHasSK().Success? && forall i :: 0 <= i < |indexes| ==> IndexReadable(instance, indexes[i]))
    ensures var indexes := instance.GetIndexes();
      IndexDetails(instance).Success? ==>
        && |IndexDetails(instance).value| == |indexes|
        && forall i :: 0 <= i < |indexes| ==>
          Success(IndexDetails(instance).value[i]) == IndexEntry(instance, indexes[i], instance.DefaultHasSK().value)
  {
    var indexes := instance.GetIndexes();
    if indexes != [] && instance.DefaultHasSK().Success? {
      var entries := IndexEntries(instance, instance.DefaultHasSK().value);
      assert IndexDetails(instance) == Collect(entries);
      CollectSuccess(entries);
      forall i | 0 <= i < |indexes| ensures entries[i].Success? <==> IndexReadable(instance, indexes[i]) {
        IndexEntrySpec(instance, indexes[i], instance.DefaultHasSK().value);
      }
    }
  }

  /** Without indexes there is no error; otherwise the error is `hasSK()`'s when it fails,
      and else that of the first unreadable index. */
  lemma IndexDetailsFailure(instance: Instances.Instance)
    ensures instance.GetIndexes() != [] && instance.DefaultHasSK().Failure? ==>
      IndexDetails(instance) == Failure(instance.DefaultHasSK().error)
    ensures var indexes := instance.GetIndexes();
      instance.DefaultHasSK().Success? && IndexDetails(instance).Failure? ==>
        exists i :: 0 <= i < |indexes| && !IndexReadable(instance, indexes[i])
          && (forall j :: 0 <= j < i ==> IndexReadable(instance, indexes[j]))
          && IndexDetails(instance).error ==
               (if instance.Facets(indexes[i].index).Failure? then instance.Facets(indexes[i].index).error else UndefinedRead("type"))
  {
    var indexes := instance.GetIndexes();
    if indexes != [] && instance.DefaultHasSK().Success? {
      var hasSK := instance.DefaultHasSK().value;
      var entries := IndexEntries(instance, hasSK);
      assert IndexDetails(instance) == Collect(entries);
      var i := FirstFailure(entries);
      if i < |entries| {
        CollectFirstFailure(entries, i);
        IndexEntrySpec(instance, indexes[i], hasSK);
        forall j | 0 <= j < i ensures IndexReadable(instance, indexes[j]) {
          IndexEntrySpec(instance, indexes[j], hasSK);
        }
      } else {
        CollectSuccess(entries);
      }
    }
  }

  /** The body of `formatIndexes`' loop for one index, given `hasSK`: the access pattern,
      then its facets read and formatted. */
  method FormatIndex(instance: Instances.Instance, index: Index, hasSK: bool) returns (r: Result<IndexDetail, string>)
    ensures r == IndexEntry(instance, index, hasSK)
  {
    var accessPattern := instance.GetAccessPatternName(index.index);
    var facets := instance.GetFacets(index.index);
    if facets.Failure? {
      return Failure(facets.error);
    }
    var formatted := FormatFacets(facets.value, instance.GetAttributes());
    if formatted.Failure? {
      return Failure(formatted.error);
    }
    return Success(IndexDetail(hasSK, accessPattern, FormatAccessPatternName(Show(accessPattern)),
                               if index.index == "" then None else accessPattern, formatted.value));
  }

  /** `formatIndexes`: one entry per index of the instance, in order. Each entry asks
      `hasSK()` before it reads the index's facets. */
  method FormatIndexes(instance: Instances.Instance) returns (r: Result<seq<IndexDetail>, string>)
    requires instance.Valid()
    modifies instance`hasSKCache
    ensures instance.Valid()
    ensures r == IndexDetails(instance)
  {
    var indexes := instance.GetIndexes();
    var details: seq<IndexDetail> := [];
    ghost var entries := IndexEntries(instance, instance.DefaultHasSK().Success? && instance.DefaultHasSK().value);
    for i := 0 to |indexes|
      invariant instance.Valid()
      invariant i > 0 ==> instance.DefaultHasSK().Success?
      invariant Collect(entries[..i]) == Success(details)
    {
      var hasSK := instance.HasSK();
      if hasSK.Failure? {
        return Failure(hasSK.error);
      }
      assert entries[i] == IndexEntry(instance, indexes[i], hasSK.value);
      var entry := FormatIndex(instance, indexes[i], hasSK.value);
      if entry.Failure? {
        CollectStepFailure(entries, i, details);
        CollectPrefixFailure(entries, i + 1);
        return Failure(entry.error);
      }
      CollectStep(entries, i, details, entry.value);
      details := details + [entry.value];
    }
    assert entries[..|indexes|] == entries;
    return Success(details);
  }

  /** One iteration of `compile`'s loop as a value: the default index's facets are read and
      formatted, then the table index's key fields, then the indexes; the first of these to
      throw decides the error. */
  function InstanceData(instance: Instances.Instance): Result<TemplateDataInstance, string> {
    var attributes := instance.GetAttributes();
    var facets :- instance.Facets("");
    var facetDetails :- FacetDetails(facets, attributes);
    var tableIndexFields :- instance.GetKeyFieldNames("");
    var indexes :- IndexDetails(instance);
    Success(TemplateDataInstance(
      instance.name, instance.Type(), FormatAttributes(attributes), EnumDetails(attributes), facetDetails,
      instance.AllKeyFieldNames(), FormatAccessPatternName(Show(instance.GetAccessPatternName(""))),
      tableIndexFields, indexes, Keys(attributes)))
  }

  /** What the template record of one instance says about it: every field of the record. */
  predicate Describes(data: TemplateDataInstance, instance: Instances.Instance) {
    var attributes := instance.GetAttributes();
    && data.name == instance.name
    && data.accessType == instance.Type()
    && data.attributes == FormatAttributes(attributes)
    && data.enums == EnumDetails(attributes)
    && instance.Facets("").Success? && FacetDetails(instance.Facets("").value, attributes).Success?
    && data.facets == FacetDetails(instance.Facets("").value, attributes).value
    && data.keyNames == instance.AllKeyFieldNames()
    && data.tableIndexName == FormatAccessPatternName(Show(instance.GetAccessPatternName("")))
    && instance.GetKeyFieldNames("").Success? && data.tableIndexFields == instance.GetKeyFieldNames("").value
    && IndexDetails(instance).Success? && data.indexes == IndexDetails(instance).value
    && data.attributeNames == Keys(attributes)
  }

  /** A record is formed exactly when the default facets are readable, the table index exists
      and the indexes format; each failure cause, in that order, gives its own error; a formed
      record describes the instance. */
  lemma InstanceDataSpec(instance: Instances.Instance)
    ensures var facets := instance.Facets("");
      && (InstanceData(instance).Success? <==>
            && IndexReadable(instance, Index("", IndexKey("", []), None))
            && instance.GetAccessPattern(instance.GetAccessPatternName("")).Some?
            && IndexDetails(instance).Success?)
      && (facets.Failure? ==> InstanceData(instance) == Failure(facets.error))
      && (facets.Success? && !FacetsNamed(facets.value, instance.GetAttributes()) ==>
            InstanceData(instance) == Failure(UndefinedRead("type")))
      && (IndexReadable(instance, Index("", IndexKey("", []), None)) && instance.GetAccessPattern(instance.GetAccessPatternName("")).None? ==>
            InstanceData(instance) == Failure(UndefinedRead("pk")))
      && (IndexReadable(instance, Index("", IndexKey("", []), None)) && instance.GetAccessPattern(instance.GetAccessPatternName("")).Some?
          && IndexDetails(instance).Failure? ==>
            InstanceData(instance) == Failure(IndexDetails(instance).error))
      && (InstanceData(instance).Success? ==> Describes(InstanceData(instance).value, instance))
  {
  }

  /** One iteration of `compile`'s loop: the template record of one instance. */
  method CompileInstance(instance: Instances.Instance) returns (r: Result<TemplateDataInstance, string>)
    requires instance.Valid()
    modifies instance`hasSKCache
    ensures instance.Valid()
    ensures r == InstanceData(instance)
  {
    var attributes := instance.GetAttributes();
    var facets := instance.GetFacets("");
    if facets.Failure? {
      return Failure(facets.error);
    }
    var enums := FormatAttributeEnums(attributes);
    var facetDetails := FormatFacets(facets.value, attributes);
    if facetDetails.Failure? {
      return Failure(facetDetails.error);
    }
    var keyNames := instance.GetAllKeyFieldNames();
    var tableIndexFields := instance.GetKeyFieldNames("");
    if tableIndexFields.Failure? {
      return Failure(tableIndexFields.error);
    }
    var indexes := FormatIndexes(instance);
    if indexes.Failure? {
      return Failure(indexes.error);
    }
    return Success(TemplateDataInstance(
      instance.name, instance.Type(), FormatAttributes(attributes), enums, facetDetails.value, keyNames,
      FormatAccessPatternName(Show(instance.GetAccessPatternName(""))), tableIndexFields.value,
      indexes.value, Keys(attributes)));
  }

  function InstancesData(instances: seq<Instances.Instance>): (r: seq<Result<TemplateDataInstance, string>>)
    ensures |r| == |instances|
    ensures forall i :: 0 <= i < |r| ==> r[i] == InstanceData(instances[i])
  {
    seq(|instances|, i requires 0 <= i < |instances| => InstanceData(instances[i]))
  }

  /** `compile`'s data as a value: the records of the instances folded in order, with the
      export's name and whether it is a service. */
  function CompileData(electro: ElectroInstance): Result<TemplateData, string> {
    var instances :- Collect(InstancesData(electro.instances));
    Success(TemplateData(electro.isService, electro.name, instances))
  }

  /** The data is formed exactly when every instance's record is; it then holds one record
      per instance, in order, each describing its instance; otherwise the error is that of
      the first instance whose record fails. */
  lemma CompileDataSpec(electro: ElectroInstance)
    ensures CompileData(electro).Success? <==>
      forall i :: 0 <= i < |electro.instances| ==> InstanceData(electro.instances[i]).Success?
    ensures CompileData(electro).Failure? ==>
      exists i :: 0 <= i < |electro.instances|
        && InstanceData(electro.instances[i]) == Failure(CompileData(electro).error)
        && forall j :: 0 <= j < i ==> InstanceData(electro.instances[j]).Success?
    ensures CompileData(electro).Success? ==>
      var data := CompileData(electro).value;
      && data.isService == electro.isService
      && data.exportName == electro.name
      && |data.instances| == |electro.instances|
      && forall i :: 0 <= i < |electro.instances| ==> Describes(data.instances[i], electro.instances[i])
  {
    var results := InstancesData(electro.instances);
    CollectSuccess(results);
    CollectFailure(results);
    if CompileData(electro).Success? {
      forall i | 0 <= i < |electro.instances| ensures Describes(CompileData(electro).value.instances[i], electro.instances[i]) {
        InstanceDataSpec(electro.instances[i]);
      }
    }
  }

  /** The data assembly of `compile`: one template record per instance, in instance order;
      the first error thrown while formatting any instance propagates. */
  method Compile(electro: ElectroInstance) returns (r: Result<TemplateData, string>)
    requires forall i :: 0 <= i < |electro.instances| ==> electro.instances[i].Valid()
    modifies set i | 0 <= i < |electro.instances| :: electro.instances[i]
    ensures forall i :: 0 <= i < |electro.instances| ==> electro.instances[i].Valid()
    ensures r == CompileData(electro)
  {
    var instances: seq<TemplateDataInstance> := [];
    var all := electro.instances;
    ghost var results := InstancesData(all);
    for i := 0 to |all|
      invariant forall j :: 0 <= j < |all| ==> all[j].Valid()
      invariant Collect(results[..i]) == Success(instances)
    {
      var data := CompileInstance(all[i]);
      assert results[i] == data;
      if data.Failure? {
        CollectStepFailure(results, i, instances);
        CollectPrefixFailure(results, i + 1);
        return Failure(data.error);
      }
      CollectStep(results, i, instances, data.value);
      instances := instances + [data.value];
    }
    assert results[..|all|] == results;
    return Success(TemplateData(electro.isService, electro.name, instances));
  }
}
