# electrocli core in Dafny

electrocli is a command-line tool and a small REST server for ElectroDB schemas. It loads
entity and service exports. From their composite key schemas ("facets": partition facets
tagged `pk`, sort facets tagged `sk`) it generates TypeScript type definitions and registers
query, scan and CRUD commands and routes. It also keeps two small registries on disk: one of
services and one of references.

This project models the logic at the core of the tool:

- **Facet permutations and type unions** (`handlebars.dfy`). These are the partial keys a
  caller may supply: every prefix of the facet list, except that a composite partition key is
  always given whole. They are rendered as a union of record types. The module also has the
  list and string helpers the type template uses.
- **The filter-expression parser** (`query.dfy`). It turns
  `"<attribute> <operation> <value1> [value2]"` into a filter, folds a list of expressions,
  and turns each filter into one where clause on the query.
- **The schema view** (`instance.dfy`, `templater.dfy`). This covers:
  - attribute lookup and type naming, enum extraction and key fields;
  - the cached `hasSK` flag;
  - how a collection builds its facets;
  - how an export is parsed into entity and collection instances;
  - the data the type template receives.
- **The command and route surface** (`cli.dfy`, `app.dfy`, `serve.dfy`). This covers:
  - positional facet arguments and the `<pk> [sk]` parameter signatures;
  - query and scan command signatures;
  - route paths, with one GET route per facet permutation;
  - the query configuration;
  - how removal outcomes are split into successes, failures and error messages.
- **The two registries** (`registry.dfy`, `store.dfy`, `config.dfy`). `append` adds a name
  with duplicate-name refusal and an overwrite flag. `remove` deletes one name, matched
  ignoring case.

A JavaScript object whose key order is observed is an ordered list of entries (`Records.Rec`).
`Object.keys`, `r[k]` and `r[k] = v` become `Keys`, `Get` and `Set`. A thrown error is a
`Failure` carrying the error's message, and `undefined` is `None`. Classes whose fields the
source updates are Dafny classes:

- the instance, with its `hasSK` cache;
- the query, which collects where clauses;
- the two file-backed registries.

Their backing file is a field, and `path.resolve` is a function fixed when the registry is
constructed.

`src/cli.ts` repeats the filter parser, `isOperation` and the operation list of `src/query.ts`.
Its parser differs only in that the accumulated array has no `[]` default, because commander
always passes one. Its where loop in `execute` is `applyFilter`. Each of these is modelled once,
in `Query`. `src/app.ts` repeats `formatFacetParams` and `validateQueryParams` of `src/cli.ts`;
they are modelled once, in `Cli`.

## Model

| member | source | states |
|---|---|---|
| Text.Lower | src/query.ts:6 | lower-casing keeps the length and maps each character on its own |
| Text.SplitJoin | src/query.ts:5 | joining the pieces of `split(" ")` with the separator gives the text back, and no piece contains the separator |
| Text.SplitCount | src/query.ts:5 | `split` yields one more piece than there are separators |
| Text.JoinSplit | src/cli.ts:216-226 | splitting a join of separator-free parts gives the parts back |
| Records.Get | src/store.ts:45 | `r[k]` is `undefined` exactly when `k` is not a key, and otherwise an entry of `r` |
| Records.SetSemantics | src/store.ts:56 | `r[k] = v`: `k` reads back as `v`, every other key reads as before, an existing key keeps its place, a new key goes last, and keys stay unique |
| Records.DeleteFirstIgnoringCase | src/store.ts:64-70 | the loop removes exactly the first key equal to the name ignoring case and returns it, or changes nothing and returns `""` |
| Records.DeleteFirstKeepsOthers | src/store.ts:64-70 | after that deletion there is one entry fewer, the removed key is gone, and every other key keeps its value and relative order |
| Sets.UniqueSpec | src/instance.ts:245 | `Array.from(new Set(xs))` holds exactly the elements of `xs`, each once, and leaves a duplicate-free list unchanged |
| Sets.UniqueFirstOccurrenceOrder | src/instance.ts:245 | `Array.from(new Set(xs))` lists its elements in the order of their first occurrence in `xs`, as a `Set` iterates in insertion order |
| Instances.EnumsOfExactly | src/instance.ts:118-128 | `getEnums()[k]` is the enum's values exactly when `k` names an enum attribute, and undefined otherwise |
| Instances.Instance.GetFacets | src/instance.ts:178-238 | an entity's facets are `byIndex[name].all` and an unknown index throws; a collection lists every partition facet tagged `pk`, in order, then every sort facet tagged `sk`, its length the two counts added |
| Instances.Instance.GetKeyFieldNames | src/instance.ts:91-99 | `[pk.field]`, or `[pk.field, sk.field]` when the index has a sort key; an unknown index throws |
| Instances.Instance.GetAttribute | src/instance.ts:101-108 | fails with `Attribute invalid: <name>` exactly for an undeclared name, and otherwise returns the declared attribute |
| Instances.Instance.GetAttributeTypeName | src/instance.ts:110-116 | `<name>_enum` for an enum, the declared type otherwise; fails exactly for an undeclared name |
| Instances.Instance.GetEnums | src/instance.ts:118-128 | holds exactly the enum attributes, each mapped to its values |
| Instances.Instance.GetAllKeyFieldNames | src/instance.ts:182-246 | an entity returns its `facets.fields`; a collection returns the members' fields concatenated and de-duplicated: distinct, and exactly the fields of some member |
| Instances.AllEntityFieldsMembers | src/instance.ts:242-244 | a field is in the concatenation exactly when some member entity has it |
| Instances.Instance.HasSK | src/instance.ts:130-149 | true exactly when a facet of the default index is a sort facet; a filled cache is returned and kept unchanged; the first answer is stored |
| Instances.NewEntityInstance | src/instance.ts:154-160 | only an entity export is accepted; anything else fails with the constructor's message |
| Instances.EntityInstances | src/instance.ts:282-284 | one entity instance per member, in key order, each with the member's key and model, fresh with an empty cache; succeeds exactly when every member is an entity, and otherwise fails with the not-an-entity message |
| Instances.CollectionInstances | src/instance.ts:285-287 | one collection instance per schema, in key order, each with the schema's key and schema, fresh with an empty cache |
| Instances.Parse | src/instance.ts:275-293 | succeeds exactly for an entity export, or a service export whose members are all entities. An entity gives its name and one instance with that name and model. A service gives its name, one instance per entity, then one per collection, in key order, each with its own name and source. A non-entity member fails with the not-an-entity message, and any other export with the not-an-instance message. Every instance is fresh with an empty `hasSK` cache |
| Instances.Load | src/instance.ts:295-300 | succeeds exactly when parsing does; then the export's name, `isService` exactly for a service, and the instances parsing describes, each fresh and valid with an empty `hasSK` cache |
| Templater.FormatAttributeType | src/templater.ts:59-65 | an enum becomes `<name>_enum`; every other type keeps its own name |
| Templater.FormatAccessPatternName | src/templater.ts:67-69 | the name followed by `_index` |
| Templater.FormatAgreesWithInstance | src/instance.ts:110-116 | the templater and the instance name a declared attribute's type the same way |
| Templater.FormatAttributes | src/templater.ts:71-81 | one entry per attribute, in order, with `optional == !required` and `readonly == readOnly` |
| Templater.EnumAttributesMembers | src/templater.ts:85-86 | exactly the enum attributes are kept |
| Templater.FormatAttributeEnums | src/templater.ts:83-94 | one entry per enum attribute, in order, named `<attr>_enum`, with its values |
| Templater.FormatFacets | src/templater.ts:96-106 | the loop computes `FacetDetails` |
| Templater.FacetDetailsSpec | src/templater.ts:96-106 | the details are formed exactly when every facet names an attribute, and otherwise the read of `type` throws; one detail per facet, in order, with its pk/sk tag, its name and its attribute's type name |
| Templater.FormatIndexes | src/templater.ts:108-120 | the map computes `IndexDetails`, asking `hasSK()` before each index and keeping the instance valid |
| Templater.FormatIndex | src/templater.ts:110-118 | one index's entry: computes `IndexEntry` |
| Templater.IndexEntrySpec | src/templater.ts:110-118 | an entry is formed exactly when its facets can be read and all name attributes, failing with the read's error or else the `type` error; it carries `hasSK`, the access-pattern name and its `_index` type name, `index` only for a secondary index, and the formatted facets |
| Templater.IndexDetailsSuccess | src/templater.ts:108-120 | the entries are formed exactly when there are no indexes, or `hasSK()` succeeds and every index is readable; then one entry per index, in order |
| Templater.IndexDetailsFailure | src/templater.ts:108-120 | a failing `hasSK()` gives its error; otherwise the error of the first unreadable index |
| Templater.CompileInstance | src/templater.ts:135-149 | one pass of the loop computes `InstanceData`, keeping the instance valid |
| Templater.InstanceDataSpec | src/templater.ts:135-149 | the record is formed exactly when the default index's facets are readable and name attributes, the table index exists and the indexes format; each failure gives its own error in that order. A formed record names the instance and its type and holds its formatted attributes, enums, facets, key names, table index name and fields, indexes and attribute names |
| Templater.Compile | src/templater.ts:128-152 | the loop computes `CompileData` |
| Templater.CompileDataSpec | src/templater.ts:128-152 | succeeds exactly when every instance's record is formed, and otherwise fails with the first failing instance's error; on success it has the export's name, `isService`, and one record per instance, in order, each describing its instance |
| Handlebars.GetFacetPermutations | src/handlebars.ts:26-46 | the nested loops compute `Permutations` |
| Handlebars.PermutationsShape | src/handlebars.ts:31-43 | each permutation is the tag-free prefix ending at a position that is not skipped (skipped: a `pk` facet followed by a `pk` facet); lengths strictly increase and each is a prefix of every later one; a prefix is produced exactly when its last position is not skipped; none for no facets; a non-empty list ends with the full list |
| Handlebars.PermutationsUpToShape | src/handlebars.ts:31-43 | after the first `n` positions every permutation is a tag-free prefix of length 1 to `n` ending at a position that is not skipped, and lengths strictly increase |
| Handlebars.PermutationsUpToMembers | src/handlebars.ts:31-43 | after the first `n` positions the prefix of length `m <= n` is present exactly when position `m - 1` is not skipped |
| Handlebars.PermutationCount | src/handlebars.ts:31-44 | with `p >= 1` partition facets then `s` sort facets there are `1 + s` permutations, of lengths `p` to `p + s` |
| Handlebars.ConcatIndexType | src/handlebars.ts:69-73 | `{}` exactly for an empty or absent list; otherwise the members `{ name: type; ... }` joined by a vertical bar between spaces |
| Handlebars.ConcatIndexTypeCons | src/handlebars.ts:70-72 | members are rendered in permutation order: the first, then the rest |
| Handlebars.UnionCardinality | src/handlebars.ts:70-72 | without braces in names and types, the rendering opens one brace per permutation |
| Handlebars.BuildIndexType | src/handlebars.ts:48-67 | the facets from the first one named `facetStart` to the end, rendered; without `facetStart`, all the facets; no match renders `{}` |
| Handlebars.FilterIndexType | src/handlebars.ts:75-79 | `all` keeps the list; `pk`/`sk` is `WithKey`: exactly the facets with that tag, and no change when all have it |
| Handlebars.WithKeyAppend | src/handlebars.ts:75-79 | filtering a concatenation filters each part in turn: the kept facets stay in their order |
| Handlebars.WithKeyCount | src/handlebars.ts:75-79 | each facet with the tag is kept as often as it occurs, and any other not at all |
| Handlebars.FilterIndexTypePartition | src/handlebars.ts:75-79 | filtering by `pk` and by `sk` splits the facets: the two counts add up to the total |
| Handlebars.Prefix | src/handlebars.ts:4-6 | one value per input, in order, each the prefix followed by the value |
| Handlebars.Quoted | src/handlebars.ts:13 | each value, in order, wrapped in double quotes exactly when quotes are asked for |
| Handlebars.Union | src/handlebars.ts:17-22 | `union(values)`: the empty string for no values, the value itself for one |
| Handlebars.UnionAppend | src/handlebars.ts:17-22 | each further value follows the others after the separator (a space, a vertical bar, a space), so the values appear in order |
| Handlebars.StringUnion | src/handlebars.ts:8-15 | without quotes it is `union`; with quotes it is `union` of the quoted values |
| Handlebars.CapitalizeSpec | test/handlebars.spec.ts:65-85 | keeps the length and all but the first character; `""` and an already-capitalized word are unchanged; capitalizing twice is capitalizing once |
| Handlebars.CaseWord | src/handlebars.ts:104-111 | the inner loop upper-cases the first character and copies the rest: the capitalized word |
| Handlebars.Pascal | src/handlebars.ts:92-120 | a word becomes its capitalized word; a list becomes the list of capitalized words, same length and order |
| Query.Words | src/query.ts:5 | the expression has an operation word exactly when it contains a space |
| Query.FindIgnoringCase | src/query.ts:6 | `find` ignoring case: none exactly when no attribute matches, and otherwise the first listed attribute that matches |
| Query.ParseFilterSpec | src/query.ts:3-19 | a missing operation is the format error; then an unmatched (or empty) attribute is the attribute error; then an unknown operation is the operation error. On success the attribute is the first listed spelling matching word 1, the operation is word 2, `value1` is word 3 (or empty), `value2` is word 4 when present, and no value contains a space |
| Query.ParseIgnoresExtraWords | src/query.ts:5 | words after the fourth are ignored: the expression parses as its first four words would |
| Query.ParseRender | src/query.ts:3-19 | parsing a filter written back as an expression gives the filter back |
| Wrappers.CollectSuccess | src/query.ts:28-30 | the fold of the parser over a list succeeds exactly when every step does, and then yields each step's filter in order |
| Wrappers.CollectFailure | src/query.ts:28-30 | a failing fold fails with the error of the first failing step |
| Wrappers.CollectFirstFailure | src/query.ts:28-30 | when every step before a failing step succeeds, the fold fails with that step's error |
| Query.ParseEachSuccess | src/query.ts:28-30 | a list parses exactly when each expression does, to their filters in input order |
| Query.ParseEachFailure | src/query.ts:28-30 | a failing list fails with the error of its first failing expression |
| Query.ParseFilters | src/query.ts:23-32 | a single expression is parsed as the one-element list; a list is folded in order |
| Query.WhereFor | src/query.ts:36-44 | two values exactly when `value2` is non-empty, otherwise one exactly when `value1` is non-empty, otherwise none; same operation and attribute |
| Query.ApplyFilter | src/query.ts:34-47 | one where clause per filter appended in order, earlier clauses kept, and the same query returned |
| Query.ParsedWheresAreValid | src/query.ts:16 | every clause built from parsed filters names a listed attribute and a valid operation, with at most two values |
| Cli.ParseFacets | src/cli.ts:204-214 | the loop computes `FacetArgs` |
| Cli.FacetArgsKeys | src/cli.ts:206-211 | the keys are exactly the names of facets whose argument is given, and every value is a given argument |
| Cli.FacetArgsByPosition | src/cli.ts:206-211 | with distinct names, each facet maps to its own argument when given and is absent otherwise |
| Cli.FormatFacetParams | src/cli.ts:216-226 | one parameter per facet, in order, joined by spaces |
| Cli.FacetParamsSplit | src/cli.ts:216-226 | the signature splits back into one word per facet: `<name>` exactly for a partition facet, `[name]` otherwise |
| Cli.ClassifyRemovals | src/cli.ts:158-167 | successes and failures in input order, split by whether the message is empty; errors are the distinct non-empty messages |
| Cli.ClassificationPartitions | src/cli.ts:161-167 | every outcome lands in exactly one list: counts add up and the two lists together hold each record once |
| Cli.NonEmptyKeepsOrder | src/cli.ts:160 | `.filter(Boolean)` keeps the order of the strings it keeps |
| Cli.ErrorsAreDistinctMessages | src/cli.ts:160 | the errors are distinct and non-empty, exactly the non-empty messages, in the order in which each message first occurs among the results; an empty message contributes none |
| Cli.BuildConfig | src/cli.ts:287-295 | `params` is set exactly when the table is non-empty or a limit is given; `Table` only for a non-empty table, `Limit` only for a given limit |
| Cli.Execute | src/cli.ts:274-295 | one where clause per filter, appended in order; then the configuration: no parameters exactly when the table is absent or empty and no limit is given, and otherwise the table only when non-empty, and the limit |
| Cli.ValidateQueryParams | src/cli.ts:140-146 | never fails; collects one message exactly when the limit is not a number |
| App.QueryCommands | src/app.ts:91-113 | the loop computes `QueryCommandsOf` |
| App.QueryCommandsAreEligible | src/app.ts:94-109 | exactly the access patterns bound to an entity or a collection get a command, in order |
| App.QuerySignature | src/app.ts:97-109 | the signature is the lower-cased access pattern, then one parameter per facet |
| App.ScanCommandFor | src/app.ts:116-119 | a command exactly when the first instance of that name is an entity, named by the lower-cased entity |
| App.ScanCommands | src/app.ts:115-129 | the loop computes `ScanCommandsOf` |
| App.ScanSignaturesAreOneWord | src/app.ts:119 | scan commands carry no facet parameter |
| Serve.FormatEndpoint | src/serve.ts:108-114 | `/` and the lower-cased prefix for each prefix, then `:name` per facet, joined by `/`; with no facets just the prefix path |
| Serve.PrefixPathIsJoin | src/serve.ts:109-112 | the accumulated prefix path is the join of the lower-cased prefixes after an empty first piece |
| Serve.EndpointSplit | src/serve.ts:108-114 | a path splits back into its prefixes and one segment per facet |
| Serve.Details | src/serve.ts:12 | the facet's pk/sk tag is both its key and its type |
| Serve.QueryRoutes | src/serve.ts:9-16 | one GET route per permutation of the access pattern's facets, in order; an unknown index throws |
| Serve.QueryEndpointsDistinct | src/serve.ts:14-16 | the GET routes of one access pattern are pairwise distinct |
| Serve.PatchRoute | src/serve.ts:39-44 | one PUT route over all facets of the default index |
| Serve.CreateRoute | src/serve.ts:66-70 | one POST route, `/service/accesspattern` lower-cased, without facets |
| Serve.DeleteRoute | src/serve.ts:86-91 | one DELETE route over all facets of the default index |
| Registry.Appended | src/store.ts:43-59 | a taken name without overwrite is kept when the resolved path equals the given one and refused naming the existing file otherwise; in any other case the name reads back as the new entry, other names are untouched, and key order is kept |
| Registry.Removed | src/store.ts:61-73 | without a case-insensitive match nothing changes and `""` is returned; otherwise the first match is removed and returned in its own spelling, and the record is the entries before it followed by those after it |
| Store.ReferenceStore.Get | src/store.ts:36-41 | a missing file is written as `{}` and `{}` returned; otherwise the stored record |
| Store.ReferenceStore.Append | src/store.ts:43-59 | the outcome of `Appended` on the stored record; an assignment is written back, and a refusal leaves the file unchanged |
| Store.ReferenceStore.Remove | src/store.ts:61-73 | the stored record becomes `Removed`'s record, written in either case, and its removed name is returned |
| Store.ServiceName | src/store.ts:84 | the label when it is a non-empty string, the instance's name otherwise |
| Store.ReferenceConfiguration.Add | src/store.ts:83-87 | appends under the chosen name and returns that name; a refused name fails and leaves the file unchanged |
| Store.ReferenceConfiguration.Remove | src/store.ts:89-92 | the store's removal |
| Store.OrNa | src/store.ts:98 | `na` exactly for a missing or empty cell (or one that already reads `na`); a present, non-empty cell shows its own value |
| Store.ReferenceConfiguration.List | src/store.ts:94-101 | one row per service, in key order: name, location, table, endpoint, region |
| Store.ListColumns | src/store.ts:96-98 | every row has the five columns of the head and starts with the service's key |
| Config.ServiceConfig.Get | src/config.ts:27-32 | a missing file is written as `{}` and `{}` returned; otherwise the stored record |
| Config.ServiceConfig.Append | src/config.ts:34-50 | the outcome of `Appended` storing only the resolved path; an assignment is written back, and a refusal leaves the file unchanged |
| Config.ServiceConfig.Remove | src/config.ts:52-64 | the stored record becomes `Removed`'s record, written in either case, and its removed name is returned |

## Left out

- `getItem` (src/instance.ts:186-188, 248-259) and the `item` field of the template data are not modelled. `Templater.CompileInstance` therefore does not fail where `getItem` would: a collection member that is not an entity, or an attribute missing from the collection's attributes.
- `getIndexTypeName` (src/instance.ts:87-89) is not used by the modelled code.
- `isEntity` and `isService` are the constructors of `Instances.Export`: the export's description tag is the constructor.
- The Handlebars runtime is not modelled. This covers `registerHelper`, the `eq`/`ne` block helpers, `Templater.template` and `write`.
- The "Invalid context" and "Can only proper case" throws are not modelled: the types rule out a non-array or non-string argument.
- `Handlebars.Prefix` takes the prefix as a string; an `undefined` prefix, which the source turns into `""`, is that empty string.
- Command registration with commander is not modelled. This covers `loadQueries`, `createQueryCommand`, `executeQuery` and the option definitions. Only the command signatures and descriptions are.
- The service's `queries`, `scans` and `actions` bindings and `getInstance` are taken as inputs (`App.QueryBinding`, `App.BoundInstance`). `ElectroInstance` as shown does not define them.
- Express request handling and `app.listen` are not modelled; only the registered routes are. The console logging of each route is not modelled either.
- The `Promise.all` fan-out of `removeRecords` and every call into the query engine (`go`, `params`, `set`) are not modelled; only the classification of settled outcomes is. `Query.WhereClause` records the where callback's operation, attribute and arguments rather than the text the engine builds.
- `parseInt` and `isNaN` are not modelled. `Cli.BuildConfig` takes the limit as an optional integer. `Cli.ValidateQueryParams` takes the "is a number" test as a parameter.
- Case mapping is ASCII only: `toLowerCase` and `toUpperCase` of other characters are not modelled.
- The filter-parameter tokenizer used by the tests has no source definition, so it is not part of this model.
- File I/O and `JSON.parse` are not modelled: each registry's file is a field. `path.resolve` is the `resolve` function given to the registry.
- The rendering of the `list` table by cli-table is not modelled; only the row contents are.
- `Records.Get` sees only a record's own keys. In JavaScript `r[k]` also finds keys inherited from `Object.prototype`. So `append` (src/store.ts:45-53) treats a name such as `constructor` as already taken, while the model treats it as new. Likewise `getAttribute` (src/instance.ts:103-107) returns the inherited `toString` function for the name `toString`, while the model fails with `Attribute invalid`.
- Object key order is insertion order. JavaScript lists integer-like keys first; that reordering is not modelled.
- The filter parser pushes onto the caller's array in place. `Query.ParseEach` returns the extended list instead, which is the same value when the array is not shared.
- Query.ParseFilter: the value of a `value1`/`value2` word is kept as the split produced it; the `name === undefined` and `value1 === undefined` checks of the source can never fire and have no counterpart.
