/** The `--filter`/`--where` expressions of the command line: parsing
    `"<attribute> <operation> <value1> [value2]"` into a filter and turning each filter into
    a where clause on the query. */
module Query {
  import opened Wrappers
  import opened Text

  const FILTER_OPERATIONS: seq<string> :=
    ["eq", "gt", "lt", "gte", "lte", "between", "begins", "exists", "notExists", "contains", "notContains"]

  /** `isOperation`: exact, case-sensitive membership in the operation list. */
  predicate IsOperation(operation: string) {
    operation in FILTER_OPERATIONS
  }

  /** A parsed filter; `value2` is `undefined` when the expression has fewer than four words. */
  datatype FilterOption = FilterOption(attribute: string, operation: string, value1: string, value2: Option<string>)

  const FORMAT_ERROR: string := "Where expressions must be in the format of \"<attribute> <operation> <value1> [value2]\""

  function AttributeError(name: string, attributes: seq<string>): string {
    "Where attribute " + name + " is not a valid attribute. Valid attributes include " + Join(attributes, ", ") + "."
  }

  function OperationError(operation: string): string {
    "Where operation " + operation + " is not a valid attribute. Valid attributes include " + Join(FILTER_OPERATIONS, ", ") + "."
  }

  /** The words of an expression: `val.split(" ")`. */
  function Words(val: string): (r: seq<string>)
    ensures |r| >= 2 <==> ' ' in val
  {
    SplitCount(val, ' ');
    Split(val, ' ')
  }

  /** Index of the first attribute equal to `name` ignoring case, or `|attributes|`. */
  function FirstIgnoringCase(attributes: seq<string>, name: string): (i: nat)
    ensures i <= |attributes|
    ensures i < |attributes| ==> EqualsIgnoreCase(attributes[i], name)
    ensures forall j :: 0 <= j < i ==> !EqualsIgnoreCase(attributes[j], name)
  {
    if attributes == [] then 0
    else if EqualsIgnoreCase(attributes[0], name) then 0
    else 1 + FirstIgnoringCase(attributes[1..], name)
  }

  /** `attributes.find(a => a.toLowerCase() === name.toLowerCase())`. */
  function FindIgnoringCase(attributes: seq<string>, name: string): (r: Option<string>)
    ensures r.None? <==> forall a :: a in attributes ==> !EqualsIgnoreCase(a, name)
    ensures r.Some? ==> exists i ::
      && 0 <= i < |attributes| && attributes[i] == r.value && EqualsIgnoreCase(r.value, name)
      && forall j :: 0 <= j < i ==> !EqualsIgnoreCase(attributes[j], name)
  {
    var i := FirstIgnoringCase(attributes, name);
    if i < |attributes| then Some(attributes[i]) else None
  }

  /** The filter parser, as one step of the fold: split the expression on single spaces and
      check the words in order. */
  function ParseFilter(attributes: seq<string>, val: string): Result<FilterOption, string> {
    var words := Words(val);
    var name := words[0];
    var attribute := FindIgnoringCase(attributes, name);
    if |words| < 2 then Failure(FORMAT_ERROR)
    else if attribute.None? || attribute.value == "" then Failure(AttributeError(name, attributes))
    else if !IsOperation(words[1]) then Failure(OperationError(words[1]))
    else
      Success(FilterOption(
        attribute.value, words[1],
        if |words| > 2 then words[2] else "",
        if |words| > 3 then Some(words[3]) else None))
  }

  /** What the parser checks, in order: a missing operation is a format error; then the first
      word must name an attribute (ignoring case; the attribute's own spelling is kept, and an
      empty name counts as missing); then the second word must be an operation. A parsed
      filter's values are single words: further words are ignored. An expression that passes
      every check parses. */
  lemma ParseFilterSpec(attributes: seq<string>, val: string)
    ensures ParseFilter(attributes, val).Success? <==>
      && ' ' in val
      && FindIgnoringCase(attributes, Words(val)[0]).Some?
      && FindIgnoringCase(attributes, Words(val)[0]).value != ""
      && IsOperation(Words(val)[1])
    ensures ' ' !in val ==> ParseFilter(attributes, val) == Failure(FORMAT_ERROR)
    ensures ' ' in val ==>
      var name := Words(val)[0];
      var found := FindIgnoringCase(attributes, name);
      && (found.None? || found.value == "" ==> ParseFilter(attributes, val) == Failure(AttributeError(name, attributes)))
      && (found.Some? && found.value != "" && !IsOperation(Words(val)[1]) ==>
            ParseFilter(attributes, val) == Failure(OperationError(Words(val)[1])))
    ensures var r := ParseFilter(attributes, val);
      r.Success? ==>
      && r.value.attribute in attributes && r.value.attribute != ""
      && EqualsIgnoreCase(r.value.attribute, Words(val)[0])
      && r.value.attribute == FindIgnoringCase(attributes, Words(val)[0]).value
      && IsOperation(r.value.operation) && r.value.operation == Words(val)[1]
      && r.value.value1 == (if |Words(val)| > 2 then Words(val)[2] else "")
      && r.value.value2 == (if |Words(val)| > 3 then Some(Words(val)[3]) else None)
      && ' ' !in r.value.value1
      && (r.value.value2.Some? ==> ' ' !in r.value.value2.value)
  {
    SplitJoin(val, ' ');
  }

  /** Words after the fourth are ignored: the expression parses as its first four words do. */
  lemma ParseIgnoresExtraWords(attributes: seq<string>, val: string)
    requires |Words(val)| > 4
    ensures ParseFilter(attributes, val) == ParseFilter(attributes, Join(Words(val)[..4], " "))
  {
    var words := Words(val);
    SplitJoin(val, ' ');
    forall i | 0 <= i < 4 ensures ' ' !in words[..4][i] {
      assert words[..4][i] == words[i];
    }
    JoinSplit(words[..4], ' ');
    assert Words(Join(words[..4], " ")) == words[..4];
  }

  /** A filter written back as an expression. */
  function Render(f: FilterOption): string {
    Join([f.attribute, f.operation, f.value1] + (if f.value2.Some? then [f.value2.value] else []), " ")
  }

  /** Parsing a rendered filter gives the filter back, for any filter the parser could have
      produced: a valid operation, an attribute that is its own first case-insensitive match,
      and words without spaces. */
  lemma ParseRender(attributes: seq<string>, f: FilterOption)
    requires FindIgnoringCase(attributes, f.attribute) == Some(f.attribute) && f.attribute != ""
    requires IsOperation(f.operation)
    requires ' ' !in f.attribute && ' ' !in f.operation && ' ' !in f.value1
    requires f.value2.Some? ==> ' ' !in f.value2.value
    ensures ParseFilter(attributes, Render(f)) == Success(f)
  {
    var parts := [f.attribute, f.operation, f.value1] + (if f.value2.Some? then [f.value2.value] else []);
    JoinSplit(parts, ' ');
    var words := Words(Render(f));
    assert words == parts;
    assert words[0] == f.attribute && words[1] == f.operation && words[2] == f.value1;
    if f.value2.Some? {
      assert |words| == 4 && words[3] == f.value2.value;
    } else {
      assert |words| == 3;
    }
  }

  /** The parser's result for each expression, in order. */
  function Parsed(attributes: seq<string>, filters: seq<string>): (r: seq<Result<FilterOption, string>>)
    ensures |r| == |filters|
    ensures forall i :: 0 <= i < |filters| ==> r[i] == ParseFilter(attributes, filters[i])
  {
    seq(|filters|, i requires 0 <= i < |filters| => ParseFilter(attributes, filters[i]))
  }

  /** Each expression parsed in turn, stopping at the first error (`reduce` over the list). */
  function ParseEach(attributes: seq<string>, filters: seq<string>): Result<seq<FilterOption>, string> {
    Collect(Parsed(attributes, filters))
  }

  /** A list of expressions parses exactly when every expression does, to their filters in
      input order. */
  lemma ParseEachSuccess(attributes: seq<string>, filters: seq<string>)
    ensures ParseEach(attributes, filters).Success? <==> forall i :: 0 <= i < |filters| ==> ParseFilter(attributes, filters[i]).Success?
    ensures ParseEach(attributes, filters).Success? ==>
      && |ParseEach(attributes, filters).value| == |filters|
      && forall i :: 0 <= i < |filters| ==> ParseEach(attributes, filters).value[i] == ParseFilter(attributes, filters[i]).value
  {
    var results := Parsed(attributes, filters);
    CollectSuccess(results);
    assert ParseEach(attributes, filters) == Collect(results);
  }

  /** A list of expressions fails with the error of the first expression that fails. */
  lemma ParseEachFailure(attributes: seq<string>, filters: seq<string>)
    ensures ParseEach(attributes, filters).Failure? ==>
      exists i :: 0 <= i < |filters|
        && ParseFilter(attributes, filters[i]) == Failure(ParseEach(attributes, filters).error)
        && forall j :: 0 <= j < i ==> ParseFilter(attributes, filters[j]).Success?
  {
    var results := Parsed(attributes, filters);
    CollectFailure(results);
    assert ParseEach(attributes, filters) == Collect(results);
    if Collect(results).Failure? {
      var i :| 0 <= i < |results|
        && results[i] == Failure(Collect(results).error)
        && forall j :: 0 <= j < i ==> results[j].Success?;
      assert ParseFilter(attributes, filters[i]) == Failure(ParseEach(attributes, filters).error);
    }
  }

  /** `RequestFilters`: one expression or a list of them. */
  datatype RequestFilters = One(filter: string) | Many(filters: seq<string>)

  /** `parseFilters`: a single expression is parsed like a list holding only it. */
  function ParseFilters(attributes: seq<string>, filters: RequestFilters): (r: Result<seq<FilterOption>, string>)
    ensures filters.One? ==> r == ParseEach(attributes, [filters.filter])
    ensures filters.Many? ==> r == ParseEach(attributes, filters.filters)
  {
    match filters
    case One(val) =>
      var results := Parsed(attributes, [val]);
      assert ParseEach(attributes, [val]) == Collect(results);
      var parsed := ParseFilter(attributes, val);
      if parsed.Success? then
        CollectValues(results, [parsed.value]);
        Success([parsed.value])
      else
        CollectFirstFailure(results, 0);
        Failure(parsed.error)
    case Many(vals) => ParseEach(attributes, vals)
  }

  /** A where clause as the query builder records it: the operation applied to the attribute
      and zero, one or two values. */
  datatype WhereClause = WhereClause(operation: string, attribute: string, args: seq<string>)

  /** The where callback of `applyFilter`: both values when `value2` is non-empty, else
      `value1` alone when it is non-empty, else no value. */
  function WhereFor(f: FilterOption): (w: WhereClause)
    ensures w.operation == f.operation && w.attribute == f.attribute
    ensures |w.args| == 2 <==> f.value2.Some? && f.value2.value != ""
    ensures |w.args| == 1 <==> !(f.value2.Some? && f.value2.value != "") && f.value1 != ""
    ensures |w.args| <= 2 && w.args == [f.value1, f.value2.GetOr("")][..|w.args|]
    ensures forall a :: a in w.args ==> a != "" || a == f.value1
  {
    if f.value2.Some? && f.value2.value != "" then WhereClause(f.operation, f.attribute, [f.value1, f.value2.value])
    else if f.value1 != "" then WhereClause(f.operation, f.attribute, [f.value1])
    else WhereClause(f.operation, f.attribute, [])
  }

  function Wheres(filters: seq<FilterOption>): (r: seq<WhereClause>)
    ensures |r| == |filters|
  {
    seq(|filters|, i requires 0 <= i < |filters| => WhereFor(filters[i]))
  }

  /** The query being built; only the where clauses it collects are modelled. */
  class QueryOperation {
    var wheres: seq<WhereClause>

    constructor ()
      ensures wheres == []
    {
      wheres := [];
    }

    /** `query.where(callback)`: records one more clause. */
    method Where(clause: WhereClause)
      modifies this
      ensures wheres == old(wheres) + [clause]
    {
      wheres := wheres + [clause];
    }
  }

  /** `applyFilter(query, filters)`: adds one where clause per filter, in order, and returns
      the same query. */
  method ApplyFilter(query: QueryOperation, filters: seq<FilterOption>) returns (q: QueryOperation)
    modifies query
    ensures q == query
    ensures query.wheres == old(query.wheres) + Wheres(filters)
  {
    for i := 0 to |filters|
      invariant query.wheres == old(query.wheres) + Wheres(filters[..i])
    {
      assert Wheres(filters[..i + 1]) == Wheres(filters[..i]) + [WhereFor(filters[i])];
      query.Where(WhereFor(filters[i]));
    }
    assert filters[..|filters|] == filters;
    return query;
  }

  /** Every clause added for parsed filters names one of the attributes and a valid
      operation, with at most two values. */
  lemma ParsedWheresAreValid(attributes: seq<string>, filters: seq<string>)
    requires ParseEach(attributes, filters).Success?
    ensures forall w :: w in Wheres(ParseEach(attributes, filters).value) ==>
      w.attribute in attributes && IsOperation(w.operation) && |w.args| <= 2
  {
    var parsed := ParseEach(attributes, filters).value;
    ParseEachSuccess(attributes, filters);
    forall w | w in Wheres(parsed) ensures w.attribute in attributes && IsOperation(w.operation) && |w.args| <= 2 {
      var i :| 0 <= i < |parsed| && Wheres(parsed)[i] == w;
      ParseFilterSpec(attributes, filters[i]);
    }
  }
}
