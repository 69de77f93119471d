/** The command-line side of querying: positional facet arguments, the facet parameter
    signature, the options turned into a query configuration, and the split of removal
    outcomes into successes, failures and error messages. */
module Cli {
  import opened Wrappers
  import opened Text
  import opened Instances
  import opened Query
  import Sets

  /** The positional argument at `i` is a non-empty string. */
  predicate Given(args: seq<Option<string>>, i: nat) {
    i < |args| && args[i].Some? && args[i].value != ""
  }

  /** The facet values read from the first `n` facets' positions; a later facet of the same
      name overwrites an earlier one. */
  function FacetArgs(args: seq<Option<string>>, facets: seq<Facet>, n: nat): map<string, string>
    requires n <= |facets|
  {
    if n == 0 then map[]
    else if Given(args, n - 1) then FacetArgs(args, facets, n - 1)[facets[n - 1].name := args[n - 1].value]
    else FacetArgs(args, facets, n - 1)
  }

  /** `parseFacets(args, facets)`: `result[facets[i].name] = args[i]` for each non-empty
      positional argument. */
  method ParseFacets(args: seq<Option<string>>, facets: seq<Facet>) returns (result: map<string, string>)
    ensures result == FacetArgs(args, facets, |facets|)
  {
    result := map[];
    for i := 0 to |facets|
      invariant result == FacetArgs(args, facets, i)
    {
      var value := if i < |args| then args[i] else None;
      if value.Some? && value.value != "" {
        result := result[facets[i].name := value.value];
      }
    }
  }

  /** The keys set are exactly the names of facets whose argument was given, and every value
      is one of the given arguments. */
  lemma {:induction false} FacetArgsKeys(args: seq<Option<string>>, facets: seq<Facet>, n: nat)
    requires n <= |facets|
    ensures forall k :: k in FacetArgs(args, facets, n) <==> exists i :: 0 <= i < n && facets[i].name == k && Given(args, i)
    ensures forall k :: k in FacetArgs(args, facets, n) ==>
      exists i :: 0 <= i < n && Given(args, i) && FacetArgs(args, facets, n)[k] == args[i].value
  {
    if n > 0 {
      FacetArgsKeys(args, facets, n - 1);
    }
  }

  /** With distinct facet names, each facet maps to its own argument when given and is absent
      otherwise. */
  lemma {:induction false} FacetArgsByPosition(args: seq<Option<string>>, facets: seq<Facet>, n: nat)
    requires n <= |facets|
    requires forall i, j :: 0 <= i < j < |facets| ==> facets[i].name != facets[j].name
    ensures forall i :: 0 <= i < n && Given(args, i) ==>
      facets[i].name in FacetArgs(args, facets, n) && FacetArgs(args, facets, n)[facets[i].name] == args[i].value
    ensures forall i :: 0 <= i < |facets| && (i >= n || !Given(args, i)) ==> facets[i].name !in FacetArgs(args, facets, n)
  {
    if n > 0 {
      FacetArgsByPosition(args, facets, n - 1);
    }
  }

  /** A partition facet is a required `<name>` argument, any other an optional `[name]`. */
  function Param(f: Facet): string {
    if f.keyType == PK then "<" + f.name + ">" else "[" + f.name + "]"
  }

  function Params(facets: seq<Facet>): (r: seq<string>)
    ensures |r| == |facets|
  {
    seq(|facets|, i requires 0 <= i < |facets| => Param(facets[i]))
  }

  /** `formatFacetParams(facets)`: one parameter per facet, in order, joined by spaces. */
  method FormatFacetParams(facets: seq<Facet>) returns (r: string)
    ensures r == Join(Params(facets), " ")
  {
    var params: seq<string> := [];
    for i := 0 to |facets|
      invariant params == Params(facets[..i])
    {
      if facets[i].keyType == PK {
        params := params + ["<" + facets[i].name + ">"];
      } else {
        params := params + ["[" + facets[i].name + "]"];
      }
    }
    assert facets[..|facets|] == facets;
    r := Join(params, " ");
  }

  /** The signature reads back: splitting it on spaces gives one parameter per facet, in
      order, `<name>` exactly for the partition facets and `[name]` for the others. */
  lemma FacetParamsSplit(facets: seq<Facet>)
    requires facets != []
    requires forall i :: 0 <= i < |facets| ==> ' ' !in facets[i].name
    ensures var words := Split(Join(Params(facets), " "), ' ');
      && |words| == |facets|
      && forall i :: 0 <= i < |facets| ==>
        && |words[i]| == |facets[i].name| + 2
        && words[i][1..|words[i]| - 1] == facets[i].name
        && (words[i][0] == '<' <==> facets[i].keyType == PK)
        && (words[i][|words[i]| - 1] == '>' <==> facets[i].keyType == PK)
  {
    var params := Params(facets);
    forall i | 0 <= i < |params| ensures ' ' !in params[i] {
      assert params[i] == Param(facets[i]);
    }
    JoinSplit(params, ' ');
  }

  /** A settled removal: the error message (`""` for success) and the record. */
  datatype Outcome<T> = Outcome(err: string, result: T)

  function Successes<T>(results: seq<Outcome<T>>): seq<T> {
    if results == [] then []
    else Successes(results[..|results| - 1]) + (if results[|results| - 1].err == "" then [results[|results| - 1].result] else [])
  }

  function Failures<T>(results: seq<Outcome<T>>): seq<T> {
    if results == [] then []
    else Failures(results[..|results| - 1]) + (if results[|results| - 1].err != "" then [results[|results| - 1].result] else [])
  }

  function Messages<T>(results: seq<Outcome<T>>): (r: seq<string>)
    ensures |r| == |results|
  {
    seq(|results|, i requires 0 <= i < |results| => results[i].err)
  }

  /** `.filter(Boolean)` on strings: drop the empty ones. */
  function NonEmpty(xs: seq<string>): seq<string> {
    if xs == [] then []
    else NonEmpty(xs[..|xs| - 1]) + (if xs[|xs| - 1] != "" then [xs[|xs| - 1]] else [])
  }

  lemma {:induction false} NonEmptySpec(xs: seq<string>)
    ensures forall x :: x in NonEmpty(xs) <==> x in xs && x != ""
    ensures Sets.Distinct(xs) ==> Sets.Distinct(NonEmpty(xs))
  {
    if xs != [] {
      var init := xs[..|xs| - 1];
      var x := xs[|xs| - 1];
      NonEmptySpec(init);
      assert xs == init + [x];
      if Sets.Distinct(xs) {
        assert Sets.Distinct(init);
        var n := NonEmpty(init);
        assert x !in n;
        assert NonEmpty(xs) == n + (if x != "" then [x] else []);
      }
    }
  }

  /** The classification step of `removeRecords`: distinct non-empty messages, then each
      outcome pushed to `failure` when its message is non-empty and to `success` otherwise. */
  method ClassifyRemovals<T>(results: seq<Outcome<T>>) returns (success: seq<T>, failure: seq<T>, errors: seq<string>)
    ensures success == Successes(results) && failure == Failures(results)
    ensures errors == NonEmpty(Sets.Unique(Messages(results)))
  {
    success, failure := [], [];
    errors := NonEmpty(Sets.Unique(Messages(results)));
    for i := 0 to |results|
      invariant success == Successes(results[..i]) && failure == Failures(results[..i])
    {
      assert results[..i + 1][..i] == results[..i];
      if results[i].err != "" {
        failure := failure + [results[i].result];
      } else {
        success := success + [results[i].result];
      }
    }
    assert results[..|results|] == results;
  }

  /** The records of the outcomes, in order. */
  function Records<T>(results: seq<Outcome<T>>): seq<T> {
    if results == [] then []
    else Records(results[..|results| - 1]) + [results[|results| - 1].result]
  }

  /** Every outcome lands in exactly one list: the two lists together hold each record once. */
  lemma {:induction false} ClassificationPartitions<T>(results: seq<Outcome<T>>)
    ensures multiset(Successes(results)) + multiset(Failures(results)) == multiset(Records(results))
    ensures |Successes(results)| + |Failures(results)| == |results|
  {
    if results != [] {
      var init := results[..|results| - 1];
      var last := results[|results| - 1];
      ClassificationPartitions(init);
      if last.err == "" {
        assert Successes(results) == Successes(init) + [last.result];
        assert Failures(results) == Failures(init);
      } else {
        assert Successes(results) == Successes(init);
        assert Failures(results) == Failures(init) + [last.result];
      }
    }
  }

  /** Dropping the empty strings keeps the order of the rest. */
  lemma {:induction false} NonEmptyKeepsOrder(xs: seq<string>, m: seq<string>)
    requires Sets.InFirstOccurrenceOrder(xs, m)
    ensures Sets.InFirstOccurrenceOrder(NonEmpty(xs), m)
  {
    if xs != [] {
      var init := xs[..|xs| - 1];
      var x := xs[|xs| - 1];
      var n := NonEmpty(init);
      NonEmptyKeepsOrder(init, m);
      NonEmptySpec(init);
      if x != "" {
        forall i, j | 0 <= i < j < |n + [x]|
          ensures Sets.FirstIndex(m, (n + [x])[i]) < Sets.FirstIndex(m, (n + [x])[j])
        {
          assert (n + [x])[i] == n[i];
          if j < |n| {
            assert (n + [x])[j] == n[j];
          } else {
            assert n[i] in n;
            var k :| 0 <= k < |init| && init[k] == n[i];
            assert xs[k] == n[i] && xs[|xs| - 1] == x;
          }
        }
      }
    }
  }

  /** The reported errors are the distinct non-empty messages, each once, in the order in
      which they first occur among the outcomes; a removal whose message is empty is counted
      as a success and contributes no error. */
  lemma ErrorsAreDistinctMessages<T>(results: seq<Outcome<T>>)
    ensures var errors := NonEmpty(Sets.Unique(Messages(results)));
      && Sets.Distinct(errors)
      && "" !in errors
      && (forall e :: e in errors <==> e != "" && exists i :: 0 <= i < |results| && results[i].err == e)
      && Sets.InFirstOccurrenceOrder(errors, Messages(results))
  {
    var m := Messages(results);
    Sets.UniqueSpec(m);
    Sets.UniqueFirstOccurrenceOrder(m);
    NonEmptyKeepsOrder(Sets.Unique(m), m);
    NonEmptySpec(Sets.Unique(m));
    forall e ensures e in m <==> exists i :: 0 <= i < |results| && results[i].err == e {
      if e in m {
        var i :| 0 <= i < |m| && m[i] == e;
        assert results[i].err == e;
      }
      if exists i :: 0 <= i < |results| && results[i].err == e {
        var i :| 0 <= i < |results| && results[i].err == e;
        assert m[i] == e;
      }
    }
  }

  /** The parts of the query configuration `execute` sets. */
  datatype QueryParams = QueryParams(table: Option<string>, limit: Option<int>)

  /** `config`: `{}` (no `params`) or `{params}`. */
  datatype QueryConfiguration = QueryConfiguration(params: Option<QueryParams>)

  /** The configuration step of `execute`: `params.Table` when the table option is a
      non-empty string, `params.Limit` when a limit was given; otherwise `config` stays `{}`. */
  method BuildConfig(table: Option<string>, limit: Option<int>) returns (config: QueryConfiguration)
    ensures config.params.None? <==> (table.None? || table.value == "") && limit.None?
    ensures config.params.Some? ==>
      && config.params.value.table == (if table.Some? && table.value != "" then table else None)
      && config.params.value.limit == limit
  {
    config := QueryConfiguration(None);
    if table.Some? && table.value != "" {
      var params := config.params.GetOr(QueryParams(None, None));
      config := QueryConfiguration(Some(params.(table := table)));
    }
    if limit.Some? {
      var params := config.params.GetOr(QueryParams(None, None));
      config := QueryConfiguration(Some(params.(limit := limit)));
    }
  }

  /** `execute` up to the engine call: one where clause per filter on the query, then the
      configuration. */
  method Execute(query: QueryOperation, filters: seq<FilterOption>, table: Option<string>, limit: Option<int>)
    returns (config: QueryConfiguration)
    modifies query
    ensures query.wheres == old(query.wheres) + Wheres(filters)
    ensures config.params.None? <==> (table.None? || table.value == "") && limit.None?
    ensures config.params.Some? ==>
      && config.params.value.table == (if table.Some? && table.value != "" then table else None)
      && config.params.value.limit == limit
  {
    var _ := ApplyFilter(query, filters);
    config := BuildConfig(table, limit);
  }

  const LIMIT_ERROR_PREFIX := "Query option '-l, --limit' is not a number: \""

  /** `validateQueryParams`: collects a message when the limit does not parse as a number
      (`isNumber` stands for `!isNaN(parseInt(limit))`), and then drops it: validation never
      fails. */
  method ValidateQueryParams(limit: Option<string>, isNumber: string -> bool) returns (errors: seq<string>, r: Result<(), string>)
    ensures r.Success?
    ensures |errors| <= 1
    ensures errors != [] <==> limit.Some? && !isNumber(limit.value)
    ensures errors != [] ==> errors[0] == LIMIT_ERROR_PREFIX + limit.value + "\""
  {
    errors := [];
    if limit.Some? && !isNumber(limit.value) {
      errors := errors + [LIMIT_ERROR_PREFIX + limit.value + "\""];
    }
    r := Success(());
  }
}
