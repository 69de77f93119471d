/** The routes the local REST server registers for an instance: one GET route per facet
    permutation of the access pattern's index, a PUT and a DELETE route over the default
    index's facets, and a POST route without facets. Request handling is not modelled. */
module Serve {
  import opened Wrappers
  import opened Text
  import opened Instances
  import opened Templater
  import opened Handlebars

  datatype Verb = GET | PUT | POST | DELETE

  datatype Route = Route(verb: Verb, path: string)

  function Lowered(prefixes: seq<string>): (r: seq<string>)
    ensures |r| == |prefixes|
  {
    seq(|prefixes|, i requires 0 <= i < |prefixes| => Lower(prefixes[i]))
  }

  function Segments(names: seq<string>): (r: seq<string>)
    ensures |r| == |names|
  {
    seq(|names|, i requires 0 <= i < |names| => ":" + names[i])
  }

  /** The route path: an empty first piece (the leading `/`), the lower-cased prefixes, then
      `:name` per facet, joined by `/`. */
  function Endpoint(names: seq<string>, prefixes: seq<string>): string {
    Join([""] + Lowered(prefixes) + Segments(names), "/")
  }

  /** The prefix path `formatEndpoint` accumulates: `/` and the lower-cased prefix, each in turn. */
  function PrefixPath(prefixes: seq<string>): string {
    if prefixes == [] then ""
    else PrefixPath(prefixes[..|prefixes| - 1]) + "/" + Lower(prefixes[|prefixes| - 1])
  }

  lemma {:induction false} PrefixPathIsJoin(prefixes: seq<string>)
    ensures PrefixPath(prefixes) == Join([""] + Lowered(prefixes), "/")
  {
    if prefixes != [] {
      var init := prefixes[..|prefixes| - 1];
      PrefixPathIsJoin(init);
      assert [""] + Lowered(prefixes) == ([""] + Lowered(init)) + [Lower(prefixes[|prefixes| - 1])];
      JoinAppend([""] + Lowered(init), Lower(prefixes[|prefixes| - 1]), "/");
    }
  }

  /** `formatEndpoint(facets, ...prefixes)`: `/prefix` per prefix, lower-cased, then the
      facet segments, not lower-cased, joined by `/`; without facets just the prefix path. */
  method FormatEndpoint(names: seq<string>, prefixes: seq<string>) returns (r: string)
    ensures r == Endpoint(names, prefixes)
    ensures names == [] ==> r == PrefixPath(prefixes)
  {
    var endpoint := "";
    for i := 0 to |prefixes|
      invariant endpoint == PrefixPath(prefixes[..i])
    {
      assert prefixes[..i + 1][..i] == prefixes[..i];
      endpoint := endpoint + "/" + Lower(prefixes[i]);
    }
    assert prefixes[..|prefixes|] == prefixes;
    r := Join([endpoint] + Segments(names), "/");
    PrefixPathIsJoin(prefixes);
    JoinFlatten([""] + Lowered(prefixes), Segments(names), "/");
  }

  /** A path reads back: split on `/` it gives the empty leading piece, the lower-cased
      prefixes and one `:name` segment per facet, whenever no prefix or name contains `/`. */
  lemma EndpointSplit(names: seq<string>, prefixes: seq<string>)
    requires forall i :: 0 <= i < |prefixes| ==> '/' !in prefixes[i]
    requires forall i :: 0 <= i < |names| ==> '/' !in names[i]
    ensures Split(Endpoint(names, prefixes), '/') == [""] + Lowered(prefixes) + Segments(names)
    ensures |Split(Endpoint(names, prefixes), '/')| == 1 + |prefixes| + |names|
  {
    var parts := [""] + Lowered(prefixes) + Segments(names);
    forall i | 0 <= i < |parts| ensures '/' !in parts[i] {
      if i > |prefixes| {
        assert parts[i] == ":" + names[i - 1 - |prefixes|];
      }
    }
    JoinSplit(parts, '/');
  }

  function Names(facets: seq<IndexType>): (r: seq<string>)
    ensures |r| == |facets|
  {
    seq(|facets|, i requires 0 <= i < |facets| => facets[i].name)
  }

  function FacetNames(facets: seq<Facet>): (r: seq<string>)
    ensures |r| == |facets|
  {
    seq(|facets|, i requires 0 <= i < |facets| => facets[i].name)
  }

  /** `facetDetail`: the facet's pk/sk tag serves as both its key and its type. */
  function Details(facets: seq<Facet>): (r: seq<FacetDetail>)
    ensures |r| == |facets|
    ensures forall i :: 0 <= i < |r| ==>
      r[i].key == facets[i].keyType && r[i].name == facets[i].name && r[i].typeName == KeyTypeText(facets[i].keyType)
  {
    seq(|facets|, i requires 0 <= i < |facets| => FacetDetail(facets[i].keyType, facets[i].name, KeyTypeText(facets[i].keyType)))
  }

  /** `queryController`: one GET route per permutation of the facets of the access pattern's
      index (the default index when the access pattern names none), in permutation order;
      reading the facets of an unknown index fails. */
  method QueryRoutes(name: string, accessPattern: string, instance: Instance) returns (r: Result<seq<Route>, string>)
    ensures var facets := instance.Facets(instance.GetIndexName(accessPattern).GetOr(""));
      && (r.Failure? <==> facets.Failure?)
      && (r.Failure? ==> r.error == facets.error)
      && (r.Success? ==>
        var perms := Permutations(Details(facets.value));
        && |r.value| == |perms|
        && forall i :: 0 <= i < |perms| ==> r.value[i] == Route(GET, Endpoint(Names(perms[i]), [name, accessPattern])))
  {
    var index := instance.GetIndexName(accessPattern);
    var facets :- instance.GetFacets(index.GetOr(""));
    var facetDetail := Details(facets);
    var permutations := GetFacetPermutations(facetDetail);
    var routes: seq<Route> := [];
    for i := 0 to |permutations|
      invariant |routes| == i
      invariant forall k :: 0 <= k < i ==> routes[k] == Route(GET, Endpoint(Names(permutations[k]), [name, accessPattern]))
    {
      var endpoint := FormatEndpoint(Names(permutations[i]), [name, accessPattern]);
      routes := routes + [Route(GET, endpoint)];
    }
    return Success(routes);
  }

  /** The GET routes of one access pattern are pairwise distinct: each permutation is longer
      than the one before, so its path has more segments. */
  lemma QueryEndpointsDistinct(facets: seq<Facet>, prefixes: seq<string>)
    requires forall i :: 0 <= i < |prefixes| ==> '/' !in prefixes[i]
    requires forall i :: 0 <= i < |facets| ==> '/' !in facets[i].name
    ensures var perms := Permutations(Details(facets));
      forall i, j :: 0 <= i < j < |perms| ==> Endpoint(Names(perms[i]), prefixes) != Endpoint(Names(perms[j]), prefixes)
  {
    var details := Details(facets);
    var perms := Permutations(details);
    PermutationsShape(details);
    forall k, m | 0 <= k < |perms| && 0 <= m < |perms[k]| ensures '/' !in Names(perms[k])[m] {
      assert perms[k] == Project(details[..|perms[k]|]);
      assert Names(perms[k])[m] == facets[m].name;
    }
    forall i, j | 0 <= i < j < |perms| ensures Endpoint(Names(perms[i]), prefixes) != Endpoint(Names(perms[j]), prefixes) {
      EndpointSplit(Names(perms[i]), prefixes);
      EndpointSplit(Names(perms[j]), prefixes);
    }
  }

  /** `patchController`: one PUT route over the facets of the default index. */
  method PatchRoute(name: string, accessPattern: string, instance: Instance) returns (r: Result<Route, string>)
    ensures r.Failure? <==> instance.Facets("").Failure?
    ensures r.Failure? ==> r.error == instance.Facets("").error
    ensures r.Success? ==> r.value == Route(PUT, Endpoint(FacetNames(instance.Facets("").value), [name, accessPattern]))
  {
    var facets :- instance.GetFacets("");
    var endpoint := FormatEndpoint(FacetNames(facets), [name, accessPattern]);
    return Success(Route(PUT, endpoint));
  }

  /** `createController`: one POST route without facets: the service and access pattern, lower-cased. */
  method CreateRoute(name: string, accessPattern: string) returns (r: Route)
    ensures r == Route(POST, "/" + Lower(name) + "/" + Lower(accessPattern))
  {
    var endpoint := FormatEndpoint([], [name, accessPattern]);
    assert [name, accessPattern][..1] == [name] && [name][..0] == [];
    assert PrefixPath([name]) == "/" + Lower(name);
    return Route(POST, endpoint);
  }

  /** `deleteController`: one DELETE route over the facets of the default index. */
  method DeleteRoute(name: string, accessPattern: string, instance: Instance) returns (r: Result<Route, string>)
    ensures r.Failure? <==> instance.Facets("").Failure?
    ensures r.Failure? ==> r.error == instance.Facets("").error
    ensures r.Success? ==> r.value == Route(DELETE, Endpoint(FacetNames(instance.Facets("").value), [name, accessPattern]))
  {
    var facets :- instance.GetFacets("");
    var endpoint := FormatEndpoint(FacetNames(facets), [name, accessPattern]);
    return Success(Route(DELETE, endpoint));
  }
}
