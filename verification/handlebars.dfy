/** The Handlebars helpers of the type generator: the partial-key permutations of an index's
    facets, their rendering as a union of record types, and small list and string helpers.
    Registering the helpers with Handlebars, and the `eq`/`ne` block helpers, are not part
    of this model. */
module Handlebars {
  import opened Wrappers
  import opened Text
  import opened Instances
  import opened Templater

  /** One facet of a permutation: its name and type, without the pk/sk tag. */
  datatype IndexType = IndexType(name: string, typeName: string)

  /** The facets of `values`, in order, with the pk/sk tag dropped. */
  function Project(values: seq<FacetDetail>): (r: seq<IndexType>)
    ensures |r| == |values|
  {
    seq(|values|, i requires 0 <= i < |values| => IndexType(values[i].name, values[i].typeName))
  }

  /** Position `i` is no stopping point when it and the next facet are both partition facets:
      a composite partition key is supplied whole. */
  predicate Skipped(values: seq<FacetDetail>, i: nat)
    requires i < |values|
  {
    values[i].key == PK && i + 1 < |values| && values[i + 1].key == PK
  }

  /** The permutations contributed by the first `n` positions. */
  function PermutationsUpTo(values: seq<FacetDetail>, n: nat): seq<seq<IndexType>>
    requires n <= |values|
  {
    if n == 0 then []
    else PermutationsUpTo(values, n - 1) + (if Skipped(values, n - 1) then [] else [Project(values[..n])])
  }

  /** `getFacetPermutations` as a value. */
  function Permutations(values: seq<FacetDetail>): seq<seq<IndexType>> {
    PermutationsUpTo(values, |values|)
  }

  /** `getFacetPermutations`: for every position not skipped, push the prefix ending there,
      copied facet by facet. */
  method GetFacetPermutations(values: seq<FacetDetail>) returns (permutations: seq<seq<IndexType>>)
    ensures permutations == Permutations(values)
  {
    permutations := [];
    for i := 0 to |values|
      invariant permutations == PermutationsUpTo(values, i)
    {
      if values[i].key == PK && i + 1 < |values| && values[i + 1].key == PK {
        continue;
      }
      var facets: seq<IndexType> := [];
      for j := 0 to i + 1
        invariant facets == Project(values[..j])
      {
        assert values[..j + 1] == values[..j] + [values[j]];
        facets := facets + [IndexType(values[j].name, values[j].typeName)];
      }
      permutations := permutations + [facets];
    }
  }

  /** Every permutation is the tag-free prefix of the facets ending at a position that is not
      skipped, and lengths strictly increase. */
  lemma {:induction false} PermutationsUpToShape(values: seq<FacetDetail>, n: nat)
    requires n <= |values|
    ensures forall k :: 0 <= k < |PermutationsUpTo(values, n)| ==>
      var q := PermutationsUpTo(values, n)[k];
      1 <= |q| <= n && q == Project(values[..|q|]) && !Skipped(values, |q| - 1)
    ensures forall k, l :: 0 <= k < l < |PermutationsUpTo(values, n)| ==>
      |PermutationsUpTo(values, n)[k]| < |PermutationsUpTo(values, n)[l]|
  {
    if n > 0 {
      PermutationsUpToShape(values, n - 1);
      var before := PermutationsUpTo(values, n - 1);
      var p := PermutationsUpTo(values, n);
      assert p == before + (if Skipped(values, n - 1) then [] else [Project(values[..n])]);
      forall k | 0 <= k < |p|
        ensures 1 <= |p[k]| <= n && p[k] == Project(values[..|p[k]|]) && !Skipped(values, |p[k]| - 1)
      {
        if k < |before| {
          assert p[k] == before[k];
        } else {
          assert p[k] == Project(values[..n]);
        }
      }
      forall k, l | 0 <= k < l < |p| ensures |p[k]| < |p[l]| {
        assert p[k] == before[k];
        if l < |before| {
          assert p[l] == before[l];
        } else {
          assert p[l] == Project(values[..n]);
        }
      }
    }
  }

  /** A prefix is emitted exactly when its last position is not skipped. */
  lemma {:induction false} PermutationsUpToMembers(values: seq<FacetDetail>, n: nat)
    requires n <= |values|
    ensures forall m :: 1 <= m <= n ==> (Project(values[..m]) in PermutationsUpTo(values, n) <==> !Skipped(values, m - 1))
  {
    if n > 0 {
      PermutationsUpToMembers(values, n - 1);
      PermutationsUpToShape(values, n - 1);
      var before := PermutationsUpTo(values, n - 1);
      var p := PermutationsUpTo(values, n);
      var full := Project(values[..n]);
      assert p == before + (if Skipped(values, n - 1) then [] else [full]);
      forall k | 0 <= k < |before| ensures before[k] != full {
        assert |before[k]| < n;
      }
      forall m | 1 <= m <= n ensures Project(values[..m]) in p <==> !Skipped(values, m - 1) {
        if m < n {
          assert |Project(values[..m])| != |full|;
        }
      }
    }
  }

  /** The properties of `getFacetPermutations` over the whole facet list: the shape above,
      no output for no input, and for a non-empty list the full list comes last. */
  lemma PermutationsShape(values: seq<FacetDetail>)
    ensures var p := Permutations(values);
      && (forall k :: 0 <= k < |p| ==>
            1 <= |p[k]| <= |values| && p[k] == Project(values[..|p[k]|]) && !Skipped(values, |p[k]| - 1))
      && (forall k, l :: 0 <= k < l < |p| ==> |p[k]| < |p[l]| && p[k] == p[l][..|p[k]|])
      && (forall m :: 1 <= m <= |values| ==> (Project(values[..m]) in p <==> !Skipped(values, m - 1)))
      && (values == [] <==> p == [])
      && (values != [] ==> p[|p| - 1] == Project(values))
  {
    PermutationsUpToShape(values, |values|);
    PermutationsUpToMembers(values, |values|);
    var p := Permutations(values);
    forall k, l | 0 <= k < l < |p| ensures p[k] == p[l][..|p[k]|] {
      assert values[..|p[l]|][..|p[k]|] == values[..|p[k]|];
    }
    if values != [] {
      assert values[..|values|] == values;
    }
  }

  /** All partition facets first (at least one), then sort facets only. */
  predicate PartitionThenSort(values: seq<FacetDetail>, p: nat) {
    1 <= p <= |values|
    && (forall i :: 0 <= i < p ==> values[i].key == PK)
    && (forall i :: p <= i < |values| ==> values[i].key == SK)
  }

  lemma {:induction false} PermutationCountUpTo(values: seq<FacetDetail>, p: nat, n: nat)
    requires PartitionThenSort(values, p) && n <= |values|
    ensures n < p ==> PermutationsUpTo(values, n) == []
    ensures n >= p ==>
      && |PermutationsUpTo(values, n)| == n - p + 1
      && forall k :: 0 <= k < n - p + 1 ==> |PermutationsUpTo(values, n)[k]| == p + k
  {
    if n > 0 {
      PermutationCountUpTo(values, p, n - 1);
    }
  }

  /** With `p >= 1` partition facets followed by `s` sort facets there are `1 + s`
      permutations, of lengths `p`, `p + 1`, ..., `p + s`. */
  lemma PermutationCount(values: seq<FacetDetail>, p: nat)
    requires PartitionThenSort(values, p)
    ensures |Permutations(values)| == 1 + (|values| - p)
    ensures forall k :: 0 <= k < |Permutations(values)| ==> |Permutations(values)[k]| == p + k
  {
    PermutationCountUpTo(values, p, |values|);
  }

  /** `name: type` pairs joined by `; ` inside braces. */
  function Member(facets: seq<IndexType>): string {
    "{ " + Join(seq(|facets|, i requires 0 <= i < |facets| => facets[i].name + ": " + facets[i].typeName), "; ") + " }"
  }

  function Members(values: seq<seq<IndexType>>): (r: seq<string>)
    ensures |r| == |values|
  {
    seq(|values|, i requires 0 <= i < |values| => Member(values[i]))
  }

  /** `concatIndexType(values = [])`: the members joined by ` | `, or `{}` for no members. */
  function ConcatIndexType(values: Option<seq<seq<IndexType>>>): (r: string)
    ensures values.GetOr([]) == [] <==> r == "{}"
    ensures values.GetOr([]) != [] ==> r == Join(Members(values.GetOr([])), " | ")
  {
    var members := Members(values.GetOr([]));
    var joined := Join(members, " | ");
    if members == [] then "{}"
    else
      JoinStartsWithFirst(members, " | ");
      assert joined[..2] == members[0][..2];
      if joined == "" then "{}" else joined
  }

  lemma {:induction false} JoinStartsWithFirst(parts: seq<string>, sep: string)
    requires |parts| >= 1
    ensures |Join(parts, sep)| >= |parts[0]| && Join(parts, sep)[..|parts[0]|] == parts[0]
  {
  }

  /** The rendering lists the members in permutation order: the first member, then the
      rendering of the rest. */
  lemma ConcatIndexTypeCons(p: seq<IndexType>, rest: seq<seq<IndexType>>)
    requires rest != []
    ensures ConcatIndexType(Some([p] + rest)) == Member(p) + " | " + ConcatIndexType(Some(rest))
  {
    assert Members([p] + rest)[1..] == Members(rest);
  }

  /** How often character `c` occurs in all of `parts`. */
  function Occurrences(parts: seq<string>, c: char): nat {
    if parts == [] then 0 else multiset(parts[0])[c] + Occurrences(parts[1..], c)
  }

  lemma {:induction false} JoinOccurrences(parts: seq<string>, sep: string, c: char)
    requires c !in sep
    ensures multiset(Join(parts, sep))[c] == Occurrences(parts, c)
  {
    if |parts| > 1 {
      JoinOccurrences(parts[1..], sep, c);
      assert multiset(parts[0] + sep + Join(parts[1..], sep)) == multiset(parts[0]) + multiset(sep) + multiset(Join(parts[1..], sep));
    }
  }

  /** A facet name or type containing `{` would make the member count unreadable. */
  predicate NoBraces(values: seq<seq<IndexType>>) {
    forall k, i :: 0 <= k < |values| && 0 <= i < |values[k]| ==> '{' !in values[k][i].name && '{' !in values[k][i].typeName
  }

  lemma MemberHasOneBrace(facets: seq<IndexType>)
    requires forall i :: 0 <= i < |facets| ==> '{' !in facets[i].name && '{' !in facets[i].typeName
    ensures multiset(Member(facets))['{'] == 1
  {
    var pairs := seq(|facets|, i requires 0 <= i < |facets| => facets[i].name + ": " + facets[i].typeName);
    JoinOccurrences(pairs, "; ", '{');
    NoOccurrences(pairs, '{');
    assert multiset(Member(facets)) == multiset("{ ") + multiset(Join(pairs, "; ")) + multiset(" }");
  }

  lemma {:induction false} NoOccurrences(parts: seq<string>, c: char)
    requires forall i :: 0 <= i < |parts| ==> c !in parts[i]
    ensures Occurrences(parts, c) == 0
  {
    if parts != [] {
      NoOccurrences(parts[1..], c);
    }
  }

  lemma {:induction false} OneOccurrenceEach(parts: seq<string>, c: char)
    requires forall i :: 0 <= i < |parts| ==> multiset(parts[i])[c] == 1
    ensures Occurrences(parts, c) == |parts|
  {
    if parts != [] {
      OneOccurrenceEach(parts[1..], c);
    }
  }

  /** The union has one record type per permutation: when no name or type contains `{`, the
      rendering opens exactly one brace per permutation. */
  lemma UnionCardinality(values: seq<seq<IndexType>>)
    requires values != [] && NoBraces(values)
    ensures multiset(ConcatIndexType(Some(values)))['{'] == |values|
  {
    var members := Members(values);
    forall k | 0 <= k < |members| ensures multiset(members[k])['{'] == 1 {
      MemberHasOneBrace(values[k]);
    }
    OneOccurrenceEach(members, '{');
    JoinOccurrences(members, " | ", '{');
  }

  /** Index of the first facet named `name`, or `|values|`. */
  function FirstNamed(values: seq<FacetDetail>, name: string): (i: nat)
    ensures i <= |values|
    ensures i < |values| ==> values[i].name == name
    ensures forall j :: 0 <= j < i ==> values[j].name != name
  {
    if values == [] then 0
    else if values[0].name == name then 0
    else 1 + FirstNamed(values[1..], name)
  }

  /** `buildIndexType(values, facetStart)`: keep the facets from the first one named
      `facetStart` to the end (when `facetStart` is not a string it is the first facet's name,
      or `undefined` for no facets), then render their permutations. */
  method BuildIndexType(values: seq<FacetDetail>, facetStart: Option<string>) returns (r: string)
    ensures facetStart.Some? ==>
      r == ConcatIndexType(Some(Permutations(values[FirstNamed(values, facetStart.value)..])))
    ensures facetStart.None? ==> r == ConcatIndexType(Some(Permutations(values)))
    ensures facetStart.Some? && FirstNamed(values, facetStart.value) == |values| ==> r == "{}"
  {
    var start := facetStart;
    if start.None? && |values| > 0 {
      start := Some(values[0].name);
    }
    var facets: seq<FacetDetail> := [];
    var hasBegun := false;
    for i := 0 to |values|
      invariant start.Some? ==> hasBegun == (FirstNamed(values, start.value) < i)
      invariant start.None? ==> !hasBegun
      invariant !hasBegun ==> facets == []
      invariant hasBegun ==> facets == values[FirstNamed(values, start.value)..i]
    {
      if hasBegun {
        facets := facets + [values[i]];
      } else if start.Some? && values[i].name == start.value {
        facets := facets + [values[i]];
        hasBegun := true;
      }
    }
    if start.Some? && hasBegun {
      assert facets == values[FirstNamed(values, start.value)..];
    }
    if facetStart.None? && |values| > 0 {
      assert FirstNamed(values, values[0].name) == 0;
    }
    var tableIndex := GetFacetPermutations(facets);
    r := ConcatIndexType(Some(tableIndex));
  }

  /** `filterIndexType`'s key: `'pk'`, `'sk'` or `'all'`. */
  datatype KeyFilter = Only(key: KeyType) | All

  function WithKey(values: seq<FacetDetail>, key: KeyType): seq<FacetDetail> {
    if values == [] then []
    else (if values[0].key == key then [values[0]] else []) + WithKey(values[1..], key)
  }

  /** `filterIndexType(values, key)`: `'all'` keeps everything; a pk/sk key keeps exactly the
      facets with that tag, in order. */
  function FilterIndexType(values: seq<FacetDetail>, key: KeyFilter): (r: seq<FacetDetail>)
    ensures key.All? ==> r == values
    ensures key.Only? ==> r == WithKey(values, key.key)
    ensures key.Only? ==> forall x :: x in r <==> x in values && x.key == key.key
    ensures key.Only? && (forall i :: 0 <= i < |values| ==> values[i].key == key.key) ==> r == values
  {
    match key
    case All => values
    case Only(k) => WithKeyMembers(values, k); WithKey(values, k)
  }

  /** Filtering keeps order: it distributes over concatenation. */
  lemma {:induction false} WithKeyAppend(a: seq<FacetDetail>, b: seq<FacetDetail>, key: KeyType)
    ensures WithKey(a + b, key) == WithKey(a, key) + WithKey(b, key)
  {
    if a == [] {
      assert a + b == b;
    } else {
      WithKeyAppend(a[1..], b, key);
      assert (a + b)[0] == a[0] && (a + b)[1..] == a[1..] + b;
      var head := if a[0].key == key then [a[0]] else [];
      assert WithKey(a + b, key) == head + (WithKey(a[1..], key) + WithKey(b, key));
      ConcatAssociative(head, WithKey(a[1..], key), WithKey(b, key));
    }
  }

  lemma ConcatAssociative<T>(x: seq<T>, y: seq<T>, z: seq<T>)
    ensures x + (y + z) == (x + y) + z
  {
  }

  /** A single facet is kept exactly when it has the key. */
  lemma WithKeySingle(x: FacetDetail, key: KeyType)
    ensures WithKey([x], key) == if x.key == key then [x] else []
  {
    assert [x][1..] == [];
  }

  /** Filtering keeps multiplicity: each facet with the key occurs as often as in the input,
      every other facet not at all. */
  lemma {:induction false} WithKeyCount(values: seq<FacetDetail>, key: KeyType, x: FacetDetail)
    ensures multiset(WithKey(values, key))[x] == if x.key == key then multiset(values)[x] else 0
  {
    if values != [] {
      WithKeyCount(values[1..], key, x);
      assert values == [values[0]] + values[1..];
    }
  }

  lemma {:induction false} WithKeyMembers(values: seq<FacetDetail>, key: KeyType)
    ensures forall x :: x in WithKey(values, key) <==> x in values && x.key == key
    ensures (forall i :: 0 <= i < |values| ==> values[i].key == key) ==> WithKey(values, key) == values
  {
    if values != [] {
      var rest := values[1..];
      WithKeyMembers(rest, key);
      var head := if values[0].key == key then [values[0]] else [];
      assert WithKey(values, key) == head + WithKey(rest, key);
      assert values == [values[0]] + rest;
      if forall i :: 0 <= i < |values| ==> values[i].key == key {
        assert forall i :: 0 <= i < |rest| ==> rest[i].key == values[i + 1].key;
      }
    }
  }

  /** Filtering by `'pk'` and by `'sk'` splits the facets: every facet lands in exactly one. */
  lemma {:induction false} FilterIndexTypePartition(values: seq<FacetDetail>)
    ensures |FilterIndexType(values, Only(PK))| + |FilterIndexType(values, Only(SK))| == |values|
  {
    if values != [] {
      FilterIndexTypePartition(values[1..]);
    }
  }

  /** `prefix(values, prefix)`: every value with the prefix in front, in order. */
  function Prefix(values: seq<string>, prefix: string): (r: seq<string>)
    ensures |r| == |values|
    ensures forall i :: 0 <= i < |r| ==> |r[i]| == |prefix| + |values[i]| && r[i][..|prefix|] == prefix && r[i][|prefix|..] == values[i]
  {
    seq(|values|, i requires 0 <= i < |values| => prefix + values[i])
  }

  /** `union(values)`: the values joined by ` | `: nothing for no values, the value itself
      for one, and each further value after a ` | ` (see `UnionAppend`). */
  function Union(values: seq<string>): (r: string)
    ensures values == [] ==> r == ""
    ensures |values| == 1 ==> r == values[0]
  {
    Join(values, " | ")
  }

  /** One more value adds ` | ` and the value at the end, in order. */
  lemma UnionAppend(values: seq<string>, v: string)
    requires values != []
    ensures Union(values + [v]) == Union(values) + " | " + v
  {
    JoinAppend(values, v, " | ");
  }

  /** Each value, in double quotes iff `includeQuotes`. */
  function Quoted(values: seq<string>, includeQuotes: bool): (r: seq<string>)
    ensures |r| == |values|
    ensures !includeQuotes ==> r == values
    ensures includeQuotes ==> forall i :: 0 <= i < |r| ==>
      |r[i]| == |values[i]| + 2 && r[i][0] == '"' && r[i][|r[i]| - 1] == '"' && r[i][1..|r[i]| - 1] == values[i]
  {
    if includeQuotes then seq(|values|, i requires 0 <= i < |values| => "\"" + values[i] + "\"")
    else values
  }

  /** `stringUnion(values, includeQuotes)`: without quotes it is `union(values)`; with quotes
      it is `union` of the quoted values. */
  function StringUnion(values: seq<string>, includeQuotes: bool): (r: string)
    ensures !includeQuotes ==> r == Union(values)
    ensures includeQuotes ==> r == Union(Quoted(values, true))
  {
    Join(Quoted(values, includeQuotes), " | ")
  }

  /** The single-word contract of `pascal`: the first character upper-cased, the rest kept. */
  function Capitalize(s: string): string {
    if s == [] then [] else [UpperChar(s[0])] + s[1..]
  }

  /** Capitalizing keeps the length, changes at most the first character, and leaves the
      empty word and a word that already starts with a non-lower-case character alone, so
      doing it twice is doing it once. */
  lemma CapitalizeSpec(s: string)
    ensures |Capitalize(s)| == |s|
    ensures s != [] ==> Capitalize(s)[1..] == s[1..] && Capitalize(s)[0] == UpperChar(s[0])
    ensures (s == [] || !('a' <= s[0] <= 'z')) ==> Capitalize(s) == s
    ensures Capitalize(Capitalize(s)) == Capitalize(s)
  {
    if s != [] {
      assert s == [s[0]] + s[1..];
    }
  }

  /** `pascal` takes a word or a list of words and answers in kind. */
  datatype Words = Word(word: string) | WordList(words: seq<string>)

  /** The inner loop of `pascal`: the first character upper-cased, every other one copied. */
  method CaseWord(word: string) returns (cased: string)
    ensures cased == Capitalize(word)
  {
    cased := "";
    for j := 0 to |word|
      invariant cased == Capitalize(word[..j])
    {
      assert word[..j + 1] == word[..j] + [word[j]];
      if j == 0 {
        cased := cased + [UpperChar(word[j])];
      } else {
        cased := cased + [word[j]];
      }
    }
    assert word[..|word|] == word;
  }

  /** `pascal(value)`: for each word build the cased copy character by character, upper-casing
      only the first. */
  method Pascal(value: Words) returns (r: Words)
    ensures value.Word? ==> r == Word(Capitalize(value.word))
    ensures value.WordList? ==>
      && r.WordList? && |r.words| == |value.words|
      && forall i :: 0 <= i < |r.words| ==> r.words[i] == Capitalize(value.words[i])
  {
    var values := if value.WordList? then value.words else [value.word];
    var casedValues: seq<string> := [];
    for i := 0 to |values|
      invariant |casedValues| == i
      invariant forall k :: 0 <= k < i ==> casedValues[k] == Capitalize(values[k])
    {
      var cased := CaseWord(values[i]);
      ghost var before := casedValues;
      casedValues := casedValues + [cased];
      forall k | 0 <= k < i + 1 ensures casedValues[k] == Capitalize(values[k]) {
        if k < i {
          assert casedValues[k] == before[k];
        }
      }
    }
    if value.Word? {
      return Word(casedValues[0]);
    }
    return WordList(casedValues);
  }
}
