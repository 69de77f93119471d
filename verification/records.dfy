/** Plain JavaScript objects used as dictionaries (`Record<string, V>`). The source iterates
    them with `Object.keys`/`Object.values`, whose order is insertion order, so an object is
    modelled as the sequence of its entries in that order. */
module Records {
  import opened Wrappers
  import opened Text

  datatype Entry<V> = Entry(key: string, value: V)

  type Rec<V> = seq<Entry<V>>

  /** `Object.keys(r)`. */
  function Keys<V>(r: Rec<V>): (ks: seq<string>)
    ensures |ks| == |r|
    ensures forall i :: 0 <= i < |r| ==> ks[i] == r[i].key
  {
    seq(|r|, i requires 0 <= i < |r| => r[i].key)
  }

  /** `Object.values(r)`. */
  function Values<V>(r: Rec<V>): (vs: seq<V>)
    ensures |vs| == |r|
    ensures forall i :: 0 <= i < |r| ==> vs[i] == r[i].value
  {
    seq(|r|, i requires 0 <= i < |r| => r[i].value)
  }

  /** An object has each key at most once. */
  ghost predicate WellFormed<V>(r: Rec<V>) {
    forall i, j :: 0 <= i < j < |r| ==> r[i].key != r[j].key
  }

  /** Position of key `k`, or `|r|` when `r` has no such key. */
  function IndexOf<V>(r: Rec<V>, k: string): (i: nat)
    ensures i <= |r|
    ensures i < |r| ==> r[i].key == k
    ensures forall j :: 0 <= j < i ==> r[j].key != k
  {
    if r == [] then 0
    else if r[0].key == k then 0
    else 1 + IndexOf(r[1..], k)
  }

  /** `r[k]`, `None` standing for `undefined`. */
  function Get<V>(r: Rec<V>, k: string): (v: Option<V>)
    ensures v.None? <==> k !in Keys(r)
    ensures v.Some? ==> Entry(k, v.value) in r
  {
    var i := IndexOf(r, k);
    if i < |r| then Some(r[i].value) else None
  }

  /** `IndexOf` is pinned down by its two defining facts. */
  lemma {:induction false} IndexOfIs<V>(r: Rec<V>, k: string, i: nat)
    requires i <= |r| && (i < |r| ==> r[i].key == k)
    requires forall j :: 0 <= j < i ==> r[j].key != k
    ensures IndexOf(r, k) == i
  {
    if r != [] && i > 0 {
      assert r[0].key != k;
      IndexOfIs(r[1..], k, i - 1);
    }
  }

  /** `r[k] = v`: an existing key keeps its position, a new key goes last. */
  function Set<V>(r: Rec<V>, k: string, v: V): Rec<V> {
    var i := IndexOf(r, k);
    if i < |r| then r[i := Entry(k, v)] else r + [Entry(k, v)]
  }

  lemma SetGetOther<V>(r: Rec<V>, k: string, v: V, k': string)
    requires k' != k
    ensures Get(Set(r, k, v), k') == Get(r, k')
  {
    var i, r' := IndexOf(r, k), Set(r, k, v);
    var a := IndexOf(r, k');
    if a < |r| {
      IndexOfIs(r', k', a);
    } else {
      IndexOfIs(r', k', |r'|);
    }
  }

  /** Assigning a key: it reads back as the new value, every other key reads as before, the
      key order is kept (a new key is appended), and keys stay unique. */
  lemma SetSemantics<V>(r: Rec<V>, k: string, v: V)
    ensures k in Keys(r) ==> Keys(Set(r, k, v)) == Keys(r)
    ensures k !in Keys(r) ==> Keys(Set(r, k, v)) == Keys(r) + [k]
    ensures Get(Set(r, k, v), k) == Some(v)
    ensures forall k' :: k' != k ==> Get(Set(r, k, v), k') == Get(r, k')
    ensures WellFormed(r) ==> WellFormed(Set(r, k, v))
  {
    var i, r' := IndexOf(r, k), Set(r, k, v);
    IndexOfIs(r', k, i);
    forall k' | k' != k ensures Get(r', k') == Get(r, k') {
      SetGetOther(r, k, v, k');
    }
  }

  /** Position of the first key equal to `name` ignoring case, or `|r|`. */
  function FirstMatchIgnoringCase<V>(r: Rec<V>, name: string): (i: nat)
    ensures i <= |r|
    ensures i < |r| ==> EqualsIgnoreCase(r[i].key, name)
    ensures forall j :: 0 <= j < i ==> !EqualsIgnoreCase(r[j].key, name)
  {
    if r == [] then 0
    else if EqualsIgnoreCase(r[0].key, name) then 0
    else 1 + FirstMatchIgnoringCase(r[1..], name)
  }

  /** The loop shared by the two registries' `remove`: walk `Object.keys` in order, delete the
      first key equal to `name` ignoring case, remember it and stop. */
  method DeleteFirstIgnoringCase<V>(r: Rec<V>, name: string) returns (r': Rec<V>, removed: string)
    ensures FirstMatchIgnoringCase(r, name) == |r| ==> r' == r && removed == ""
    ensures FirstMatchIgnoringCase(r, name) < |r| ==>
      var i := FirstMatchIgnoringCase(r, name);
      removed == r[i].key && r' == r[..i] + r[i + 1..]
  {
    r', removed := r, "";
    var i := 0;
    while i < |r|
      invariant 0 <= i <= |r|
      invariant forall j :: 0 <= j < i ==> !EqualsIgnoreCase(r[j].key, name)
      invariant r' == r && removed == ""
    {
      if EqualsIgnoreCase(r[i].key, name) {
        r' := r[..i] + r[i + 1..];
        removed := r[i].key;
        return;
      }
      i := i + 1;
    }
  }

  lemma DeleteGetOther<V>(r: Rec<V>, i: nat, k: string)
    requires i < |r| && k != r[i].key
    ensures Get(r[..i] + r[i + 1..], k) == Get(r, k)
  {
    var r' := r[..i] + r[i + 1..];
    var a := IndexOf(r, k);
    if a < i {
      forall j | 0 <= j < a ensures r'[j].key != k {
        assert r'[j] == r[j];
      }
      assert r'[a] == r[a];
      IndexOfIs(r', k, a);
    } else {
      forall j | 0 <= j < a - 1 ensures r'[j].key != k {
        if j < i {
          assert r'[j] == r[j];
        } else {
          assert r'[j] == r[j + 1];
        }
      }
      if a < |r| {
        assert r'[a - 1] == r[a];
      }
      IndexOfIs(r', k, a - 1);
    }
  }

  /** Reading a key of a record with one more entry at the end. */
  lemma GetAppend<V>(r: Rec<V>, e: Entry<V>, k: string)
    ensures Get(r + [e], k) == if Get(r, k).Some? then Get(r, k) else if e.key == k then Some(e.value) else None
  {
    var a := IndexOf(r, k);
    forall j | 0 <= j < a ensures (r + [e])[j].key != k {
      assert (r + [e])[j] == r[j];
    }
    if a < |r| {
      assert (r + [e])[a] == r[a];
    }
    IndexOfIs(r + [e], k, if a < |r| || e.key == k then a else a + 1);
  }

  /** What deleting the first case-insensitive match leaves: one entry fewer, the removed key
      matches `name` and is gone, and every other key keeps its value and its relative order. */
  lemma DeleteFirstKeepsOthers<V>(r: Rec<V>, name: string)
    requires WellFormed(r)
    requires FirstMatchIgnoringCase(r, name) < |r|
    ensures var i := FirstMatchIgnoringCase(r, name);
      var r' := r[..i] + r[i + 1..];
      && |r'| == |r| - 1
      && EqualsIgnoreCase(r[i].key, name)
      && WellFormed(r')
      && r[i].key !in Keys(r')
      && Keys(r') == Keys(r)[..i] + Keys(r)[i + 1..]
      && forall k :: k != r[i].key ==> Get(r', k) == Get(r, k)
  {
    var i := FirstMatchIgnoringCase(r, name);
    var r' := r[..i] + r[i + 1..];
    DeleteAt(r, i);
    forall k | k != r[i].key ensures Get(r', k) == Get(r, k) {
      DeleteGetOther(r, i, k);
    }
  }

  lemma DeleteAt<V>(r: Rec<V>, i: nat)
    requires WellFormed(r) && i < |r|
    ensures WellFormed(r[..i] + r[i + 1..])
    ensures r[i].key !in Keys(r[..i] + r[i + 1..])
    ensures Keys(r[..i] + r[i + 1..]) == Keys(r)[..i] + Keys(r)[i + 1..]
  {
    var r' := r[..i] + r[i + 1..];
    assert forall j :: 0 <= j < |r'| ==> r'[j] == r[if j < i then j else j + 1];
  }
}

/** `Array.from(new Set(xs))`: the distinct elements of a list in first-occurrence order. */
module Sets {

  function Unique<T(==)>(xs: seq<T>): seq<T> {
    if xs == [] then []
    else
      var u := Unique(xs[..|xs| - 1]);
      if xs[|xs| - 1] in u then u else u + [xs[|xs| - 1]]
  }

  predicate Distinct<T(==)>(xs: seq<T>) {
    forall i, j :: 0 <= i < j < |xs| ==> xs[i] != xs[j]
  }

  /** De-duplication keeps exactly the elements of the input, each once, and leaves an
      already duplicate-free list as it is. */
  lemma {:induction false} UniqueSpec<T>(xs: seq<T>)
    ensures Distinct(Unique(xs))
    ensures forall x :: x in Unique(xs) <==> x in xs
    ensures Distinct(xs) ==> Unique(xs) == xs
  {
    if xs != [] {
      var init := xs[..|xs| - 1];
      UniqueSpec(init);
      assert xs == init + [xs[|xs| - 1]];
      if Distinct(xs) {
        assert Distinct(init);
        assert xs[|xs| - 1] !in init;
      }
    }
  }

  lemma UniqueMember<T>(xs: seq<T>, y: T)
    requires y in Unique(xs)
    ensures y in xs
  {
    UniqueSpec(xs);
  }

  /** The position of the first occurrence of `x` in `xs`, or `|xs|` when there is none. */
  function FirstIndex<T(==)>(xs: seq<T>, x: T): (i: nat)
    ensures i <= |xs|
    ensures i < |xs| ==> xs[i] == x
    ensures forall j :: 0 <= j < i ==> xs[j] != x
  {
    if xs == [] then 0
    else if xs[0] == x then 0
    else 1 + FirstIndex(xs[1..], x)
  }

  /** Appending an element does not move the first occurrence of an element already there. */
  lemma FirstIndexAppend<T>(xs: seq<T>, x: T, y: T)
    requires y in xs
    ensures FirstIndex(xs + [x], y) == FirstIndex(xs, y) < |xs|
  {
    var k := FirstIndex(xs, y);
    var k' := FirstIndex(xs + [x], y);
    assert (xs + [x])[k] == y;
  }

  /** `ys` lists its elements in the order of their first occurrence in `xs`. */
  predicate InFirstOccurrenceOrder<T(==)>(ys: seq<T>, xs: seq<T>) {
    forall i, j :: 0 <= i < j < |ys| ==> FirstIndex(xs, ys[i]) < FirstIndex(xs, ys[j])
  }

  lemma OrderAppendOld<T>(u: seq<T>, init: seq<T>, x: T)
    requires InFirstOccurrenceOrder(u, init)
    requires forall y :: y in u ==> y in init
    ensures InFirstOccurrenceOrder(u, init + [x])
  {
    forall i, j | 0 <= i < j < |u| ensures FirstIndex(init + [x], u[i]) < FirstIndex(init + [x], u[j]) {
      FirstIndexAppend(init, x, u[i]);
      FirstIndexAppend(init, x, u[j]);
    }
  }

  lemma OrderAppendNew<T>(u: seq<T>, init: seq<T>, x: T)
    requires InFirstOccurrenceOrder(u, init + [x])
    requires forall y :: y in u ==> y in init
    requires x !in init
    ensures InFirstOccurrenceOrder(u + [x], init + [x])
  {
    var xs := init + [x];
    assert FirstIndex(xs, x) == |init| by {
      forall j | 0 <= j < |init| ensures xs[j] != x { assert xs[j] == init[j]; }
      assert xs[|init|] == x;
    }
    forall i, j | 0 <= i < j < |u + [x]|
      ensures FirstIndex(xs, (u + [x])[i]) < FirstIndex(xs, (u + [x])[j])
    {
      assert (u + [x])[i] == u[i];
      FirstIndexAppend(init, x, u[i]);
      if j < |u| {
        assert (u + [x])[j] == u[j];
      }
    }
  }

  /** De-duplication lists the elements in the order of their first occurrence, as a `Set`
      iterates in insertion order. */
  lemma {:induction false} UniqueFirstOccurrenceOrder<T>(xs: seq<T>)
    ensures InFirstOccurrenceOrder(Unique(xs), xs)
  {
    if xs != [] {
      var init := xs[..|xs| - 1];
      var x := xs[|xs| - 1];
      UniqueFirstOccurrenceOrder(init);
      forall y | y in Unique(init) ensures y in init {
        UniqueMember(init, y);
      }
      assert xs == init + [x];
      OrderAppendOld(Unique(init), init, x);
      if x !in Unique(init) {
        assert x !in init by { UniqueSpec(init); }
        OrderAppendNew(Unique(init), init, x);
      }
    }
  }
}
