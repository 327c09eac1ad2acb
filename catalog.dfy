/** The stream catalogue: which descriptions of a log file are visible (data
    streams only), which one a name resolves to, and the metadata list a
    stream declaration carries. */
module Catalog {

  import opened Pocolog
  import opened Strings

  predicate IsDataNamed(d: StreamDescription, name: string) {
    IsData(d) && d.name == name
  }

  /** The position of the first data stream called `name`; streams of other
      types are passed over even when their name matches. */
  function FindDataStream(ds: seq<StreamDescription>, name: string): (r: Option<nat>)
    ensures r.None? <==> forall i :: 0 <= i < |ds| ==> !IsDataNamed(ds[i], name)
    ensures r.Some? ==> r.value < |ds| && IsDataNamed(ds[r.value], name)
    ensures r.Some? ==> forall j :: 0 <= j < r.value ==> !IsDataNamed(ds[j], name)
  {
    if |ds| == 0 then None
    else if IsDataNamed(ds[0], name) then Some(0)
    else
      match FindDataStream(ds[1..], name)
      case None => None
      case Some(i) => Some(i + 1)
  }

  /** The description a name resolves to, starting from `desc`: the first data
      stream with that name, or `desc` itself when there is none. */
  function Resolve(ds: seq<StreamDescription>, name: string, desc: StreamDescription): (r: StreamDescription)
    ensures (exists i :: 0 <= i < |ds| && IsDataNamed(ds[i], name)) ==> r in ds && IsDataNamed(r, name)
    ensures (forall i :: 0 <= i < |ds| ==> !IsDataNamed(ds[i], name)) ==> r == desc
  {
    match FindDataStream(ds, name)
    case Some(i) => ds[i]
    case None => desc
  }

  /** `a` is `b` with some elements left out, the rest in their order. */
  predicate IsSubsequence<T(==)>(a: seq<T>, b: seq<T>)
    decreases |b|
  {
    if |a| == 0 then true
    else if |b| == 0 then false
    else if a[0] == b[0] then IsSubsequence(a[1..], b[1..])
    else IsSubsequence(a, b[1..])
  }

  /** The data-type descriptions of `ds`, in their order. */
  function DataDescriptions(ds: seq<StreamDescription>): (r: seq<StreamDescription>)
    ensures forall i :: 0 <= i < |r| ==> IsData(r[i])
    ensures forall i :: 0 <= i < |ds| && IsData(ds[i]) ==> ds[i] in r
    ensures forall d :: d in r ==> d in ds
    ensures IsSubsequence(r, ds)
    ensures |r| <= |ds|
  {
    if |ds| == 0 then []
    else
      var rest := DataDescriptions(ds[1..]);
      assert forall i :: 1 <= i < |ds| ==> ds[i] == ds[1..][i - 1];
      if IsData(ds[0]) then [ds[0]] + rest else rest
  }

  /** The filter keeps every occurrence of a data-type description: each one
      appears in the result exactly as often as in `ds`. */
  lemma {:induction false} DataDescriptionsKeepsEveryCopy(ds: seq<StreamDescription>)
    ensures forall d :: IsData(d) ==> multiset(DataDescriptions(ds))[d] == multiset(ds)[d]
    decreases |ds|
  {
    if |ds| > 0 {
      DataDescriptionsKeepsEveryCopy(ds[1..]);
      assert ds == [ds[0]] + ds[1..];
    }
  }

  /** Filtering from index `i` keeps the description at `i` exactly when it
      is a data stream, then filters the rest. */
  lemma DataDescriptionsStep(ds: seq<StreamDescription>, i: nat)
    requires i < |ds|
    ensures DataDescriptions(ds[i..]) == (if IsData(ds[i]) then [ds[i]] else []) + DataDescriptions(ds[i + 1..])
  {
    assert ds[i..][1..] == ds[i + 1..];
  }

  /** What `loadStreamDescription` finds is what the catalogue lists: the
      first visible description with that name, and a visible description with
      that name exists exactly when the lookup succeeds. */
  lemma {:induction false} ResolveAgreesWithCatalog(ds: seq<StreamDescription>, name: string)
    ensures FindDataStream(ds, name).None? <==> forall d :: d in DataDescriptions(ds) ==> d.name != name
    ensures FindDataStream(ds, name).Some? ==>
      FindDataStream(DataDescriptions(ds), name).Some? &&
      DataDescriptions(ds)[FindDataStream(DataDescriptions(ds), name).value] == ds[FindDataStream(ds, name).value]
    decreases |ds|
  {
    if |ds| > 0 {
      ResolveAgreesWithCatalog(ds[1..], name);
      var rest := DataDescriptions(ds[1..]);
      if IsData(ds[0]) {
        assert DataDescriptions(ds) == [ds[0]] + rest;
        assert DataDescriptions(ds)[1..] == rest;
      } else {
        assert DataDescriptions(ds) == rest;
      }
    }
  }

  /** Keys of the list strictly ascend in `std::map` key order. */
  predicate KeysAscending(list: seq<StreamMetadata>) {
    forall i, j :: 0 <= i < j < |list| ==> Less(list[i].key, list[j].key)
  }

  /** `list` is the metadata map `m` in its own iteration order: one entry per
      key, in ascending key order, every pair kept. */
  predicate IsMetadataListOf(m: map<string, string>, list: seq<StreamMetadata>) {
    && |list| == |m|
    && KeysAscending(list)
    && (forall i :: 0 <= i < |list| ==> list[i].key in m && m[list[i].key] == list[i].value)
    && (forall k :: k in m ==> exists i :: 0 <= i < |list| && list[i].key == k)
  }

  /** The least key of a non-empty key set. */
  method MinKey(keys: set<string>) returns (k: string)
    requires keys != {}
    ensures k in keys
    ensures forall k' :: k' in keys && k' != k ==> Less(k, k')
  {
    k :| k in keys;
    var rest := keys - {k};
    while rest != {}
      invariant rest <= keys && k in keys && k !in rest
      invariant forall k' :: k' in keys && k' !in rest && k' != k ==> Less(k, k')
      decreases rest
    {
      var c :| c in rest;
      LessTotal(c, k);
      if Less(c, k) {
        forall k' | k' in keys && k' !in rest && k' != c
          ensures Less(c, k')
        {
          if k' != k {
            LessTransitive(c, k, k');
          }
        }
        k := c;
      }
      rest := rest - {c};
    }
  }

  /** A map has exactly one metadata list: the declaration written for a
      description is fully determined by it. */
  lemma {:induction false} MetadataListUnique(m: map<string, string>, a: seq<StreamMetadata>, b: seq<StreamMetadata>)
    requires IsMetadataListOf(m, a) && IsMetadataListOf(m, b)
    ensures a == b
    decreases |a|
  {
    if |a| > 0 {
      HeadIsLeastKey(m, a, b);
      HeadIsLeastKey(m, b, a);
      var k, m' := a[0].key, m - {a[0].key};
      LessTotal(a[0].key, b[0].key);
      TailIsMetadataList(m, a, m');
      TailIsMetadataList(m, b, m');
      MetadataListUnique(m', a[1..], b[1..]);
      assert a == [a[0]] + a[1..] && b == [b[0]] + b[1..];
    }
  }

  /** The first key of a metadata list is not above the first key of any
      other list of the same map. */
  lemma HeadIsLeastKey(m: map<string, string>, a: seq<StreamMetadata>, b: seq<StreamMetadata>)
    requires IsMetadataListOf(m, a) && IsMetadataListOf(m, b) && |a| > 0
    ensures !Less(b[0].key, a[0].key)
  {
    if Less(b[0].key, a[0].key) {
      var j :| 0 <= j < |a| && a[j].key == b[0].key;
      if j == 0 {
        LessIrreflexive(a[0].key);
      } else {
        LessAsymmetric(a[0].key, a[j].key);
      }
    }
  }

  /** Dropping the first entry of a metadata list leaves the list of the map
      without that key. */
  lemma TailIsMetadataList(m: map<string, string>, a: seq<StreamMetadata>, m': map<string, string>)
    requires IsMetadataListOf(m, a) && |a| > 0
    requires m' == m - {a[0].key}
    ensures IsMetadataListOf(m', a[1..])
  {
    var k0 := a[0].key;
    assert m'.Keys == m.Keys - {k0};
    forall i | 0 <= i < |a| - 1
      ensures a[1..][i].key != k0
    {
      assert Less(k0, a[i + 1].key);
      LessIrreflexive(k0);
    }
    forall k | k in m'
      ensures exists i :: 0 <= i < |a[1..]| && a[1..][i].key == k
    {
      var i :| 0 <= i < |a| && a[i].key == k;
      assert i > 0;
      assert a[1..][i - 1].key == k;
    }
  }
}
