/**
 * `MultiAsset<T>`: a two-level finite map policy id -> asset name -> amount,
 * grown by a guarded upsert and finally flattened into the wire form.
 */
module Asset {
  import opened Wrappers
  import opened Primitives
  import opened Listing

  datatype AssetError = InvalidAssetName(message: string)

  /** Longest asset name, in bytes, that `Add` accepts. */
  const MaxAssetNameLength := 32

  datatype MultiAsset<T> = MultiAsset(assets: map<PolicyId, map<AssetName, T>>)

  /** The amount stored under `(policy, name)`, if any. */
  function Lookup<T>(ma: MultiAsset<T>, policy: PolicyId, name: AssetName): Option<T>
  {
    if policy in ma.assets && name in ma.assets[policy] then Some(ma.assets[policy][name])
    else None
  }

  /** Every stored asset name respects the length limit `Add` enforces. */
  ghost predicate NamesWithinLimit<T>(ma: MultiAsset<T>)
  {
    forall p, n :: p in ma.assets && n in ma.assets[p] ==> |n| <= MaxAssetNameLength
  }

  /** The empty container (`Default::default()`). */
  function New<T>(): (r: MultiAsset<T>)
    ensures r.assets.Keys == {}
    ensures forall p, n :: Lookup(r, p, n) == None
  {
    MultiAsset(map[])
  }

  /** Wraps a ready-made map as is; no name is checked. */
  function FromMap<T>(m: map<PolicyId, map<AssetName, T>>): (r: MultiAsset<T>)
    ensures r.assets.Keys == m.Keys
    ensures forall p, n :: p in m && n in m[p] ==> Lookup(r, p, n) == Some(m[p][n])
    ensures forall p, n :: !(p in m && n in m[p]) ==> Lookup(r, p, n) == None
  {
    MultiAsset(m)
  }

  /**
   * Records `amount` under `(policy, name)`, creating the policy's inner map when
   * absent; rejects a name longer than 32 bytes before touching the container.
   */
  function Add<T>(ma: MultiAsset<T>, policy: PolicyId, name: AssetName, amount: T)
    : (r: Result<MultiAsset<T>, AssetError>)
    ensures r.Failure? <==> |name| > MaxAssetNameLength
    ensures r.Failure? ==> r.error == InvalidAssetName("name max len exceeded")
    ensures r.Success? ==> r.value.assets.Keys == ma.assets.Keys + {policy}
    ensures r.Success? ==> Lookup(r.value, policy, name) == Some(amount)
    ensures r.Success? ==> forall p, n :: (p, n) != (policy, name) ==> Lookup(r.value, p, n) == Lookup(ma, p, n)
  {
    if |name| > MaxAssetNameLength then
      Failure(InvalidAssetName("name max len exceeded"))
    else
      var inner := if policy in ma.assets then ma.assets[policy] else map[];
      Success(MultiAsset(ma.assets[policy := inner[name := amount]]))
  }

  /** Containers that agree on every lookup are the same container. */
  lemma LookupExtensional<T>(a: MultiAsset<T>, b: MultiAsset<T>)
    requires a.assets.Keys == b.assets.Keys
    requires forall p, n :: Lookup(a, p, n) == Lookup(b, p, n)
    ensures a == b
  {
    forall p | p in a.assets
      ensures a.assets[p] == b.assets[p]
    {
      forall n | n in a.assets[p]
        ensures n in b.assets[p] && a.assets[p][n] == b.assets[p][n]
      {
        assert Lookup(a, p, n) == Lookup(b, p, n);
      }
      forall n | n in b.assets[p]
        ensures n in a.assets[p]
      {
        assert Lookup(a, p, n) == Lookup(b, p, n);
      }
    }
  }

  /** Adding the same entry twice gives the same container as adding it once. */
  lemma AddIdempotent<T>(ma: MultiAsset<T>, policy: PolicyId, name: AssetName, amount: T)
    requires Add(ma, policy, name, amount).Success?
    ensures Add(Add(ma, policy, name, amount).value, policy, name, amount) == Add(ma, policy, name, amount)
  {
    var once := Add(ma, policy, name, amount).value;
    var twice := Add(once, policy, name, amount).value;
    LookupExtensional(twice, once);
  }

  /** A later `Add` to the same key overwrites the earlier amount. */
  lemma AddLastWriteWins<T>(ma: MultiAsset<T>, policy: PolicyId, name: AssetName, first: T, second: T)
    requires Add(ma, policy, name, first).Success?
    ensures Add(Add(ma, policy, name, first).value, policy, name, second) == Add(ma, policy, name, second)
  {
    var direct := Add(ma, policy, name, second).value;
    var overwritten := Add(Add(ma, policy, name, first).value, policy, name, second).value;
    LookupExtensional(overwritten, direct);
  }

  /** Adds to different keys do not interfere: their order does not matter. */
  lemma AddCommutes<T>(ma: MultiAsset<T>, p1: PolicyId, n1: AssetName, a1: T, p2: PolicyId, n2: AssetName, a2: T)
    requires (p1, n1) != (p2, n2)
    requires |n1| <= MaxAssetNameLength && |n2| <= MaxAssetNameLength
    ensures Add(Add(ma, p1, n1, a1).value, p2, n2, a2) == Add(Add(ma, p2, n2, a2).value, p1, n1, a1)
  {
    var x := Add(Add(ma, p1, n1, a1).value, p2, n2, a2).value;
    var y := Add(Add(ma, p2, n2, a2).value, p1, n1, a1).value;
    LookupExtensional(x, y);
  }

  /** `Add` never lets an over-long name in, so the length limit is an invariant of `New` + `Add`. */
  lemma AddKeepsNamesWithinLimit<T>(ma: MultiAsset<T>, policy: PolicyId, name: AssetName, amount: T)
    requires NamesWithinLimit(ma)
    requires Add(ma, policy, name, amount).Success?
    ensures NamesWithinLimit(Add(ma, policy, name, amount).value)
  {
    var r := Add(ma, policy, name, amount).value;
    forall p, n | p in r.assets && n in r.assets[p]
      ensures |n| <= MaxAssetNameLength
    {
      if (p, n) != (policy, name) {
        assert Lookup(r, p, n) == Lookup(ma, p, n);
      }
    }
  }

  /** `FromMap` keeps the given map as it is, policies with an empty inner map included. */
  lemma FromMapStoresVerbatim<T>(m: map<PolicyId, map<AssetName, T>>)
    ensures FromMap(m).assets == m
  {
    LookupExtensional(FromMap(m), MultiAsset(m));
  }

  /** The new container flattens to the empty list, whatever the iteration order. */
  lemma NewBuildsEmpty<T>(r: Multiasset<T>)
    requires IsFlatteningOf(New<T>().assets, r)
    ensures r == []
  {
    BuildRoundTrip(New<T>(), r);
  }

  /** `FromMap` bypasses the name check: an over-long name is stored verbatim. */
  lemma FromMapSkipsNameCheck<T>(m: map<PolicyId, map<AssetName, T>>, policy: PolicyId, name: AssetName)
    requires policy in m && name in m[policy]
    requires |name| > MaxAssetNameLength
    ensures !NamesWithinLimit(FromMap(m))
    ensures Lookup(FromMap(m), policy, name) == Some(m[policy][name])
  {
    assert policy in FromMap(m).assets && name in FromMap(m).assets[policy];
  }

  /**
   * Flattens the container into its wire form. Both levels come out in hash-map
   * iteration order, which the model leaves unspecified.
   */
  method Build<T>(ma: MultiAsset<T>) returns (r: Multiasset<T>)
    ensures IsFlatteningOf(ma.assets, r)
  {
    var outer := ListEntries(ma.assets);
    r := [];
    for i := 0 to |outer|
      invariant |r| == i
      invariant forall j :: 0 <= j < i ==> r[j].0 == outer[j].0 && IsListingOf(outer[j].1, r[j].1)
    {
      var inner := ListEntries(outer[i].1);
      r := r + [(outer[i].0, inner)];
    }
    SameFirsts(r, outer);
  }

  /** Collecting the flattened form back into maps gives the container's map. */
  lemma BuildRoundTrip<T>(ma: MultiAsset<T>, r: Multiasset<T>)
    requires IsFlatteningOf(ma.assets, r)
    ensures Unflatten(r) == ma.assets
    ensures |r| == |ma.assets|
  {
    FlatteningIffDistinctAndCollects(ma.assets, r);
    ListingLength(ma.assets, OuterListing(ma.assets, r));
  }

  /** The outer level of a flattening, with each inner list collected back into its map. */
  function OuterListing<T>(m: map<PolicyId, map<AssetName, T>>, r: Multiasset<T>): (s: seq<(PolicyId, map<AssetName, T>)>)
    requires IsFlatteningOf(m, r)
    ensures IsListingOf(m, s)
    ensures |s| == |r|
  {
    var s := seq(|r|, i requires 0 <= i < |r| => (r[i].0, m[r[i].0]));
    SameFirsts(r, s);
    s
  }

  /** A container with a single entry has exactly one flattening. */
  lemma SingletonBuild<T>(policy: PolicyId, name: AssetName, amount: T, r: Multiasset<T>)
    requires IsFlatteningOf(map[policy := map[name := amount]], r)
    ensures r == [(policy, [(name, amount)])]
  {
    var m := map[policy := map[name := amount]];
    var s := OuterListing(m, r);
    SingletonListing(policy, map[name := amount], s);
    assert r[0].0 == policy;
    SingletonListing(name, amount, r[0].1);
  }

  /**
   * With two policies both orders are valid flattenings, so the wire form of a
   * mint is not a function of the container alone.
   */
  lemma BuildOrderNotFixed<T>(p1: PolicyId, n1: AssetName, a1: T, p2: PolicyId, n2: AssetName, a2: T)
    requires p1 != p2
    ensures var m := map[p1 := map[n1 := a1], p2 := map[n2 := a2]];
      && IsFlatteningOf(m, [(p1, [(n1, a1)]), (p2, [(n2, a2)])])
      && IsFlatteningOf(m, [(p2, [(n2, a2)]), (p1, [(n1, a1)])])
  {
    var m := map[p1 := map[n1 := a1], p2 := map[n2 := a2]];
    var r1 := [(p1, [(n1, a1)]), (p2, [(n2, a2)])];
    var r2 := [(p2, [(n2, a2)]), (p1, [(n1, a1)])];
    assert KeysOf(r1) == {p1, p2} by {
      assert r1[0].0 == p1 && r1[1].0 == p2;
    }
    assert KeysOf(r2) == {p1, p2} by {
      assert r2[0].0 == p2 && r2[1].0 == p1;
    }
    assert KeysOf([(n1, a1)]) == {n1} by {
      assert [(n1, a1)][0].0 == n1;
    }
    assert KeysOf([(n2, a2)]) == {n2} by {
      assert [(n2, a2)][0].0 == n2;
    }
  }

  /** "MyAsset 2" as bytes. */
  const MyAsset2: AssetName := [0x4d, 0x79, 0x41, 0x73, 0x73, 0x65, 0x74, 0x20, 0x32]

  /** The all-zero 28-byte policy id. */
  const ZeroPolicy: PolicyId := seq(28, i => 0)

  /**
   * The mint of the manual-builder test: a 9-byte name is accepted, and the
   * resulting container flattens to exactly one policy with one asset.
   */
  lemma MyAsset2Accepted(r: Multiasset<I64>)
    requires Add(New<I64>(), ZeroPolicy, MyAsset2, 1000000).Success?
      ==> IsFlatteningOf(Add(New<I64>(), ZeroPolicy, MyAsset2, 1000000).value.assets, r)
    ensures Add(New<I64>(), ZeroPolicy, MyAsset2, 1000000).Success?
    ensures r == [(ZeroPolicy, [(MyAsset2, 1000000)])]
  {
    var ma := Add(New<I64>(), ZeroPolicy, MyAsset2, 1000000).value;
    assert ma.assets == map[ZeroPolicy := map[MyAsset2 := 1000000]];
    SingletonBuild(ZeroPolicy, MyAsset2, 1000000 as I64, r);
  }
}
