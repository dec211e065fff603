/**
 * Listings of finite maps as sequences of key/value pairs, in no particular order.
 * Draining a Rust `HashMap` with `into_iter().collect::<Vec<_>>()` yields such a
 * listing: every entry exactly once, in an order the program does not control.
 * `ToMap` is the inverse direction (collecting pairs back into a map).
 */
module Listing {

  /** The keys that occur in a pair list. */
  function KeysOf<K, V>(s: seq<(K, V)>): set<K>
  {
    set i | 0 <= i < |s| :: s[i].0
  }

  /** No key occurs twice in the pair list. */
  ghost predicate DistinctKeys<K, V>(s: seq<(K, V)>)
  {
    forall i, j :: 0 <= i < j < |s| ==> s[i].0 != s[j].0
  }

  /** `s` lists exactly the entries of `m`, each once, in some order. */
  ghost predicate IsListingOf<K, V>(m: map<K, V>, s: seq<(K, V)>)
  {
    && DistinctKeys(s)
    && KeysOf(s) == m.Keys
    && forall i :: 0 <= i < |s| ==> s[i].0 in m && m[s[i].0] == s[i].1
  }

  /**
   * `r` flattens the two-level map `m`: one pair per outer key, none repeated,
   * and each inner list is a listing of that key's inner map.
   */
  ghost predicate IsFlatteningOf<P, N, T>(m: map<P, map<N, T>>, r: seq<(P, seq<(N, T)>)>)
  {
    && DistinctKeys(r)
    && KeysOf(r) == m.Keys
    && forall i :: 0 <= i < |r| ==> r[i].0 in m && IsListingOf(m[r[i].0], r[i].1)
  }

  lemma KeysOfSnoc<K, V>(s: seq<(K, V)>, e: (K, V))
    ensures KeysOf(s + [e]) == KeysOf(s) + {e.0}
  {
    var t := s + [e];
    assert t[|s|].0 == e.0;
    forall k | k in KeysOf(s)
      ensures k in KeysOf(t)
    {
      var i :| 0 <= i < |s| && s[i].0 == k;
      assert t[i].0 == k;
    }
  }

  /** Collects a pair list into a map; a later pair for the same key overwrites an earlier one. */
  function ToMap<K, V>(s: seq<(K, V)>): (m: map<K, V>)
    ensures m.Keys == KeysOf(s)
    decreases |s|
  {
    if s == [] then map[]
    else
      var init, last := s[..|s| - 1], s[|s| - 1];
      KeysOfSnoc(init, last);
      assert init + [last] == s;
      ToMap(init)[last.0 := last.1]
  }

  /** Dropping the last pair of a listing of `m` lists `m` without that key. */
  lemma ListingDropLast<K, V>(m: map<K, V>, s: seq<(K, V)>)
    requires IsListingOf(m, s)
    requires s != []
    ensures IsListingOf(m - {s[|s| - 1].0}, s[..|s| - 1])
  {
    var init, last := s[..|s| - 1], s[|s| - 1];
    var rest := m - {last.0};
    assert init + [last] == s;
    KeysOfSnoc(init, last);
    forall i | 0 <= i < |init|
      ensures init[i].0 != last.0 && init[i].0 in rest && rest[init[i].0] == init[i].1
    {
      assert init[i] == s[i];
    }
    assert DistinctKeys(init) by {
      forall i, j | 0 <= i < j < |init|
        ensures init[i].0 != init[j].0
      {
        assert init[i] == s[i] && init[j] == s[j];
      }
    }
    assert KeysOf(init) == rest.Keys;
  }

  /** Collecting a listing of `m` gives back `m`. */
  lemma {:induction false} ListingRoundTrip<K, V>(m: map<K, V>, s: seq<(K, V)>)
    requires IsListingOf(m, s)
    ensures ToMap(s) == m
    decreases |s|
  {
    if s == [] {
      assert m.Keys == {};
    } else {
      var init, last := s[..|s| - 1], s[|s| - 1];
      assert init + [last] == s;
      var rest := m - {last.0};
      ListingDropLast(m, s);
      ListingRoundTrip(rest, init);
      assert m[last.0] == last.1;
      assert ToMap(s) == rest[last.0 := last.1];
      assert rest[last.0 := last.1] == m;
    }
  }

  /** A pair list without repeated keys is a listing of the map it collects into. */
  lemma {:induction false} DistinctListsToMap<K, V>(s: seq<(K, V)>)
    requires DistinctKeys(s)
    ensures IsListingOf(ToMap(s), s)
    decreases |s|
  {
    if s != [] {
      var init, last := s[..|s| - 1], s[|s| - 1];
      assert init + [last] == s;
      assert DistinctKeys(init) by {
        forall i, j | 0 <= i < j < |init|
          ensures init[i].0 != init[j].0
        {
          assert init[i] == s[i] && init[j] == s[j];
        }
      }
      DistinctListsToMap(init);
      var m := ToMap(s);
      assert m == ToMap(init)[last.0 := last.1];
      forall i | 0 <= i < |s|
        ensures s[i].0 in m && m[s[i].0] == s[i].1
      {
        if i < |s| - 1 {
          assert s[i] == init[i];
          assert s[i].0 != last.0;
        }
      }
    }
  }

  /** A pair list lists `m` exactly when its keys are distinct and it collects into `m`. */
  lemma ListingIffDistinctAndCollects<K, V>(m: map<K, V>, s: seq<(K, V)>)
    ensures IsListingOf(m, s) <==> DistinctKeys(s) && ToMap(s) == m
  {
    if IsListingOf(m, s) {
      ListingRoundTrip(m, s);
    }
    if DistinctKeys(s) && ToMap(s) == m {
      DistinctListsToMap(s);
    }
  }

  /** A listing has exactly as many pairs as the map has entries. */
  lemma {:induction false} ListingLength<K, V>(m: map<K, V>, s: seq<(K, V)>)
    requires IsListingOf(m, s)
    ensures |s| == |m|
    decreases |s|
  {
    if s == [] {
      assert m.Keys == {};
    } else {
      var init, last := s[..|s| - 1], s[|s| - 1];
      assert init + [last] == s;
      var rest := m - {last.0};
      ListingDropLast(m, s);
      ListingLength(rest, init);
      assert m.Keys == rest.Keys + {last.0};
    }
  }

  /** A one-entry map has exactly one listing, whatever the iteration order. */
  lemma SingletonListing<K, V>(k: K, v: V, s: seq<(K, V)>)
    requires IsListingOf(map[k := v], s)
    ensures s == [(k, v)]
  {
    ListingLength(map[k := v], s);
    assert s[0].0 in KeysOf(s);
  }

  /** Lists the entries of `m` in an order the caller does not choose. */
  method ListEntries<K, V>(m: map<K, V>) returns (s: seq<(K, V)>)
    ensures IsListingOf(m, s)
  {
    s := [];
    var rest := m.Keys;
    while rest != {}
      invariant rest <= m.Keys
      invariant KeysOf(s) !! rest
      invariant KeysOf(s) + rest == m.Keys
      invariant DistinctKeys(s)
      invariant forall i :: 0 <= i < |s| ==> s[i].0 in m && m[s[i].0] == s[i].1
      decreases rest
    {
      var k :| k in rest;
      KeysOfSnoc(s, (k, m[k]));
      assert k !in KeysOf(s);
      s := s + [(k, m[k])];
      rest := rest - {k};
    }
  }

  /** Collects a flattened two-level map back into nested maps. */
  function Unflatten<P, N, T>(r: seq<(P, seq<(N, T)>)>): map<P, map<N, T>>
  {
    ToMap(seq(|r|, i requires 0 <= i < |r| => (r[i].0, ToMap(r[i].1))))
  }

  lemma SameFirsts<A, B, C>(s: seq<(A, B)>, t: seq<(A, C)>)
    requires |s| == |t|
    requires forall i :: 0 <= i < |s| ==> s[i].0 == t[i].0
    ensures KeysOf(s) == KeysOf(t)
    ensures DistinctKeys(s) <==> DistinctKeys(t)
  {
    forall k | k in KeysOf(s)
      ensures k in KeysOf(t)
    {
      var i :| 0 <= i < |s| && s[i].0 == k;
      assert t[i].0 == k;
    }
    forall k | k in KeysOf(t)
      ensures k in KeysOf(s)
    {
      var i :| 0 <= i < |t| && t[i].0 == k;
      assert s[i].0 == k;
    }
  }

  /**
   * A pair list flattens `m` exactly when its outer and inner keys are distinct
   * and it collects back into `m`.
   */
  lemma FlatteningIffDistinctAndCollects<P, N, T>(m: map<P, map<N, T>>, r: seq<(P, seq<(N, T)>)>)
    ensures IsFlatteningOf(m, r) <==>
      && DistinctKeys(r)
      && (forall i :: 0 <= i < |r| ==> DistinctKeys(r[i].1))
      && Unflatten(r) == m
  {
    var q := seq(|r|, i requires 0 <= i < |r| => (r[i].0, ToMap(r[i].1)));
    SameFirsts(r, q);
    if IsFlatteningOf(m, r) {
      forall i | 0 <= i < |q|
        ensures q[i].0 in m && m[q[i].0] == q[i].1
      {
        ListingRoundTrip(m[r[i].0], r[i].1);
      }
      ListingRoundTrip(m, q);
    }
    if && DistinctKeys(r)
       && (forall i :: 0 <= i < |r| ==> DistinctKeys(r[i].1))
       && Unflatten(r) == m
    {
      DistinctListsToMap(q);
      forall i | 0 <= i < |r|
        ensures r[i].0 in m && IsListingOf(m[r[i].0], r[i].1)
      {
        assert q[i].0 == r[i].0;
        DistinctListsToMap(r[i].1);
      }
    }
  }
}
