/** Insertion-ordered grouping, the `defaultdict(list)` idiom the services use: a
    dictionary is modelled as the sequence of its keys in insertion order plus a map. */
module Grouping {

  /** `[key(x) for x in xs]`. */
  function MapSeq<T, K>(xs: seq<T>, key: T -> K): (ks: seq<K>)
    ensures |ks| == |xs|
    ensures forall i :: 0 <= i < |xs| ==> ks[i] == key(xs[i])
  {
    seq(|xs|, i requires 0 <= i < |xs| => key(xs[i]))
  }

  predicate Distinct<K(==)>(ks: seq<K>)
  {
    forall i, j :: 0 <= i < j < |ks| ==> ks[i] != ks[j]
  }

  /** The distinct elements of `ks` in order of first occurrence (the key order of a
      Python dict filled from `ks`). */
  function Dedup<K(==, !new)>(ks: seq<K>): (r: seq<K>)
    ensures Distinct(r)
    ensures forall k :: k in r <==> k in ks
    ensures |r| <= |ks|
  {
    if ks == [] then []
    else
      var init := ks[..|ks| - 1];
      var last := ks[|ks| - 1];
      assert ks == init + [last];
      var p := Dedup(init);
      if last in p then p else p + [last]
  }

  /** The elements of `xs` whose key is `k`, in their original order. */
  function Select<T(!new), K(==)>(xs: seq<T>, key: T -> K, k: K): (r: seq<T>)
    ensures forall x :: x in r <==> x in xs && key(x) == k
    ensures |r| <= |xs|
  {
    if xs == [] then []
    else
      var init := xs[..|xs| - 1];
      var last := xs[|xs| - 1];
      assert xs == init + [last];
      Select(init, key, k) + (if key(last) == k then [last] else [])
  }

  /** `grouped = defaultdict(list); for x in xs: grouped[key(x)].append(x)`: the keys in
      first-occurrence order, and for each key the elements with that key, in order. */
  method GroupBy<T(!new), K(==, !new)>(xs: seq<T>, key: T -> K) returns (keys: seq<K>, groups: map<K, seq<T>>)
    ensures keys == Dedup(MapSeq(xs, key))
    ensures forall k :: k in groups <==> k in keys
    ensures forall k :: k in groups ==> groups[k] == Select(xs, key, k)
  {
    keys := [];
    groups := map[];
    for i := 0 to |xs|
      invariant keys == Dedup(MapSeq(xs[..i], key))
      invariant forall k :: k in groups <==> k in keys
      invariant forall k :: k in groups ==> groups[k] == Select(xs[..i], key, k)
    {
      var x := xs[i];
      var k := key(x);
      if k in groups {
        GroupSeenStep(xs, i, key, keys, groups);
        groups := groups[k := groups[k] + [x]];
      } else {
        GroupNewStep(xs, i, key, keys, groups);
        keys := keys + [k];
        groups := groups[k := [x]];
      }
    }
    assert xs[..|xs|] == xs;
  }

  /** One iteration of the grouping loop on a key already seen: the key list stays and
      that key's group gets the element appended. */
  lemma GroupSeenStep<T(!new), K(!new)>(xs: seq<T>, i: nat, key: T -> K,
                                        keys: seq<K>, groups: map<K, seq<T>>)
    requires i < |xs|
    requires keys == Dedup(MapSeq(xs[..i], key))
    requires forall k :: k in groups <==> k in keys
    requires forall k :: k in groups ==> groups[k] == Select(xs[..i], key, k)
    requires key(xs[i]) in groups
    ensures keys == Dedup(MapSeq(xs[..i + 1], key))
    ensures groups[key(xs[i])] + [xs[i]] == Select(xs[..i + 1], key, key(xs[i]))
    ensures forall k :: k in groups && k != key(xs[i]) ==> groups[k] == Select(xs[..i + 1], key, k)
  {
    PrefixStep(xs, i, key);
  }

  /** One iteration of the grouping loop on a new key: the key is appended to the key
      list with a group of its own, and the other groups stay. */
  lemma GroupNewStep<T(!new), K(!new)>(xs: seq<T>, i: nat, key: T -> K,
                                       keys: seq<K>, groups: map<K, seq<T>>)
    requires i < |xs|
    requires keys == Dedup(MapSeq(xs[..i], key))
    requires forall k :: k in groups <==> k in keys
    requires forall k :: k in groups ==> groups[k] == Select(xs[..i], key, k)
    requires key(xs[i]) !in groups
    ensures keys + [key(xs[i])] == Dedup(MapSeq(xs[..i + 1], key))
    ensures [xs[i]] == Select(xs[..i + 1], key, key(xs[i]))
    ensures forall k :: k in groups ==> groups[k] == Select(xs[..i + 1], key, k)
  {
    PrefixStep(xs, i, key);
    SelectAbsent(xs[..i], key, key(xs[i]));
  }

  /** How the key list and the groups of a prefix grow by one element. */
  lemma PrefixStep<T(!new), K(!new)>(xs: seq<T>, i: nat, key: T -> K)
    requires i < |xs|
    ensures MapSeq(xs[..i + 1], key) == MapSeq(xs[..i], key) + [key(xs[i])]
    ensures Dedup(MapSeq(xs[..i + 1], key))
         == if key(xs[i]) in MapSeq(xs[..i], key) then Dedup(MapSeq(xs[..i], key))
            else Dedup(MapSeq(xs[..i], key)) + [key(xs[i])]
    ensures forall k :: (Select(xs[..i + 1], key, k)
                          == Select(xs[..i], key, k) + (if key(xs[i]) == k then [xs[i]] else []))
  {
    var ks := MapSeq(xs[..i + 1], key);
    assert ks == MapSeq(xs[..i], key) + [key(xs[i])];
    assert ks[..|ks| - 1] == MapSeq(xs[..i], key);
    assert xs[..i + 1][..i] == xs[..i];
  }

  lemma {:induction false} SelectAbsent<T(!new), K>(xs: seq<T>, key: T -> K, k: K)
    requires k !in MapSeq(xs, key)
    ensures Select(xs, key, k) == []
  {
    if xs != [] {
      var init := xs[..|xs| - 1];
      assert MapSeq(xs, key) == MapSeq(init, key) + [key(xs[|xs| - 1])];
      SelectAbsent(init, key, k);
    }
  }

  /** The keys of a key list, as a set. */
  function KeySet<K>(ks: seq<K>): set<K>
  {
    set k | k in ks
  }

  /** A duplicate-free sequence has as many elements as its set. */
  lemma {:induction false} DistinctCard<K>(ks: seq<K>)
    requires Distinct(ks)
    ensures |KeySet(ks)| == |ks|
  {
    if ks != [] {
      var init := ks[..|ks| - 1];
      var last := ks[|ks| - 1];
      assert ks == init + [last];
      DistinctCard(init);
      assert KeySet(ks) == KeySet(init) + {last};
    }
  }

  lemma DistinctSnoc<K>(ks: seq<K>, k: K)
    requires Distinct(ks) && k !in ks
    ensures Distinct(ks + [k])
  {
    var r := ks + [k];
    forall i, j | 0 <= i < j < |r| ensures r[i] != r[j] {
      assert r[i] == ks[i];
      if j == |ks| {
        assert ks[i] in ks;
      } else {
        assert r[j] == ks[j];
      }
    }
  }

  lemma KeySetAppend<K>(a: seq<K>, b: seq<K>)
    ensures KeySet(a + b) == KeySet(a) + KeySet(b)
  {
  }

  /** `k` is a key of `xs` exactly when some element has that key. */
  lemma InMapSeq<T, K>(xs: seq<T>, key: T -> K, k: K)
    ensures k in MapSeq(xs, key) <==> exists x :: x in xs && key(x) == k
  {
    if exists x :: x in xs && key(x) == k {
      var x :| x in xs && key(x) == k;
      var i :| 0 <= i < |xs| && xs[i] == x;
      assert MapSeq(xs, key)[i] == k;
    }
  }

  /** Every key of `xs` selects a non-empty group. */
  lemma SelectPresent<T(!new), K(!new)>(xs: seq<T>, key: T -> K, k: K)
    requires k in MapSeq(xs, key)
    ensures Select(xs, key, k) != []
    ensures key(Select(xs, key, k)[0]) == k
  {
    var i :| 0 <= i < |xs| && MapSeq(xs, key)[i] == k;
    assert xs[i] in Select(xs, key, k);
  }

  lemma MapSeqAppend<T, K>(a: seq<T>, b: seq<T>, key: T -> K)
    ensures MapSeq(a + b, key) == MapSeq(a, key) + MapSeq(b, key)
  {
  }
}
