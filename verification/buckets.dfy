/**
  The grouping step: a JavaScript object used as a map from key to an array of
  items, modelled as an ordered association list whose keys keep insertion order,
  and the `groupBy` fold that fills it.
 */
module Buckets {

  /** An ordered association list from a key to the bucket of items filed under it. */
  type Buckets<K, T> = seq<(K, seq<T>)>

  /** No element occurs twice. */
  predicate Distinct<K(==)>(ks: seq<K>)
  {
    forall i, j :: 0 <= i < j < |ks| ==> ks[i] != ks[j]
  }

  /** The keys of an association list, in order. */
  function Keys<K, T>(al: Buckets<K, T>): (ks: seq<K>)
    ensures |ks| == |al|
    ensures forall i :: 0 <= i < |al| ==> ks[i] == al[i].0
  {
    if al == [] then [] else [al[0].0] + Keys(al[1..])
  }

  /** The bucket filed under `k`, or the empty bucket when `k` is absent (a missing property). */
  function Lookup<K(==), T>(al: Buckets<K, T>, k: K): seq<T>
  {
    if al == [] then []
    else if al[0].0 == k then al[0].1
    else Lookup(al[1..], k)
  }

  /** All items of all buckets, bucket after bucket. */
  function Flatten<K, T>(al: Buckets<K, T>): seq<T>
  {
    if al == [] then [] else al[0].1 + Flatten(al[1..])
  }

  /** Every bucket is empty. */
  predicate AllEmpty<K, T>(al: Buckets<K, T>)
  {
    forall i :: 0 <= i < |al| ==> al[i].1 == []
  }

  /** The items of `xs` whose key is `k`, in input order. */
  function Select<K(==), T>(xs: seq<T>, key: T -> K, k: K): (s: seq<T>)
    ensures forall x :: x in s ==> x in xs && key(x) == k
  {
    if xs == [] then []
    else (if key(xs[0]) == k then [xs[0]] else []) + Select(xs[1..], key, k)
  }

  /** Some item carries key `k` exactly when the selection for `k` is not empty. */
  lemma {:induction false} SelectNonEmpty<K, T>(xs: seq<T>, key: T -> K, k: K)
    ensures Select(xs, key, k) != [] <==> exists x :: x in xs && key(x) == k
    decreases |xs|
  {
    if xs != [] {
      SelectNonEmpty(xs[1..], key, k);
      assert xs == [xs[0]] + xs[1..];
    }
  }

  /**
    The keys of the items of `xs` that are not in `seen`, each once, in the
    order in which they first occur in `xs`.
   */
  function FirstSeen<K(==), T>(xs: seq<T>, key: T -> K, seen: seq<K>): seq<K>
  {
    if xs == [] then []
    else if key(xs[0]) in seen then FirstSeen(xs[1..], key, seen)
    else [key(xs[0])] + FirstSeen(xs[1..], key, seen + [key(xs[0])])
  }

  /** The position of the first item of `xs` whose key is `k` (`|xs|` when there is none). */
  function FirstIndex<K(==), T>(xs: seq<T>, key: T -> K, k: K): (n: nat)
    ensures n <= |xs|
    ensures n < |xs| ==> key(xs[n]) == k
    ensures forall i :: 0 <= i < n ==> key(xs[i]) != k
  {
    if xs == [] then 0
    else if key(xs[0]) == k then 0
    else 1 + FirstIndex(xs[1..], key, k)
  }

  /**
    One step of `groupBy`: create the bucket for `k` at the end when it is
    missing, then append `x` to it. The keys keep their order and gain `k` at
    the end only when it was missing; the items gain exactly `x`.
   */
  function Insert<K(==), T>(al: Buckets<K, T>, k: K, x: T): (r: Buckets<K, T>)
    ensures Keys(r) == if k in Keys(al) then Keys(al) else Keys(al) + [k]
  {
    if al == [] then [(k, [x])]
    else if al[0].0 == k then
      assert Keys(al) == [k] + Keys(al[1..]);
      [(k, al[0].1 + [x])] + al[1..]
    else
      var rest := Insert(al[1..], k, x);
      assert Keys(al) == [al[0].0] + Keys(al[1..]);
      assert ([al[0]] + rest)[1..] == rest;
      [al[0]] + rest
  }

  /** Inserting adds exactly the one item. */
  lemma {:induction false} InsertFlatten<K, T>(al: Buckets<K, T>, k: K, x: T)
    ensures multiset(Flatten(Insert(al, k, x))) == multiset(Flatten(al)) + multiset{x}
  {
    if al != [] && al[0].0 != k {
      var rest := Insert(al[1..], k, x);
      assert ([al[0]] + rest)[1..] == rest;
      InsertFlatten(al[1..], k, x);
    }
  }

  /** After inserting `x` under `k`, the bucket under `k` ends in `x`; every other bucket is untouched. */
  lemma {:induction false} InsertLookup<K, T>(al: Buckets<K, T>, k: K, x: T, k': K)
    ensures Lookup(Insert(al, k, x), k') == if k' == k then Lookup(al, k) + [x] else Lookup(al, k')
  {
    if al != [] && al[0].0 != k {
      var rest := Insert(al[1..], k, x);
      assert ([al[0]] + rest)[1..] == rest;
      InsertLookup(al[1..], k, x, k');
    }
  }

  /**
    `groupBy(xs, key, acc)`: file every item of `xs`, in order, under its key,
    starting from the buckets of `acc`. No item is lost or duplicated.
   */
  function GroupBy<K(==), T>(xs: seq<T>, key: T -> K, acc: Buckets<K, T>): (r: Buckets<K, T>)
    ensures multiset(Flatten(r)) == multiset(Flatten(acc)) + multiset(xs)
    decreases |xs|
  {
    if xs == [] then acc
    else
      assert xs == [xs[0]] + xs[1..];
      InsertFlatten(acc, key(xs[0]), xs[0]);
      GroupBy(xs[1..], key, Insert(acc, key(xs[0]), xs[0]))
  }

  /**
    The keys of `groupBy(xs, key, acc)` are those of `acc`, in their order,
    followed by the keys that are new, in the order they are first seen in `xs`.
   */
  lemma {:induction false} GroupByKeys<K, T>(xs: seq<T>, key: T -> K, acc: Buckets<K, T>)
    ensures Keys(GroupBy(xs, key, acc)) == Keys(acc) + FirstSeen(xs, key, Keys(acc))
    decreases |xs|
  {
    if xs != [] {
      var next := Insert(acc, key(xs[0]), xs[0]);
      GroupByKeys(xs[1..], key, next);
    }
  }

  /**
    The bucket under any key `k` after `groupBy(xs, key, acc)` is the bucket
    `acc` had under `k` followed by the items of `xs` whose key is `k`, in input order.
   */
  lemma {:induction false} GroupByBucket<K, T>(xs: seq<T>, key: T -> K, acc: Buckets<K, T>, k: K)
    ensures Lookup(GroupBy(xs, key, acc), k) == Lookup(acc, k) + Select(xs, key, k)
    decreases |xs|
  {
    if xs != [] {
      var next := Insert(acc, key(xs[0]), xs[0]);
      InsertLookup(acc, key(xs[0]), xs[0], k);
      GroupByBucket(xs[1..], key, next, k);
    }
  }

  /**
    A key is first seen in `xs` beyond `seen` exactly when it is not in `seen`
    and some item of `xs` carries it.
   */
  lemma {:induction false} FirstSeenMembers<K, T>(xs: seq<T>, key: T -> K, seen: seq<K>, k: K)
    ensures k in FirstSeen(xs, key, seen) <==> k !in seen && Select(xs, key, k) != []
    decreases |xs|
  {
    if xs != [] {
      if key(xs[0]) in seen {
        FirstSeenMembers(xs[1..], key, seen, k);
      } else {
        FirstSeenMembers(xs[1..], key, seen + [key(xs[0])], k);
      }
    }
  }

  /** Putting two distinct, disjoint lists side by side keeps them distinct. */
  lemma DistinctConcat<K>(a: seq<K>, b: seq<K>)
    requires Distinct(a) && Distinct(b)
    requires forall k :: k in b ==> k !in a
    ensures Distinct(a + b)
  {
    forall i, j | 0 <= i < j < |a + b|
      ensures (a + b)[i] != (a + b)[j]
    {
      if i < |a| <= j {
        assert (a + b)[j] == b[j - |a|];
        assert b[j - |a|] in b;
      }
    }
  }

  /** When every key of `xs` is already seen, no key is new. */
  lemma {:induction false} FirstSeenNone<K, T>(xs: seq<T>, key: T -> K, seen: seq<K>)
    requires forall x :: x in xs ==> key(x) in seen
    ensures FirstSeen(xs, key, seen) == []
    decreases |xs|
  {
    if xs != [] {
      assert xs[0] in xs;
      assert forall x :: x in xs[1..] ==> x in xs;
      FirstSeenNone(xs[1..], key, seen);
    }
  }

  /** The first-seen keys are distinct and none of them is in `seen`. */
  lemma {:induction false} FirstSeenFresh<K, T>(xs: seq<T>, key: T -> K, seen: seq<K>)
    ensures Distinct(FirstSeen(xs, key, seen))
    ensures forall k :: k in FirstSeen(xs, key, seen) ==> k !in seen
    decreases |xs|
  {
    if xs != [] {
      var k0 := key(xs[0]);
      if k0 in seen {
        FirstSeenFresh(xs[1..], key, seen);
      } else {
        var t := FirstSeen(xs[1..], key, seen + [k0]);
        FirstSeenFresh(xs[1..], key, seen + [k0]);
        assert forall k :: k in t ==> k !in [k0];
        DistinctConcat([k0], t);
      }
    }
  }

  /**
    Past an item whose key is not `k`, the first occurrence of `k` is one
    position further than in the rest of the input.
   */
  lemma FirstIndexStep<K, T>(xs: seq<T>, key: T -> K, k: K)
    requires xs != [] && key(xs[0]) != k
    ensures FirstIndex(xs, key, k) == 1 + FirstIndex(xs[1..], key, k)
  {
  }

  /** `ks` lists keys in the order in which they first occur among the keys of `xs`. */
  predicate InFirstOccurrenceOrder<K(==), T>(ks: seq<K>, xs: seq<T>, key: T -> K)
  {
    forall i, j :: 0 <= i < j < |ks| ==> FirstIndex(xs, key, ks[i]) < FirstIndex(xs, key, ks[j])
  }

  /** The first-seen keys are listed in the order of their first occurrence in `xs`. */
  lemma {:induction false} FirstSeenOrder<K, T>(xs: seq<T>, key: T -> K, seen: seq<K>)
    ensures InFirstOccurrenceOrder(FirstSeen(xs, key, seen), xs, key)
    decreases |xs|
  {
    if xs != [] {
      var k0 := key(xs[0]);
      var seen' := if k0 in seen then seen else seen + [k0];
      var t := FirstSeen(xs[1..], key, seen');
      FirstSeenOrder(xs[1..], key, seen');
      FirstSeenFresh(xs[1..], key, seen');
      forall j | 0 <= j < |t|
        ensures FirstIndex(xs, key, t[j]) == 1 + FirstIndex(xs[1..], key, t[j])
      {
        assert t[j] in t;
        assert t[j] !in seen';
        FirstIndexStep(xs, key, t[j]);
      }
      var fs := FirstSeen(xs, key, seen);
      if k0 in seen {
        assert fs == t;
        forall i, j | 0 <= i < j < |fs|
          ensures FirstIndex(xs, key, fs[i]) < FirstIndex(xs, key, fs[j])
        {
          assert FirstIndex(xs[1..], key, t[i]) < FirstIndex(xs[1..], key, t[j]);
        }
      } else {
        assert fs == [k0] + t;
        forall i, j | 0 <= i < j < |fs|
          ensures FirstIndex(xs, key, fs[i]) < FirstIndex(xs, key, fs[j])
        {
          assert fs[j] == t[j - 1];
          if i > 0 {
            assert fs[i] == t[i - 1];
            assert FirstIndex(xs[1..], key, t[i - 1]) < FirstIndex(xs[1..], key, t[j - 1]);
          } else {
            assert FirstIndex(xs, key, fs[i]) == 0;
          }
        }
      }
    }
  }

  /** Every key in a list that has distinct keys finds its own bucket. */
  lemma {:induction false} LookupDistinct<K, T>(al: Buckets<K, T>, i: nat)
    requires Distinct(Keys(al))
    requires i < |al|
    ensures Lookup(al, al[i].0) == al[i].1
  {
    if i > 0 {
      assert Keys(al[1..]) == Keys(al)[1..];
      LookupDistinct(al[1..], i - 1);
    }
  }

  /** Looking up any key in a list of empty buckets yields the empty bucket. */
  lemma {:induction false} LookupAllEmpty<K, T>(al: Buckets<K, T>, k: K)
    requires AllEmpty(al)
    ensures Lookup(al, k) == []
  {
    if al != [] {
      LookupAllEmpty(al[1..], k);
    }
  }

  /** A list of empty buckets holds no items. */
  lemma {:induction false} FlattenAllEmpty<K, T>(al: Buckets<K, T>)
    requires AllEmpty(al)
    ensures Flatten(al) == []
  {
    if al != [] {
      FlattenAllEmpty(al[1..]);
    }
  }

  /**
    Grouping keeps the keys distinct (a JavaScript object never holds a
    property twice).
   */
  lemma GroupByDistinct<K, T>(xs: seq<T>, key: T -> K, acc: Buckets<K, T>)
    requires Distinct(Keys(acc))
    ensures Distinct(Keys(GroupBy(xs, key, acc)))
  {
    GroupByKeys(xs, key, acc);
    FirstSeenFresh(xs, key, Keys(acc));
    DistinctConcat(Keys(acc), FirstSeen(xs, key, Keys(acc)));
  }

  /**
    Grouping from empty buckets with distinct keys files every item under its
    own key: bucket `i` holds exactly the items whose key is the bucket's key,
    in input order.
   */
  lemma GroupByBucketAt<K, T>(xs: seq<T>, key: T -> K, acc: Buckets<K, T>, i: nat)
    requires Distinct(Keys(acc)) && AllEmpty(acc)
    requires i < |GroupBy(xs, key, acc)|
    ensures GroupBy(xs, key, acc)[i].1 == Select(xs, key, GroupBy(xs, key, acc)[i].0)
  {
    var r := GroupBy(xs, key, acc);
    var k := r[i].0;
    GroupByDistinct(xs, key, acc);
    LookupDistinct(r, i);
    GroupByBucket(xs, key, acc, k);
    LookupAllEmpty(acc, k);
    assert Lookup(acc, k) + Select(xs, key, k) == Select(xs, key, k);
  }

  /**
    The fold that pre-seeds buckets: for each name in order, add an empty
    bucket under it unless the name is already present. Existing buckets are
    untouched and the new buckets are empty.
   */
  function SeedFrom<K(==), T>(names: seq<K>, acc: Buckets<K, T>): (r: Buckets<K, T>)
    ensures |acc| <= |r| && r[..|acc|] == acc
    ensures forall i :: |acc| <= i < |r| ==> r[i].1 == []
    ensures AllEmpty(acc) ==> AllEmpty(r)
    decreases |names|
  {
    if names == [] then acc
    else if names[0] in Keys(acc) then SeedFrom(names[1..], acc)
    else
      var next := acc + [(names[0], [])];
      assert Keys(next) == Keys(acc) + [names[0]];
      SeedFrom(names[1..], next)
  }

  /**
    Seeding with names that are distinct and new appends exactly those names,
    in order, so the guard against repeats never fires.
   */
  lemma {:induction false} SeedFromDistinct<K, T>(names: seq<K>, acc: Buckets<K, T>)
    requires Distinct(names)
    requires forall k :: k in names ==> k !in Keys(acc)
    ensures Keys(SeedFrom(names, acc)) == Keys(acc) + names
    decreases |names|
  {
    if names != [] {
      var k0, rest := names[0], names[1..];
      var next: Buckets<K, T> := acc + [(k0, [])];
      assert k0 in names;
      assert Keys(next) == Keys(acc) + [k0];
      DistinctTail(names);
      assert forall k :: k in rest ==> k in names;
      SeedFromDistinct(rest, next);
      assert Keys(acc) + [k0] + rest == Keys(acc) + names;
    }
  }

  /** The tail of a distinct list is distinct and does not repeat its head. */
  lemma DistinctTail<K>(ks: seq<K>)
    requires Distinct(ks) && ks != []
    ensures Distinct(ks[1..])
    ensures ks[0] !in ks[1..]
  {
    var rest := ks[1..];
    forall i, j | 0 <= i < j < |rest| ensures rest[i] != rest[j] {
      assert rest[i] == ks[i + 1] && rest[j] == ks[j + 1];
    }
  }
}
