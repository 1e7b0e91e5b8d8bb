/** Python dictionaries of counts (`collections.Counter`, `defaultdict(int)`) and
    their ranking with `sorted(items, key=count, reverse=True)[:n]` or
    `Counter.most_common(n)`.

    A dict is kept as its list of items in insertion order, because the ranking
    is a stable sort: items with equal counts stay in insertion order. */
module Tally {
  import opened Seqs

  /** One `(key, count)` item of a dict of counts. */
  datatype Item<K> = Item(key: K, count: nat)

  predicate KeysDistinct<K(==)>(d: seq<Item<K>>)
  {
    forall a, b :: 0 <= a < b < |d| ==> d[a].key != d[b].key
  }

  function Keys<K(==)>(d: seq<Item<K>>): set<K>
  {
    set i | 0 <= i < |d| :: d[i].key
  }

  /** `d[k]` on a `defaultdict(int)` or `Counter`: 0 for a missing key. */
  function Get<K(==)>(d: seq<Item<K>>, k: K): nat
  {
    if |d| == 0 then 0 else if d[0].key == k then d[0].count else Get(d[1..], k)
  }

  /** The sum of all counts. */
  function Total<K>(d: seq<Item<K>>): nat
  {
    if |d| == 0 then 0 else d[0].count + Total(d[1..])
  }

  /** `d[k] += 1`. */
  function Increment<K(==)>(d: seq<Item<K>>, k: K): seq<Item<K>>
  {
    if |d| == 0 then [Item(k, 1)]
    else if d[0].key == k then [Item(k, d[0].count + 1)] + d[1..]
    else [d[0]] + Increment(d[1..], k)
  }

  /** `d[k] += 1` adds one to the sum of the counts and `k` to the keys. */
  lemma {:induction false} IncrementTotalAndKeys<K>(d: seq<Item<K>>, k: K)
    ensures Total(Increment(d, k)) == Total(d) + 1
    ensures Keys(Increment(d, k)) == Keys(d) + {k}
  {
    if |d| > 0 {
      KeysCons(d[0], d[1..]);
      assert d == [d[0]] + d[1..];
      if d[0].key == k {
        KeysCons(Item(k, d[0].count + 1), d[1..]);
      } else {
        IncrementTotalAndKeys(d[1..], k);
        KeysCons(d[0], Increment(d[1..], k));
      }
    }
  }

  /** `d[k] += 1` on a dict: an existing key keeps its place and a new key is
      appended with count 1. */
  lemma {:induction false} IncrementShape<K>(d: seq<Item<K>>, k: K)
    ensures k in Keys(d) ==>
              (|Increment(d, k)| == |d| && forall i :: 0 <= i < |d| ==> Increment(d, k)[i].key == d[i].key)
    ensures k !in Keys(d) ==> Increment(d, k) == d + [Item(k, 1)]
  {
    if |d| > 0 {
      KeysCons(d[0], d[1..]);
      if d[0].key != k {
        IncrementShape(d[1..], k);
        if k !in Keys(d) {
          assert [d[0]] + (d[1..] + [Item(k, 1)]) == d + [Item(k, 1)];
        }
      }
    }
  }

  /** `d[k] += 1` keeps the keys of a dict distinct. */
  lemma {:induction false} IncrementKeepsDistinct<K>(d: seq<Item<K>>, k: K)
    requires KeysDistinct(d)
    ensures KeysDistinct(Increment(d, k))
  {
    if |d| > 0 && d[0].key != k {
      var rest := Increment(d[1..], k);
      IncrementKeepsDistinct(d[1..], k);
      IncrementTotalAndKeys(d[1..], k);
      assert d[0].key !in Keys(d[1..]) by {
        forall b | 0 <= b < |d[1..]| ensures d[1..][b].key != d[0].key {
          assert d[1..][b] == d[b + 1];
        }
      }
      forall a, b | 0 <= a < b < |[d[0]] + rest| ensures ([d[0]] + rest)[a].key != ([d[0]] + rest)[b].key {
        if a == 0 {
          assert rest[b - 1].key in Keys(rest);
        }
      }
    }
  }

  lemma KeysCons<K>(x: Item<K>, s: seq<Item<K>>)
    ensures Keys([x] + s) == {x.key} + Keys(s)
  {
    var r := [x] + s;
    assert r[0].key == x.key;
    forall j | j in Keys(r) ensures j == x.key || j in Keys(s) {
      var i :| 0 <= i < |r| && r[i].key == j;
      if i > 0 { assert s[i - 1].key == j; }
    }
    forall j | j in Keys(s) ensures j in Keys(r) {
      var i :| 0 <= i < |s| && s[i].key == j;
      assert r[i + 1].key == j;
    }
  }

  /** Incrementing `k` adds one to the count of `k` and to no other count. */
  lemma {:induction false} IncrementGet<K>(d: seq<Item<K>>, k: K, j: K)
    ensures Get(Increment(d, k), j) == Get(d, j) + (if j == k then 1 else 0)
  {
    if |d| > 0 && d[0].key != k {
      IncrementGet(d[1..], k, j);
    }
  }

  /** `Counter(xs)`: counts every element of `xs`, keys in order of first occurrence. */
  function Count<K(==)>(xs: seq<K>): seq<Item<K>>
  {
    if |xs| == 0 then [] else Increment(Count(xs[..|xs| - 1]), xs[|xs| - 1])
  }

  /** Each key's count is its number of occurrences. */
  lemma {:induction false} CountIsMultiplicity<K>(xs: seq<K>, w: K)
    ensures Get(Count(xs), w) == multiset(xs)[w]
  {
    if |xs| > 0 {
      var front := xs[..|xs| - 1];
      CountIsMultiplicity(front, w);
      IncrementGet(Count(front), xs[|xs| - 1], w);
      assert xs == front + [xs[|xs| - 1]];
    }
  }

  /** The counts add up to the number of elements counted, and the keys are
      exactly the distinct elements. */
  lemma {:induction false} CountTotalAndKeys<K>(xs: seq<K>)
    ensures Total(Count(xs)) == |xs|
    ensures Keys(Count(xs)) == set x | x in xs
    ensures KeysDistinct(Count(xs))
  {
    if |xs| > 0 {
      var front := xs[..|xs| - 1];
      CountTotalAndKeys(front);
      IncrementTotalAndKeys(Count(front), xs[|xs| - 1]);
      IncrementKeepsDistinct(Count(front), xs[|xs| - 1]);
      assert xs == front + [xs[|xs| - 1]];
      assert (set x | x in xs) == (set x | x in front) + {xs[|xs| - 1]};
    }
  }

  /** Counting a concatenation continues from the counts of its first part. */
  lemma CountSnoc<K>(xs: seq<K>, x: K)
    ensures Count(xs + [x]) == Increment(Count(xs), x)
  {
    assert (xs + [x])[..|xs|] == xs;
  }

  predicate ByCountDesc<K>(s: seq<Item<K>>)
  {
    forall a, b :: 0 <= a < b < |s| ==> s[a].count >= s[b].count
  }

  /** Inserts `x` after every item whose count is at least its own, so that among
      equal counts the earlier item stays first. */
  function InsertByCount<K(==)>(x: Item<K>, s: seq<Item<K>>): (r: seq<Item<K>>)
    ensures multiset(r) == multiset(s) + multiset{x}
    ensures forall b :: 0 <= b < |r| ==> r[b] == x || r[b] in s
  {
    if |s| == 0 then [x]
    else if s[0].count >= x.count then
      assert s == [s[0]] + s[1..];
      [s[0]] + InsertByCount(x, s[1..])
    else [x] + s
  }

  /** Inserting into a list sorted by descending count keeps it sorted. */
  lemma {:induction false} InsertByCountSorted<K>(x: Item<K>, s: seq<Item<K>>)
    requires ByCountDesc(s)
    ensures ByCountDesc(InsertByCount(x, s))
  {
    if |s| > 0 && s[0].count >= x.count {
      var rest := InsertByCount(x, s[1..]);
      InsertByCountSorted(x, s[1..]);
      forall b | 0 <= b < |rest| ensures s[0].count >= rest[b].count {
        assert rest[b] == x || rest[b] in s[1..];
      }
    }
  }

  /** Python's `sorted(d.items(), key=lambda item: item[1], reverse=True)`: a stable
      sort by descending count. */
  function SortByCount<K(==)>(d: seq<Item<K>>): (r: seq<Item<K>>)
    ensures multiset(r) == multiset(d)
    ensures ByCountDesc(r)
  {
    if |d| == 0 then []
    else
      assert d == d[..|d| - 1] + [d[|d| - 1]];
      InsertByCountSorted(d[|d| - 1], SortByCount(d[..|d| - 1]));
      InsertByCount(d[|d| - 1], SortByCount(d[..|d| - 1]))
  }

  /** `sorted(d.items(), key=count, reverse=True)[:n]`, which is also what
      `Counter.most_common(n)` returns. */
  function TopByCount<K(==)>(d: seq<Item<K>>, n: nat): seq<Item<K>>
  {
    Take(SortByCount(d), n)
  }

  /** The top `n` are `min(n, |d|)` items of `d` in non-increasing count order, and
      no item left out has a larger count than one selected. */
  lemma TopByCountSelects<K>(d: seq<Item<K>>, n: nat)
    ensures |TopByCount(d, n)| == Min(n, |d|)
    ensures ByCountDesc(TopByCount(d, n))
    ensures multiset(TopByCount(d, n)) <= multiset(d)
    ensures forall x, y :: x in TopByCount(d, n) && y in multiset(d) - multiset(TopByCount(d, n))
              ==> x.count >= y.count
  {
    var s: seq<Item<K>> := SortByCount(d);
    var r: seq<Item<K>> := TopByCount(d, n);
    assert r == s[..|r|];
    forall a, b | 0 <= a < b < |r| ensures r[a].count >= r[b].count {
      assert r[a] == s[a] && r[b] == s[b];
    }
    PrefixAndRest(s, |r|);
    forall x: Item<K>, y: Item<K> | x in r && y in multiset(s[|r|..]) ensures x.count >= y.count {
      PrefixDominates(s, |r|, x, y);
    }
  }

  /** Cutting a list splits its multiset into the prefix's and the rest's. */
  lemma PrefixAndRest<K>(s: seq<Item<K>>, cut: nat)
    requires cut <= |s|
    ensures multiset(s[..cut]) <= multiset(s)
    ensures multiset(s) - multiset(s[..cut]) == multiset(s[cut..])
  {
    assert s == s[..cut] + s[cut..];
  }

  /** In a list sorted by descending count, an item before a cut counts at least as
      much as an item after it. */
  lemma PrefixDominates<K>(s: seq<Item<K>>, cut: nat, x: Item<K>, y: Item<K>)
    requires ByCountDesc(s) && cut <= |s| && x in s[..cut] && y in s[cut..]
    ensures x.count >= y.count
  {
    var a :| 0 <= a < cut && s[..cut][a] == x;
    var b :| 0 <= b < |s| - cut && s[cut..][b] == y;
    assert s[a] == x && s[cut + b] == y;
  }
}
