/**
  A grow-only counter (G-Counter CRDT): one count per philosopher id, of
  which the owner only ever raises its own; replicas are combined by
  taking the pointwise maximum.
 */
module GCounter {

  datatype Counter = Counter(owner: int, counts: map<int, nat>)

  /** The count recorded for `k`, 0 when `k` has no entry. */
  function Get(m: map<int, nat>, k: int): nat
  {
    if k in m then m[k] else 0
  }

  function Max(a: nat, b: nat): nat
  {
    if a < b then b else a
  }

  /** The sum of all the counts in `m`. */
  ghost function Sum(m: map<int, nat>): nat
    decreases |m|
  {
    if m.Keys == {} then 0
    else
      Inhabited(m.Keys);
      var k :| k in m.Keys;
      m[k] + Sum(m - {k})
  }

  /** The entries of `m` whose keys lie in `keys`. */
  function Restrict(m: map<int, nat>, keys: set<int>): (r: map<int, nat>)
    ensures r.Keys == m.Keys * keys
    ensures forall k :: k in r ==> r[k] == m[k]
  {
    map k | k in m && k in keys :: m[k]
  }

  /** A non-empty set has a member. */
  lemma Inhabited(s: set<int>)
    requires s != {}
    ensures exists k :: k in s
  {
    if forall k :: k !in s {
      assert false;
    }
  }

  /** Every entry of `small` is present in `big` with at least the same count. */
  ghost predicate Dominates(big: map<int, nat>, small: map<int, nat>)
  {
    forall k :: k in small ==> k in big && small[k] <= big[k]
  }

  /** A new counter belongs to `owner` and has no entries. */
  function New(owner: int): (c: Counter)
    ensures c.owner == owner
    ensures c.counts == map[]
    ensures Sum(c.counts) == 0
  {
    Counter(owner, map[])
  }

  /**
    The owner's entry goes up by one, starting from 0 if it had none; the
    owner and every other entry stay as they were.
   */
  function Increment(c: Counter): (r: Counter)
    ensures r.owner == c.owner
    ensures r.counts.Keys == c.counts.Keys + {c.owner}
    ensures r.counts[c.owner] == Get(c.counts, c.owner) + 1
    ensures forall k :: k in c.counts && k != c.owner ==> r.counts[k] == c.counts[k]
  {
    Counter(c.owner, c.counts[c.owner := Get(c.counts, c.owner) + 1])
  }

  /**
    Pointwise maximum: keys of `other` get the larger of the two counts
    (a missing local entry counting as 0); keys only in `local` keep theirs.
   */
  function MergeMaps(local: map<int, nat>, other: map<int, nat>): (r: map<int, nat>)
    ensures r.Keys == local.Keys + other.Keys
    ensures forall k :: k in other ==> r[k] == Max(Get(local, k), other[k])
    ensures forall k :: k in local && k !in other ==> r[k] == local[k]
  {
    map k | k in local.Keys + other.Keys ::
      if k in other then Max(Get(local, k), other[k]) else local[k]
  }

  /** Merging another replica into `c` keeps `c`'s owner. */
  function Merge(c: Counter, other: Counter): (r: Counter)
    ensures r.owner == c.owner
    ensures r.counts == MergeMaps(c.counts, other.counts)
  {
    Counter(c.owner, MergeMaps(c.counts, other.counts))
  }

  // ---------------------------------------------------------------------
  // Sums

  /** Any entry can be taken out of the sum first. */
  lemma {:induction false} SumRemove(m: map<int, nat>, k: int)
    requires k in m
    ensures Sum(m) == m[k] + Sum(m - {k})
    decreases |m|
  {
    var j :| j in m && Sum(m) == m[j] + Sum(m - {j});
    if j != k {
      var mj := m - {j};
      var mk := m - {k};
      assert |mj| < |m| by { assert mj.Keys == m.Keys - {j}; }
      assert |mk| < |m| by { assert mk.Keys == m.Keys - {k}; }
      SumRemove(mj, k);
      SumRemove(mk, j);
      assert mj - {k} == mk - {j};
    }
  }

  /** Adding `d` to one entry (or creating it with `d`) adds `d` to the sum. */
  lemma SumUpdate(m: map<int, nat>, k: int, d: nat)
    ensures Sum(m[k := Get(m, k) + d]) == Sum(m) + d
  {
    var m' := m[k := Get(m, k) + d];
    SumRemove(m', k);
    assert m' - {k} == m - {k};
    if k in m {
      SumRemove(m, k);
    } else {
      assert m - {k} == m;
    }
  }

  /** A map that dominates another has at least its sum. */
  lemma {:induction false} SumMonotone(big: map<int, nat>, small: map<int, nat>)
    requires Dominates(big, small)
    ensures Sum(small) <= Sum(big)
    decreases |small|
  {
    if small.Keys != {} {
      Inhabited(small.Keys);
      var k :| k in small;
      SumRemove(small, k);
      SumRemove(big, k);
      var s' := small - {k};
      var b' := big - {k};
      assert |s'| < |small| by { assert s'.Keys == small.Keys - {k}; }
      assert Dominates(b', s');
      SumMonotone(b', s');
    }
  }

  /** A fresh counter's query is 0. */
  lemma NewQueryIsZero(owner: int)
    ensures Sum(New(owner).counts) == 0
  {
  }

  /** Incrementing raises the queried total by exactly one. */
  lemma IncrementQuery(c: Counter)
    ensures Sum(Increment(c).counts) == Sum(c.counts) + 1
  {
    SumUpdate(c.counts, c.owner, 1);
  }

  /**
    The query: the sum of all entries, accumulated one entry at a time in
    whatever order the map yields them.
   */
  method Query(c: Counter) returns (total: nat)
    ensures total == Sum(c.counts)
  {
    var m := c.counts;
    var rest := m.Keys;
    total := 0;
    assert Restrict(m, rest) == m;
    while rest != {}
      invariant rest <= m.Keys
      invariant total + Sum(Restrict(m, rest)) == Sum(m)
      decreases rest
    {
      Inhabited(rest);
      var k :| k in rest;
      var before := Restrict(m, rest);
      SumRemove(before, k);
      assert before - {k} == Restrict(m, rest - {k});
      total := total + m[k];
      rest := rest - {k};
    }
    assert Restrict(m, rest) == map[];
  }

  /**
    The merge loop: one entry of `other` at a time, each local entry
    replaced by the larger of the two counts.
   */
  method MergeInto(c: Counter, other: Counter) returns (r: Counter)
    ensures r == Merge(c, other)
  {
    var m := c.counts;
    var rest := other.counts.Keys;
    assert MergeMaps(c.counts, Restrict(other.counts, {})) == c.counts;
    while rest != {}
      invariant rest <= other.counts.Keys
      invariant m == MergeMaps(c.counts, Restrict(other.counts, other.counts.Keys - rest))
      decreases rest
    {
      Inhabited(rest);
      var k :| k in rest;
      m := m[k := Max(Get(m, k), other.counts[k])];
      rest := rest - {k};
      assert m == MergeMaps(c.counts, Restrict(other.counts, other.counts.Keys - rest));
    }
    assert Restrict(other.counts, other.counts.Keys) == other.counts;
    r := Counter(c.owner, m);
  }

  // ---------------------------------------------------------------------
  // Merge laws

  /** Merging never lowers an entry, so the query never goes down (grow-only). */
  lemma MergeGrowOnly(c: Counter, other: Counter)
    ensures Dominates(Merge(c, other).counts, c.counts)
    ensures Dominates(Merge(c, other).counts, other.counts)
    ensures Sum(c.counts) <= Sum(Merge(c, other).counts)
  {
    SumMonotone(Merge(c, other).counts, c.counts);
  }

  /** The merge is the least map dominating both arguments. */
  lemma MergeIsLeastUpperBound(a: map<int, nat>, b: map<int, nat>, u: map<int, nat>)
    requires Dominates(u, a) && Dominates(u, b)
    ensures Dominates(u, MergeMaps(a, b))
  {
  }

  /** Merging a map with an equal one changes nothing. */
  lemma MergeIdempotent(a: map<int, nat>)
    ensures MergeMaps(a, a) == a
  {
  }

  lemma MergeCommutative(a: map<int, nat>, b: map<int, nat>)
    ensures MergeMaps(a, b) == MergeMaps(b, a)
  {
  }

  lemma MergeAssociative(a: map<int, nat>, b: map<int, nat>, c: map<int, nat>)
    ensures MergeMaps(MergeMaps(a, b), c) == MergeMaps(a, MergeMaps(b, c))
  {
  }
}
