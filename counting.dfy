/** Counting over sequences: occurrences, counts of members of a set, tallies
    over a sequence of keys and sums. These are the arithmetic behind
    pandas' `value_counts`, `notna().sum()` and `crosstab`. */
module Counting {

  /** Number of positions of `s` holding `x`. */
  function Occurrences<T(==)>(s: seq<T>, x: T): (n: nat)
    ensures n <= |s|
    ensures n > 0 <==> x in s
  {
    if s == [] then 0
    else Occurrences(s[..|s| - 1], x) + (if s[|s| - 1] == x then 1 else 0)
  }

  /** Number of positions of `s` whose element lies in `keys`. */
  function CountIn<T(==)>(s: seq<T>, keys: set<T>): (n: nat)
    ensures n <= |s|
  {
    if s == [] then 0
    else CountIn(s[..|s| - 1], keys) + (if s[|s| - 1] in keys then 1 else 0)
  }

  /** Sum of a sequence of naturals. */
  function Sum(xs: seq<nat>): nat
  {
    if xs == [] then 0 else Sum(xs[..|xs| - 1]) + xs[|xs| - 1]
  }

  /** Sum of a sequence of reals. */
  function RealSum(xs: seq<real>): real
  {
    if xs == [] then 0.0 else RealSum(xs[..|xs| - 1]) + xs[|xs| - 1]
  }

  /** The elements of a sequence, as a set. */
  function Elements<T>(s: seq<T>): set<T>
  {
    set x | x in s
  }

  ghost predicate IsDistinct<T>(s: seq<T>)
  {
    forall i, j :: 0 <= i < j < |s| ==> s[i] != s[j]
  }

  /** For each key, in order, the number of occurrences of that key in `s`. */
  function Tally<T(==)>(s: seq<T>, keys: seq<T>): (r: seq<nat>)
    ensures |r| == |keys|
    ensures forall j :: 0 <= j < |keys| ==> r[j] == Occurrences(s, keys[j])
  {
    if keys == [] then []
    else Tally(s, keys[..|keys| - 1]) + [Occurrences(s, keys[|keys| - 1])]
  }

  /** The distinct elements of `s` in order of first appearance. */
  function Dedup<T(==)>(s: seq<T>): (r: seq<T>)
    ensures IsDistinct(r)
    ensures |r| <= |s|
  {
    if s == [] then []
    else
      var prefix := Dedup(s[..|s| - 1]);
      if s[|s| - 1] in prefix then prefix else prefix + [s[|s| - 1]]
  }

  lemma SumAppend(xs: seq<nat>, x: nat)
    ensures Sum(xs + [x]) == Sum(xs) + x
  {
    assert (xs + [x])[..|xs|] == xs;
  }

  /** Adding one key to the counted set adds exactly that key's occurrences. */
  lemma {:induction false} CountInAddKey<T>(s: seq<T>, keys: set<T>, k: T)
    requires k !in keys
    ensures CountIn(s, keys + {k}) == CountIn(s, keys) + Occurrences(s, k)
  {
    if s != [] {
      CountInAddKey(s[..|s| - 1], keys, k);
    }
  }

  /** When every element of `s` is a key, every position is counted. */
  lemma {:induction false} CountInAll<T>(s: seq<T>, keys: set<T>)
    requires forall i :: 0 <= i < |s| ==> s[i] in keys
    ensures CountIn(s, keys) == |s|
  {
    if s != [] {
      CountInAll(s[..|s| - 1], keys);
    }
  }

  /** Summing a tally over distinct keys counts the positions of `s` whose
      element is one of the keys: no position is counted twice. */
  lemma {:induction false} TallySum<T>(s: seq<T>, keys: seq<T>)
    requires IsDistinct(keys)
    ensures Sum(Tally(s, keys)) == CountIn(s, Elements(keys))
  {
    if keys == [] {
      assert Elements(keys) == {};
      CountInNone(s);
    } else {
      var init, k := keys[..|keys| - 1], keys[|keys| - 1];
      TallySum(s, init);
      assert Elements(keys) == Elements(init) + {k};
      assert k !in Elements(init);
      CountInAddKey(s, Elements(init), k);
      SumAppend(Tally(s, init), Occurrences(s, k));
    }
  }

  lemma {:induction false} CountInNone<T>(s: seq<T>)
    ensures CountIn(s, {}) == 0
  {
    if s != [] {
      CountInNone(s[..|s| - 1]);
    }
  }

  /** A tally over distinct keys that cover `s` sums to `|s|`. */
  lemma TallyCovers<T>(s: seq<T>, keys: seq<T>)
    requires IsDistinct(keys)
    requires forall i :: 0 <= i < |s| ==> s[i] in keys
    ensures Sum(Tally(s, keys)) == |s|
  {
    TallySum(s, keys);
    CountInAll(s, Elements(keys));
  }

  /** Deduplicating keeps exactly the elements of `s`. */
  lemma {:induction false} DedupMembers<T>(s: seq<T>, x: T)
    ensures x in Dedup(s) <==> x in s
  {
    if s != [] {
      var init := s[..|s| - 1];
      DedupMembers(init, x);
      assert s == init + [s[|s| - 1]];
    }
  }

  /** Deduplicating keeps the set of elements. */
  lemma DedupElements<T>(s: seq<T>)
    ensures Elements(Dedup(s)) == Elements(s)
  {
    forall x ensures x in Elements(Dedup(s)) <==> x in Elements(s) {
      DedupMembers(s, x);
    }
    assert Elements(Dedup(s)) == Elements(s);
  }

  /** Tallying the distinct elements of `s` accounts for all of `s`. */
  lemma TallyOfDedup<T>(s: seq<T>)
    ensures Sum(Tally(s, Dedup(s))) == |s|
  {
    forall i | 0 <= i < |s| ensures s[i] in Dedup(s) {
      DedupMembers(s, s[i]);
    }
    TallyCovers(s, Dedup(s));
  }

  /** A sequence without repetitions has as many elements as positions. */
  lemma {:induction false} DistinctCardinality<T>(s: seq<T>)
    requires IsDistinct(s)
    ensures |Elements(s)| == |s|
  {
    if s != [] {
      var init, last := s[..|s| - 1], s[|s| - 1];
      DistinctCardinality(init);
      assert Elements(s) == Elements(init) + {last};
      assert last !in Elements(init);
    }
  }

  /** A non-empty sequence holding only `x` deduplicates to one element. */
  lemma DedupConstant<T>(s: seq<T>, x: T)
    requires s != []
    requires forall k :: 0 <= k < |s| ==> s[k] == x
    ensures |Dedup(s)| == 1
  {
    assert Elements(s) == {x} by {
      assert s[0] == x;
    }
    DedupElements(s);
    DistinctCardinality(Dedup(s));
  }

  /** A part of a positive total, as a percentage, lies in [0, 100] and is
      100 exactly when the part is the whole. */
  lemma ShareOfTotal(part: nat, total: nat)
    requires 0 < total && part <= total
    ensures 0.0 <= part as real / total as real * 100.0 <= 100.0
    ensures part as real / total as real * 100.0 == 100.0 <==> part == total
  {
    var q := part as real / total as real;
    assert q * total as real == part as real;
    assert q <= 1.0;
    if q == 1.0 {
      assert part as real == total as real;
    }
  }

  /** Percentages of one total add up. */
  lemma ShareAdd(a: real, b: real, t: real)
    requires t > 0.0
    ensures a / t * 100.0 + b / t * 100.0 == (a + b) / t * 100.0
  {
    assert a / t + b / t == (a + b) / t;
  }
}
