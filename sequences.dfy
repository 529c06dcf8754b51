/**
 * Sequence operations shared by several parts of the application: the `filter` and
 * `new Set(...)` idioms used to remove and de-duplicate entries, and the shuffle
 * (`array.sort(() => Math.random() - 0.5)`) whose randomness is made an explicit input.
 */
module Sequences {

  // ---------------------------------------------------------------------------
  // Subsequences
  // ---------------------------------------------------------------------------

  /** `a` is `b` with some elements left out, the rest in the same order. */
  predicate IsSubsequence<T(==)>(a: seq<T>, b: seq<T>)
    decreases |b|
  {
    || a == []
    || (b != [] && ((a[0] == b[0] && IsSubsequence(a[1..], b[1..])) || IsSubsequence(a, b[1..])))
  }

  lemma {:induction false} SubsequenceMembers<T>(a: seq<T>, b: seq<T>)
    requires IsSubsequence(a, b)
    ensures forall x :: x in a ==> x in b
    ensures |a| <= |b|
    decreases |b|
  {
    if a != [] {
      if a[0] == b[0] && IsSubsequence(a[1..], b[1..]) {
        assert a == [a[0]] + a[1..] && b == [b[0]] + b[1..];
        SubsequenceMembers(a[1..], b[1..]);
      } else {
        assert b == [b[0]] + b[1..];
        SubsequenceMembers(a, b[1..]);
      }
    }
  }

  lemma {:induction false} SubsequenceReflexive<T>(a: seq<T>)
    ensures IsSubsequence(a, a)
  {
    if a != [] {
      SubsequenceReflexive(a[1..]);
    }
  }

  lemma {:induction false} SubsequenceTransitive<T>(a: seq<T>, b: seq<T>, c: seq<T>)
    requires IsSubsequence(a, b) && IsSubsequence(b, c)
    ensures IsSubsequence(a, c)
    decreases |c|
  {
    if a != [] {
      SubsequenceMembers(a, b);
      SubsequenceMembers(b, c);
      if IsSubsequence(b, c[1..]) {
        SubsequenceTransitive(a, b, c[1..]);
      } else if a[0] == b[0] && IsSubsequence(a[1..], b[1..]) {
        SubsequenceTransitive(a[1..], b[1..], c[1..]);
      } else {
        SubsequenceTransitive(a, b[1..], c[1..]);
      }
    }
  }

  // ---------------------------------------------------------------------------
  // Removing and de-duplicating by key
  // ---------------------------------------------------------------------------

  /** The set of keys the elements of `xs` carry. */
  function KeysOf<T(==), K(==)>(xs: seq<T>, key: T -> K): set<K> {
    set i | 0 <= i < |xs| :: key(xs[i])
  }

  lemma KeysOfConcat<T, K>(a: seq<T>, b: seq<T>, key: T -> K)
    ensures KeysOf(a + b, key) == KeysOf(a, key) + KeysOf(b, key)
  {
    var c := a + b;
    forall y | y in KeysOf(c, key) ensures y in KeysOf(a, key) + KeysOf(b, key) {
      var i :| 0 <= i < |c| && key(c[i]) == y;
      if i < |a| { assert c[i] == a[i]; } else { assert c[i] == b[i - |a|]; }
    }
    forall y | y in KeysOf(a, key) + KeysOf(b, key) ensures y in KeysOf(c, key) {
      if y in KeysOf(a, key) {
        var i :| 0 <= i < |a| && key(a[i]) == y;
        assert c[i] == a[i];
      } else {
        var i :| 0 <= i < |b| && key(b[i]) == y;
        assert c[|a| + i] == b[i];
      }
    }
  }

  /** `xs.filter(keep)`: the elements that satisfy `keep`, in their original order. */
  function Filter<T(==)>(xs: seq<T>, keep: T -> bool): (r: seq<T>)
    ensures |r| <= |xs|
  {
    if xs == [] then []
    else
      var rest := Filter(xs[1..], keep);
      if keep(xs[0]) then [xs[0]] + rest else rest
  }

  /** Filtering yields elements of the input that satisfy `keep`, and every input element that satisfies it. */
  lemma {:induction false} FilterMembers<T>(xs: seq<T>, keep: T -> bool)
    ensures forall i :: 0 <= i < |Filter(xs, keep)| ==> Filter(xs, keep)[i] in xs && keep(Filter(xs, keep)[i])
    ensures forall i :: 0 <= i < |xs| && keep(xs[i]) ==> xs[i] in Filter(xs, keep)
  {
    if xs != [] {
      FilterMembers(xs[1..], keep);
      assert xs == [xs[0]] + xs[1..];
    }
  }

  /** Filtering keeps the order of what it keeps. */
  lemma {:induction false} FilterSubsequence<T>(xs: seq<T>, keep: T -> bool)
    ensures IsSubsequence(Filter(xs, keep), xs)
  {
    if xs != [] {
      FilterSubsequence(xs[1..], keep);
    }
  }

  /** Filtering a prefix gives a prefix of the filtered sequence. */
  lemma {:induction false} FilterPrefix<T>(xs: seq<T>, keep: T -> bool, i: nat)
    requires i <= |xs|
    ensures var p := Filter(xs[..i], keep);
      |p| <= |Filter(xs, keep)| && p == Filter(xs, keep)[..|p|]
  {
    if i > 0 {
      var ys := xs[..i];
      assert ys[0] == xs[0] && ys[1..] == xs[1..][..i - 1];
      FilterPrefix(xs[1..], keep, i - 1);
      var p', q' := Filter(ys[1..], keep), Filter(xs[1..], keep);
      assert Filter(ys, keep) == if keep(xs[0]) then [xs[0]] + p' else p';
      assert Filter(xs, keep) == if keep(xs[0]) then [xs[0]] + q' else q';
    }
  }

  /** Filtering out every element leaves nothing. */
  lemma {:induction false} FilterNone<T>(xs: seq<T>, keep: T -> bool)
    requires forall i :: 0 <= i < |xs| ==> !keep(xs[i])
    ensures Filter(xs, keep) == []
  {
    if xs != [] {
      FilterNone(xs[1..], keep);
    }
  }

  /** Filtering keeps how often each kept element occurs and drops every other element. */
  lemma {:induction false} FilterMultiset<T>(xs: seq<T>, keep: T -> bool, x: T)
    ensures multiset(Filter(xs, keep))[x] == if keep(x) then multiset(xs)[x] else 0
  {
    if xs != [] {
      assert xs == [xs[0]] + xs[1..];
      FilterMultiset(xs[1..], keep, x);
    }
  }

  /** One step of the filter on a non-empty sequence. */
  lemma FilterCons<T>(xs: seq<T>, keep: T -> bool)
    requires xs != []
    ensures Filter(xs, keep) == if keep(xs[0]) then [xs[0]] + Filter(xs[1..], keep) else Filter(xs[1..], keep)
  {
  }

  /** Filtering a concatenation filters each part. */
  lemma {:induction false} FilterAppend<T>(xs: seq<T>, ys: seq<T>, keep: T -> bool)
    ensures Filter(xs + ys, keep) == Filter(xs, keep) + Filter(ys, keep)
  {
    if xs != [] {
      var zs := xs + ys;
      assert zs[0] == xs[0] && zs[1..] == xs[1..] + ys;
      FilterAppend(xs[1..], ys, keep);
      FilterCons(zs, keep);
      FilterCons(xs, keep);
      var a, b := Filter(xs[1..], keep), Filter(ys, keep);
      assert [xs[0]] + (a + b) == ([xs[0]] + a) + b;
    } else {
      assert xs + ys == ys;
    }
  }

  /** Filtering a non-empty sequence filters all but its last element, then keeps or drops the last. */
  lemma FilterSnoc<T>(xs: seq<T>, keep: T -> bool)
    requires xs != []
    ensures var n := |xs| - 1;
      Filter(xs, keep) == Filter(xs[..n], keep) + (if keep(xs[n]) then [xs[n]] else [])
  {
    var n := |xs| - 1;
    assert xs[..n] + [xs[n]] == xs;
    FilterAppend(xs[..n], [xs[n]], keep);
    FilterCons([xs[n]], keep);
    assert [xs[n]][1..] == [];
  }

  /** Filtering with a test every element passes changes nothing. */
  lemma {:induction false} FilterAll<T>(xs: seq<T>, keep: T -> bool)
    requires forall i :: 0 <= i < |xs| ==> keep(xs[i])
    ensures Filter(xs, keep) == xs
  {
    if xs != [] {
      FilterAll(xs[1..], keep);
    }
  }

  /** Filtering keeps a sequence free of repeated keys. */
  lemma {:induction false} FilterKeepsDistinctKeys<T, K>(xs: seq<T>, keep: T -> bool, key: T -> K)
    requires DistinctKeys(xs, key)
    ensures DistinctKeys(Filter(xs, keep), key)
  {
    if xs != [] {
      var rest := Filter(xs[1..], keep);
      assert DistinctKeys(xs[1..], key) by {
        assert forall i :: 0 <= i < |xs[1..]| ==> xs[1..][i] == xs[i + 1];
      }
      FilterKeepsDistinctKeys(xs[1..], keep, key);
      if keep(xs[0]) {
        FilterMembers(xs[1..], keep);
        forall i | 0 <= i < |rest| ensures key(rest[i]) != key(xs[0]) {
          var j :| 0 <= j < |xs[1..]| && xs[1..][j] == rest[i];
          assert xs[j + 1] == rest[i];
        }
        assert Filter(xs, keep) == [xs[0]] + rest;
      }
    }
  }

  /** The test `x => key(x) !== k`. */
  function NotKey<T, K(==)>(key: T -> K, k: K): T -> bool {
    x => key(x) != k
  }

  /** `xs.filter(x => key(x) !== k)`. */
  function WithoutKey<T(==), K(==)>(xs: seq<T>, key: T -> K, k: K): (r: seq<T>)
    ensures forall i :: 0 <= i < |r| ==> r[i] in xs && key(r[i]) != k
    ensures IsSubsequence(r, xs)
    ensures KeysOf(r, key) == KeysOf(xs, key) - {k}
  {
    var r := Filter(xs, NotKey(key, k));
    FilterSubsequence(xs, NotKey(key, k));
    FilterMembers(xs, NotKey(key, k));
    assert forall i :: 0 <= i < |xs| && key(xs[i]) != k ==> xs[i] in r;
    r
  }

  /**
   * `Array.from(new Set(xs.map(key))).map(k => xs.find(x => key(x) === k))`: the first element of
   * `xs` for each key, in the order in which the keys first occur.
   */
  function DedupeBy<T(==), K(==)>(xs: seq<T>, key: T -> K): (r: seq<T>)
    ensures forall i, j :: 0 <= i < j < |r| ==> key(r[i]) != key(r[j])
    ensures KeysOf(r, key) == KeysOf(xs, key)
    ensures IsSubsequence(r, xs)
    ensures xs != [] ==> r != [] && r[0] == xs[0]
    decreases |xs|
  {
    if xs == [] then []
    else
      var rest := WithoutKey(xs[1..], key, key(xs[0]));
      SubsequenceMembers(rest, xs[1..]);
      var d := DedupeBy(rest, key);
      SubsequenceMembers(d, rest);
      SubsequenceTransitive(d, rest, xs[1..]);
      assert xs == [xs[0]] + xs[1..];
      assert forall j :: 0 <= j < |d| ==> d[j] in rest;
      KeysOfConcat([xs[0]], xs[1..], key);
      KeysOfConcat([xs[0]], d, key);
      [xs[0]] + d
  }

  /** A sequence without repeated keys is its own de-duplication. */
  lemma {:induction false} DedupeDistinct<T, K>(xs: seq<T>, key: T -> K)
    requires DistinctKeys(xs, key)
    ensures DedupeBy(xs, key) == xs
    decreases |xs|
  {
    if xs != [] {
      var k := key(xs[0]);
      var t := xs[1..];
      assert forall i :: 0 <= i < |t| ==> t[i] == xs[i + 1];
      FilterAll(t, NotKey(key, k));
      assert WithoutKey(t, key, k) == t;
      DedupeDistinct(t, key);
    }
  }

  /** Removing a key from a sequence without repeated keys removes one element if the key occurs, none otherwise. */
  lemma {:induction false} WithoutKeyLength<T, K>(xs: seq<T>, key: T -> K, k: K)
    requires DistinctKeys(xs, key)
    ensures |WithoutKey(xs, key, k)| == if k in KeysOf(xs, key) then |xs| - 1 else |xs|
  {
    if xs != [] {
      var t := xs[1..];
      assert DistinctKeys(t, key) by {
        assert forall i :: 0 <= i < |t| ==> t[i] == xs[i + 1];
      }
      WithoutKeyLength(t, key, k);
      KeysOfConcat([xs[0]], t, key);
      assert xs == [xs[0]] + t;
      assert KeysOf([xs[0]], key) == {key(xs[0])};
      if key(xs[0]) == k {
        assert forall i :: 0 <= i < |t| ==> key(t[i]) != k by {
          assert forall i :: 0 <= i < |t| ==> t[i] == xs[i + 1];
        }
        assert k !in KeysOf(t, key);
      }
    }
  }

  /** Rearranging a sequence keeps its set of keys. */
  lemma PermutationKeys<T, K>(xs: seq<T>, p: seq<T>, key: T -> K)
    requires multiset(p) == multiset(xs)
    ensures KeysOf(p, key) == KeysOf(xs, key)
  {
    forall y | y in KeysOf(p, key) ensures y in KeysOf(xs, key) {
      var i :| 0 <= i < |p| && key(p[i]) == y;
      assert p[i] in multiset(xs);
      var j :| 0 <= j < |xs| && xs[j] == p[i];
    }
    forall y | y in KeysOf(xs, key) ensures y in KeysOf(p, key) {
      var i :| 0 <= i < |xs| && key(xs[i]) == y;
      assert xs[i] in multiset(p);
      var j :| 0 <= j < |p| && p[j] == xs[i];
    }
  }

  /** De-duplicating a prefix gives a prefix of the de-duplicated sequence: keys keep first-occurrence order. */
  lemma {:induction false} DedupePrefix<T, K>(xs: seq<T>, key: T -> K, i: nat)
    requires i <= |xs|
    ensures var p := DedupeBy(xs[..i], key);
      |p| <= |DedupeBy(xs, key)| && p == DedupeBy(xs, key)[..|p|]
    decreases |xs|
  {
    if i > 0 {
      var t := xs[1..];
      var k := key(xs[0]);
      assert xs[..i][1..] == t[..i - 1];
      FilterPrefix(t, NotKey(key, k), i - 1);
      var wp := WithoutKey(t[..i - 1], key, k);
      var w := WithoutKey(t, key, k);
      assert wp == w[..|wp|];
      SubsequenceMembers(w, t);
      DedupePrefix(w, key, |wp|);
    }
  }

  // ---------------------------------------------------------------------------
  // Shuffling with explicit random draws
  // ---------------------------------------------------------------------------

  /** `Math.floor(Math.random() * n)` with the random number replaced by a draw: the draw itself when it is in range. */
  function IndexFromDraw(n: nat, draw: nat): (k: nat)
    requires n > 0
    ensures k < n
    ensures draw < n ==> k == draw
  {
    if draw < n then draw else draw % n
  }

  /**
   * A shuffle driven by a sequence of random draws: each draw picks (modulo the number left) the
   * next element among those not yet taken. A missing draw picks the first remaining element.
   */
  function PermuteByDraws<T(==)>(xs: seq<T>, draws: seq<nat>): (r: seq<T>)
    ensures |r| == |xs|
    ensures multiset(r) == multiset(xs)
    decreases |xs|
  {
    if xs == [] then []
    else
      var k := IndexFromDraw(|xs|, if draws == [] then 0 else draws[0]);
      assert xs == xs[..k] + [xs[k]] + xs[k + 1..];
      [xs[k]] + PermuteByDraws(xs[..k] + xs[k + 1..], if draws == [] then [] else draws[1..])
  }

  /** A prefix of a rearrangement of `xs` holds elements of `xs`, none more often than `xs` does. */
  lemma PrefixMembers<T>(s: seq<T>, xs: seq<T>, k: nat)
    requires multiset(s) == multiset(xs) && k <= |s|
    ensures multiset(s[..k]) <= multiset(xs)
    ensures forall i :: 0 <= i < k ==> s[..k][i] in xs
  {
    assert s == s[..k] + s[k..];
    forall i | 0 <= i < k ensures s[..k][i] in xs {
      assert s[i] in multiset(xs);
    }
  }

  lemma MultisetRemoveAt<T>(xs: seq<T>, k: nat)
    requires k < |xs|
    ensures multiset(xs[..k] + xs[k + 1..]) == multiset(xs) - multiset{xs[k]}
  {
    assert xs == xs[..k] + [xs[k]] + xs[k + 1..];
  }

  /** The first element of a permutation `p` of `xs` sits in `xs` at some index `k`; the rest of `p` permutes the rest of `xs`. */
  lemma MatchHead<T>(xs: seq<T>, p: seq<T>) returns (k: nat)
    requires multiset(p) == multiset(xs) && p != []
    ensures k < |xs| && xs[k] == p[0]
    ensures multiset(p[1..]) == multiset(xs[..k] + xs[k + 1..])
  {
    assert p[0] in multiset(xs);
    k :| 0 <= k < |xs| && xs[k] == p[0];
    MultisetRemoveAt(xs, k);
    assert p == [p[0]] + p[1..];
    calc {
      multiset(p[1..]);
      multiset(p) - multiset{p[0]};
      multiset(xs) - multiset{xs[k]};
    }
  }

  /** Every rearrangement of `xs` is the outcome of some draws: the shuffle can produce any permutation. */
  lemma {:induction false} EveryPermutationReachable<T>(xs: seq<T>, p: seq<T>) returns (draws: seq<nat>)
    requires multiset(p) == multiset(xs)
    ensures PermuteByDraws(xs, draws) == p
    decreases |xs|
  {
    assert |p| == |multiset(p)| == |xs|;
    if xs == [] {
      draws := [];
    } else {
      var k := MatchHead(xs, p);
      var d := EveryPermutationReachable(xs[..k] + xs[k + 1..], p[1..]);
      draws := [k] + d;
      PermuteStep(xs, k, d);
      assert p == [p[0]] + p[1..];
    }
  }

  /** A draw below the number of elements left takes the element at that index. */
  lemma PermuteStep<T>(xs: seq<T>, k: nat, d: seq<nat>)
    requires k < |xs|
    ensures PermuteByDraws(xs, [k] + d) == [xs[k]] + PermuteByDraws(xs[..k] + xs[k + 1..], d)
  {
    assert ([k] + d)[0] == k && ([k] + d)[1..] == d;
  }

  /** No two elements of `xs` carry the same key. */
  predicate DistinctKeys<T, K(==)>(xs: seq<T>, key: T -> K) {
    forall i, j :: 0 <= i < j < |xs| ==> key(xs[i]) != key(xs[j])
  }

  /** Taking one element out of a sequence without repeated keys leaves none, and none with its key. */
  lemma DistinctKeysWithout<T, K>(xs: seq<T>, key: T -> K, k: nat)
    requires k < |xs| && DistinctKeys(xs, key)
    ensures var rest := xs[..k] + xs[k + 1..];
      DistinctKeys(rest, key) && forall m :: 0 <= m < |rest| ==> key(rest[m]) != key(xs[k])
  {
    var rest := xs[..k] + xs[k + 1..];
    assert forall m :: 0 <= m < |rest| ==> rest[m] == if m < k then xs[m] else xs[m + 1];
  }

  /** A permutation of a sequence without repeated keys has no repeated keys either. */
  lemma {:induction false} PermutationKeepsDistinctKeys<T, K>(xs: seq<T>, p: seq<T>, key: T -> K)
    requires multiset(p) == multiset(xs)
    requires DistinctKeys(xs, key)
    ensures DistinctKeys(p, key)
    decreases |xs|
  {
    assert |p| == |multiset(p)| == |xs|;
    if p != [] {
      var k := MatchHead(xs, p);
      var rest := xs[..k] + xs[k + 1..];
      DistinctKeysWithout(xs, key, k);
      PermutationKeepsDistinctKeys(rest, p[1..], key);
      forall m | 0 <= m < |p[1..]| ensures key(p[1..][m]) != key(p[0]) {
        assert p[1..][m] in multiset(rest);
      }
    }
  }
}
