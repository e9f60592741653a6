/**
 * The ragged-array indexing operations the selectors use, for the entries of
 * one event: integer-array indexing `s[p]`, boolean-mask indexing `s[m]`, the
 * local index `0 .. n-1` and the cartesian product of two lists.
 */
module Indexing {

  /** Every entry of `p` is a position in a sequence of length `n`. */
  predicate InRange(p: seq<nat>, n: nat) {
    forall k :: 0 <= k < |p| ==> p[k] < n
  }

  /** No entry occurs twice. */
  predicate Distinct<T(==)>(s: seq<T>) {
    forall k, l :: 0 <= k < l < |s| ==> s[k] != s[l]
  }

  /** `p` lists each position `0 .. n-1` exactly once. */
  predicate IsPerm(p: seq<nat>, n: nat) {
    && |p| == n
    && InRange(p, n)
    && Distinct(p)
    && forall y: nat :: y < n ==> y in p
  }

  /** The local index `0, 1, ..., n-1` of a list of length `n`. */
  function Range(n: nat): (r: seq<nat>)
    ensures |r| == n && forall k :: 0 <= k < n ==> r[k] == k
  {
    seq(n, k => k)
  }

  /** Integer-array indexing `s[p]`: the entries of `s` at the positions `p`, in the order of `p`. */
  function Apply<T>(s: seq<T>, p: seq<nat>): (r: seq<T>)
    requires InRange(p, |s|)
    ensures |r| == |p| && forall k :: 0 <= k < |p| ==> r[k] == s[p[k]]
  {
    seq(|p|, k requires 0 <= k < |p| => s[p[k]])
  }

  lemma RangeIsPerm(n: nat)
    ensures IsPerm(Range(n), n)
  {
    forall y: nat | y < n ensures y in Range(n) {
      assert Range(n)[y] == y;
    }
  }

  lemma ApplyRange<T>(s: seq<T>)
    ensures Apply(s, Range(|s|)) == s
  {
  }

  /** Indexing twice is indexing once by the composed index list. */
  lemma ApplyApply<T>(s: seq<T>, p: seq<nat>, q: seq<nat>)
    requires InRange(p, |s|) && InRange(q, |p|)
    ensures InRange(Apply(p, q), |s|)
    ensures Apply(Apply(s, p), q) == Apply(s, Apply(p, q))
  {
  }

  /** Every entry of `s[p]` is an entry of `s`. */
  lemma ApplyMembers<T>(s: seq<T>, p: seq<nat>)
    requires InRange(p, |s|)
    ensures forall x :: x in Apply(s, p) ==> x in s
  {
    forall x | x in Apply(s, p) ensures x in s {
      var k :| 0 <= k < |p| && Apply(s, p)[k] == x;
      assert s[p[k]] == x;
    }
  }

  /** Composing two permutations gives a permutation. */
  lemma {:induction false} ComposePerm(p: seq<nat>, q: seq<nat>, n: nat)
    requires IsPerm(p, n) && IsPerm(q, n)
    ensures IsPerm(Apply(p, q), n)
  {
    var r := Apply(p, q);
    forall k, l | 0 <= k < l < |r| ensures r[k] != r[l] {
      assert q[k] != q[l];
      if q[k] < q[l] {
        assert p[q[k]] != p[q[l]];
      } else {
        assert p[q[l]] != p[q[k]];
      }
    }
    forall y: nat | y < n ensures y in r {
      assert y in p;
      var i :| 0 <= i < |p| && p[i] == y;
      assert i in q;
      var j :| 0 <= j < |q| && q[j] == i;
      assert r[j] == y;
    }
  }

  /** Dropping the position that holds `|p| - 1` from a permutation leaves a permutation of one fewer. */
  lemma {:induction false} PermWithoutLast(p: seq<nat>, j: nat)
    requires |p| > 0 && IsPerm(p, |p|) && j < |p| && p[j] == |p| - 1
    ensures IsPerm(p[..j] + p[j + 1..], |p| - 1)
  {
    var n := |p| - 1;
    var q := p[..j] + p[j + 1..];
    assert |q| == n;
    forall k | 0 <= k < |q| ensures q[k] < n && q[k] in p {
      var i := if k < j then k else k + 1;
      assert q[k] == p[i] && i != j;
      assert p[i] != p[j] by {
        if i < j { assert p[i] != p[j]; } else { assert p[j] != p[i]; }
      }
    }
    forall k, l | 0 <= k < l < |q| ensures q[k] != q[l] {
      var i := if k < j then k else k + 1;
      var i' := if l < j then l else l + 1;
      assert i < i' && q[k] == p[i] && q[l] == p[i'];
    }
    forall y: nat | y < n ensures y in q {
      assert y in p;
      var i :| 0 <= i < |p| && p[i] == y;
      assert i != j;
      if i < j {
        assert q[i] == y;
      } else {
        assert q[i - 1] == y;
      }
    }
  }

  /** Indexing by a concatenation is the concatenation of the indexings. */
  lemma ApplyConcat<T>(s: seq<T>, p: seq<nat>, q: seq<nat>)
    requires InRange(p, |s|) && InRange(q, |s|)
    ensures Apply(s, p + q) == Apply(s, p) + Apply(s, q)
  {
  }

  /** Indexing by positions that all lie in a prefix of `s` only sees that prefix. */
  lemma ApplyPrefix<T>(s: seq<T>, p: seq<nat>, n: nat)
    requires n <= |s| && InRange(p, n)
    ensures Apply(s, p) == Apply(s[..n], p)
  {
  }

  /** Indexing by distinct positions whose entry `j` is the last position, split around `j`. */
  lemma {:induction false} SplitAtLast<T>(s: seq<T>, p: seq<nat>, j: nat)
    requires |s| > 0 && InRange(p, |s|) && Distinct(p) && j < |p| && p[j] == |s| - 1
    ensures InRange(p[..j], |s| - 1) && InRange(p[j + 1..], |s| - 1)
    ensures Apply(s, p) == Apply(s[..|s| - 1], p[..j]) + [s[|s| - 1]] + Apply(s[..|s| - 1], p[j + 1..])
  {
    var n := |s| - 1;
    var before, after := p[..j], p[j + 1..];
    forall k | 0 <= k < |before| ensures before[k] < n {
      assert before[k] == p[k] && p[k] != p[j];
    }
    forall k | 0 <= k < |after| ensures after[k] < n {
      assert after[k] == p[j + 1 + k] && p[j] != p[j + 1 + k];
    }
    assert p == before + [n] + after;
    calc {
      Apply(s, p);
      Apply(s, before + [n] + after);
      { ApplyConcat(s, before + [n], after); }
      Apply(s, before + [n]) + Apply(s, after);
      { ApplyConcat(s, before, [n]); }
      Apply(s, before) + Apply(s, [n]) + Apply(s, after);
      { ApplyPrefix(s, before, n); ApplyPrefix(s, after, n); }
      Apply(s[..n], before) + [s[n]] + Apply(s[..n], after);
    }
  }

  /** Reordering by a permutation keeps the multiset of entries: nothing is lost or added. */
  lemma {:induction false} PermPreservesMultiset<T>(s: seq<T>, p: seq<nat>)
    requires IsPerm(p, |s|)
    ensures multiset(Apply(s, p)) == multiset(s)
    decreases |s|
  {
    if |s| > 0 {
      var n := |s| - 1;
      assert n in p;
      var j :| 0 <= j < |p| && p[j] == n;
      PermWithoutLast(p, j);
      var s', before, after := s[..n], p[..j], p[j + 1..];
      PermPreservesMultiset(s', before + after);
      SplitAtLast(s, p, j);
      ApplyConcat(s', before, after);
      LastSplitOff(s);
      MultisetRegroup(Apply(s, p), Apply(s', before), s[n], Apply(s', after), Apply(s', before + after), s', s);
    }
  }

  lemma LastSplitOff<T>(s: seq<T>)
    requires |s| > 0
    ensures s == s[..|s| - 1] + [s[|s| - 1]]
  {
  }

  /** Taking one entry out of the middle and putting it at the end keeps the multiset. */
  lemma MultisetRegroup<T>(whole: seq<T>, left: seq<T>, x: T, right: seq<T>, rest: seq<T>, smaller: seq<T>, s: seq<T>)
    requires whole == left + [x] + right && rest == left + right
    requires multiset(rest) == multiset(smaller) && s == smaller + [x]
    ensures multiset(whole) == multiset(s)
  {
    calc {
      multiset(whole);
      multiset(left) + multiset{x} + multiset(right);
      multiset(rest) + multiset{x};
      multiset(s);
    }
  }

  /** The positions where `m` is true, in increasing order. */
  function TrueIndices(m: seq<bool>): (r: seq<nat>)
    ensures |r| <= |m| && InRange(r, |m|)
    ensures forall k: nat :: k in r <==> k < |m| && m[k]
    ensures forall a, b :: 0 <= a < b < |r| ==> r[a] < r[b]
    decreases |m|
  {
    if m == [] then []
    else
      var n := |m| - 1;
      TrueIndices(m[..n]) + (if m[n] then [n] else [])
  }

  /**
   * Boolean-mask indexing `s[m]`: the entries of `s` where `m` is true, in
   * their original relative order.
   */
  function Mask<T>(s: seq<T>, m: seq<bool>): (r: seq<T>)
    requires |m| == |s|
    ensures |r| <= |s|
  {
    Apply(s, TrueIndices(m))
  }

  /** An entry is kept by the mask iff it sits at a position the mask keeps. */
  lemma MaskMembers<T>(s: seq<T>, m: seq<bool>)
    requires |m| == |s|
    ensures forall x :: x in Mask(s, m) <==> exists k :: 0 <= k < |s| && m[k] && s[k] == x
  {
    var t := TrueIndices(m);
    forall x | x in Mask(s, m) ensures exists k :: 0 <= k < |s| && m[k] && s[k] == x {
      var a :| 0 <= a < |t| && Mask(s, m)[a] == x;
      assert t[a] in t;
    }
    forall x | exists k :: 0 <= k < |s| && m[k] && s[k] == x ensures x in Mask(s, m) {
      var k :| 0 <= k < |s| && m[k] && s[k] == x;
      assert k in t;
      var a :| 0 <= a < |t| && t[a] == k;
      assert Mask(s, m)[a] == x;
    }
  }

  /** Masking two aligned lists keeps them aligned: both are indexed by the same positions. */
  lemma MaskLockstep<A, B>(s: seq<A>, u: seq<B>, m: seq<bool>)
    requires |s| == |m| && |u| == |m|
    ensures |Mask(s, m)| == |Mask(u, m)|
    ensures forall a :: 0 <= a < |Mask(s, m)| ==>
      var k := TrueIndices(m)[a]; k < |m| && m[k] && Mask(s, m)[a] == s[k] && Mask(u, m)[a] == u[k]
  {
    var t := TrueIndices(m);
    forall a | 0 <= a < |t| ensures m[t[a]] {
      assert t[a] in t;
    }
  }

  /** `ak.cartesian([a, b])` for one event: every pair `(a[i], b[j])`, `a`-major. */
  function Cartesian<A, B>(a: seq<A>, b: seq<B>): (r: seq<(A, B)>)
    ensures |r| == |a| * |b|
    decreases |a|
  {
    if a == [] then []
    else seq(|b|, j requires 0 <= j < |b| => (a[0], b[j])) + Cartesian(a[1..], b)
  }

  /** The pair at position `i * |b| + j` is `(a[i], b[j])`: the product is `a`-major. */
  lemma {:induction false} CartesianAt<A, B>(a: seq<A>, b: seq<B>, i: nat, j: nat)
    requires i < |a| && j < |b|
    ensures i * |b| + j < |a| * |b|
    ensures Cartesian(a, b)[i * |b| + j] == (a[i], b[j])
    decreases i
  {
    var m := |b|;
    var row := seq(m, k requires 0 <= k < m => (a[0], b[k]));
    assert Cartesian(a, b) == row + Cartesian(a[1..], b);
    MulBelow(i, |a|, j, m);
    if i == 0 {
      assert row[j] == (a[0], b[j]);
    } else {
      CartesianAt(a[1..], b, i - 1, j);
      MulSucc(i - 1, m);
      assert a[1..][i - 1] == a[i];
    }
  }

  lemma MulSucc(i: nat, m: nat)
    ensures (i + 1) * m == i * m + m
  {
  }

  lemma MulBelow(i: nat, n: nat, j: nat, m: nat)
    requires i < n && j < m
    ensures i * m + j < n * m
  {
    MulSucc(i, m);
    assert (i + 1) * m <= n * m;
  }

  /** A pair is in the product iff its first part is in `a` and its second in `b`. */
  lemma CartesianMembers<A, B>(a: seq<A>, b: seq<B>)
    ensures forall p: (A, B) :: p in Cartesian(a, b) ==> p.0 in a && p.1 in b
    ensures forall p: (A, B) :: p.0 in a && p.1 in b ==> p in Cartesian(a, b)
  {
    CartesianMembersFrom(a, b);
    forall p: (A, B) | p.0 in a && p.1 in b ensures p in Cartesian(a, b) {
      var i :| 0 <= i < |a| && a[i] == p.0;
      var j :| 0 <= j < |b| && b[j] == p.1;
      CartesianAt(a, b, i, j);
    }
  }

  /** Every pair of the product is drawn from `a` and `b`. */
  lemma {:induction false} CartesianMembersFrom<A, B>(a: seq<A>, b: seq<B>)
    ensures forall p: (A, B) :: p in Cartesian(a, b) ==> p.0 in a && p.1 in b
    decreases |a|
  {
    if a != [] {
      CartesianMembersFrom(a[1..], b);
      var row := seq(|b|, j requires 0 <= j < |b| => (a[0], b[j]));
      var rest := Cartesian(a[1..], b);
      assert Cartesian(a, b) == row + rest;
      forall p | p in Cartesian(a, b) ensures p.0 in a && p.1 in b {
        if p in row {
          var j :| 0 <= j < |row| && row[j] == p;
          assert p == (a[0], b[j]) && a[0] in a && b[j] in b;
        } else {
          assert p in rest;
          assert p.0 in a[1..];
        }
      }
    }
  }

  /**
   * The product of two re-indexed lists is the product of the index lists,
   * looked up: the object pairs and the index pairs stay aligned.
   */
  lemma {:induction false} CartesianOfApply<X, Y>(xs: seq<X>, ys: seq<Y>, a: seq<nat>, b: seq<nat>)
    requires InRange(a, |xs|) && InRange(b, |ys|)
    ensures
      && |Cartesian(Apply(xs, a), Apply(ys, b))| == |Cartesian<nat, nat>(a, b)|
      && forall k :: 0 <= k < |Cartesian<nat, nat>(a, b)| ==>
        && Cartesian<nat, nat>(a, b)[k].0 < |xs| && Cartesian<nat, nat>(a, b)[k].1 < |ys|
        && Cartesian(Apply(xs, a), Apply(ys, b))[k] == (xs[Cartesian<nat, nat>(a, b)[k].0], ys[Cartesian<nat, nat>(a, b)[k].1])
    decreases |a|
  {
    if a != [] {
      assert Apply(xs, a)[1..] == Apply(xs, a[1..]);
      CartesianOfApply(xs, ys, a[1..], b);
    }
  }

  /** Re-indexing by a permutation keeps every element. */
  lemma PermKeepsMembers<T>(s: seq<T>, p: seq<nat>)
    requires IsPerm(p, |s|)
    ensures forall x :: x in s ==> x in Apply(s, p)
  {
    forall x | x in s ensures x in Apply(s, p) {
      var i :| 0 <= i < |s| && s[i] == x;
      assert i in p;
      var k :| 0 <= k < |p| && p[k] == i;
      assert Apply(s, p)[k] == x;
    }
  }

  /** Masking keeps a list's order under any key: it only drops entries. */
  lemma MaskKeepsMonotone<T>(s: seq<T>, m: seq<bool>, f: T -> real)
    requires |m| == |s|
    requires forall k, l :: 0 <= k < l < |s| ==> f(s[k]) <= f(s[l])
    ensures forall k, l :: 0 <= k < l < |Mask(s, m)| ==> f(Mask(s, m)[k]) <= f(Mask(s, m)[l])
  {
    var t := TrueIndices(m);
    forall k, l | 0 <= k < l < |Mask(s, m)| ensures f(Mask(s, m)[k]) <= f(Mask(s, m)[l]) {
      assert t[k] < t[l];
    }
  }

  /**
   * The product is `a`-major: when `a` is ordered under `f`, so are the
   * first parts of the pairs.
   */
  lemma {:induction false} CartesianKeepsFirstOrder<A, B>(a: seq<A>, b: seq<B>, f: A -> real)
    requires forall k, l :: 0 <= k < l < |a| ==> f(a[k]) <= f(a[l])
    ensures forall p, q :: 0 <= p < q < |Cartesian(a, b)| ==>
      f(Cartesian(a, b)[p].0) <= f(Cartesian(a, b)[q].0)
    decreases |a|
  {
    if a != [] {
      var row := seq(|b|, j requires 0 <= j < |b| => (a[0], b[j]));
      var rest := Cartesian(a[1..], b);
      assert Cartesian(a, b) == row + rest;
      CartesianKeepsFirstOrder(a[1..], b, f);
      CartesianMembers(a[1..], b);
      forall q | 0 <= q < |rest| ensures f(a[0]) <= f(rest[q].0) {
        assert rest[q] in rest;
        var l :| 0 <= l < |a[1..]| && a[1..][l] == rest[q].0;
        assert a[l + 1] == rest[q].0;
      }
      forall p, q | 0 <= p < q < |row + rest| ensures f((row + rest)[p].0) <= f((row + rest)[q].0) {
        if p < |row| && q >= |row| {
          assert (row + rest)[q] == rest[q - |row|];
        } else if p >= |row| {
          assert (row + rest)[p] == rest[p - |row|] && (row + rest)[q] == rest[q - |row|];
        }
      }
    }
  }
}
