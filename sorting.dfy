/**
 * A stable argsort (`ak.argsort(keys, ascending=...)`) on the entries of one
 * event. The positions are put in the strict order `Before`: by key, and by
 * position where keys are equal. Because that order is total, the sorted
 * index list is unique, so any permutation already in that order is the
 * argsort.
 */
module Sorting {
  import opened Indexing

  /** Position `i` comes before position `j` in a stable sort of `keys`. */
  predicate Before(keys: seq<real>, ascending: bool, i: nat, j: nat)
    requires i < |keys| && j < |keys|
  {
    || (if ascending then keys[i] < keys[j] else keys[i] > keys[j])
    || (keys[i] == keys[j] && i < j)
  }

  /** The positions in `s` are listed in the stable-sort order of `keys`. */
  predicate InOrder(keys: seq<real>, ascending: bool, s: seq<nat>) {
    && InRange(s, |keys|)
    && forall k, l :: 0 <= k < l < |s| ==> Before(keys, ascending, s[k], s[l])
  }

  lemma BeforeTotal(keys: seq<real>, ascending: bool, i: nat, j: nat)
    requires i < |keys| && j < |keys| && i != j
    ensures Before(keys, ascending, i, j) || Before(keys, ascending, j, i)
  {
  }

  lemma BeforeTransitive(keys: seq<real>, ascending: bool, i: nat, j: nat, k: nat)
    requires i < |keys| && j < |keys| && k < |keys|
    requires Before(keys, ascending, i, j) && Before(keys, ascending, j, k)
    ensures Before(keys, ascending, i, k)
  {
  }

  /** A list in stable-sort order has no repeated position. */
  lemma InOrderDistinct(keys: seq<real>, ascending: bool, s: seq<nat>)
    requires InOrder(keys, ascending, s)
    ensures Distinct(s)
  {
    forall k, l | 0 <= k < l < |s| ensures s[k] != s[l] {
      assert Before(keys, ascending, s[k], s[l]);
    }
  }

  /** Insert position `x` into a list already in stable-sort order. */
  function Insert(keys: seq<real>, ascending: bool, s: seq<nat>, x: nat): (r: seq<nat>)
    requires x < |keys| && InRange(s, |keys|)
    ensures |r| == |s| + 1 && InRange(r, |keys|)
    ensures forall y :: y in r <==> y in s || y == x
    decreases |s|
  {
    if s == [] then [x]
    else if Before(keys, ascending, x, s[0]) then [x] + s
    else [s[0]] + Insert(keys, ascending, s[1..], x)
  }

  lemma {:induction false} InsertInOrder(keys: seq<real>, ascending: bool, s: seq<nat>, x: nat)
    requires x < |keys| && InOrder(keys, ascending, s) && x !in s
    ensures InOrder(keys, ascending, Insert(keys, ascending, s, x))
    decreases |s|
  {
    if s == [] {
    } else if Before(keys, ascending, x, s[0]) {
      var r := [x] + s;
      forall k, l | 0 <= k < l < |r| ensures Before(keys, ascending, r[k], r[l]) {
        if k == 0 && l > 1 {
          BeforeTransitive(keys, ascending, x, s[0], s[l - 1]);
        }
      }
    } else {
      BeforeTotal(keys, ascending, x, s[0]);
      InsertInOrder(keys, ascending, s[1..], x);
      var t := Insert(keys, ascending, s[1..], x);
      var r := [s[0]] + t;
      forall k, l | 0 <= k < l < |r| ensures Before(keys, ascending, r[k], r[l]) {
        if k == 0 {
          assert r[l] == t[l - 1] && t[l - 1] in t;
          if r[l] != x {
            assert r[l] in s[1..];
            var m :| 0 <= m < |s[1..]| && s[1..][m] == r[l];
            assert s[m + 1] == r[l];
          }
        } else {
          assert r[k] == t[k - 1] && r[l] == t[l - 1];
        }
      }
    }
  }

  /** The stable argsort of `keys[..m]`: positions `0 .. m-1` inserted one at a time. */
  function ArgsortPrefix(keys: seq<real>, ascending: bool, m: nat): (r: seq<nat>)
    requires m <= |keys|
    ensures |r| == m && InOrder(keys, ascending, r)
    ensures forall y: nat :: y in r <==> y < m
    decreases m
  {
    if m == 0 then []
    else
      var s := ArgsortPrefix(keys, ascending, m - 1);
      InsertInOrder(keys, ascending, s, m - 1);
      Insert(keys, ascending, s, m - 1)
  }

  /**
   * `ak.argsort(keys, ascending=ascending)`, stable: a permutation of the
   * positions that orders the keys, equal keys keeping their original order.
   */
  function Argsort(keys: seq<real>, ascending: bool): (r: seq<nat>)
    ensures IsPerm(r, |keys|) && InOrder(keys, ascending, r)
  {
    var r := ArgsortPrefix(keys, ascending, |keys|);
    InOrderDistinct(keys, ascending, r);
    r
  }

  /** The argsort orders the keys, and equal keys keep their original order. */
  lemma ArgsortOrders(keys: seq<real>, ascending: bool)
    ensures var r := Argsort(keys, ascending);
      && (forall k, l :: 0 <= k < l < |r| ==>
            if ascending then keys[r[k]] <= keys[r[l]] else keys[r[k]] >= keys[r[l]])
      && (forall k, l :: 0 <= k < l < |r| && keys[r[k]] == keys[r[l]] ==> r[k] < r[l])
  {
    var r := Argsort(keys, ascending);
    assert forall k, l :: 0 <= k < l < |r| ==> Before(keys, ascending, r[k], r[l]);
  }

  /** No two positions are each before the other. */
  lemma BeforeNotBoth(keys: seq<real>, ascending: bool, i: nat, j: nat)
    requires i < |keys| && j < |keys|
    ensures !(Before(keys, ascending, i, j) && Before(keys, ascending, j, i))
  {
  }

  /** The head of a list in stable-sort order is before every other member. */
  lemma HeadIsFirst(keys: seq<real>, ascending: bool, s: seq<nat>, y: nat)
    requires InOrder(keys, ascending, s) && y in s
    ensures y == s[0] || Before(keys, ascending, s[0], y)
  {
    var i :| 0 <= i < |s| && s[i] == y;
    if i > 0 {
      assert Before(keys, ascending, s[0], s[i]);
    }
  }

  /** Two lists in stable-sort order with the same positions are the same list. */
  lemma {:induction false} InOrderUnique(keys: seq<real>, ascending: bool, s: seq<nat>, t: seq<nat>)
    requires InOrder(keys, ascending, s) && InOrder(keys, ascending, t)
    requires forall y :: y in s <==> y in t
    ensures s == t
    decreases |s|
  {
    assert |s| > 0 ==> s[0] in t;
    assert |t| > 0 ==> t[0] in s;
    if |s| > 0 {
      HeadIsFirst(keys, ascending, s, t[0]);
      HeadIsFirst(keys, ascending, t, s[0]);
      BeforeNotBoth(keys, ascending, s[0], t[0]);
      assert s[0] == t[0];
      InOrderDistinct(keys, ascending, s);
      InOrderDistinct(keys, ascending, t);
      forall y ensures y in s[1..] <==> y in t[1..] {
        if y in s[1..] {
          var i :| 0 <= i < |s[1..]| && s[1..][i] == y;
          assert s[0] != s[i + 1] && y in s;
          var j :| 0 <= j < |t| && t[j] == y;
          assert j != 0;
          assert t[1..][j - 1] == y;
        }
        if y in t[1..] {
          var j :| 0 <= j < |t[1..]| && t[1..][j] == y;
          assert t[0] != t[j + 1] && y in t;
          var i :| 0 <= i < |s| && s[i] == y;
          assert i != 0;
          assert s[1..][i - 1] == y;
        }
      }
      InOrderUnique(keys, ascending, s[1..], t[1..]);
    }
  }

  /** Any permutation in stable-sort order is the argsort. */
  lemma ArgsortUnique(keys: seq<real>, ascending: bool, s: seq<nat>)
    requires IsPerm(s, |keys|) && InOrder(keys, ascending, s)
    ensures Argsort(keys, ascending) == s
  {
    var r := Argsort(keys, ascending);
    forall y ensures y in r <==> y in s {
      if y in r {
        var k :| 0 <= k < |r| && r[k] == y;
        assert y < |keys|;
      }
      if y in s {
        var k :| 0 <= k < |s| && s[k] == y;
        assert y < |keys|;
      }
    }
    InOrderUnique(keys, ascending, r, s);
  }

  /** Keys already in ascending order have the identity as their stable ascending argsort. */
  lemma ArgsortOfAscending(keys: seq<real>)
    requires forall k, l :: 0 <= k < l < |keys| ==> keys[k] <= keys[l]
    ensures Argsort(keys, true) == Range(|keys|)
  {
    RangeIsPerm(|keys|);
    ArgsortUnique(keys, true, Range(|keys|));
  }

  /** Keys already in descending order have the identity as their stable descending argsort. */
  lemma ArgsortOfDescending(keys: seq<real>)
    requires forall k, l :: 0 <= k < l < |keys| ==> keys[k] >= keys[l]
    ensures Argsort(keys, false) == Range(|keys|)
  {
    RangeIsPerm(|keys|);
    ArgsortUnique(keys, false, Range(|keys|));
  }

  /**
   * Masking a list in stable-sort order keeps it in that order: this is
   * `sorted_indices[mask[sorted_indices]]`.
   */
  lemma MaskKeepsOrder(keys: seq<real>, ascending: bool, s: seq<nat>, m: seq<bool>)
    requires InOrder(keys, ascending, s) && |m| == |s|
    ensures InOrder(keys, ascending, Mask(s, m))
  {
    var t := TrueIndices(m);
    var r := Mask(s, m);
    forall k, l | 0 <= k < l < |r| ensures Before(keys, ascending, r[k], r[l]) {
      assert t[k] < t[l];
      assert r[k] == s[t[k]] && r[l] == s[t[l]];
    }
  }

  /** The stable argsort of two keys: swapped iff the second comes strictly first. */
  lemma ArgsortOfTwo(keys: seq<real>, ascending: bool)
    requires |keys| == 2
    ensures Argsort(keys, ascending) == if Before(keys, ascending, 1, 0) then [1, 0] else [0, 1]
  {
    var s: seq<nat> := if Before(keys, ascending, 1, 0) then [1, 0] else [0, 1];
    assert forall y: nat :: y < 2 ==> y in s;
    ArgsortUnique(keys, ascending, s);
  }
}
