/**
 * The cut chains of the selectors: a table of named per-object (or per-pair)
 * boolean cuts, combined by a cumulative AND starting from an all-true mask,
 * with the mask after each cut recorded under that cut's name. The record is
 * a dictionary filled in insertion order; since the names in every table
 * are distinct it is modelled as the sequence of (name, mask) entries.
 */
module Cutflow {

  /** One named cut: the outcome for each object of the event. */
  datatype Cut = Cut(name: string, mask: seq<bool>)

  /** Every cut of the table has one entry per object. */
  predicate Aligned(n: nat, cuts: seq<Cut>) {
    forall c :: 0 <= c < |cuts| ==> |cuts[c].mask| == n
  }

  /** Object `i` passes each of the first `k` cuts. */
  predicate PassesFirst(cuts: seq<Cut>, k: nat, i: nat)
    requires k <= |cuts|
    requires forall c :: 0 <= c < k ==> i < |cuts[c].mask|
  {
    forall c :: 0 <= c < k ==> cuts[c].mask[i]
  }

  /** The cut `f` evaluated on every object of the event. */
  function Column<T>(xs: seq<T>, f: T -> bool): (r: seq<bool>)
    ensures |r| == |xs| && forall i :: 0 <= i < |xs| ==> r[i] == f(xs[i])
  {
    seq(|xs|, i requires 0 <= i < |xs| => f(xs[i]))
  }

  /** The names of a table of cuts, in table order. */
  function Names(cuts: seq<Cut>): (r: seq<string>)
    ensures |r| == |cuts| && forall c :: 0 <= c < |cuts| ==> r[c] == cuts[c].name
  {
    seq(|cuts|, c requires 0 <= c < |cuts| => cuts[c].name)
  }

  /** The element-wise AND of two masks, awkward's `a & b`. */
  function And(a: seq<bool>, b: seq<bool>): (r: seq<bool>)
    requires |a| == |b|
    ensures |r| == |a|
    ensures forall i :: 0 <= i < |a| ==> r[i] == (a[i] && b[i])
  {
    seq(|a|, i requires 0 <= i < |a| => a[i] && b[i])
  }

  /** The element-wise negation of a mask, awkward's `~a`. */
  function Not(a: seq<bool>): (r: seq<bool>)
    ensures |r| == |a|
    ensures forall i :: 0 <= i < |a| ==> r[i] == !a[i]
  {
    seq(|a|, i requires 0 <= i < |a| => !a[i])
  }

  /** The number of true entries, `ak.sum(mask)`. */
  function CountTrue(m: seq<bool>): (r: nat)
    ensures r <= |m|
    ensures r == 0 <==> forall i :: 0 <= i < |m| ==> !m[i]
  {
    if m == [] then 0 else (if m[0] then 1 else 0) + CountTrue(m[1..])
  }

  /**
   * The cut loop `mask = mask & cuts[name]; steps[name] = mask` over the
   * table, starting from the all-true mask of `n` objects. The final mask
   * holds exactly for the objects passing every cut; step `c` holds for
   * the objects passing cuts `0 .. c`, so every step implies the previous.
   */
  method Accumulate(n: nat, cuts: seq<Cut>) returns (mask: seq<bool>, steps: seq<Cut>)
    requires Aligned(n, cuts)
    ensures |mask| == n
    ensures forall i :: 0 <= i < n ==> (mask[i] <==> PassesFirst(cuts, |cuts|, i))
    ensures |steps| == |cuts| && Names(steps) == Names(cuts)
    ensures forall c :: 0 <= c < |cuts| ==> steps[c].name == cuts[c].name && |steps[c].mask| == n
    ensures forall c, i :: 0 <= c < |cuts| && 0 <= i < n ==>
      (steps[c].mask[i] <==> PassesFirst(cuts, c + 1, i))
    ensures forall c, i {:trigger steps[c].mask[i]} ::
      0 < c < |cuts| && 0 <= i < n && steps[c].mask[i] ==> steps[c - 1].mask[i]
    ensures |cuts| > 0 ==> steps[|cuts| - 1].mask == mask
  {
    mask := seq(n, _ => true);
    steps := [];
    for c := 0 to |cuts|
      invariant |mask| == n
      invariant forall i :: 0 <= i < n ==> (mask[i] <==> PassesFirst(cuts, c, i))
      invariant |steps| == c
      invariant forall d :: 0 <= d < c ==> steps[d].name == cuts[d].name && |steps[d].mask| == n
      invariant forall d, i :: 0 <= d < c && 0 <= i < n ==>
        (steps[d].mask[i] <==> PassesFirst(cuts, d + 1, i))
      invariant c > 0 ==> steps[c - 1].mask == mask
    {
      mask := And(mask, cuts[c].mask);
      steps := steps + [Cut(cuts[c].name, mask)];
    }
  }
}
