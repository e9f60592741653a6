/**
 * The e-tau pair selection of one event: the electron and tau candidates
 * are re-ordered (electrons by ascending isolation, taus by descending raw
 * DeepTau score), combined electron-major into pairs, preselected by three
 * cumulative cuts, and, when several pairs remain, disambiguated by the
 * staged tie-break of `get_sorted_pair`.
 */
module EtauPair {
  import opened Indexing
  import opened Sorting
  import opened Cutflow
  import opened PhysicsObjects

  /** An (electron, tau) record and its (electron index, tau index) provenance. */
  type Pair = (Electron, Tau)
  type PairIndex = (nat, nat)

  // -------------------------------------------------------- get_sorted_pair

  /** The four sort keys of the tie-break. */
  datatype Key = EleIso | ElePt | TauRaw | TauPt

  function KeyOf(p: Pair, k: Key): real {
    match k
    case EleIso => p.0.pfRelIso03All
    case ElePt => p.0.pt
    case TauRaw => p.1.rawDeepTauVsJet
    case TauPt => p.1.pt
  }

  function KeyColumn(l: seq<Pair>, k: Key): (r: seq<real>)
    ensures |r| == |l| && forall i :: 0 <= i < |l| ==> r[i] == KeyOf(l[i], k)
  {
    seq(|l|, i requires 0 <= i < |l| => KeyOf(l[i], k))
  }

  /** The first two pairs of the current order agree on `k`. */
  predicate TopTie(l: seq<Pair>, k: Key)
    requires |l| >= 2
  {
    KeyOf(l[0], k) == KeyOf(l[1], k)
  }

  /**
   * `AsWritten` is the code: when a tie test does not fire, the previous
   * stage's permutation is applied once more to the already re-ordered
   * list. `Corrected` keeps the current order instead.
   */
  datatype Variant = AsWritten | Corrected

  /**
   * One `ak.where` stage: if the current first two pairs tie on `tested`,
   * the stable argsort of the whole list by `sortBy` (descending), else
   * the permutation `Variant` prescribes.
   */
  function Stage(l: seq<Pair>, prev: seq<nat>, tested: Key, sortBy: Key, v: Variant): (p: seq<nat>)
    requires |l| >= 2 && IsPerm(prev, |l|)
    ensures IsPerm(p, |l|)
  {
    if TopTie(l, tested) then Argsort(KeyColumn(l, sortBy), false)
    else if v == AsWritten then prev
    else RangeIsPerm(|l|); Range(|l|)
  }

  /** The permutation and the re-ordered list after each of the four stages. */
  datatype Cascade = Cascade(
    p1: seq<nat>, l1: seq<Pair>, p2: seq<nat>, l2: seq<Pair>,
    p3: seq<nat>, l3: seq<Pair>, p4: seq<nat>, l4: seq<Pair>)

  /**
   * The stages of `get_sorted_pair`: isolation ascending; on an isolation
   * tie electron pt; on an electron-pt tie raw DeepTau; on a DeepTau tie
   * tau pt. Each test looks at the list the previous stage produced.
   */
  function RunCascade(l0: seq<Pair>, v: Variant): (c: Cascade)
    requires |l0| >= 2
    ensures IsPerm(c.p1, |l0|) && IsPerm(c.p2, |l0|) && IsPerm(c.p3, |l0|) && IsPerm(c.p4, |l0|)
    ensures |c.l1| == |l0| && |c.l2| == |l0| && |c.l3| == |l0| && |c.l4| == |l0|
    ensures c.p1 == Argsort(KeyColumn(l0, EleIso), true) && c.l1 == Apply(l0, c.p1)
    ensures c.p2 == Stage(c.l1, c.p1, EleIso, ElePt, v) && c.l2 == Apply(c.l1, c.p2)
    ensures c.p3 == Stage(c.l2, c.p2, ElePt, TauRaw, v) && c.l3 == Apply(c.l2, c.p3)
    ensures c.p4 == Stage(c.l3, c.p3, TauRaw, TauPt, v) && c.l4 == Apply(c.l3, c.p4)
  {
    var p1 := Argsort(KeyColumn(l0, EleIso), true);
    var l1 := Apply(l0, p1);
    var p2 := Stage(l1, p1, EleIso, ElePt, v);
    var l2 := Apply(l1, p2);
    var p3 := Stage(l2, p2, ElePt, TauRaw, v);
    var l3 := Apply(l2, p3);
    var p4 := Stage(l3, p3, TauRaw, TauPt, v);
    Cascade(p1, l1, p2, l2, p3, l3, p4, Apply(l3, p4))
  }

  /**
   * The four stages compose to one permutation of the input: the final
   * order is a re-indexing of the input, nothing lost or duplicated.
   */
  function CascadeOrder(l0: seq<Pair>, v: Variant): (o: seq<nat>)
    requires |l0| >= 2
    ensures IsPerm(o, |l0|) && Apply(l0, o) == RunCascade(l0, v).l4
  {
    var c := RunCascade(l0, v);
    var n := |l0|;
    ComposePerm(c.p1, c.p2, n);
    ApplyApply(l0, c.p1, c.p2);
    var o2 := Apply(c.p1, c.p2);
    ComposePerm(o2, c.p3, n);
    ApplyApply(l0, o2, c.p3);
    var o3 := Apply(o2, c.p3);
    ComposePerm(o3, c.p4, n);
    ApplyApply(l0, o3, c.p4);
    Apply(o3, c.p4)
  }

  /**
   * `get_sorted_pair`: the records and their index pairs are re-ordered
   * in lockstep, stage by stage, and the index pair at the head is
   * returned. It is the index pair of the record the cascade puts first.
   */
  method GetSortedPair(dtrpairs: seq<Pair>, dtrpairindices: seq<PairIndex>, v: Variant)
    returns (dtrpairidx: seq<nat>)
    requires |dtrpairs| == |dtrpairindices| >= 2
    ensures var o := CascadeOrder(dtrpairs, v);
      && dtrpairidx == [dtrpairindices[o[0]].0, dtrpairindices[o[0]].1]
      && dtrpairs[o[0]] == RunCascade(dtrpairs, v).l4[0]
  {
    ghost var c := RunCascade(dtrpairs, v);
    var pairs, indices := dtrpairs, dtrpairindices;
    var sortedIdx := Argsort(KeyColumn(pairs, EleIso), true);
    pairs, indices := Apply(pairs, sortedIdx), Apply(indices, sortedIdx);
    ghost var order := sortedIdx;

    sortedIdx := Stage(pairs, sortedIdx, EleIso, ElePt, v);
    ApplyApply(dtrpairs, order, sortedIdx);
    ApplyApply(dtrpairindices, order, sortedIdx);
    pairs, indices := Apply(pairs, sortedIdx), Apply(indices, sortedIdx);
    order := Apply(order, sortedIdx);

    sortedIdx := Stage(pairs, sortedIdx, ElePt, TauRaw, v);
    ApplyApply(dtrpairs, order, sortedIdx);
    ApplyApply(dtrpairindices, order, sortedIdx);
    pairs, indices := Apply(pairs, sortedIdx), Apply(indices, sortedIdx);
    order := Apply(order, sortedIdx);

    sortedIdx := Stage(pairs, sortedIdx, TauRaw, TauPt, v);
    ApplyApply(dtrpairs, order, sortedIdx);
    ApplyApply(dtrpairindices, order, sortedIdx);
    pairs, indices := Apply(pairs, sortedIdx), Apply(indices, sortedIdx);
    order := Apply(order, sortedIdx);

    assert order == CascadeOrder(dtrpairs, v);
    dtrpairidx := [indices[0].0, indices[0].1];
  }

  // ------------------------------------------------ properties of the cascade

  /** The pairs are in ascending electron isolation. */
  predicate IsoAscending(l: seq<Pair>) {
    forall k, m :: 0 <= k < m < |l| ==> KeyOf(l[k], EleIso) <= KeyOf(l[m], EleIso)
  }

  /** The head of a list re-sorted by `key` has the extreme key among all its pairs. */
  lemma HeadOfResort(l: seq<Pair>, key: Key, ascending: bool)
    requires |l| >= 1
    ensures var s := Apply(l, Argsort(KeyColumn(l, key), ascending));
      forall x :: x in l ==>
        if ascending then KeyOf(s[0], key) <= KeyOf(x, key) else KeyOf(s[0], key) >= KeyOf(x, key)
  {
    var p := Argsort(KeyColumn(l, key), ascending);
    ArgsortOrders(KeyColumn(l, key), ascending);
    forall x | x in l
      ensures if ascending then KeyOf(Apply(l, p)[0], key) <= KeyOf(x, key)
              else KeyOf(Apply(l, p)[0], key) >= KeyOf(x, key)
    {
      var i :| 0 <= i < |l| && l[i] == x;
      assert i in p;
      var k :| 0 <= k < |p| && p[k] == i;
    }
  }

  /** Every stage only re-orders: each list holds the input's pairs and no others. */
  lemma CascadeKeepsMembers(l0: seq<Pair>, v: Variant)
    requires |l0| >= 2
    ensures var c := RunCascade(l0, v);
      forall x :: (x in l0 ==> x in c.l1 && x in c.l2 && x in c.l3 && x in c.l4)
                  && (x in c.l4 ==> x in l0)
  {
    var c := RunCascade(l0, v);
    PermKeepsMembers(l0, c.p1);
    PermKeepsMembers(c.l1, c.p2);
    PermKeepsMembers(c.l2, c.p3);
    PermKeepsMembers(c.l3, c.p4);
    ApplyMembers(l0, c.p1);
    ApplyMembers(c.l1, c.p2);
    ApplyMembers(c.l2, c.p3);
    ApplyMembers(c.l3, c.p4);
  }

  /**
   * Survivors of the preselection are already in ascending isolation, so
   * the first argsort is the identity, as the comment in the code says.
   */
  lemma FirstSortIsIdentity(l0: seq<Pair>, v: Variant)
    requires |l0| >= 2 && IsoAscending(l0)
    ensures RunCascade(l0, v).p1 == Range(|l0|) && RunCascade(l0, v).l1 == l0
  {
    var keys := KeyColumn(l0, EleIso);
    assert forall k, m :: 0 <= k < m < |keys| ==> keys[k] <= keys[m] by {
      forall k, m | 0 <= k < m < |keys| ensures keys[k] <= keys[m] {
        assert keys[k] == KeyOf(l0[k], EleIso) && keys[m] == KeyOf(l0[m], EleIso);
      }
    }
    ArgsortOfAscending(keys);
    ApplyRange(l0);
    var c := RunCascade(l0, v);
    assert c.p1 == Argsort(keys, true);
  }

  /**
   * When the isolation test fires, the whole list (not only the two tied
   * pairs) is re-sorted by electron pt: afterwards every pair has electron
   * pt at least that of every later pair, whatever its isolation.
   */
  lemma IsoTieResortsWholeList(l0: seq<Pair>, v: Variant)
    requires |l0| >= 2 && TopTie(RunCascade(l0, v).l1, EleIso)
    ensures var c := RunCascade(l0, v);
      forall k, m :: 0 <= k < m < |c.l2| ==> KeyOf(c.l2[k], ElePt) >= KeyOf(c.l2[m], ElePt)
    ensures multiset(RunCascade(l0, v).l2) == multiset(l0)
  {
    var c := RunCascade(l0, v);
    assert c.p2 == Argsort(KeyColumn(c.l1, ElePt), false);
    ArgsortOrders(KeyColumn(c.l1, ElePt), false);
    PermPreservesMultiset(l0, c.p1);
    PermPreservesMultiset(c.l1, c.p2);
  }

  /**
   * With the input in ascending isolation and none of the three tie tests
   * firing, the order is never changed and the first input pair is chosen.
   */
  lemma NoTieKeepsInputOrder(l0: seq<Pair>, v: Variant)
    requires |l0| >= 2 && IsoAscending(l0)
    requires !TopTie(l0, EleIso) && !TopTie(l0, ElePt) && !TopTie(l0, TauRaw)
    ensures RunCascade(l0, v).l4 == l0 && CascadeOrder(l0, v)[0] == 0
  {
    var c := RunCascade(l0, v);
    FirstSortIsIdentity(l0, v);
    ApplyRange(l0);
    assert c.p2 == Range(|l0|) && c.l2 == l0;
    assert c.p3 == Range(|l0|) && c.l3 == l0;
    assert c.p4 == Range(|l0|) && c.l4 == l0;
    var o := CascadeOrder(l0, v);
    assert Apply(l0, o) == l0;
    assert l0[o[0]] == l0[0];
  }

  /**
   * Re-applying the previous permutation is harmless while that
   * permutation is the identity: with the input in ascending isolation and
   * neither the isolation nor the electron-pt test firing, the code and the
   * corrected cascade agree.
   */
  lemma AsWrittenAgreesWithoutEarlyTies(l0: seq<Pair>)
    requires |l0| >= 2 && IsoAscending(l0)
    requires !TopTie(l0, EleIso) && !TopTie(l0, ElePt)
    ensures RunCascade(l0, AsWritten) == RunCascade(l0, Corrected)
  {
    FirstSortIsIdentity(l0, AsWritten);
    FirstSortIsIdentity(l0, Corrected);
    ApplyRange(l0);
  }

  /**
   * The corrected cascade: the last tie test that fires decides. If the
   * DeepTau test fires the head has the highest tau pt; else if the
   * electron-pt test fires, the highest raw DeepTau score; else if the
   * isolation test fires, the highest electron pt; else the lowest
   * isolation. Each "highest" and "lowest" is over all input pairs.
   */
  lemma CorrectedLastTestDecides(l0: seq<Pair>)
    requires |l0| >= 2
    ensures var c := RunCascade(l0, Corrected);
      var t1, t2, t3 := TopTie(c.l1, EleIso), TopTie(c.l2, ElePt), TopTie(c.l3, TauRaw);
      forall x :: x in l0 ==>
        && (t3 ==> KeyOf(c.l4[0], TauPt) >= KeyOf(x, TauPt))
        && (!t3 && t2 ==> KeyOf(c.l4[0], TauRaw) >= KeyOf(x, TauRaw))
        && (!t3 && !t2 && t1 ==> KeyOf(c.l4[0], ElePt) >= KeyOf(x, ElePt))
        && (!t3 && !t2 && !t1 ==> KeyOf(c.l4[0], EleIso) <= KeyOf(x, EleIso))
  {
    var c := RunCascade(l0, Corrected);
    CascadeKeepsMembers(l0, Corrected);
    ApplyRange(c.l1);
    ApplyRange(c.l2);
    ApplyRange(c.l3);
    if TopTie(c.l3, TauRaw) {
      HeadOfResort(c.l3, TauPt, false);
    } else if TopTie(c.l2, ElePt) {
      HeadOfResort(c.l2, TauRaw, false);
    } else if TopTie(c.l1, EleIso) {
      HeadOfResort(c.l1, ElePt, false);
    } else {
      HeadOfResort(l0, EleIso, true);
    }
  }

  // ------------------------------------------ the re-applied permutation

  /** The stable argsort of two pairs by one key. */
  lemma ResortTwo(l: seq<Pair>, k: Key, ascending: bool)
    requires |l| == 2
    ensures Argsort(KeyColumn(l, k), ascending) ==
      if (if ascending then KeyOf(l[1], k) < KeyOf(l[0], k) else KeyOf(l[1], k) > KeyOf(l[0], k))
      then [1, 0] else [0, 1]
  {
    ArgsortOfTwo(KeyColumn(l, k), ascending);
  }

  /** Applying either permutation of two positions. */
  lemma ApplyTwo(l: seq<Pair>)
    requires |l| == 2
    ensures Apply(l, [0, 1]) == l && Apply(l, [1, 0]) == [l[1], l[0]]
  {
    assert Apply(l, [0, 1])[0] == l[0] && Apply(l, [0, 1])[1] == l[1];
  }

  /**
   * One stage on two pairs: on a tie the pairs are swapped iff the second
   * has the higher `sortBy` key; otherwise the previous permutation is
   * re-applied (as written) or nothing moves (corrected). A permutation
   * of two positions is a swap iff it starts with 1.
   */
  lemma StageTwo(l: seq<Pair>, prev: seq<nat>, tested: Key, sortBy: Key, v: Variant,
                 p: seq<nat>, next: seq<Pair>)
    requires |l| == 2 && IsPerm(prev, 2)
    requires p == Stage(l, prev, tested, sortBy, v) && next == Apply(l, p)
    ensures |p| == 2 && |next| == 2
    ensures p[0] == 1 <==>
      if TopTie(l, tested) then KeyOf(l[1], sortBy) > KeyOf(l[0], sortBy)
      else v == AsWritten && prev[0] == 1
    ensures next[0] == (if p[0] == 1 then l[1] else l[0])
    ensures next[1] == (if p[0] == 1 then l[0] else l[1])
  {
    if TopTie(l, tested) {
      ResortTwo(l, sortBy, false);
    }
    assert p[0] != p[1];
  }

  /** The first stage on two pairs: swapped iff the second is strictly better isolated. */
  lemma FirstStageTwo(l0: seq<Pair>, p: seq<nat>, next: seq<Pair>)
    requires |l0| == 2
    requires p == Argsort(KeyColumn(l0, EleIso), true) && next == Apply(l0, p)
    ensures |p| == 2 && |next| == 2
    ensures p[0] == 1 <==> KeyOf(l0[1], EleIso) < KeyOf(l0[0], EleIso)
    ensures next[0] == (if p[0] == 1 then l0[1] else l0[0])
    ensures next[1] == (if p[0] == 1 then l0[0] else l0[1])
  {
    ResortTwo(l0, EleIso, true);
  }

  /** Two pairs whose electrons tie on isolation and on pt, and whose taus differ in raw DeepTau. */
  predicate DeepTauDecides(l0: seq<Pair>) {
    && |l0| == 2
    && KeyOf(l0[0], EleIso) == KeyOf(l0[1], EleIso)
    && KeyOf(l0[0], ElePt) == KeyOf(l0[1], ElePt)
    && KeyOf(l0[0], TauRaw) != KeyOf(l0[1], TauRaw)
  }

  /**
   * As written, the isolation and electron-pt tests fire, the DeepTau
   * re-sort is applied, the DeepTau test cannot fire on different scores,
   * and the DeepTau permutation is applied a second time: the first input
   * pair is chosen whatever the two scores are.
   */
  lemma AsWrittenIgnoresDeepTau(l0: seq<Pair>)
    requires DeepTauDecides(l0)
    ensures RunCascade(l0, AsWritten).l4[0] == l0[0]
  {
    var c := RunCascade(l0, AsWritten);
    FirstStageTwo(l0, c.p1, c.l1);
    StageTwo(c.l1, c.p1, EleIso, ElePt, AsWritten, c.p2, c.l2);
    StageTwo(c.l2, c.p2, ElePt, TauRaw, AsWritten, c.p3, c.l3);
    StageTwo(c.l3, c.p3, TauRaw, TauPt, AsWritten, c.p4, c.l4);
  }

  /** The corrected cascade chooses the pair with the higher raw DeepTau score. */
  lemma CorrectedPrefersHigherDeepTau(l0: seq<Pair>)
    requires DeepTauDecides(l0)
    ensures var head := RunCascade(l0, Corrected).l4[0];
      head in l0 && KeyOf(head, TauRaw) == Max(KeyOf(l0[0], TauRaw), KeyOf(l0[1], TauRaw))
  {
    var c := RunCascade(l0, Corrected);
    FirstStageTwo(l0, c.p1, c.l1);
    StageTwo(c.l1, c.p1, EleIso, ElePt, Corrected, c.p2, c.l2);
    StageTwo(c.l2, c.p2, ElePt, TauRaw, Corrected, c.p3, c.l3);
    StageTwo(c.l3, c.p3, TauRaw, TauPt, Corrected, c.p4, c.l4);
  }

  function Max(x: real, y: real): real {
    if x >= y then x else y
  }

  /** Two pairs sharing one tau, whose electrons tie on isolation and differ in pt. */
  predicate ElectronPtDecides(l0: seq<Pair>) {
    && |l0| == 2
    && l0[0].1 == l0[1].1
    && KeyOf(l0[0], EleIso) == KeyOf(l0[1], EleIso)
    && KeyOf(l0[0], ElePt) != KeyOf(l0[1], ElePt)
  }

  /** Two pairs with the same tau agree on both tau keys. */
  lemma SharedTauTies(x: Pair, y: Pair)
    requires x.1 == y.1
    ensures KeyOf(x, TauRaw) == KeyOf(y, TauRaw) && KeyOf(x, TauPt) == KeyOf(y, TauPt)
  {
  }

  /**
   * As written, the isolation test fires and the electron-pt re-sort is
   * applied, the electron-pt test cannot fire on different pts, and that
   * permutation is applied a second time, undoing it; the shared tau then
   * ties on DeepTau and the stable tau-pt sort keeps the order: the first
   * input pair is chosen whatever the two electron pts are.
   */
  lemma AsWrittenIgnoresElectronPt(l0: seq<Pair>)
    requires ElectronPtDecides(l0)
    ensures RunCascade(l0, AsWritten).l4[0] == l0[0]
  {
    SharedTauTies(l0[0], l0[1]);
    var c := RunCascade(l0, AsWritten);
    FirstStageTwo(l0, c.p1, c.l1);
    StageTwo(c.l1, c.p1, EleIso, ElePt, AsWritten, c.p2, c.l2);
    StageTwo(c.l2, c.p2, ElePt, TauRaw, AsWritten, c.p3, c.l3);
    assert c.l3[0] == l0[0] && c.l3[1] == l0[1];
    assert KeyOf(l0[0], TauRaw) == KeyOf(l0[1], TauRaw) && KeyOf(l0[0], TauPt) == KeyOf(l0[1], TauPt);
    StageTwo(c.l3, c.p3, TauRaw, TauPt, AsWritten, c.p4, c.l4);
    assert c.p4[0] != 1;
  }

  /** The corrected cascade chooses the pair with the harder electron. */
  lemma CorrectedPrefersHarderElectron(l0: seq<Pair>)
    requires ElectronPtDecides(l0)
    ensures var head := RunCascade(l0, Corrected).l4[0];
      head in l0 && KeyOf(head, ElePt) == Max(KeyOf(l0[0], ElePt), KeyOf(l0[1], ElePt))
  {
    var c := RunCascade(l0, Corrected);
    FirstStageTwo(l0, c.p1, c.l1);
    StageTwo(c.l1, c.p1, EleIso, ElePt, Corrected, c.p2, c.l2);
    StageTwo(c.l2, c.p2, ElePt, TauRaw, Corrected, c.p3, c.l3);
    StageTwo(c.l3, c.p3, TauRaw, TauPt, Corrected, c.p4, c.l4);
  }

  /**
   * A concrete instance of the first discrepancy at the level of
   * `get_sorted_pair`: two records sharing one electron, whose taus have
   * raw DeepTau score 0.8 and 0.95, in that order. The code returns the
   * record with 0.8; the corrected cascade the one with 0.95. Because
   * `etau_selection` puts the taus in descending score order first, this
   * exact list is not one it passes on; `SelectionIgnoresDeepTau` shows an
   * event through the whole selection.
   */
  lemma DeepTauCounterexample()
    ensures var e := Electron(30.0, 0.5, 0.01, 0.01, -1, 0.05, true, true, true, 1);
      var l0 := [(e, Tau(30.0, 0.5, 0.01, 1, 0.8, 5, 2, 4)), (e, Tau(40.0, 0.5, 0.01, 1, 0.95, 5, 2, 4))];
      && KeyOf(RunCascade(l0, AsWritten).l4[0], TauRaw) == 0.8
      && KeyOf(RunCascade(l0, Corrected).l4[0], TauRaw) == 0.95
  {
    var e := Electron(30.0, 0.5, 0.01, 0.01, -1, 0.05, true, true, true, 1);
    var l0 := [(e, Tau(30.0, 0.5, 0.01, 1, 0.8, 5, 2, 4)), (e, Tau(40.0, 0.5, 0.01, 1, 0.95, 5, 2, 4))];
    AsWrittenIgnoresDeepTau(l0);
    CorrectedPrefersHigherDeepTau(l0);
  }

  /**
   * A concrete instance of the second discrepancy: two electrons of pt 30
   * and 40 GeV with equal isolation, paired with one tau. The code returns
   * the pair with the 30 GeV electron; the corrected cascade the 40 GeV one.
   */
  lemma ElectronPtCounterexample()
    ensures var t := Tau(30.0, 0.5, 0.01, 1, 0.9, 5, 2, 4);
      var l0 := [(Electron(30.0, 0.5, 0.01, 0.01, -1, 0.05, true, true, true, 1), t),
                 (Electron(40.0, 0.5, 0.01, 0.01, -1, 0.05, true, true, true, 1), t)];
      && KeyOf(RunCascade(l0, AsWritten).l4[0], ElePt) == 30.0
      && KeyOf(RunCascade(l0, Corrected).l4[0], ElePt) == 40.0
  {
    var t := Tau(30.0, 0.5, 0.01, 1, 0.9, 5, 2, 4);
    var l0 := [(Electron(30.0, 0.5, 0.01, 0.01, -1, 0.05, true, true, true, 1), t),
               (Electron(40.0, 0.5, 0.01, 0.01, -1, 0.05, true, true, true, 1), t)];
    AsWrittenIgnoresElectronPt(l0);
    CorrectedPrefersHarderElectron(l0);
  }

  // --------------------------------------------------------- etau_selection

  /**
   * The inputs of the selection for one event: the electron and tau
   * collections, the angular distance `deltaR[e][t]` between electron `e`
   * and tau `t`, and the transverse mass `mT[e]` of electron `e` with the
   * missing transverse momentum. The last two come from four-vector
   * arithmetic outside this model. A pair that is not covered by the
   * tables (`InEvent`) fails all three cuts.
   */
  datatype Event = Event(electrons: seq<Electron>, taus: seq<Tau>,
                         deltaR: seq<seq<real>>, mT: seq<real>)

  /** The index pair refers to an electron and a tau of the event. */
  predicate InEvent(ev: Event, pi: PairIndex) {
    && pi.0 < |ev.electrons| && pi.0 < |ev.deltaR| && pi.0 < |ev.mT|
    && pi.1 < |ev.taus| && pi.1 < |ev.deltaR[pi.0]|
  }

  /** Cut `etau_is_os`: electron and tau have opposite charges. */
  predicate OppositeCharge(ev: Event, pi: PairIndex) {
    InEvent(ev, pi) && ev.electrons[pi.0].charge * ev.taus[pi.1].charge < 0
  }

  /** Cut `etau_dr_0p5`: electron and tau are more than 0.5 apart. */
  predicate Separated(ev: Event, pi: PairIndex) {
    InEvent(ev, pi) && ev.deltaR[pi.0][pi.1] > 0.5
  }

  /** Cut `etau_mT_50`: the electron's transverse mass is below 50 GeV. */
  predicate LowTransverseMass(ev: Event, pi: PairIndex) {
    InEvent(ev, pi) && ev.mT[pi.0] < 50.0
  }

  /** A pair passing the whole preselection. */
  predicate IsValidPair(ev: Event, pi: PairIndex) {
    OppositeCharge(ev, pi) && Separated(ev, pi) && LowTransverseMass(ev, pi)
  }

  /**
   * The table `preselection`, evaluated on a list of index pairs: each
   * cut's mask holds for exactly the pairs that meet its condition.
   */
  function PreselectionCuts(ev: Event, idx: seq<PairIndex>): (r: seq<Cut>)
    ensures |r| == 3 && Aligned(|idx|, r)
    ensures forall k :: 0 <= k < |idx| ==>
      && (r[0].mask[k] <==> OppositeCharge(ev, idx[k]))
      && (r[1].mask[k] <==> Separated(ev, idx[k]))
      && (r[2].mask[k] <==> LowTransverseMass(ev, idx[k]))
  {
    [ Cut("etau_is_os", Column(idx, pi => OppositeCharge(ev, pi))),
      Cut("etau_dr_0p5", Column(idx, pi => Separated(ev, pi))),
      Cut("etau_mT_50", Column(idx, pi => LowTransverseMass(ev, pi))) ]
  }

  /** The isolation of the selected electrons, in the order given. */
  function IsoOf(ev: Event, lep1: seq<nat>): (r: seq<real>)
    requires InRange(lep1, |ev.electrons|)
    ensures |r| == |lep1| && forall i :: 0 <= i < |lep1| ==> r[i] == ev.electrons[lep1[i]].pfRelIso03All
  {
    seq(|lep1|, i requires 0 <= i < |lep1| => ev.electrons[lep1[i]].pfRelIso03All)
  }

  /** The raw DeepTau score of the selected taus, in the order given. */
  function RawOf(ev: Event, lep2: seq<nat>): (r: seq<real>)
    requires InRange(lep2, |ev.taus|)
    ensures |r| == |lep2| && forall i :: 0 <= i < |lep2| ==> r[i] == ev.taus[lep2[i]].rawDeepTauVsJet
  {
    seq(|lep2|, i requires 0 <= i < |lep2| => ev.taus[lep2[i]].rawDeepTauVsJet)
  }

  /** `lep1_indices[argsort(iso, ascending=True)]`: the same electrons, most isolated first. */
  function ElectronOrder(ev: Event, lep1: seq<nat>): (r: seq<nat>)
    requires InRange(lep1, |ev.electrons|)
    ensures InRange(r, |ev.electrons|)
  {
    Apply(lep1, Argsort(IsoOf(ev, lep1), true))
  }

  /** `lep2_indices[argsort(rawDeepTau, ascending=False)]`: the same taus, highest score first. */
  function TauOrder(ev: Event, lep2: seq<nat>): (r: seq<nat>)
    requires InRange(lep2, |ev.taus|)
    ensures InRange(r, |ev.taus|)
  {
    Apply(lep2, Argsort(RawOf(ev, lep2), false))
  }

  /** The electron re-ordering keeps the electrons and sorts them by ascending isolation. */
  lemma ElectronOrderSorts(ev: Event, lep1: seq<nat>)
    requires InRange(lep1, |ev.electrons|)
    ensures var r := ElectronOrder(ev, lep1);
      && multiset(r) == multiset(lep1)
      && forall k, l :: 0 <= k < l < |r| ==>
           ev.electrons[r[k]].pfRelIso03All <= ev.electrons[r[l]].pfRelIso03All
  {
    var keys := IsoOf(ev, lep1);
    ArgsortOrders(keys, true);
    PermPreservesMultiset(lep1, Argsort(keys, true));
  }

  /** The tau re-ordering keeps the taus and sorts them by descending raw DeepTau score. */
  lemma TauOrderSorts(ev: Event, lep2: seq<nat>)
    requires InRange(lep2, |ev.taus|)
    ensures var r := TauOrder(ev, lep2);
      && multiset(r) == multiset(lep2)
      && forall k, l :: 0 <= k < l < |r| ==>
           ev.taus[r[k]].rawDeepTauVsJet >= ev.taus[r[l]].rawDeepTauVsJet
  {
    var keys := RawOf(ev, lep2);
    ArgsortOrders(keys, false);
    PermPreservesMultiset(lep2, Argsort(keys, false));
  }

  /** `lep_indices_pair`: every (electron, tau) combination, electron-major. */
  function RawPairIndices(ev: Event, lep1: seq<nat>, lep2: seq<nat>): seq<PairIndex>
    requires InRange(lep1, |ev.electrons|) && InRange(lep2, |ev.taus|)
  {
    Cartesian<nat, nat>(ElectronOrder(ev, lep1), TauOrder(ev, lep2))
  }

  /** `leps_pair`: the records of the same combinations. */
  function RawPairs(ev: Event, lep1: seq<nat>, lep2: seq<nat>): seq<Pair>
    requires InRange(lep1, |ev.electrons|) && InRange(lep2, |ev.taus|)
  {
    Cartesian(Apply(ev.electrons, ElectronOrder(ev, lep1)), Apply(ev.taus, TauOrder(ev, lep2)))
  }

  /**
   * There are `|lep1| * |lep2|` combinations, each combining one of the
   * given electrons with one of the given taus, every such combination
   * occurs, and the records are those of the index pairs.
   */
  lemma RawPairsLayout(ev: Event, lep1: seq<nat>, lep2: seq<nat>)
    requires InRange(lep1, |ev.electrons|) && InRange(lep2, |ev.taus|)
    ensures var idx, pairs := RawPairIndices(ev, lep1, lep2), RawPairs(ev, lep1, lep2);
      && |idx| == |lep1| * |lep2| && |pairs| == |idx|
      && (forall k :: 0 <= k < |idx| ==>
            idx[k].0 < |ev.electrons| && idx[k].1 < |ev.taus|
            && pairs[k] == (ev.electrons[idx[k].0], ev.taus[idx[k].1]))
      && (forall pi :: pi in idx <==> pi.0 in lep1 && pi.1 in lep2)
  {
    var e, t := ElectronOrder(ev, lep1), TauOrder(ev, lep2);
    ElectronOrderSorts(ev, lep1);
    TauOrderSorts(ev, lep2);
    assert |e| == |lep1| && |t| == |lep2| by {
      assert |multiset(e)| == |multiset(lep1)| && |multiset(t)| == |multiset(lep2)|;
    }
    CartesianOfApply(ev.electrons, ev.taus, e, t);
    CartesianMembers<nat, nat>(e, t);
    forall pi: PairIndex ensures pi in Cartesian<nat, nat>(e, t) <==> pi.0 in lep1 && pi.1 in lep2 {
      assert pi.0 in e <==> pi.0 in multiset(e);
      assert pi.0 in lep1 <==> pi.0 in multiset(lep1);
      assert pi.1 in t <==> pi.1 in multiset(t);
      assert pi.1 in lep2 <==> pi.1 in multiset(lep2);
    }
  }

  /** The preselection table passes exactly the valid pairs, cut by cut. */
  lemma PreselectionMeaning(ev: Event, idx: seq<PairIndex>)
    ensures Aligned(|idx|, PreselectionCuts(ev, idx))
    ensures forall k :: 0 <= k < |idx| ==>
      && (PassesFirst(PreselectionCuts(ev, idx), 1, k) <==> OppositeCharge(ev, idx[k]))
      && (PassesFirst(PreselectionCuts(ev, idx), 2, k) <==>
            OppositeCharge(ev, idx[k]) && Separated(ev, idx[k]))
      && (PassesFirst(PreselectionCuts(ev, idx), 3, k) <==> IsValidPair(ev, idx[k]))
  {
    var t := PreselectionCuts(ev, idx);
    forall c | 0 <= c < 3 ensures |t[c].mask| == |idx| {
      assert c == 0 || c == 1 || c == 2;
    }
    forall k | 0 <= k < |idx|
      ensures PassesFirst(t, 1, k) <==> OppositeCharge(ev, idx[k])
      ensures PassesFirst(t, 2, k) <==> OppositeCharge(ev, idx[k]) && Separated(ev, idx[k])
      ensures PassesFirst(t, 3, k) <==> IsValidPair(ev, idx[k])
    {
      assert PassesFirst(t, 3, k) ==> t[0].mask[k] && t[1].mask[k] && t[2].mask[k];
      assert PassesFirst(t, 2, k) ==> t[0].mask[k] && t[1].mask[k];
      assert PassesFirst(t, 1, k) ==> t[0].mask[k];
      forall c | 0 <= c < 3 && t[0].mask[k] ensures (c < 1 ==> t[c].mask[k]) {
      }
      if t[0].mask[k] && t[1].mask[k] {
        forall c | 0 <= c < 2 ensures t[c].mask[k] {
          assert c == 0 || c == 1;
        }
      }
      if t[0].mask[k] && t[1].mask[k] && t[2].mask[k] {
        forall c | 0 <= c < 3 ensures t[c].mask[k] {
          assert c == 0 || c == 1 || c == 2;
        }
      }
    }
  }

  /** Which combinations pass the preselection. */
  function PairMask(ev: Event, idx: seq<PairIndex>): (r: seq<bool>)
    ensures |r| == |idx| && forall k :: 0 <= k < |idx| ==> (r[k] <==> IsValidPair(ev, idx[k]))
  {
    Column(idx, pi => IsValidPair(ev, pi))
  }

  /** `lep_indices_pair_sel`: the index pairs passing the preselection, in combination order. */
  function CandidateIndices(ev: Event, lep1: seq<nat>, lep2: seq<nat>): seq<PairIndex>
    requires InRange(lep1, |ev.electrons|) && InRange(lep2, |ev.taus|)
  {
    var idx := RawPairIndices(ev, lep1, lep2);
    Mask(idx, PairMask(ev, idx))
  }

  /** `leps_pair_sel`: their records. */
  function CandidatePairs(ev: Event, lep1: seq<nat>, lep2: seq<nat>): seq<Pair>
    requires InRange(lep1, |ev.electrons|) && InRange(lep2, |ev.taus|)
  {
    RawPairsLayout(ev, lep1, lep2);
    Mask(RawPairs(ev, lep1, lep2), PairMask(ev, RawPairIndices(ev, lep1, lep2)))
  }

  /**
   * The candidates are exactly the valid (electron, tau) combinations of
   * the given electrons and taus, and the records are masked in lockstep
   * with their index pairs.
   */
  lemma CandidatesLayout(ev: Event, lep1: seq<nat>, lep2: seq<nat>)
    requires InRange(lep1, |ev.electrons|) && InRange(lep2, |ev.taus|)
    ensures var ci, cp := CandidateIndices(ev, lep1, lep2), CandidatePairs(ev, lep1, lep2);
      && |cp| == |ci|
      && (forall k :: 0 <= k < |ci| ==>
            && IsValidPair(ev, ci[k])
            && cp[k] == (ev.electrons[ci[k].0], ev.taus[ci[k].1]))
      && (forall pi :: pi in ci <==> pi.0 in lep1 && pi.1 in lep2 && IsValidPair(ev, pi))
  {
    var idx, pairs := RawPairIndices(ev, lep1, lep2), RawPairs(ev, lep1, lep2);
    RawPairsLayout(ev, lep1, lep2);
    var m := PairMask(ev, idx);
    MaskLockstep(idx, pairs, m);
    MaskMembers(idx, m);
  }

  /** As many candidate records as candidate index pairs. */
  lemma CandidateCount(ev: Event, lep1: seq<nat>, lep2: seq<nat>)
    requires InRange(lep1, |ev.electrons|) && InRange(lep2, |ev.taus|)
    ensures |CandidatePairs(ev, lep1, lep2)| == |CandidateIndices(ev, lep1, lep2)|
  {
    CandidatesLayout(ev, lep1, lep2);
  }

  /**
   * The candidates are in ascending electron isolation: the electrons were
   * sorted so, the combinations are electron-major and masking keeps the
   * order. This is why the code calls its first sort redundant.
   */
  lemma CandidatesIsoOrdered(ev: Event, lep1: seq<nat>, lep2: seq<nat>)
    requires InRange(lep1, |ev.electrons|) && InRange(lep2, |ev.taus|)
    ensures IsoAscending(CandidatePairs(ev, lep1, lep2))
  {
    var es := Apply(ev.electrons, ElectronOrder(ev, lep1));
    var ts := Apply(ev.taus, TauOrder(ev, lep2));
    ElectronOrderSorts(ev, lep1);
    var iso := (e: Electron) => e.pfRelIso03All;
    assert forall k, l :: 0 <= k < l < |es| ==> iso(es[k]) <= iso(es[l]);
    CartesianKeepsFirstOrder(es, ts, iso);
    RawPairsLayout(ev, lep1, lep2);
    var pairs := RawPairs(ev, lep1, lep2);
    var key := (x: Pair) => KeyOf(x, EleIso);
    assert forall k, l :: 0 <= k < l < |pairs| ==> key(pairs[k]) <= key(pairs[l]);
    MaskKeepsMonotone(pairs, PairMask(ev, RawPairIndices(ev, lep1, lep2)), key);
  }

  /**
   * The last step of `etau_selection` on the surviving pairs: no index
   * pair without a survivor, the only survivor's, or among several the one
   * `get_sorted_pair` puts first.
   */
  function PickPair(pairs: seq<Pair>, indices: seq<PairIndex>, v: Variant): (r: seq<nat>)
    requires |pairs| == |indices|
    ensures |r| == 0 <==> |indices| == 0
    ensures |r| == 0 || |r| == 2
    ensures |r| == 2 ==> exists k :: 0 <= k < |indices| && indices[k] == (r[0], r[1])
  {
    if |indices| == 0 then []
    else if |indices| == 1 then [indices[0].0, indices[0].1]
    else
      var o := CascadeOrder(pairs, v);
      assert indices[o[0]] == (indices[o[0]].0, indices[o[0]].1);
      [indices[o[0]].0, indices[o[0]].1]
  }

  /** The index pair `etau_selection` returns for the given electrons and taus. */
  function SelectedPair(ev: Event, lep1: seq<nat>, lep2: seq<nat>, v: Variant): seq<nat>
    requires InRange(lep1, |ev.electrons|) && InRange(lep2, |ev.taus|)
  {
    CandidateCount(ev, lep1, lep2);
    PickPair(CandidatePairs(ev, lep1, lep2), CandidateIndices(ev, lep1, lep2), v)
  }

  /** No combination of the given electrons and taus passes the preselection. */
  predicate NoValidPair(ev: Event, lep1: seq<nat>, lep2: seq<nat>) {
    forall i, j :: i in lep1 && j in lep2 ==> !IsValidPair(ev, (i, j))
  }

  /**
   * The result is empty exactly when no combination is valid; otherwise it
   * is an (electron, tau) index pair drawn from the inputs that passes the
   * preselection.
   */
  lemma SelectedPairShape(ev: Event, lep1: seq<nat>, lep2: seq<nat>, v: Variant)
    requires InRange(lep1, |ev.electrons|) && InRange(lep2, |ev.taus|)
    ensures var r := SelectedPair(ev, lep1, lep2, v);
      && (|r| == 0 <==> NoValidPair(ev, lep1, lep2))
      && (|r| == 0 || |r| == 2)
      && (|r| == 2 ==> r[0] in lep1 && r[1] in lep2 && IsValidPair(ev, (r[0], r[1])))
  {
    var ci := CandidateIndices(ev, lep1, lep2);
    CandidatesLayout(ev, lep1, lep2);
    var r := SelectedPair(ev, lep1, lep2, v);
    if |ci| == 0 {
      forall i, j | i in lep1 && j in lep2 ensures !IsValidPair(ev, (i, j)) {
        assert (i, j) !in ci;
      }
    } else {
      var k :| 0 <= k < |ci| && ci[k] == (r[0], r[1]);
      assert ci[k] in ci;
      assert !NoValidPair(ev, lep1, lep2);
    }
  }

  /**
   * Among several candidates the first (ascending isolation) sort of the
   * tie-break leaves them as they are.
   */
  lemma SelectionFirstSortIsIdentity(ev: Event, lep1: seq<nat>, lep2: seq<nat>, v: Variant)
    requires InRange(lep1, |ev.electrons|) && InRange(lep2, |ev.taus|)
    requires |CandidatePairs(ev, lep1, lep2)| >= 2
    ensures var cp := CandidatePairs(ev, lep1, lep2);
      RunCascade(cp, v).p1 == Range(|cp|) && RunCascade(cp, v).l1 == cp
  {
    CandidatesIsoOrdered(ev, lep1, lep2);
    FirstSortIsIdentity(CandidatePairs(ev, lep1, lep2), v);
  }

  /**
   * The first candidate's electron is at least as isolated as that of
   * every valid combination.
   */
  lemma FirstCandidateMostIsolated(ev: Event, lep1: seq<nat>, lep2: seq<nat>)
    requires InRange(lep1, |ev.electrons|) && InRange(lep2, |ev.taus|)
    requires |CandidateIndices(ev, lep1, lep2)| > 0
    ensures var ci := CandidateIndices(ev, lep1, lep2);
      forall i, j :: i in lep1 && j in lep2 && IsValidPair(ev, (i, j)) ==>
        ev.electrons[ci[0].0].pfRelIso03All <= ev.electrons[i].pfRelIso03All
  {
    var ci, cp := CandidateIndices(ev, lep1, lep2), CandidatePairs(ev, lep1, lep2);
    CandidatesLayout(ev, lep1, lep2);
    CandidatesIsoOrdered(ev, lep1, lep2);
    forall i, j | i in lep1 && j in lep2 && IsValidPair(ev, (i, j))
      ensures ev.electrons[ci[0].0].pfRelIso03All <= ev.electrons[i].pfRelIso03All
    {
      HeadMostIsolated(ev, ci, cp, (i, j));
    }
  }

  /** In index pairs whose records are in ascending isolation, the head's electron is the most isolated. */
  lemma HeadMostIsolated(ev: Event, ci: seq<PairIndex>, cp: seq<Pair>, pi: PairIndex)
    requires |cp| == |ci| && IsoAscending(cp)
    requires forall k :: 0 <= k < |ci| ==>
      IsValidPair(ev, ci[k]) && cp[k] == (ev.electrons[ci[k].0], ev.taus[ci[k].1])
    requires pi in ci && IsValidPair(ev, ci[0]) && IsValidPair(ev, pi)
    ensures ev.electrons[ci[0].0].pfRelIso03All <= ev.electrons[pi.0].pfRelIso03All
  {
    var k :| 0 <= k < |ci| && ci[k] == pi;
    if k > 0 {
      assert KeyOf(cp[0], EleIso) <= KeyOf(cp[k], EleIso);
    }
  }

  /**
   * When the first two candidates differ in electron isolation, electron
   * pt and raw DeepTau score, the first candidate is returned (whose
   * electron is the most isolated, by `FirstCandidateMostIsolated`).
   */
  lemma SelectedPairWithoutTies(ev: Event, lep1: seq<nat>, lep2: seq<nat>, v: Variant)
    requires InRange(lep1, |ev.electrons|) && InRange(lep2, |ev.taus|)
    requires var cp := CandidatePairs(ev, lep1, lep2);
      |cp| >= 2 && !TopTie(cp, EleIso) && !TopTie(cp, ElePt) && !TopTie(cp, TauRaw)
    ensures var ci := CandidateIndices(ev, lep1, lep2);
      |ci| >= 2 && SelectedPair(ev, lep1, lep2, v) == [ci[0].0, ci[0].1]
  {
    var cp := CandidatePairs(ev, lep1, lep2);
    CandidatesIsoOrdered(ev, lep1, lep2);
    NoTieKeepsInputOrder(cp, v);
    CandidateCount(ev, lep1, lep2);
  }

  /**
   * Of two different records, the index pair returned is that of the
   * record the cascade puts first.
   */
  lemma PickPairHead(pairs: seq<Pair>, indices: seq<PairIndex>, v: Variant, k: nat)
    requires |pairs| == |indices| == 2 && k < 2 && pairs[0] != pairs[1]
    requires RunCascade(pairs, v).l4[0] == pairs[k]
    ensures PickPair(pairs, indices, v) == [indices[k].0, indices[k].1]
  {
    var i := CascadeOrder(pairs, v)[0];
    CascadeHead(pairs, v);
    HeadOfTwo(pairs, i, k);
    PickPairAtHead(pairs, indices, v);
  }

  lemma PickPairAtHead(pairs: seq<Pair>, indices: seq<PairIndex>, v: Variant)
    requires |pairs| == |indices| >= 2
    ensures var i := CascadeOrder(pairs, v)[0];
      PickPair(pairs, indices, v) == [indices[i].0, indices[i].1]
  {
  }

  lemma HeadOfTwo(pairs: seq<Pair>, i: nat, k: nat)
    requires |pairs| == 2 && pairs[0] != pairs[1] && i < 2 && k < 2
    requires pairs[i] == pairs[k]
    ensures i == k
  {
  }

  /** The head of the cascade is the record at the first position of its order. */
  lemma CascadeHead(pairs: seq<Pair>, v: Variant)
    requires |pairs| >= 2
    ensures var o := CascadeOrder(pairs, v);
      o[0] < |pairs| && pairs[o[0]] == RunCascade(pairs, v).l4[0]
  {
    var o := CascadeOrder(pairs, v);
    assert pairs[o[0]] == Apply(pairs, o)[0];
  }

  lemma InTwo<T>(x: T, s: seq<T>)
    requires |s| == 2 && x in s
    ensures x == s[0] || x == s[1]
  {
  }

  /** The masks of the two examples below. */
  lemma TrueIndicesOfMiddle()
    ensures TrueIndices([false, true, true, false]) == [1, 2]
  {
    assert [false, true, true, false][..3] == [false, true, true];
    assert [false, true, true][..2] == [false, true];
    assert [false, true][..1] == [false];
    assert [false][..0] == [];
    assert TrueIndices([false]) == [];
    assert TrueIndices([false, true]) == [1];
    assert TrueIndices([false, true, true]) == [1, 2];
  }

  lemma TrueIndicesOfBoth()
    ensures TrueIndices([true, true]) == [0, 1]
  {
    assert [true, true][..1] == [true];
    assert [true][..0] == [];
    assert TrueIndices([true]) == [0];
  }

  /** Two electrons listed in index order with equal isolation keep that order. */
  lemma ElectronOrderOfTie(ev: Event)
    requires |ev.electrons| == 2
    requires ev.electrons[0].pfRelIso03All == ev.electrons[1].pfRelIso03All
    ensures ElectronOrder(ev, [0, 1]) == [0, 1]
  {
    var keys := IsoOf(ev, [0, 1]);
    assert Argsort(keys, true) == [0, 1] by {
      ArgsortOfTwo(keys, true);
      assert !Before(keys, true, 1, 0);
    }
    PickTwo<nat>([0, 1], 0, 1);
  }

  /** Two taus listed in index order with rising raw DeepTau score are swapped. */
  lemma TauOrderOfRise(ev: Event)
    requires |ev.taus| == 2
    requires ev.taus[0].rawDeepTauVsJet < ev.taus[1].rawDeepTauVsJet
    ensures TauOrder(ev, [0, 1]) == [1, 0]
  {
    var keys := RawOf(ev, [0, 1]);
    assert Argsort(keys, false) == [1, 0] by {
      ArgsortOfTwo(keys, false);
      assert Before(keys, false, 1, 0);
    }
    PickTwo<nat>([0, 1], 1, 0);
  }

  /** A single tau is its own order. */
  lemma TauOrderOfOne(ev: Event)
    requires |ev.taus| == 1
    ensures TauOrder(ev, [0]) == [0]
  {
    var keys := RawOf(ev, [0]);
    ArgsortUnique(keys, false, [0]);
  }

  lemma CartesianOfSwap()
    ensures Cartesian<nat, nat>([0, 1], [1, 0]) == [(0, 1), (0, 0), (1, 1), (1, 0)]
  {
    var c := Cartesian<nat, nat>([0, 1], [1, 0]);
    CartesianAt<nat, nat>([0, 1], [1, 0], 0, 0);
    CartesianAt<nat, nat>([0, 1], [1, 0], 0, 1);
    CartesianAt<nat, nat>([0, 1], [1, 0], 1, 0);
    CartesianAt<nat, nat>([0, 1], [1, 0], 1, 1);
  }

  lemma CartesianOfColumn()
    ensures Cartesian<nat, nat>([0, 1], [0]) == [(0, 0), (1, 0)]
  {
    CartesianAt<nat, nat>([0, 1], [0], 0, 0);
    CartesianAt<nat, nat>([0, 1], [0], 1, 0);
  }

  /**
   * The first discrepancy through the whole selection: two electrons, equal
   * in isolation and pt, two taus of which tau 1 has the higher raw DeepTau
   * score, and only electron 0 with tau 0 and electron 1 with tau 1 passing
   * the preselection. `etau_selection` as written returns electron 0 with
   * tau 0, the lower score; the corrected cascade electron 1 with tau 1.
   */
  lemma SelectionIgnoresDeepTau(ev: Event)
    requires |ev.electrons| == 2 && |ev.taus| == 2
    requires ev.electrons[0].pfRelIso03All == ev.electrons[1].pfRelIso03All
    requires ev.electrons[0].pt == ev.electrons[1].pt
    requires ev.taus[0].rawDeepTauVsJet < ev.taus[1].rawDeepTauVsJet
    requires IsValidPair(ev, (0, 0)) && IsValidPair(ev, (1, 1))
    requires !IsValidPair(ev, (0, 1)) && !IsValidPair(ev, (1, 0))
    ensures SelectedPair(ev, [0, 1], [0, 1], AsWritten) == [0, 0]
    ensures SelectedPair(ev, [0, 1], [0, 1], Corrected) == [1, 1]
  {
    DeepTauCandidates(ev);
    var ci, cp := CandidateIndices(ev, [0, 1], [0, 1]), CandidatePairs(ev, [0, 1], [0, 1]);
    assert KeyOf(cp[0], TauRaw) < KeyOf(cp[1], TauRaw);
    PickUnderDeepTau(cp, ci);
  }

  /**
   * On two records that only the DeepTau score tells apart, the code picks
   * the first record's indices and the corrected cascade those of the
   * record with the higher score.
   */
  lemma PickUnderDeepTau(cp: seq<Pair>, ci: seq<PairIndex>)
    requires DeepTauDecides(cp) && |ci| == 2
    ensures PickPair(cp, ci, AsWritten) == [ci[0].0, ci[0].1]
    ensures KeyOf(cp[0], TauRaw) < KeyOf(cp[1], TauRaw) ==>
      PickPair(cp, ci, Corrected) == [ci[1].0, ci[1].1]
  {
    assert cp[0] != cp[1] by {
      assert KeyOf(cp[0], TauRaw) != KeyOf(cp[1], TauRaw);
    }
    var head := RunCascade(cp, AsWritten).l4[0];
    assert head == cp[0] by {
      AsWrittenIgnoresDeepTau(cp);
    }
    PickPairHead(cp, ci, AsWritten, 0);
    if KeyOf(cp[0], TauRaw) < KeyOf(cp[1], TauRaw) {
      head := RunCascade(cp, Corrected).l4[0];
      assert head == cp[1] by {
        CorrectedPrefersHigherDeepTau(cp);
        assert KeyOf(head, TauRaw) == KeyOf(cp[1], TauRaw);
        InTwo(head, cp);
      }
      PickPairHead(cp, ci, Corrected, 1);
    }
  }

  /** The candidates of the event of `SelectionIgnoresDeepTau`. */
  lemma DeepTauCandidates(ev: Event)
    requires |ev.electrons| == 2 && |ev.taus| == 2
    requires ev.electrons[0].pfRelIso03All == ev.electrons[1].pfRelIso03All
    requires ev.taus[0].rawDeepTauVsJet < ev.taus[1].rawDeepTauVsJet
    requires IsValidPair(ev, (0, 0)) && IsValidPair(ev, (1, 1))
    requires !IsValidPair(ev, (0, 1)) && !IsValidPair(ev, (1, 0))
    ensures CandidateIndices(ev, [0, 1], [0, 1]) == [(0, 0), (1, 1)]
    ensures CandidatePairs(ev, [0, 1], [0, 1]) ==
      [(ev.electrons[0], ev.taus[0]), (ev.electrons[1], ev.taus[1])]
  {
    DeepTauCandidateIndices(ev);
    CandidatesLayout(ev, [0, 1], [0, 1]);
  }

  lemma DeepTauCandidateIndices(ev: Event)
    requires |ev.electrons| == 2 && |ev.taus| == 2
    requires ev.electrons[0].pfRelIso03All == ev.electrons[1].pfRelIso03All
    requires ev.taus[0].rawDeepTauVsJet < ev.taus[1].rawDeepTauVsJet
    requires IsValidPair(ev, (0, 0)) && IsValidPair(ev, (1, 1))
    requires !IsValidPair(ev, (0, 1)) && !IsValidPair(ev, (1, 0))
    ensures CandidateIndices(ev, [0, 1], [0, 1]) == [(0, 0), (1, 1)]
  {
    var idx := RawPairIndices(ev, [0, 1], [0, 1]);
    DeepTauRawIndices(ev);
    var m := PairMask(ev, idx);
    assert m == [false, true, true, false];
    TrueIndicesOfMiddle();
    assert Mask(idx, m) == Apply(idx, [1, 2]);
    PickTwo(idx, 1, 2);
  }

  /** Picking two positions of a sequence. */
  lemma PickTwo<T>(s: seq<T>, i: nat, j: nat)
    requires i < |s| && j < |s|
    ensures Apply(s, [i, j]) == [s[i], s[j]]
  {
  }

  lemma DeepTauRawIndices(ev: Event)
    requires |ev.electrons| == 2 && |ev.taus| == 2
    requires ev.electrons[0].pfRelIso03All == ev.electrons[1].pfRelIso03All
    requires ev.taus[0].rawDeepTauVsJet < ev.taus[1].rawDeepTauVsJet
    ensures RawPairIndices(ev, [0, 1], [0, 1]) == [(0, 1), (0, 0), (1, 1), (1, 0)]
  {
    ElectronOrderOfTie(ev);
    TauOrderOfRise(ev);
    CartesianOfSwap();
  }

  /** An event meeting the conditions of `SelectionIgnoresDeepTau`. */
  lemma DeepTauEventExists()
    ensures var ev := Event(
      [Electron(30.0, 0.5, 0.01, 0.01, -1, 0.05, true, true, true, 1),
       Electron(30.0, -0.5, 0.01, 0.01, -1, 0.05, true, true, true, 1)],
      [Tau(30.0, 0.5, 0.01, 1, 0.8, 5, 2, 4), Tau(40.0, 0.5, 0.01, 1, 0.95, 5, 2, 4)],
      [[1.0, 0.1], [0.1, 1.0]], [10.0, 10.0]);
      && SelectedPair(ev, [0, 1], [0, 1], AsWritten) == [0, 0]
      && SelectedPair(ev, [0, 1], [0, 1], Corrected) == [1, 1]
  {
    var ev := Event(
      [Electron(30.0, 0.5, 0.01, 0.01, -1, 0.05, true, true, true, 1),
       Electron(30.0, -0.5, 0.01, 0.01, -1, 0.05, true, true, true, 1)],
      [Tau(30.0, 0.5, 0.01, 1, 0.8, 5, 2, 4), Tau(40.0, 0.5, 0.01, 1, 0.95, 5, 2, 4)],
      [[1.0, 0.1], [0.1, 1.0]], [10.0, 10.0]);
    SelectionIgnoresDeepTau(ev);
  }

  /**
   * The second discrepancy through the whole selection: two electrons of
   * equal isolation, the one listed first softer, sharing one tau, both
   * combinations passing the preselection. `etau_selection` as written
   * returns the softer electron; the corrected cascade the harder one.
   */
  lemma SelectionIgnoresElectronPt(ev: Event)
    requires |ev.electrons| == 2 && |ev.taus| == 1
    requires ev.electrons[0].pfRelIso03All == ev.electrons[1].pfRelIso03All
    requires ev.electrons[0].pt < ev.electrons[1].pt
    requires IsValidPair(ev, (0, 0)) && IsValidPair(ev, (1, 0))
    ensures SelectedPair(ev, [0, 1], [0], AsWritten) == [0, 0]
    ensures SelectedPair(ev, [0, 1], [0], Corrected) == [1, 0]
  {
    ElectronPtCandidates(ev);
    var ci, cp := CandidateIndices(ev, [0, 1], [0]), CandidatePairs(ev, [0, 1], [0]);
    assert KeyOf(cp[0], ElePt) < KeyOf(cp[1], ElePt);
    PickUnderElectronPt(cp, ci);
  }

  /**
   * On two records sharing a tau that only the electron pt tells apart, the
   * code picks the first record's indices and the corrected cascade those
   * of the record with the harder electron.
   */
  lemma PickUnderElectronPt(cp: seq<Pair>, ci: seq<PairIndex>)
    requires ElectronPtDecides(cp) && |ci| == 2
    ensures PickPair(cp, ci, AsWritten) == [ci[0].0, ci[0].1]
    ensures KeyOf(cp[0], ElePt) < KeyOf(cp[1], ElePt) ==>
      PickPair(cp, ci, Corrected) == [ci[1].0, ci[1].1]
  {
    assert cp[0] != cp[1] by {
      assert KeyOf(cp[0], ElePt) != KeyOf(cp[1], ElePt);
    }
    var head := RunCascade(cp, AsWritten).l4[0];
    assert head == cp[0] by {
      AsWrittenIgnoresElectronPt(cp);
    }
    PickPairHead(cp, ci, AsWritten, 0);
    if KeyOf(cp[0], ElePt) < KeyOf(cp[1], ElePt) {
      head := RunCascade(cp, Corrected).l4[0];
      assert head == cp[1] by {
        CorrectedPrefersHarderElectron(cp);
        assert KeyOf(head, ElePt) == KeyOf(cp[1], ElePt);
        InTwo(head, cp);
      }
      PickPairHead(cp, ci, Corrected, 1);
    }
  }

  /** The candidates of the event of `SelectionIgnoresElectronPt`. */
  lemma ElectronPtCandidates(ev: Event)
    requires |ev.electrons| == 2 && |ev.taus| == 1
    requires ev.electrons[0].pfRelIso03All == ev.electrons[1].pfRelIso03All
    requires IsValidPair(ev, (0, 0)) && IsValidPair(ev, (1, 0))
    ensures CandidateIndices(ev, [0, 1], [0]) == [(0, 0), (1, 0)]
    ensures CandidatePairs(ev, [0, 1], [0]) ==
      [(ev.electrons[0], ev.taus[0]), (ev.electrons[1], ev.taus[0])]
  {
    ElectronPtCandidateIndices(ev);
    CandidatesLayout(ev, [0, 1], [0]);
  }

  lemma ElectronPtCandidateIndices(ev: Event)
    requires |ev.electrons| == 2 && |ev.taus| == 1
    requires ev.electrons[0].pfRelIso03All == ev.electrons[1].pfRelIso03All
    requires IsValidPair(ev, (0, 0)) && IsValidPair(ev, (1, 0))
    ensures CandidateIndices(ev, [0, 1], [0]) == [(0, 0), (1, 0)]
  {
    var idx := RawPairIndices(ev, [0, 1], [0]);
    ElectronPtRawIndices(ev);
    var m := PairMask(ev, idx);
    assert m == [true, true];
    TrueIndicesOfBoth();
    assert Mask(idx, m) == Apply(idx, [0, 1]);
    PickTwo(idx, 0, 1);
  }

  lemma ElectronPtRawIndices(ev: Event)
    requires |ev.electrons| == 2 && |ev.taus| == 1
    requires ev.electrons[0].pfRelIso03All == ev.electrons[1].pfRelIso03All
    ensures RawPairIndices(ev, [0, 1], [0]) == [(0, 0), (1, 0)]
  {
    ElectronOrderOfTie(ev);
    TauOrderOfOne(ev);
    CartesianOfColumn();
  }

  /** An event meeting the conditions of `SelectionIgnoresElectronPt`. */
  lemma ElectronPtEventExists()
    ensures var ev := Event(
      [Electron(30.0, 0.5, 0.01, 0.01, -1, 0.05, true, true, true, 1),
       Electron(40.0, 0.5, 0.01, 0.01, -1, 0.05, true, true, true, 1)],
      [Tau(30.0, 0.5, 0.01, 1, 0.9, 5, 2, 4)],
      [[1.0], [1.0]], [10.0, 10.0]);
      && SelectedPair(ev, [0, 1], [0], AsWritten) == [0, 0]
      && SelectedPair(ev, [0, 1], [0], Corrected) == [1, 0]
  {
    var ev := Event(
      [Electron(30.0, 0.5, 0.01, 0.01, -1, 0.05, true, true, true, 1),
       Electron(40.0, 0.5, 0.01, 0.01, -1, 0.05, true, true, true, 1)],
      [Tau(30.0, 0.5, 0.01, 1, 0.9, 5, 2, 4)],
      [[1.0], [1.0]], [10.0, 10.0]);
    SelectionIgnoresElectronPt(ev);
  }

  /** The names of the preselection table, in order. */
  lemma PreselectionNames(ev: Event, idx: seq<PairIndex>)
    ensures Names(PreselectionCuts(ev, idx)) == ["etau_is_os", "etau_dr_0p5", "etau_mT_50"]
  {
    var t := PreselectionCuts(ev, idx);
    assert Names(t)[0] == "etau_is_os" && Names(t)[1] == "etau_dr_0p5" && Names(t)[2] == "etau_mT_50";
  }

  /**
   * The preselection loop of `etau_selection`: the mask after every cut is
   * recorded under the cut's name, and the final mask keeps exactly the
   * valid pairs.
   */
  method Preselect(ev: Event, idx: seq<PairIndex>) returns (steps: seq<Cut>, mask: seq<bool>)
    ensures Names(steps) == ["etau_is_os", "etau_dr_0p5", "etau_mT_50"]
    ensures forall c :: 0 <= c < |steps| ==> |steps[c].mask| == |idx|
    ensures forall k :: 0 <= k < |idx| ==>
      && (steps[0].mask[k] <==> OppositeCharge(ev, idx[k]))
      && (steps[1].mask[k] <==> OppositeCharge(ev, idx[k]) && Separated(ev, idx[k]))
      && (steps[2].mask[k] <==> IsValidPair(ev, idx[k]))
    ensures mask == PairMask(ev, idx)
  {
    PreselectionMeaning(ev, idx);
    PreselectionNames(ev, idx);
    mask, steps := Accumulate(|idx|, PreselectionCuts(ev, idx));
  }

  /**
   * `etau_selection`: the electrons are sorted by ascending isolation and
   * the taus by descending raw DeepTau score, all combinations are formed
   * electron-major, the preselection is applied cut by cut with each step
   * recorded, and one index pair is chosen among the survivors.
   */
  method EtauSelection(ev: Event, lep1Indices: seq<nat>, lep2Indices: seq<nat>, v: Variant)
    returns (pairSelectionSteps: seq<Cut>, pairIndices: seq<nat>)
    requires InRange(lep1Indices, |ev.electrons|) && InRange(lep2Indices, |ev.taus|)
    ensures var idx := RawPairIndices(ev, lep1Indices, lep2Indices);
      && Names(pairSelectionSteps) == ["etau_is_os", "etau_dr_0p5", "etau_mT_50"]
      && (forall c :: 0 <= c < |pairSelectionSteps| ==> |pairSelectionSteps[c].mask| == |idx|)
      && (forall k :: 0 <= k < |idx| ==>
            && (pairSelectionSteps[0].mask[k] <==> OppositeCharge(ev, idx[k]))
            && (pairSelectionSteps[1].mask[k] <==> OppositeCharge(ev, idx[k]) && Separated(ev, idx[k]))
            && (pairSelectionSteps[2].mask[k] <==> IsValidPair(ev, idx[k])))
    ensures pairIndices == SelectedPair(ev, lep1Indices, lep2Indices, v)
  {
    var lep1Sorted := ElectronOrder(ev, lep1Indices);
    var lep2Sorted := TauOrder(ev, lep2Indices);
    var lepsPair := Cartesian(Apply(ev.electrons, lep1Sorted), Apply(ev.taus, lep2Sorted));
    var lepIndicesPair := Cartesian<nat, nat>(lep1Sorted, lep2Sorted);
    RawPairsLayout(ev, lep1Indices, lep2Indices);
    var goodPairMask;
    pairSelectionSteps, goodPairMask := Preselect(ev, lepIndicesPair);
    var lepsPairSel := Mask(lepsPair, goodPairMask);
    var lepIndicesPairSel := Mask(lepIndicesPair, goodPairMask);
    CandidateCount(ev, lep1Indices, lep2Indices);
    assert lepIndicesPairSel == CandidateIndices(ev, lep1Indices, lep2Indices);
    assert lepsPairSel == CandidatePairs(ev, lep1Indices, lep2Indices);
    if |lepIndicesPairSel| > 1 {
      pairIndices := GetSortedPair(lepsPairSel, lepIndicesPairSel, v);
    } else if |lepIndicesPairSel| == 1 {
      pairIndices := [lepIndicesPairSel[0].0, lepIndicesPairSel[0].1];
    } else {
      pairIndices := [];
    }
  }
}
