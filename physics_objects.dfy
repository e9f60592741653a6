/**
 * The physics-object selections of one event: muons, electrons, taus and
 * jets. Each selection evaluates a table of named cuts per object, combines
 * them by the cumulative AND of `Cutflow.Accumulate`, and turns the final
 * mask into the list of passing indices in descending-pt order,
 * `sorted_indices[mask[sorted_indices]]`.
 */
module PhysicsObjects {
  import opened Wrappers
  import opened Indexing
  import opened Sorting
  import opened Cutflow

  function Abs(x: real): real {
    if x < 0.0 then -x else x
  }

  /**
   * The indices whose mask entry is true, ordered by descending pt and,
   * among equal pt, by position: each passing index exactly once.
   */
  function PtOrderedIndices(pts: seq<real>, m: seq<bool>): (r: seq<nat>)
    requires |m| == |pts|
    ensures InOrder(pts, false, r) && Distinct(r)
    ensures forall i: nat :: i in r <==> i < |m| && m[i]
  {
    var sorted := Argsort(pts, false);
    var r := Mask(sorted, Apply(m, sorted));
    MaskKeepsOrder(pts, false, sorted, Apply(m, sorted));
    InOrderDistinct(pts, false, r);
    MaskMembers(sorted, Apply(m, sorted));
    forall i: nat | i < |m| && m[i] ensures i in r {
      assert i in sorted;
      var k :| 0 <= k < |sorted| && sorted[k] == i;
      assert Apply(m, sorted)[k];
    }
    r
  }

  /**
   * One cut chain and its index conversion: the recorded steps, and the
   * indices of the objects passing every cut (those satisfying `keep`) in
   * descending-pt order.
   */
  method SelectChain<T>(objs: seq<T>, pts: seq<real>, cuts: seq<Cut>, keep: T -> bool)
    returns (steps: seq<Cut>, mask: seq<bool>, indices: seq<nat>)
    requires |pts| == |objs| && Aligned(|objs|, cuts)
    requires forall i :: 0 <= i < |objs| ==> (PassesFirst(cuts, |cuts|, i) <==> keep(objs[i]))
    ensures |steps| == |cuts| && Names(steps) == Names(cuts)
    ensures forall c :: 0 <= c < |steps| ==> |steps[c].mask| == |objs|
    ensures forall c, i :: 0 <= c < |steps| && 0 <= i < |objs| ==>
      (steps[c].mask[i] <==> PassesFirst(cuts, c + 1, i))
    ensures |mask| == |objs| && forall i :: 0 <= i < |objs| ==> (mask[i] <==> keep(objs[i]))
    ensures InOrder(pts, false, indices) && Distinct(indices)
    ensures forall i: nat :: i in indices <==> i < |objs| && keep(objs[i])
  {
    mask, steps := Accumulate(|objs|, cuts);
    indices := PtOrderedIndices(pts, mask);
  }

  // ---------------------------------------------------------------- muons

  datatype Muon = Muon(
    pt: real, eta: real, dxy: real, dz: real, mediumId: bool,
    pfRelIso04All: real, isGlobal: bool, isPFcand: bool)

  function MuonPts(ms: seq<Muon>): (r: seq<real>)
    ensures |r| == |ms| && forall i :: 0 <= i < |ms| ==> r[i] == ms[i].pt
  {
    seq(|ms|, i requires 0 <= i < |ms| => ms[i].pt)
  }

  /** The good-muon cuts, in table order. */
  function MuonGoodCuts(ms: seq<Muon>): seq<Cut> {
    [ Cut("muon_pt_26", Column(ms, (m: Muon) => m.pt > 26.0)),
      Cut("muon_eta_2p4", Column(ms, (m: Muon) => Abs(m.eta) < 2.4)),
      Cut("mediumID", Column(ms, (m: Muon) => m.mediumId)),
      Cut("muon_dxy_0p045", Column(ms, (m: Muon) => Abs(m.dxy) < 0.045)),
      Cut("muon_dz_0p2", Column(ms, (m: Muon) => Abs(m.dz) < 0.2)),
      Cut("muon_iso_0p15", Column(ms, (m: Muon) => m.pfRelIso04All < 0.15)) ]
  }

  /** The single-lepton veto cuts, in table order. */
  function MuonVetoCuts(ms: seq<Muon>): seq<Cut> {
    [ Cut("muon_pt_10", Column(ms, (m: Muon) => m.pt > 10.0)),
      Cut("muon_eta_2p4", Column(ms, (m: Muon) => Abs(m.eta) < 2.4)),
      Cut("mediumID", Column(ms, (m: Muon) => m.mediumId)),
      Cut("muon_dxy_0p045", Column(ms, (m: Muon) => Abs(m.dxy) < 0.045)),
      Cut("muon_dz_0p2", Column(ms, (m: Muon) => Abs(m.dz) < 0.2)),
      Cut("muon_iso_0p3", Column(ms, (m: Muon) => m.pfRelIso04All < 0.3)) ]
  }

  /** The di-lepton veto cuts, in table order. */
  function MuonDoubleVetoCuts(ms: seq<Muon>): seq<Cut> {
    [ Cut("muon_pt_15", Column(ms, (m: Muon) => m.pt > 15.0)),
      Cut("muon_eta_2p4", Column(ms, (m: Muon) => Abs(m.eta) < 2.4)),
      Cut("muon_isGlobal", Column(ms, (m: Muon) => m.isGlobal)),
      Cut("muon_isPF", Column(ms, (m: Muon) => m.isPFcand)),
      Cut("muon_dxy_0p045", Column(ms, (m: Muon) => Abs(m.dxy) < 0.045)),
      Cut("muon_dz_0p2", Column(ms, (m: Muon) => Abs(m.dz) < 0.2)),
      Cut("muon_iso_0p3", Column(ms, (m: Muon) => m.pfRelIso04All < 0.3)) ]
  }

  /** A good muon: pt above 26 GeV, |eta| below 2.4, medium ID, prompt, isolation below 0.15. */
  predicate IsGoodMuon(m: Muon) {
    m.pt > 26.0 && Abs(m.eta) < 2.4 && m.mediumId
    && Abs(m.dxy) < 0.045 && Abs(m.dz) < 0.2 && m.pfRelIso04All < 0.15
  }

  /** A veto muon: as a good muon, but pt above 10 GeV and isolation below 0.3. */
  predicate IsVetoMuon(m: Muon) {
    m.pt > 10.0 && Abs(m.eta) < 2.4 && m.mediumId
    && Abs(m.dxy) < 0.045 && Abs(m.dz) < 0.2 && m.pfRelIso04All < 0.3
  }

  /** A di-lepton veto muon: pt above 15 GeV, global and particle-flow, prompt, isolation below 0.3. */
  predicate IsDoubleVetoMuon(m: Muon) {
    m.pt > 15.0 && Abs(m.eta) < 2.4 && m.isGlobal && m.isPFcand
    && Abs(m.dxy) < 0.045 && Abs(m.dz) < 0.2 && m.pfRelIso04All < 0.3
  }

  /** The good-muon table passes exactly the good muons. */
  lemma MuonGoodCutsMeaning(ms: seq<Muon>)
    ensures Aligned(|ms|, MuonGoodCuts(ms))
    ensures forall i :: 0 <= i < |ms| ==> (PassesFirst(MuonGoodCuts(ms), 6, i) <==> IsGoodMuon(ms[i]))
  {
    var t := MuonGoodCuts(ms);
    forall c | 0 <= c < 6 ensures |t[c].mask| == |ms| {
      assert c == 0 || c == 1 || c == 2 || c == 3 || c == 4 || c == 5;
    }
    forall i | 0 <= i < |ms| ensures PassesFirst(t, 6, i) <==> IsGoodMuon(ms[i]) {
      assert PassesFirst(t, 6, i) ==>
        t[0].mask[i] && t[1].mask[i] && t[2].mask[i] && t[3].mask[i] && t[4].mask[i] && t[5].mask[i];
      if IsGoodMuon(ms[i]) {
        forall c | 0 <= c < 6 ensures t[c].mask[i] {
          assert c == 0 || c == 1 || c == 2 || c == 3 || c == 4 || c == 5;
        }
      }
    }
  }

  /** The veto table passes exactly the veto muons. */
  lemma MuonVetoCutsMeaning(ms: seq<Muon>)
    ensures Aligned(|ms|, MuonVetoCuts(ms))
    ensures forall i :: 0 <= i < |ms| ==> (PassesFirst(MuonVetoCuts(ms), 6, i) <==> IsVetoMuon(ms[i]))
  {
    var t := MuonVetoCuts(ms);
    forall c | 0 <= c < 6 ensures |t[c].mask| == |ms| {
      assert c == 0 || c == 1 || c == 2 || c == 3 || c == 4 || c == 5;
    }
    forall i | 0 <= i < |ms| ensures PassesFirst(t, 6, i) <==> IsVetoMuon(ms[i]) {
      assert PassesFirst(t, 6, i) ==>
        t[0].mask[i] && t[1].mask[i] && t[2].mask[i] && t[3].mask[i] && t[4].mask[i] && t[5].mask[i];
      if IsVetoMuon(ms[i]) {
        forall c | 0 <= c < 6 ensures t[c].mask[i] {
          assert c == 0 || c == 1 || c == 2 || c == 3 || c == 4 || c == 5;
        }
      }
    }
  }

  /** The di-lepton veto table passes exactly the di-lepton veto muons. */
  lemma MuonDoubleVetoCutsMeaning(ms: seq<Muon>)
    ensures Aligned(|ms|, MuonDoubleVetoCuts(ms))
    ensures forall i :: 0 <= i < |ms| ==>
      (PassesFirst(MuonDoubleVetoCuts(ms), 7, i) <==> IsDoubleVetoMuon(ms[i]))
  {
    var t := MuonDoubleVetoCuts(ms);
    forall c | 0 <= c < 7 ensures |t[c].mask| == |ms| {
      assert c == 0 || c == 1 || c == 2 || c == 3 || c == 4 || c == 5 || c == 6;
    }
    forall i | 0 <= i < |ms| ensures PassesFirst(t, 7, i) <==> IsDoubleVetoMuon(ms[i]) {
      assert PassesFirst(t, 7, i) ==>
        t[0].mask[i] && t[1].mask[i] && t[2].mask[i] && t[3].mask[i] && t[4].mask[i] && t[5].mask[i]
        && t[6].mask[i];
      if IsDoubleVetoMuon(ms[i]) {
        forall c | 0 <= c < 7 ensures t[c].mask[i] {
          assert c == 0 || c == 1 || c == 2 || c == 3 || c == 4 || c == 5 || c == 6;
        }
      }
    }
  }

  /**
   * `muon_selection`: the good-muon steps, and the good, veto and di-lepton
   * veto muon indices in descending-pt order. Only the good chain records
   * its steps. Every good muon is also a veto muon.
   */
  method MuonSelection(muons: seq<Muon>)
    returns (steps: seq<Cut>, good: seq<nat>, veto: seq<nat>, doubleVeto: seq<nat>)
    ensures Names(steps) ==
      ["muon_pt_26", "muon_eta_2p4", "mediumID", "muon_dxy_0p045", "muon_dz_0p2", "muon_iso_0p15"]
    ensures forall c :: 0 <= c < |steps| ==> |steps[c].mask| == |muons|
    ensures forall c, i :: 0 <= c < |steps| && 0 <= i < |muons| ==>
      (steps[c].mask[i] <==> PassesFirst(MuonGoodCuts(muons), c + 1, i))
    ensures InOrder(MuonPts(muons), false, good) && Distinct(good)
    ensures forall i: nat :: i in good <==> i < |muons| && IsGoodMuon(muons[i])
    ensures InOrder(MuonPts(muons), false, veto) && Distinct(veto)
    ensures forall i: nat :: i in veto <==> i < |muons| && IsVetoMuon(muons[i])
    ensures InOrder(MuonPts(muons), false, doubleVeto) && Distinct(doubleVeto)
    ensures forall i: nat :: i in doubleVeto <==> i < |muons| && IsDoubleVetoMuon(muons[i])
    ensures forall i :: i in good ==> i in veto
  {
    MuonGoodCutsMeaning(muons);
    MuonVetoCutsMeaning(muons);
    MuonDoubleVetoCutsMeaning(muons);
    var pts := MuonPts(muons);
    var goodMask, vetoMask, doubleVetoMask, vetoSteps, doubleVetoSteps;
    steps, goodMask, good := SelectChain(muons, pts, MuonGoodCuts(muons), IsGoodMuon);
    vetoSteps, vetoMask, veto := SelectChain(muons, pts, MuonVetoCuts(muons), IsVetoMuon);
    doubleVetoSteps, doubleVetoMask, doubleVeto :=
      SelectChain(muons, pts, MuonDoubleVetoCuts(muons), IsDoubleVetoMuon);
  }

  // ------------------------------------------------------------ electrons

  /** The electron columns the selections read (NanoAOD version 10 or later names). */
  datatype Electron = Electron(
    pt: real, eta: real, dxy: real, dz: real, charge: int, pfRelIso03All: real,
    mvaIsoWP80: bool, mvaNoIsoWP90: bool, convVeto: bool, cutBased: int)

  function ElectronPts(es: seq<Electron>): (r: seq<real>)
    ensures |r| == |es| && forall i :: 0 <= i < |es| ==> r[i] == es[i].pt
  {
    seq(|es|, i requires 0 <= i < |es| => es[i].pt)
  }

  /** The good-electron cuts, in table order. */
  function ElectronGoodCuts(es: seq<Electron>): seq<Cut> {
    [ Cut("electron_pt_25", Column(es, (e: Electron) => e.pt > 25.0)),
      Cut("electron_eta_2p1", Column(es, (e: Electron) => Abs(e.eta) < 2.1)),
      Cut("electron_dxy_0p045", Column(es, (e: Electron) => Abs(e.dxy) < 0.045)),
      Cut("electron_dz_0p2", Column(es, (e: Electron) => Abs(e.dz) < 0.2)),
      Cut("electron_mva_iso_wp80", Column(es, (e: Electron) => e.mvaIsoWP80)) ]
  }

  /** The single-lepton veto cuts, in table order. */
  function ElectronVetoCuts(es: seq<Electron>): seq<Cut> {
    [ Cut("electron_pt_10", Column(es, (e: Electron) => e.pt > 10.0)),
      Cut("electron_eta_2p5", Column(es, (e: Electron) => Abs(e.eta) < 2.5)),
      Cut("electron_dxy_0p045", Column(es, (e: Electron) => Abs(e.dxy) < 0.045)),
      Cut("electron_dz_0p2", Column(es, (e: Electron) => Abs(e.dz) < 0.2)),
      Cut("electron_mva_noniso_wp90", Column(es, (e: Electron) => e.mvaNoIsoWP90)),
      Cut("electron_convVeto", Column(es, (e: Electron) => e.convVeto)),
      Cut("electron_pfRelIso03_all", Column(es, (e: Electron) => e.pfRelIso03All < 0.3)) ]
  }

  /** The di-lepton veto cuts, in table order. */
  function ElectronDoubleVetoCuts(es: seq<Electron>): seq<Cut> {
    [ Cut("electron_pt_15", Column(es, (e: Electron) => e.pt > 15.0)),
      Cut("electron_eta_2p5", Column(es, (e: Electron) => Abs(e.eta) < 2.5)),
      Cut("electron_dxy_0p045", Column(es, (e: Electron) => Abs(e.dxy) < 0.045)),
      Cut("electron_dz_0p2", Column(es, (e: Electron) => Abs(e.dz) < 0.2)),
      Cut("electron_cutBased", Column(es, (e: Electron) => e.cutBased == 1)),
      Cut("electron_pfRelIso03_all", Column(es, (e: Electron) => e.pfRelIso03All < 0.3)) ]
  }

  /** A good electron: pt above 25 GeV, |eta| below 2.1, prompt, passing the isolated MVA 80% point. */
  predicate IsGoodElectron(e: Electron) {
    e.pt > 25.0 && Abs(e.eta) < 2.1 && Abs(e.dxy) < 0.045 && Abs(e.dz) < 0.2 && e.mvaIsoWP80
  }

  /** A veto electron: pt above 10 GeV, |eta| below 2.5, prompt, non-isolated MVA 90%, conversion veto, isolation below 0.3. */
  predicate IsVetoElectron(e: Electron) {
    e.pt > 10.0 && Abs(e.eta) < 2.5 && Abs(e.dxy) < 0.045 && Abs(e.dz) < 0.2
    && e.mvaNoIsoWP90 && e.convVeto && e.pfRelIso03All < 0.3
  }

  /** A di-lepton veto electron: pt above 15 GeV, |eta| below 2.5, prompt, cut-based ID exactly 1 (veto), isolation below 0.3. */
  predicate IsDoubleVetoElectron(e: Electron) {
    e.pt > 15.0 && Abs(e.eta) < 2.5 && Abs(e.dxy) < 0.045 && Abs(e.dz) < 0.2
    && e.cutBased == 1 && e.pfRelIso03All < 0.3
  }

  /** The good-electron table passes exactly the good electrons. */
  lemma ElectronGoodCutsMeaning(es: seq<Electron>)
    ensures Aligned(|es|, ElectronGoodCuts(es))
    ensures forall i :: 0 <= i < |es| ==>
      (PassesFirst(ElectronGoodCuts(es), 5, i) <==> IsGoodElectron(es[i]))
  {
    var t := ElectronGoodCuts(es);
    forall c | 0 <= c < 5 ensures |t[c].mask| == |es| {
      assert c == 0 || c == 1 || c == 2 || c == 3 || c == 4;
    }
    forall i | 0 <= i < |es| ensures PassesFirst(t, 5, i) <==> IsGoodElectron(es[i]) {
      assert PassesFirst(t, 5, i) ==>
        t[0].mask[i] && t[1].mask[i] && t[2].mask[i] && t[3].mask[i] && t[4].mask[i];
      if IsGoodElectron(es[i]) {
        forall c | 0 <= c < 5 ensures t[c].mask[i] {
          assert c == 0 || c == 1 || c == 2 || c == 3 || c == 4;
        }
      }
    }
  }

  /** The veto table passes exactly the veto electrons. */
  lemma ElectronVetoCutsMeaning(es: seq<Electron>)
    ensures Aligned(|es|, ElectronVetoCuts(es))
    ensures forall i :: 0 <= i < |es| ==>
      (PassesFirst(ElectronVetoCuts(es), 7, i) <==> IsVetoElectron(es[i]))
  {
    var t := ElectronVetoCuts(es);
    forall c | 0 <= c < 7 ensures |t[c].mask| == |es| {
      assert c == 0 || c == 1 || c == 2 || c == 3 || c == 4 || c == 5 || c == 6;
    }
    forall i | 0 <= i < |es| ensures PassesFirst(t, 7, i) <==> IsVetoElectron(es[i]) {
      assert PassesFirst(t, 7, i) ==>
        t[0].mask[i] && t[1].mask[i] && t[2].mask[i] && t[3].mask[i] && t[4].mask[i] && t[5].mask[i]
        && t[6].mask[i];
      if IsVetoElectron(es[i]) {
        forall c | 0 <= c < 7 ensures t[c].mask[i] {
          assert c == 0 || c == 1 || c == 2 || c == 3 || c == 4 || c == 5 || c == 6;
        }
      }
    }
  }

  /** The di-lepton veto table passes exactly the di-lepton veto electrons. */
  lemma ElectronDoubleVetoCutsMeaning(es: seq<Electron>)
    ensures Aligned(|es|, ElectronDoubleVetoCuts(es))
    ensures forall i :: 0 <= i < |es| ==>
      (PassesFirst(ElectronDoubleVetoCuts(es), 6, i) <==> IsDoubleVetoElectron(es[i]))
  {
    var t := ElectronDoubleVetoCuts(es);
    forall c | 0 <= c < 6 ensures |t[c].mask| == |es| {
      assert c == 0 || c == 1 || c == 2 || c == 3 || c == 4 || c == 5;
    }
    forall i | 0 <= i < |es| ensures PassesFirst(t, 6, i) <==> IsDoubleVetoElectron(es[i]) {
      assert PassesFirst(t, 6, i) ==>
        t[0].mask[i] && t[1].mask[i] && t[2].mask[i] && t[3].mask[i] && t[4].mask[i] && t[5].mask[i];
      if IsDoubleVetoElectron(es[i]) {
        forall c | 0 <= c < 6 ensures t[c].mask[i] {
          assert c == 0 || c == 1 || c == 2 || c == 3 || c == 4 || c == 5;
        }
      }
    }
  }

  /**
   * `electron_selection`: the good-electron steps, and the good, veto and
   * di-lepton veto electron indices in descending-pt order. Only the good
   * chain records its steps.
   */
  method ElectronSelection(electrons: seq<Electron>)
    returns (steps: seq<Cut>, good: seq<nat>, veto: seq<nat>, doubleVeto: seq<nat>)
    ensures Names(steps) ==
      ["electron_pt_25", "electron_eta_2p1", "electron_dxy_0p045", "electron_dz_0p2", "electron_mva_iso_wp80"]
    ensures forall c :: 0 <= c < |steps| ==> |steps[c].mask| == |electrons|
    ensures forall c, i :: 0 <= c < |steps| && 0 <= i < |electrons| ==>
      (steps[c].mask[i] <==> PassesFirst(ElectronGoodCuts(electrons), c + 1, i))
    ensures InOrder(ElectronPts(electrons), false, good) && Distinct(good)
    ensures forall i: nat :: i in good <==> i < |electrons| && IsGoodElectron(electrons[i])
    ensures InOrder(ElectronPts(electrons), false, veto) && Distinct(veto)
    ensures forall i: nat :: i in veto <==> i < |electrons| && IsVetoElectron(electrons[i])
    ensures InOrder(ElectronPts(electrons), false, doubleVeto) && Distinct(doubleVeto)
    ensures forall i: nat :: i in doubleVeto <==> i < |electrons| && IsDoubleVetoElectron(electrons[i])
  {
    ElectronGoodCutsMeaning(electrons);
    ElectronVetoCutsMeaning(electrons);
    ElectronDoubleVetoCutsMeaning(electrons);
    var pts := ElectronPts(electrons);
    var goodMask, vetoMask, doubleVetoMask, vetoSteps, doubleVetoSteps;
    steps, goodMask, good := SelectChain(electrons, pts, ElectronGoodCuts(electrons), IsGoodElectron);
    vetoSteps, vetoMask, veto := SelectChain(electrons, pts, ElectronVetoCuts(electrons), IsVetoElectron);
    doubleVetoSteps, doubleVetoMask, doubleVeto :=
      SelectChain(electrons, pts, ElectronDoubleVetoCuts(electrons), IsDoubleVetoElectron);
  }

  /**
   * Unlike muons, a good electron need not be a veto electron: the good
   * chain asks neither for the non-isolated MVA, the conversion veto nor
   * an isolation bound.
   */
  lemma GoodElectronNeedNotBeVeto()
    ensures var e := Electron(30.0, 0.5, 0.01, 0.01, -1, 0.5, true, false, false, 0);
      IsGoodElectron(e) && !IsVetoElectron(e)
  {
  }

  // ----------------------------------------------------------------- taus

  /** The tau columns the selections read. */
  datatype Tau = Tau(
    pt: real, eta: real, dz: real, charge: int, rawDeepTauVsJet: real,
    idDeepTauVsJet: int, idDeepTauVsE: int, idDeepTauVsMu: int)

  /** DeepTau working points, as integer levels of the id columns. */
  const TauVsEVVLoose := 2
  const TauVsEVLoose := 3
  const TauVsMuVLoose := 1
  const TauVsMuTight := 4
  const TauVsJetVVLoose := 2
  const TauVsJetLoose := 4
  const TauVsJetMedium := 5

  function TauPts(ts: seq<Tau>): (r: seq<real>)
    ensures |r| == |ts| && forall i :: 0 <= i < |ts| ==> r[i] == ts[i].pt
  {
    seq(|ts|, i requires 0 <= i < |ts| => ts[i].pt)
  }

  /** The good-tau cuts, in table order. */
  function TauGoodCuts(ts: seq<Tau>): seq<Cut> {
    [ Cut("tau_pt_20", Column(ts, (t: Tau) => t.pt > 20.0)),
      Cut("tau_eta_2p3", Column(ts, (t: Tau) => Abs(t.eta) < 2.3)),
      Cut("tau_dz_0p2", Column(ts, (t: Tau) => Abs(t.dz) < 0.2)),
      Cut("DeepTauVSjet", Column(ts, (t: Tau) => t.idDeepTauVsJet >= TauVsJetMedium)),
      Cut("DeepTauVSe", Column(ts, (t: Tau) => t.idDeepTauVsE >= TauVsEVVLoose)),
      Cut("DeepTauVSmu", Column(ts, (t: Tau) => t.idDeepTauVsMu >= TauVsMuTight)) ]
  }

  /** A good tau: pt above 20 GeV, |eta| below 2.3, |dz| below 0.2, DeepTau VSjet >= 5, VSe >= 2, VSmu >= 4. */
  predicate IsGoodTau(t: Tau) {
    t.pt > 20.0 && Abs(t.eta) < 2.3 && Abs(t.dz) < 0.2
    && t.idDeepTauVsJet >= 5 && t.idDeepTauVsE >= 2 && t.idDeepTauVsMu >= 4
  }

  /** The good-tau table passes exactly the good taus. */
  lemma TauGoodCutsMeaning(ts: seq<Tau>)
    ensures Aligned(|ts|, TauGoodCuts(ts))
    ensures forall i :: 0 <= i < |ts| ==> (PassesFirst(TauGoodCuts(ts), 6, i) <==> IsGoodTau(ts[i]))
  {
    var t := TauGoodCuts(ts);
    forall c | 0 <= c < 6 ensures |t[c].mask| == |ts| {
      assert c == 0 || c == 1 || c == 2 || c == 3 || c == 4 || c == 5;
    }
    forall i | 0 <= i < |ts| ensures PassesFirst(t, 6, i) <==> IsGoodTau(ts[i]) {
      assert PassesFirst(t, 6, i) ==>
        t[0].mask[i] && t[1].mask[i] && t[2].mask[i] && t[3].mask[i] && t[4].mask[i] && t[5].mask[i];
      if IsGoodTau(ts[i]) {
        forall c | 0 <= c < 6 ensures t[c].mask[i] {
          assert c == 0 || c == 1 || c == 2 || c == 3 || c == 4 || c == 5;
        }
      }
    }
  }

  /**
   * `tau_selection`: the good-tau steps and indices in descending-pt
   * order. The electron and muon indices are accepted but not read: no
   * contract below mentions them, and the index list is fixed by its
   * members and its order (`Sorting.InOrderUnique`).
   */
  method TauSelection(taus: seq<Tau>, electronIndices: seq<nat>, muonIndices: seq<nat>)
    returns (steps: seq<Cut>, good: seq<nat>)
    ensures Names(steps) ==
      ["tau_pt_20", "tau_eta_2p3", "tau_dz_0p2", "DeepTauVSjet", "DeepTauVSe", "DeepTauVSmu"]
    ensures forall c :: 0 <= c < |steps| ==> |steps[c].mask| == |taus|
    ensures forall c, i :: 0 <= c < |steps| && 0 <= i < |taus| ==>
      (steps[c].mask[i] <==> PassesFirst(TauGoodCuts(taus), c + 1, i))
    ensures InOrder(TauPts(taus), false, good) && Distinct(good)
    ensures forall i: nat :: i in good <==> i < |taus| && IsGoodTau(taus[i])
  {
    TauGoodCutsMeaning(taus);
    var goodMask;
    steps, goodMask, good := SelectChain(taus, TauPts(taus), TauGoodCuts(taus), IsGoodTau);
  }

  // ----------------------------------------------------------------- jets

  datatype Jet = Jet(pt: real, eta: real, jetId: int, btagDeepFlavB: real)

  /** Why `jet_selection` raises instead of returning. */
  datatype JetError =
    | UndefinedGoodSelections   // the Run-2 pile-up cut is stored into a name the function never defines
    | MissingBtagWorkingPoint   // the b-tag working-point table has no entry for the year

  datatype JetSelectionResult = JetSelectionResult(steps: seq<Cut>, jetIndices: seq<nat>, bVeto: bool)

  predicate IsRun2(year: int) {
    year in {2016, 2017, 2018}
  }

  /**
   * The b-tag working points of the configuration are a table keyed by
   * tagger and level (DeepJet medium is 0.3040), not by year, so the
   * lookup by year finds no entry.
   */
  const ConfiguredBtagMediumWp: map<int, real> := map[]

  function JetPts(js: seq<Jet>): (r: seq<real>)
    ensures |r| == |js| && forall i :: 0 <= i < |js| ==> r[i] == js[i].pt
  {
    seq(|js|, i requires 0 <= i < |js| => js[i].pt)
  }

  /** The jet cuts, in table order: b-tagging comes last. */
  function JetCuts(js: seq<Jet>, btagWp: real): seq<Cut> {
    [ Cut("jet_pt_30", Column(js, (j: Jet) => j.pt > 30.0)),
      Cut("jet_eta_2.4", Column(js, (j: Jet) => Abs(j.eta) < 2.4)),
      Cut("jet_id", Column(js, (j: Jet) => j.jetId == 6)),
      Cut("btag", Column(js, (j: Jet) => j.btagDeepFlavB >= btagWp)) ]
  }

  /** A vetoing b jet: pt above 30 GeV, |eta| below 2.4, jet ID exactly 0b110, DeepJet score at least the working point. */
  predicate IsBJet(j: Jet, btagWp: real) {
    j.pt > 30.0 && Abs(j.eta) < 2.4 && j.jetId == 6 && j.btagDeepFlavB >= btagWp
  }

  /** The jet table passes exactly the b jets. */
  lemma JetCutsMeaning(js: seq<Jet>, btagWp: real)
    ensures Names(JetCuts(js, btagWp)) == ["jet_pt_30", "jet_eta_2.4", "jet_id", "btag"]
    ensures Aligned(|js|, JetCuts(js, btagWp))
    ensures forall i :: 0 <= i < |js| ==> (PassesFirst(JetCuts(js, btagWp), 4, i) <==> IsBJet(js[i], btagWp))
  {
    var t := JetCuts(js, btagWp);
    forall c | 0 <= c < 4 ensures |t[c].mask| == |js| {
      assert c == 0 || c == 1 || c == 2 || c == 3;
    }
    forall i | 0 <= i < |js| ensures PassesFirst(t, 4, i) <==> IsBJet(js[i], btagWp) {
      assert PassesFirst(t, 4, i) ==> t[0].mask[i] && t[1].mask[i] && t[2].mask[i] && t[3].mask[i];
      if IsBJet(js[i], btagWp) {
        forall c | 0 <= c < 4 ensures t[c].mask[i] {
          assert c == 0 || c == 1 || c == 2 || c == 3;
        }
      }
    }
  }

  /**
   * The part of `jet_selection` after the working point is known: the b-jet
   * cut chain, the kept jets (those failing at least one cut) in
   * descending-pt order, and the b veto, which holds iff no jet passes every
   * cut (in particular for an event without jets).
   */
  method JetVeto(jets: seq<Jet>, wp: real) returns (r: JetSelectionResult)
    ensures Names(r.steps) == ["jet_pt_30", "jet_eta_2.4", "jet_id", "btag"]
    ensures forall c :: 0 <= c < |r.steps| ==> |r.steps[c].mask| == |jets|
    ensures forall c, i :: 0 <= c < |r.steps| && 0 <= i < |jets| ==>
      (r.steps[c].mask[i] <==> PassesFirst(JetCuts(jets, wp), c + 1, i))
    ensures InOrder(JetPts(jets), false, r.jetIndices) && Distinct(r.jetIndices)
    ensures forall i: nat :: i in r.jetIndices <==> i < |jets| && !IsBJet(jets[i], wp)
    ensures r.bVeto <==> forall i :: 0 <= i < |jets| ==> !IsBJet(jets[i], wp)
  {
    JetCutsMeaning(jets, wp);
    var steps, jetMask, bJets := SelectChain(jets, JetPts(jets), JetCuts(jets, wp), (j: Jet) => IsBJet(j, wp));
    var jetIndices := PtOrderedIndices(JetPts(jets), Not(jetMask));
    r := JetSelectionResult(steps, jetIndices, CountTrue(jetMask) == 0);
  }

  /**
   * `jet_selection`. For a Run-2 year it raises before any cut is applied;
   * otherwise the year's DeepJet medium working point must be in the
   * table, and the result is that of `JetVeto` at that working point.
   */
  method JetSelection(jets: seq<Jet>, year: int, btagMediumWp: map<int, real>)
    returns (r: Result<JetSelectionResult, JetError>)
    ensures IsRun2(year) ==> r == Failure(UndefinedGoodSelections)
    ensures !IsRun2(year) && year !in btagMediumWp ==> r == Failure(MissingBtagWorkingPoint)
    ensures !IsRun2(year) && year in btagMediumWp ==> r.Success?
    ensures r.Success? ==> !IsRun2(year) && year in btagMediumWp
    ensures r.Success? ==> Names(r.value.steps) == ["jet_pt_30", "jet_eta_2.4", "jet_id", "btag"]
    ensures r.Success? ==> forall c :: 0 <= c < |r.value.steps| ==> |r.value.steps[c].mask| == |jets|
    ensures r.Success? ==> forall c, i :: 0 <= c < |r.value.steps| && 0 <= i < |jets| ==>
      (r.value.steps[c].mask[i] <==> PassesFirst(JetCuts(jets, btagMediumWp[year]), c + 1, i))
    ensures r.Success? ==> InOrder(JetPts(jets), false, r.value.jetIndices) && Distinct(r.value.jetIndices)
    ensures r.Success? ==> forall i: nat ::
      i in r.value.jetIndices <==> i < |jets| && !IsBJet(jets[i], btagMediumWp[year])
    ensures r.Success? ==>
      (r.value.bVeto <==> forall i :: 0 <= i < |jets| ==> !IsBJet(jets[i], btagMediumWp[year]))
  {
    if IsRun2(year) {
      return Failure(UndefinedGoodSelections);
    }
    if year !in btagMediumWp {
      return Failure(MissingBtagWorkingPoint);
    }
    var veto := JetVeto(jets, btagMediumWp[year]);
    r := Success(veto);
  }
}
