# Object, pair and channel selection of the H→ττ CP analysis, modelled in Dafny

This project models the per-event selection logic of the `httcp` analysis.
The analysis is written for columnflow and awkward arrays. Events are independent of each other, so the model
describes one event, and its ragged columns become Dafny sequences.

- **Object selections** (`PhysicsObjects`). The muon, electron, tau and jet
  selections each evaluate a table of named cuts, in table order. The cuts
  are combined by a cumulative AND that starts from an all-true mask, and
  the mask after every cut is recorded (`Cutflow.Accumulate`). The final
  mask is turned into index lists in descending pt order:
  `sorted_indices[mask[sorted_indices]]`.
  - The jet selection keeps the jets that are *not* b-tagged and derives
    the b veto from them.
  - It fails for Run-2 years, and for years missing from the working-point
    table.
- **e-τ pair selection** (`EtauPair`), in order:
  1. Electrons are ordered by ascending isolation, and taus by descending
     raw DeepTau score.
  2. All (electron, tau) combinations are formed, electron-major
     (`Indexing.Cartesian`).
  3. Three preselection cuts are applied cumulatively, with each step
     recorded.
  4. One index pair is chosen from the survivors. With several survivors
     this uses `get_sorted_pair`, a cascade of stable argsorts (isolation;
     electron pt on an isolation tie; raw DeepTau on an electron-pt tie; tau
     pt on a DeepTau tie). Each tie test looks at the first two entries of
     the current order.
- **Channel assignment** (`EventCategory`). A table of six conditions on the
  lengths of the e-τ, μ-τ and τ-τ pair lists is visited in order. Each
  condition is recorded, and `channel_id` is overwritten by every row that
  holds.
- **Categorizers** (`Categorization`):
  - the inclusive category;
  - at least two jets;
  - the three single-channel selections;
  - the ABCD regions, by the sign of `rel_charge` and the leading muon's
    isolation. A missing isolation is `None`.
- **Helpers** (`Util`). The NanoAOD version gates, and trigger-object
  matching over a given ΔR table.

Awkward's stable `ak.argsort` is modelled in `Sorting.Argsort`, an insertion
sort under the strict total order "by key, then by position". Because that
order is total, the sorted list is unique (`Sorting.ArgsortUnique`). That
uniqueness is how the model proves that the argsort of keys already in
order is the identity.

`get_sorted_pair` carries the previous stage's permutation into the else
branch of each `ak.where`. This is modelled as written (`Variant.AsWritten`),
next to a corrected cascade (`Variant.Corrected`) that keeps the current
order when a tie test does not fire. `EtauPair.GetSortedPair` and
`EtauPair.EtauSelection` take the variant as a parameter: `AsWritten` is the
code, and `Corrected` is the intended behaviour of the Findings below. The
structural lemmas hold for both variants.

## Model

| member | source | states |
|---|---|---|
| Sorting.Argsort | httcp/selection/lepton_pair_etau.py:116 | `ak.argsort` is a permutation of the positions that lists them in stable-sort order (by key, equal keys in original order) |
| Sorting.ArgsortOrders | httcp/selection/physics_objects.py:74 | after the argsort, the keys are monotone in the requested direction, and equal keys keep their original relative order |
| Sorting.ArgsortUnique | httcp/selection/lepton_pair_etau.py:27 | any permutation in stable-sort order is the argsort, so the stable argsort is uniquely determined |
| Sorting.ArgsortOfAscending | httcp/selection/lepton_pair_etau.py:26-27 | keys already ascending have the identity as their stable ascending argsort |
| Sorting.MaskKeepsOrder | httcp/selection/physics_objects.py:96 | masking a list that is in stable-sort order keeps it in that order |
| Cutflow.Accumulate | httcp/selection/physics_objects.py:82-84 | the cut loop: step `c` holds exactly for the objects passing cuts `0..c`, and every step implies the previous one; steps carry the table's names in order; the final mask is the AND of all cuts over an all-true start, and equals the last step |
| Cutflow.CountTrue | httcp/selection/physics_objects.py:318 | `ak.sum(mask)` is at most the length, and is 0 iff no entry is true |
| PhysicsObjects.SelectChain | httcp/selection/physics_objects.py:74-97 | one cut chain: the steps are the cumulative masks under the table's names, the final mask holds exactly for the objects meeting the chain's condition, and the indices are exactly those objects, each once, by descending pt, stable on ties |
| PhysicsObjects.PtOrderedIndices | httcp/selection/physics_objects.py:96-97 | `sorted_indices[mask[sorted_indices]]` lists exactly the indices whose mask entry is true, each once, by descending pt, stable on ties |
| PhysicsObjects.MuonGoodCutsMeaning | httcp/selection/physics_objects.py:46-53 | an object passes the six good-muon cuts iff pt > 26, abs(eta) < 2.4, medium ID, abs(dxy) < 0.045, abs(dz) < 0.2 and isolation < 0.15 |
| PhysicsObjects.MuonVetoCutsMeaning | httcp/selection/physics_objects.py:54-61 | an object passes the single-veto table iff pt > 10, abs(eta) < 2.4, medium ID, abs(dxy) < 0.045, abs(dz) < 0.2 and isolation < 0.3 |
| PhysicsObjects.MuonDoubleVetoCutsMeaning | httcp/selection/physics_objects.py:62-71 | an object passes the double-veto table iff pt > 15, abs(eta) < 2.4, global, particle-flow, abs(dxy) < 0.045, abs(dz) < 0.2 and isolation < 0.3 |
| PhysicsObjects.MuonSelection | httcp/selection/physics_objects.py:74-107 | only the good chain's steps are returned, under the good table's names; good, veto and double-veto indices are exactly the muons of each chain, by descending pt; every good muon index is also a veto index |
| PhysicsObjects.ElectronGoodCutsMeaning | httcp/selection/physics_objects.py:142-148 | an object passes the good-electron table iff pt > 25, abs(eta) < 2.1, abs(dxy) < 0.045, abs(dz) < 0.2 and the isolated MVA 80% point |
| PhysicsObjects.ElectronVetoCutsMeaning | httcp/selection/physics_objects.py:149-158 | an object passes the single-veto table iff pt > 10, abs(eta) < 2.5, prompt, the non-isolated MVA 90% point, the conversion veto and isolation < 0.3 |
| PhysicsObjects.ElectronDoubleVetoCutsMeaning | httcp/selection/physics_objects.py:159-166 | an object passes the double-veto table iff pt > 15, abs(eta) < 2.5, prompt, cut-based ID equal to 1 and isolation < 0.3 |
| PhysicsObjects.ElectronSelection | httcp/selection/physics_objects.py:169-202 | only the good chain's steps are returned; the good, veto and double-veto indices are exactly the electrons of each chain, by descending pt |
| PhysicsObjects.GoodElectronNeedNotBeVeto | httcp/selection/physics_objects.py:142-158 | unlike muons, a good electron need not be a veto electron: a concrete good electron fails the veto chain |
| PhysicsObjects.TauGoodCutsMeaning | httcp/selection/physics_objects.py:234-247 | an object passes the good-tau table iff pt > 20, abs(eta) < 2.3, abs(dz) < 0.2, DeepTau VSjet ≥ 5, VSe ≥ 2 and VSmu ≥ 4 |
| PhysicsObjects.TauSelection | httcp/selection/physics_objects.py:220-266 | the steps under the tau table's names, and exactly the good taus by descending pt; no contract mentions the electron or muon index arguments |
| PhysicsObjects.JetCutsMeaning | httcp/selection/physics_objects.py:296-306 | the jet table is named `jet_pt_30`, `jet_eta_2.4`, `jet_id`, `btag` in that order, and passes exactly the b jets (pt > 30, abs(eta) < 2.4, jet ID 0b110, DeepJet score ≥ working point) |
| PhysicsObjects.JetVeto | httcp/selection/physics_objects.py:308-318 | the steps of the jet chain; the kept indices are exactly the jets failing some cut, by descending pt; the b veto holds iff no jet is a b jet, which includes the no-jet event |
| PhysicsObjects.JetSelection | httcp/selection/physics_objects.py:283-330 | a Run-2 year fails before any cut because the pile-up cut is stored into an undefined name; otherwise a missing working point fails; otherwise the `JetVeto` outcome at the year's working point |
| EtauPair.ElectronOrderSorts | httcp/selection/lepton_pair_etau.py:115-117 | the re-ordered electron indices are a rearrangement of the input indices (same multiset), by ascending isolation |
| EtauPair.TauOrderSorts | httcp/selection/lepton_pair_etau.py:119-121 | the re-ordered tau indices are a rearrangement of the input indices, by descending raw DeepTau score |
| EtauPair.RawPairsLayout | httcp/selection/lepton_pair_etau.py:125-134 | the number of combinations is the product of the two list lengths; a pair of indices occurs iff its electron is in `lep1` and its tau in `lep2`; the records are those of the index pairs |
| EtauPair.PreselectionCuts | httcp/selection/lepton_pair_etau.py:136-140 | three cuts, one entry per combination; the masks hold exactly for the pairs of opposite charge, for those more than 0.5 apart in ΔR, and for those whose electron has mT < 50 GeV |
| EtauPair.PreselectionMeaning | httcp/selection/lepton_pair_etau.py:136-140 | the first one, two and three cuts pass exactly the opposite-charge pairs; those that are also separated by ΔR > 0.5; and the valid pairs (also mT < 50) |
| EtauPair.Preselect | httcp/selection/lepton_pair_etau.py:142-146 | the recorded steps, named `etau_is_os`, `etau_dr_0p5`, `etau_mT_50` in order, are cumulative; the final mask keeps exactly the valid pairs, so a pair with charge product ≥ 0 never survives |
| EtauPair.CandidatesLayout | httcp/selection/lepton_pair_etau.py:149-150 | the survivors are exactly the valid combinations of the given electrons and taus, and records and index pairs are filtered in lockstep |
| EtauPair.CandidatesIsoOrdered | httcp/selection/lepton_pair_etau.py:114-150 | the surviving pairs are in ascending electron isolation |
| EtauPair.SelectionFirstSortIsIdentity | httcp/selection/lepton_pair_etau.py:26-30 | on the survivors, the first argsort of `get_sorted_pair` is the identity and leaves the pairs unchanged |
| EtauPair.FirstCandidateMostIsolated | httcp/selection/lepton_pair_etau.py:115-153 | the first survivor's electron is at least as isolated as the electron of every valid combination |
| EtauPair.PickPair | httcp/selection/lepton_pair_etau.py:152-163 | the result is empty iff there is no survivor, and otherwise has length 2 and is the index pair of one survivor |
| EtauPair.SelectedPairShape | httcp/selection/lepton_pair_etau.py:102-163 | the returned list is empty iff no combination is valid; otherwise it is an (electron, tau) index pair drawn from the inputs that passes the preselection |
| EtauPair.SelectedPairWithoutTies | httcp/selection/lepton_pair_etau.py:33-163 | with several survivors and no tie between the first two on isolation, electron pt or DeepTau, the first survivor's index pair is returned |
| EtauPair.EtauSelection | httcp/selection/lepton_pair_etau.py:102-167 | the recorded steps' names and meanings over all combinations, and an output equal to the pair the selection chooses (the subject of `SelectedPairShape`) |
| EtauPair.RunCascade | httcp/selection/lepton_pair_etau.py:27-72 | every stage's permutation is a permutation of the pairs; each stage re-sorts on a top-two tie and otherwise re-applies the previous permutation (as written) or keeps the order (corrected) |
| EtauPair.Stage | httcp/selection/lepton_pair_etau.py:40-42 | one `ak.where` stage yields a permutation of the list's positions whichever branch is taken, so re-indexing by it only re-orders |
| EtauPair.CascadeOrder | httcp/selection/lepton_pair_etau.py:29-72 | the four stages compose to one permutation of the input, whose application gives the final order |
| EtauPair.GetSortedPair | httcp/selection/lepton_pair_etau.py:21-85 | records and index pairs move in lockstep: the output is the index pair of the input record that the cascade puts first |
| EtauPair.CascadeKeepsMembers | httcp/selection/lepton_pair_etau.py:29-72 | every stage only re-orders: the final list holds the input's pairs and no others |
| EtauPair.FirstSortIsIdentity | httcp/selection/lepton_pair_etau.py:26-30 | on input in ascending isolation, the first argsort is the identity |
| EtauPair.IsoTieResortsWholeList | httcp/selection/lepton_pair_etau.py:33-45 | when the isolation test fires, the whole list is re-sorted by descending electron pt, not only the tied entries, and it stays a rearrangement of the input |
| EtauPair.NoTieKeepsInputOrder | httcp/selection/lepton_pair_etau.py:33-72 | on input in ascending isolation with no tie test firing, the order never changes and the first input pair is chosen |
| EtauPair.AsWrittenAgreesWithoutEarlyTies | httcp/selection/lepton_pair_etau.py:40-56 | while the carried permutation is the identity (ascending input, no isolation or electron-pt tie), the code and the corrected cascade agree |
| EtauPair.CorrectedLastTestDecides | httcp/selection/lepton_pair_etau.py:33-72 | corrected cascade: the last test that fires decides, so the head has the highest tau pt, the highest DeepTau score, the highest electron pt, or the lowest isolation among all input pairs |
| EtauPair.AsWrittenIgnoresDeepTau | httcp/selection/lepton_pair_etau.py:54-69 | as written, for two pairs tied on isolation and electron pt and differing in DeepTau score, the first input pair is chosen whatever the scores |
| EtauPair.CorrectedPrefersHigherDeepTau | httcp/selection/lepton_pair_etau.py:53-58 | corrected, the same two pairs give the one with the higher DeepTau score |
| EtauPair.DeepTauCounterexample | httcp/selection/lepton_pair_etau.py:54-69 | concretely, on two records sharing one electron with tau scores 0.8 then 0.95: 0.8 as written, 0.95 corrected |
| EtauPair.SelectionIgnoresDeepTau | httcp/selection/lepton_pair_etau.py:114-163 | through the whole selection: two electrons equal in isolation and pt, tau 1 with the higher DeepTau score, only (0, 0) and (1, 1) valid; as written electron 0 with tau 0 is returned, corrected electron 1 with tau 1 |
| EtauPair.DeepTauEventExists | httcp/selection/lepton_pair_etau.py:114-163 | a concrete event meeting those conditions: taus of raw score 0.8 and 0.95, ΔR 0.1 for the crossed combinations; [0, 0] as written, [1, 1] corrected |
| EtauPair.AsWrittenIgnoresElectronPt | httcp/selection/lepton_pair_etau.py:40-56 | as written, for two pairs sharing a tau with equally isolated electrons of different pt, the first input pair is chosen whatever the pts |
| EtauPair.CorrectedPrefersHarderElectron | httcp/selection/lepton_pair_etau.py:39-45 | corrected, the same two pairs give the one with the harder electron |
| EtauPair.ElectronPtCounterexample | httcp/selection/lepton_pair_etau.py:40-56 | concretely, on two records sharing one tau with electrons of 30 then 40 GeV: 30 GeV as written, 40 GeV corrected |
| EtauPair.SelectionIgnoresElectronPt | httcp/selection/lepton_pair_etau.py:114-163 | through the whole selection: two equally isolated electrons, the first listed softer, one tau, both combinations valid; as written the softer electron is returned, corrected the harder one |
| EtauPair.ElectronPtEventExists | httcp/selection/lepton_pair_etau.py:114-163 | a concrete event meeting those conditions: electrons of 30 and 40 GeV; [0, 0] as written, [1, 0] corrected |
| EventCategory.GetCategories | httcp/selection/event_category.py:41-75 | one step per table row, in order, each with the row's name and outcome; `channel_id` starts at 0 and ends as the id of the last row that holds |
| EventCategory.ChannelTableRows | httcp/selection/event_category.py:41-66 | six rows, each asking for lengths 0 or 2 with one or two channels having a pair, and carrying as id the sum of those channels' ids |
| EventCategory.TableExclusive | httcp/selection/event_category.py:41-66 | the six conditions are pairwise exclusive |
| EventCategory.LastWriterOfExclusive | httcp/selection/event_category.py:69-72 | over exclusive rows, the overwrite loop yields the id of the one row that holds, or the initial value if none does |
| EventCategory.ChannelIdOrderIndependent | httcp/selection/event_category.py:69-72 | visiting the table in any order gives the same `channel_id` |
| EventCategory.ChannelIdIsSumOfIds | httcp/config/configs_run2ul_SR.py:242-244 | for lengths in {0, 2}, not all three 2, the id is the sum of the ids (1, 2, 4) of the channels with a pair; with all three, or any other length, it is 0 |
| EventCategory.ChannelIdRange | httcp/selection/event_category.py:36-75 | the id is at most 6 (fits a uint8), and is 0 iff no condition holds |
| Categorization.CatIncl | httcp/categorization/main.py:17-20 | every event is in the inclusive category |
| Categorization.Cat2j | httcp/categorization/main.py:23-26 | an event is selected iff it has at least two jets |
| Categorization.SelEtau | httcp/categorization/main.py:28-32 | an event is selected iff its `channel_id` is the id `get_categories` assigns to an event whose only pair is an e-τ pair |
| Categorization.SelMutau | httcp/categorization/main.py:35-39 | likewise for the μ-τ channel |
| Categorization.SelTautau | httcp/categorization/main.py:41-45 | likewise for the τ-τ channel |
| Categorization.CatC | httcp/categorization/main.py:47-51 | undefined iff there is no muon; true iff the pair is same-sign and the leading muon isolation is below 0.15 |
| Categorization.CatD | httcp/categorization/main.py:53-57 | undefined iff there is no muon; true iff the pair is opposite-sign and the leading muon isolation is below 0.15 |
| Categorization.CatA | httcp/categorization/main.py:59-64 | undefined iff there is no muon; true iff the pair is same-sign and the leading muon isolation is in [0.15, 0.30] |
| Categorization.CatB | httcp/categorization/main.py:66-71 | undefined iff there is no muon; true iff the pair is opposite-sign and the leading muon isolation is in [0.15, 0.30] |
| Categorization.LeadingMuonIso | httcp/categorization/main.py:50 | `ak.firsts` gives the leading muon's isolation, or none iff there is no muon |
| Categorization.Region | httcp/categorization/main.py:47-71 | a region is undefined iff there is no muon, and true iff the charge condition holds and the leading isolation is in the window |
| Categorization.RegionsPartition | httcp/categorization/main.py:47-71 | the regions a, b, c, d are pairwise disjoint; an event is in exactly one iff it has a muon, nonzero relative charge and leading isolation ≤ 0.30 |
| Categorization.NoMuonNoRegion | httcp/categorization/main.py:47-71 | without a muon, every region is undefined |
| Categorization.NeutralOrNonIsolatedInNoRegion | httcp/categorization/main.py:47-71 | `rel_charge == 0` or leading isolation > 0.30 puts the event in no region |
| Categorization.RegionBoundaries | httcp/categorization/main.py:47-71 | isolation exactly 0.15 is in a/b, not c/d; exactly 0.30 is still in a/b |
| Categorization.ChannelSelectionsExclusive | httcp/categorization/main.py:28-45 | at most one of `sel_etau`, `sel_mutau`, `sel_tautau` holds, and none does for a combined id 3, 5 or 6 |
| Categorization.ChannelSelectionsOfAssignedId | httcp/categorization/main.py:28-45 | on the id `get_categories` assigns, each channel selection holds exactly for events with a pair in that channel only |
| Util.IfNanoV9 | httcp/util.py:22-24 | the column is declared iff the version is 9 |
| Util.IfNanoV11 | httcp/util.py:27-29 | the column is declared iff the version is at least 10 |
| Util.NanoGatesExclusive | httcp/util.py:22-29 | the two gates are never both open, and versions up to 8 open neither |
| Util.AnyBelow | httcp/util.py:53 | `ak.any(row < threshold)` holds iff some entry of the row is strictly below the threshold |
| Util.TriggerObjectMatching | httcp/util.py:38-55 | one entry per first-collection object, true iff some second-collection object is strictly closer than the threshold, which defaults to 0.5 |
| Util.NoTriggerObjectsNoMatch | httcp/util.py:50-55 | with no trigger objects, no object matches |
| Util.ThresholdIsStrict | httcp/util.py:53 | a distance equal to the threshold does not match |
| Util.DefaultThresholdIsHalf | httcp/util.py:41 | with the default threshold, a distance of 0.4 matches and one of exactly 0.5 does not |

## Left out

- ΔR and transverse mass. `delta_r` and `transverse_mass` (httcp/util.py:32-35) are trigonometric floating-point arithmetic. The model takes them as given per-event tables: `deltaR[e][t]` and `mT[e]`.
- Floating point: values are compared as exact `real`s, so rounding and NaN are not modelled. Strict versus non-strict comparisons follow the code.
- Cross-event vectorisation: the model describes one event. Awkward's `None` inside `get_sorted_pair` for events with fewer than two pairs is not modelled, because `where_many` discards those results. `EtauPair.GetSortedPair` therefore requires at least two pairs.
- `get_dataset_lfns` (httcp/util.py:58-71): filesystem I/O.
- The framework plumbing is left out:
  - the `@selector`/`@categorizer` `uses`/`produces` declarations;
  - `SelectionResult` beyond its steps and indices;
  - the `ak.values_astype` casts to int32. Indices are `nat`, so the always-true base masks `local_index >= 0` and `lep1_idx >= 0` need no cut.
- The IF_NANO gates: only the predicates are modelled, not their effect on column declarations. The electron selection reads the version-10 MVA names unconditionally, and the model's `Electron` has those columns.
- The configuration (httcp/config/configs_run2ul_SR.py, httcp/config/analysis_httcp.py) is not part of this model. The exceptions are the channel ids (1, 2, 4) and the b-tag table. That table is keyed by tagger and level, not by year, so `PhysicsObjects.ConfiguredBtagMediumWp` is empty, and `JetSelection` takes the table as a parameter.
- The Run-2 pile-up jet cut (httcp/selection/physics_objects.py:302) is never evaluated. The line first raises, because `good_selections` is undefined there, and `JetSelection` returns that error.
- `get_categories` takes `trigger_results` and builds the unused `single_triggered`, `cross_triggered` and `empty_indices`. None of them affects its outputs, so they are not modelled.
- `trigger_object_matching`'s `axis` parameter: the model reduces over the second-collection objects of one event, which is what axis 2 does for the per-event metric table.
- The categorizers' `None` results are modelled as `Option<bool>` (`Categorization.Region`). How columnflow treats a `None` mask, as not selected, is not modelled.
- httcp/production/main.py is not part of this model. It is framework orchestration and four-vector arithmetic.
- The gen-tau selection (httcp/selection/physics_objects.py:333-349) is inside a string literal, so it is not code.

## Findings

| source | as written | input that shows it | evidently intended | confidence | as-written member | corrected member |
|---|---|---|---|---|---|---|
| httcp/selection/lepton_pair_etau.py:54-69 | on an electron-pt tie the raw-DeepTau argsort is applied; the DeepTau test then sees different scores and re-applies that same argsort permutation, swapping the pairs back | two electrons with equal isolation and pt, two taus of raw DeepTau 0.8 (tau 0) and 0.95 (tau 1), and ΔR such that only electron 0 with tau 0 and electron 1 with tau 1 pass the preselection: electron 0 with the 0.8 tau is returned | the pair with the higher raw DeepTau score is chosen | not executed | EtauPair.AsWrittenIgnoresDeepTau | EtauPair.CorrectedPrefersHigherDeepTau |
| httcp/selection/lepton_pair_etau.py:40-56 | on an isolation tie the electron-pt argsort is applied; the pt test then sees different pts and re-applies that permutation, swapping the pairs back; the shared tau ties on DeepTau, and the stable tau-pt sort keeps the order | two equally isolated electrons of 30 and 40 GeV, listed in that order in `lep1_indices`, and one tau, both combinations passing the preselection: the 30 GeV electron is returned | the pair with the harder electron is chosen | not executed | EtauPair.AsWrittenIgnoresElectronPt | EtauPair.CorrectedPrefersHarderElectron |

The concrete inputs are the events of `EtauPair.DeepTauEventExists` and `EtauPair.ElectronPtEventExists`, carried through the whole selection by `EtauPair.SelectionIgnoresDeepTau` and `EtauPair.SelectionIgnoresElectronPt`. `EtauPair.DeepTauCounterexample` and `EtauPair.ElectronPtCounterexample` show the same at the level of `get_sorted_pair`. `EtauPair.CorrectedLastTestDecides` states the corrected cascade's general property. The selection keeps the code's behaviour as `Variant.AsWritten`, and uses the corrected behaviour when given `Variant.Corrected`.
