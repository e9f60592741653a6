/**
 * The categorizers: per-event predicates selecting the inclusive
 * category, events with two or more jets, the three single-pair channels,
 * and the four regions of the ABCD method, which split events by the sign
 * of `rel_charge` and by the isolation of the leading muon.
 */
module Categorization {
  import opened Wrappers
  import opened EventCategory

  /**
   * The event columns the categorizers read: the jet pts, `channel_id`,
   * `rel_charge`, and the muons' `pfRelIso04_all` in collection order.
   */
  datatype Event = Event(jetPts: seq<real>, channelId: uint8, relCharge: int, muonIso: seq<real>)

  /** `cat_incl`: every event. */
  predicate CatIncl(ev: Event): (r: bool)
    ensures r
  {
    true
  }

  /** `cat_2j`: at least two jets. */
  predicate Cat2j(ev: Event): (r: bool)
    ensures r <==> |ev.jetPts| >= 2
  {
    |ev.jetPts| >= 2
  }

  /**
   * `sel_etau`, `sel_mutau`, `sel_tautau`: `channel_id` is the channel's
   * id, which is the id `get_categories` assigns to an event whose only
   * pair is one of that channel.
   */
  predicate SelEtau(ev: Event): (r: bool)
    ensures r <==> ev.channelId == ChannelId(2, 0, 0)
  {
    ChannelIdIsSumOfIds(2, 0, 0);
    ev.channelId == EtauId
  }

  predicate SelMutau(ev: Event): (r: bool)
    ensures r <==> ev.channelId == ChannelId(0, 2, 0)
  {
    ChannelIdIsSumOfIds(0, 2, 0);
    ev.channelId == MutauId
  }

  predicate SelTautau(ev: Event): (r: bool)
    ensures r <==> ev.channelId == ChannelId(0, 0, 2)
  {
    ChannelIdIsSumOfIds(0, 0, 2);
    ev.channelId == TautauId
  }

  /** `ak.firsts(Muon.pfRelIso04_all)`: the leading muon's isolation, missing without muons. */
  function LeadingMuonIso(ev: Event): (r: Option<real>)
    ensures r.None? <==> ev.muonIso == []
    ensures r.Some? ==> r.value == ev.muonIso[0]
  {
    if ev.muonIso == [] then None else Some(ev.muonIso[0])
  }

  /**
   * `charge & (iso in window)`: a comparison with a missing isolation is
   * missing, and so is the `&` that combines it.
   */
  function Region(ev: Event, chargeOk: bool, inWindow: real -> bool): (r: Option<bool>)
    ensures r.None? <==> ev.muonIso == []
    ensures r == Some(true) <==> chargeOk && ev.muonIso != [] && inWindow(ev.muonIso[0])
  {
    match LeadingMuonIso(ev)
    case None => None
    case Some(iso) => Some(chargeOk && inWindow(iso))
  }

  /** `cat_c`: same sign, leading muon isolation below 0.15. */
  function CatC(ev: Event): (r: Option<bool>)
    ensures r.None? <==> ev.muonIso == []
    ensures r == Some(true) <==> ev.relCharge > 0 && ev.muonIso != [] && ev.muonIso[0] < 0.15
  {
    Region(ev, ev.relCharge > 0, iso => iso < 0.15)
  }

  /** `cat_d`: opposite sign, leading muon isolation below 0.15. */
  function CatD(ev: Event): (r: Option<bool>)
    ensures r.None? <==> ev.muonIso == []
    ensures r == Some(true) <==> ev.relCharge < 0 && ev.muonIso != [] && ev.muonIso[0] < 0.15
  {
    Region(ev, ev.relCharge < 0, iso => iso < 0.15)
  }

  /** `cat_a`: same sign, leading muon isolation in [0.15, 0.30]. */
  function CatA(ev: Event): (r: Option<bool>)
    ensures r.None? <==> ev.muonIso == []
    ensures r == Some(true) <==>
      ev.relCharge > 0 && ev.muonIso != [] && 0.15 <= ev.muonIso[0] <= 0.30
  {
    Region(ev, ev.relCharge > 0, iso => 0.15 <= iso && iso <= 0.30)
  }

  /** `cat_b`: opposite sign, leading muon isolation in [0.15, 0.30]. */
  function CatB(ev: Event): (r: Option<bool>)
    ensures r.None? <==> ev.muonIso == []
    ensures r == Some(true) <==>
      ev.relCharge < 0 && ev.muonIso != [] && 0.15 <= ev.muonIso[0] <= 0.30
  {
    Region(ev, ev.relCharge < 0, iso => 0.15 <= iso && iso <= 0.30)
  }

  /** The number of regions the event is (definitely) in. */
  function RegionCount(ev: Event): nat {
    (if CatA(ev) == Some(true) then 1 else 0) + (if CatB(ev) == Some(true) then 1 else 0)
    + (if CatC(ev) == Some(true) then 1 else 0) + (if CatD(ev) == Some(true) then 1 else 0)
  }

  /**
   * The four regions are pairwise disjoint, and with a muon, a charged
   * pair and a leading isolation up to 0.30 the event is in exactly one.
   */
  lemma RegionsPartition(ev: Event)
    ensures RegionCount(ev) <= 1
    ensures RegionCount(ev) == 1 <==>
      ev.muonIso != [] && ev.relCharge != 0 && ev.muonIso[0] <= 0.30
  {
  }

  /** Without a muon every region is undefined rather than false. */
  lemma NoMuonNoRegion(ev: Event)
    requires ev.muonIso == []
    ensures CatA(ev) == None && CatB(ev) == None && CatC(ev) == None && CatD(ev) == None
  {
  }

  /** A neutral pair or a leading isolation above 0.30 is in no region. */
  lemma NeutralOrNonIsolatedInNoRegion(ev: Event)
    requires ev.relCharge == 0 || (ev.muonIso != [] && ev.muonIso[0] > 0.30)
    ensures CatA(ev) != Some(true) && CatB(ev) != Some(true)
    ensures CatC(ev) != Some(true) && CatD(ev) != Some(true)
  {
  }

  /** The window edges: isolation 0.15 belongs to a/b and not c/d, and 0.30 still to a/b. */
  lemma RegionBoundaries(ev: Event)
    requires ev.muonIso != [] && (ev.muonIso[0] == 0.15 || ev.muonIso[0] == 0.30)
    ensures CatC(ev) == Some(false) && CatD(ev) == Some(false)
    ensures CatA(ev) == Some(ev.relCharge > 0) && CatB(ev) == Some(ev.relCharge < 0)
  {
  }

  /**
   * An event is in at most one of the single-pair channels, and an event
   * with a combined id is in none of them.
   */
  lemma ChannelSelectionsExclusive(ev: Event)
    ensures !(SelEtau(ev) && SelMutau(ev)) && !(SelEtau(ev) && SelTautau(ev)) && !(SelMutau(ev) && SelTautau(ev))
    ensures ev.channelId == EtauId + MutauId || ev.channelId == EtauId + TautauId || ev.channelId == MutauId + TautauId
      ==> !SelEtau(ev) && !SelMutau(ev) && !SelTautau(ev)
  {
  }

  /**
   * On the id `get_categories` assigns, each channel selection picks the
   * events with a pair in that channel only.
   */
  lemma ChannelSelectionsOfAssignedId(ev: Event, ne: nat, nm: nat, nt: nat)
    requires ev.channelId == ChannelId(ne, nm, nt)
    ensures SelEtau(ev) <==> ne == 2 && nm == 0 && nt == 0
    ensures SelMutau(ev) <==> ne == 0 && nm == 2 && nt == 0
    ensures SelTautau(ev) <==> ne == 0 && nm == 0 && nt == 2
  {
    ChannelIdIsSumOfIds(ne, nm, nt);
  }
}
