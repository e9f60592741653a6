/**
 * The channel assignment of one event: a table of six conditions on the
 * lengths of the e-tau, mu-tau and tau-tau pair-index lists, visited in
 * table order; every condition is recorded as a step, and `channel_id`
 * is overwritten with a row's id whenever that row's condition holds.
 */
module EventCategory {
  import opened Indexing

  /** `np.uint8`. */
  newtype uint8 = x: int | 0 <= x < 256

  /** The channel ids the configuration registers. */
  const EtauId: uint8 := 1
  const MutauId: uint8 := 2
  const TautauId: uint8 := 4

  /** One row of `channel_selections`: its name, its id and the list lengths it requires. */
  datatype Channel = Channel(name: string, id: uint8, etau: nat, mutau: nat, tautau: nat)

  /** `channel_selections`, in insertion order. */
  function ChannelTable(): seq<Channel> {
    [ Channel("is_etau", EtauId, 2, 0, 0),
      Channel("is_mutau", MutauId, 0, 2, 0),
      Channel("is_tautau", TautauId, 0, 0, 2),
      Channel("is_etau_mutau", EtauId + MutauId, 2, 2, 0),
      Channel("is_etau_tautau", EtauId + TautauId, 2, 0, 2),
      Channel("is_mutau_tautau", MutauId + TautauId, 0, 2, 2) ]
  }

  /** The row's condition, on the three list lengths. */
  predicate Holds(ch: Channel, ne: nat, nm: nat, nt: nat) {
    ne == ch.etau && nm == ch.mutau && nt == ch.tautau
  }

  /** One entry of `selection_steps`: a condition's name and its outcome for the event. */
  datatype Step = Step(name: string, passed: bool)

  /**
   * The value `channel_id` has after visiting `rows` in order from `init`:
   * the id of the last row whose condition holds, or `init` if none does.
   */
  function LastWriter(rows: seq<Channel>, ne: nat, nm: nat, nt: nat, init: uint8): uint8
    decreases |rows|
  {
    if rows == [] then init
    else if Holds(rows[|rows| - 1], ne, nm, nt) then rows[|rows| - 1].id
    else LastWriter(rows[..|rows| - 1], ne, nm, nt, init)
  }

  /** At most one row's condition holds. */
  predicate Exclusive(rows: seq<Channel>, ne: nat, nm: nat, nt: nat) {
    forall a, b :: 0 <= a < b < |rows| ==> !(Holds(rows[a], ne, nm, nt) && Holds(rows[b], ne, nm, nt))
  }

  /**
   * `get_categories`: the steps in table order, and `channel_id`, which
   * starts at 0 and is overwritten by every row whose condition holds.
   */
  method GetCategories(etauPairIndices: seq<nat>, mutauPairIndices: seq<nat>, tautauPairIndices: seq<nat>)
    returns (channelId: uint8, selectionSteps: seq<Step>)
    ensures |selectionSteps| == |ChannelTable()|
    ensures forall k :: 0 <= k < |selectionSteps| ==>
      selectionSteps[k] == Step(ChannelTable()[k].name,
        Holds(ChannelTable()[k], |etauPairIndices|, |mutauPairIndices|, |tautauPairIndices|))
    ensures channelId == LastWriter(ChannelTable(), |etauPairIndices|, |mutauPairIndices|, |tautauPairIndices|, 0)
  {
    var ne, nm, nt := |etauPairIndices|, |mutauPairIndices|, |tautauPairIndices|;
    var table := ChannelTable();
    channelId := 0;
    selectionSteps := [];
    for r := 0 to |table|
      invariant |selectionSteps| == r
      invariant forall k :: 0 <= k < r ==>
        selectionSteps[k] == Step(table[k].name, Holds(table[k], ne, nm, nt))
      invariant channelId == LastWriter(table[..r], ne, nm, nt, 0)
    {
      var passed := Holds(table[r], ne, nm, nt);
      selectionSteps := selectionSteps + [Step(table[r].name, passed)];
      if passed {
        channelId := table[r].id;
      }
      assert table[..r + 1][..r] == table[..r];
    }
    assert table[..|table|] == table;
  }

  /**
   * Six rows, each asking for lengths 0 or 2, one or two channels with a
   * pair, and carrying as id the sum of the ids of those channels.
   */
  lemma ChannelTableRows()
    ensures var t := ChannelTable();
      && |t| == 6
      && forall k :: 0 <= k < |t| ==>
        && (t[k].etau == 0 || t[k].etau == 2)
        && (t[k].mutau == 0 || t[k].mutau == 2)
        && (t[k].tautau == 0 || t[k].tautau == 2)
        && 2 <= t[k].etau + t[k].mutau + t[k].tautau <= 4
        && t[k].id as int == Bit(t[k].etau, EtauId) + Bit(t[k].mutau, MutauId) + Bit(t[k].tautau, TautauId)
  {
  }

  /** The six conditions are pairwise exclusive: each fixes all three lengths. */
  lemma TableExclusive(ne: nat, nm: nat, nt: nat)
    ensures Exclusive(ChannelTable(), ne, nm, nt)
  {
    var t := ChannelTable();
    forall a, b | 0 <= a < b < |t| ensures !(Holds(t[a], ne, nm, nt) && Holds(t[b], ne, nm, nt)) {
      assert a == 0 || a == 1 || a == 2 || a == 3 || a == 4;
      assert b == 1 || b == 2 || b == 3 || b == 4 || b == 5;
    }
  }

  /**
   * Over exclusive rows the last writer is the id of the one row that
   * holds, or `init` when none holds.
   */
  lemma {:induction false} LastWriterOfExclusive(rows: seq<Channel>, ne: nat, nm: nat, nt: nat, init: uint8)
    requires Exclusive(rows, ne, nm, nt)
    ensures forall k :: 0 <= k < |rows| && Holds(rows[k], ne, nm, nt) ==>
      LastWriter(rows, ne, nm, nt, init) == rows[k].id
    ensures (forall k :: 0 <= k < |rows| ==> !Holds(rows[k], ne, nm, nt)) ==>
      LastWriter(rows, ne, nm, nt, init) == init
    decreases |rows|
  {
    if rows != [] {
      var n := |rows| - 1;
      var front := rows[..n];
      assert forall a, b :: 0 <= a < b < |front| ==> front[a] == rows[a] && front[b] == rows[b];
      LastWriterOfExclusive(front, ne, nm, nt, init);
      forall k | 0 <= k < |rows| && Holds(rows[k], ne, nm, nt)
        ensures LastWriter(rows, ne, nm, nt, init) == rows[k].id
      {
        if k < n {
          assert front[k] == rows[k];
        }
      }
      if forall k :: 0 <= k < |rows| ==> !Holds(rows[k], ne, nm, nt) {
        assert forall k :: 0 <= k < |front| ==> front[k] == rows[k];
      }
    }
  }

  /** The id `get_categories` assigns to lists of the given lengths. */
  function ChannelId(ne: nat, nm: nat, nt: nat): uint8 {
    LastWriter(ChannelTable(), ne, nm, nt, 0)
  }

  /**
   * The table is visited in some order: because the conditions are
   * exclusive, any order of the six rows gives the same `channel_id`.
   */
  lemma ChannelIdOrderIndependent(p: seq<nat>, ne: nat, nm: nat, nt: nat)
    requires IsPerm(p, |ChannelTable()|)
    ensures LastWriter(Apply(ChannelTable(), p), ne, nm, nt, 0) == ChannelId(ne, nm, nt)
  {
    var t := ChannelTable();
    var u := Apply(t, p);
    TableExclusive(ne, nm, nt);
    forall a, b | 0 <= a < b < |u| ensures !(Holds(u[a], ne, nm, nt) && Holds(u[b], ne, nm, nt)) {
      assert p[a] != p[b];
      if p[a] < p[b] {
        assert !(Holds(t[p[a]], ne, nm, nt) && Holds(t[p[b]], ne, nm, nt));
      } else {
        assert !(Holds(t[p[b]], ne, nm, nt) && Holds(t[p[a]], ne, nm, nt));
      }
    }
    LastWriterOfExclusive(t, ne, nm, nt, 0);
    LastWriterOfExclusive(u, ne, nm, nt, 0);
    if k :| 0 <= k < |t| && Holds(t[k], ne, nm, nt) {
      assert k in p;
      var j :| 0 <= j < |p| && p[j] == k;
      assert u[j] == t[k];
    } else {
      forall j | 0 <= j < |u| ensures !Holds(u[j], ne, nm, nt) {
        assert u[j] == t[p[j]];
      }
    }
  }

  /** A length 2 counts as "this channel has a pair". */
  function Bit(n: nat, id: uint8): int {
    if n == 2 then id as int else 0
  }

  /**
   * For lengths in {0, 2}, not all 2, the id is the sum of the ids of the
   * channels that have a pair (so 3, 5 and 6 encode two channels); with
   * all three pairs, or any other length, it is 0.
   */
  lemma ChannelIdIsSumOfIds(ne: nat, nm: nat, nt: nat)
    ensures var id := ChannelId(ne, nm, nt);
      if (ne == 0 || ne == 2) && (nm == 0 || nm == 2) && (nt == 0 || nt == 2) && !(ne == 2 && nm == 2 && nt == 2)
      then id as int == Bit(ne, EtauId) + Bit(nm, MutauId) + Bit(nt, TautauId)
      else id == 0
  {
    var t := ChannelTable();
    TableExclusive(ne, nm, nt);
    LastWriterOfExclusive(t, ne, nm, nt, 0);
    if ne == 2 && nm == 0 && nt == 0 {
      assert Holds(t[0], ne, nm, nt);
    } else if ne == 0 && nm == 2 && nt == 0 {
      assert Holds(t[1], ne, nm, nt);
    } else if ne == 0 && nm == 0 && nt == 2 {
      assert Holds(t[2], ne, nm, nt);
    } else if ne == 2 && nm == 2 && nt == 0 {
      assert Holds(t[3], ne, nm, nt);
    } else if ne == 2 && nm == 0 && nt == 2 {
      assert Holds(t[4], ne, nm, nt);
    } else if ne == 0 && nm == 2 && nt == 2 {
      assert Holds(t[5], ne, nm, nt);
    } else {
      forall k | 0 <= k < |t| ensures !Holds(t[k], ne, nm, nt) {
        assert k == 0 || k == 1 || k == 2 || k == 3 || k == 4 || k == 5;
      }
    }
  }

  /** The assigned id is one of the table's ids or 0, all well inside a uint8. */
  lemma ChannelIdRange(ne: nat, nm: nat, nt: nat)
    ensures ChannelId(ne, nm, nt) <= 6
    ensures ChannelId(ne, nm, nt) == 0 <==> forall k :: 0 <= k < |ChannelTable()| ==> !Holds(ChannelTable()[k], ne, nm, nt)
  {
    var t := ChannelTable();
    TableExclusive(ne, nm, nt);
    LastWriterOfExclusive(t, ne, nm, nt, 0);
    ChannelIdIsSumOfIds(ne, nm, nt);
    if exists k :: 0 <= k < |t| && Holds(t[k], ne, nm, nt) {
      var k :| 0 <= k < |t| && Holds(t[k], ne, nm, nt);
      assert k == 0 || k == 1 || k == 2 || k == 3 || k == 4 || k == 5;
    }
  }
}
