/**
 * The shared store of all stones and of the display names of nodes (class World in
 * aggregation.py). The lock that guards it is not modelled: each operation is one
 * atomic step.
 */
module Worlds {
  import opened Domain
  import opened Window
  import opened Stones

  /**
   * The store after merging the stone snapshot `s`: a new address gets `s` itself,
   * a known one keeps its identity and receives `s`'s time and contacts as an update.
   */
  function Upserted(views: map<string, StoneView>, s: StoneView): (r: map<string, StoneView>)
    ensures r.Keys == views.Keys + {s.macAddress}
    ensures s.macAddress !in views ==> r[s.macAddress] == s
    ensures s.macAddress in views ==>
      && r[s.macAddress].macAddress == views[s.macAddress].macAddress
      && r[s.macAddress].bAddress == views[s.macAddress].bAddress
      && r[s.macAddress].comment == views[s.macAddress].comment
      && r[s.macAddress].lastUpdate == s.lastUpdate
    ensures forall k :: k in views && k != s.macAddress ==> r[k] == views[k]
  {
    if s.macAddress !in views then views[s.macAddress := s]
    else views[s.macAddress := Updated(views[s.macAddress], s.lastUpdate, s.contacts)]
  }

  /** Every stone of the store is well formed. */
  predicate AllWellFormed(views: map<string, StoneView>) {
    forall k :: k in views ==> WellFormed(views[k])
  }

  /** Merging a well-formed snapshot into a store of well-formed stones leaves every stone well formed. */
  lemma UpsertedWellFormed(views: map<string, StoneView>, s: StoneView)
    requires AllWellFormed(views) && WellFormed(s)
    ensures AllWellFormed(Upserted(views, s))
  {
    if s.macAddress in views {
      UpdatedWellFormed(views[s.macAddress], s.lastUpdate, s.contacts);
    }
  }

  /** Storing `v` under one key brings no value into a map other than `v`. */
  lemma InsertedValues<K, V>(m: map<K, V>, k: K, v: V)
    ensures m[k := v].Values <= m.Values + {v}
  {
    forall x | x in m[k := v].Values ensures x in m.Values + {v} {
      var j :| j in m[k := v] && m[k := v][j] == x;
      if j != k {
        assert m[j] == x;
      }
    }
  }

  class World {
    /** The stone objects, keyed by their own address. */
    var stones: map<string, Stone>
    /** The display name and color of each node, keyed by node address. */
    var descs: map<string, (string, string)>

    /** Every stone is filed under its own address (so distinct keys hold distinct stones). */
    ghost predicate Valid()
      reads this
    {
      forall k :: k in stones ==> stones[k].macAddress == k
    }

    constructor ()
      ensures Valid() && stones == map[] && descs == map[]
    {
      stones := map[];
      descs := map[];
    }

    /** Inserts `stone` when its address is new, otherwise updates the stored stone from it. */
    method UpdateStone(stone: Stone)
      requires Valid()
      modifies this, if stone.macAddress in stones then {stones[stone.macAddress]} else {}
      ensures Valid()
      ensures Views(stones) == Upserted(old(Views(stones)), old(stone.View()))
      ensures old(stone.macAddress !in stones) ==> stones == old(stones)[stone.macAddress := stone]
      ensures old(stone.macAddress in stones) ==> stones == old(stones)
      ensures descs == old(descs)
      ensures stones.Values <= old(stones.Values) + {stone}
    {
      var mac := stone.macAddress;
      ghost var before := Views(stones);
      ghost var snapshot := stone.View();
      if mac !in stones {
        InsertedValues(stones, mac, stone);
        stones := stones[mac := stone];
        assert Views(stones) == before[mac := snapshot];
      } else {
        var existing := stones[mac];
        existing.Update(stone.lastUpdate, stone.contacts);
        assert forall k :: k in stones && k != mac ==> stones[k] != existing;
        assert Views(stones) == before[mac := existing.View()];
      }
    }

    /** Sets the name and color shown for the node `macAddress`. */
    method UpdateDesc(macAddress: string, name: string, color: string)
      modifies this
      ensures descs == old(descs)[macAddress := (name, color)]
      ensures stones == old(stones)
    {
      descs := descs[macAddress := (name, color)];
    }
  }
}
