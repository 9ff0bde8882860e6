/**
 * A stone (a fixed beacon-scanning node) and the in-place update of its contact
 * list (class Stone in aggregation.py).
 */
module Stones {
  import opened Domain
  import opened Window

  /** The value of a stone at one instant: what the World store and the aggregator read. */
  datatype StoneView = StoneView(
    macAddress: string,
    bAddress: BeaconId,
    comment: string,
    lastUpdate: int,
    contacts: seq<Contact>)

  /** What `Stone.update(t, recent)` makes of a stone: its identity stays, its time and contacts change. */
  function Updated(v: StoneView, t: int, recent: seq<Contact>): (r: StoneView)
    ensures r.macAddress == v.macAddress && r.bAddress == v.bAddress && r.comment == v.comment
    ensures r.lastUpdate == t
    ensures Macs(recent) <= Macs(r.contacts) <= Macs(v.contacts) + Macs(recent)
  {
    v.(lastUpdate := t, contacts := UpdatedContacts(v.contacts, t, recent))
  }

  /** The invariant of a stone: one contact per device, all inside the window of the last update. */
  predicate WellFormed(v: StoneView) {
    NoDupMacs(v.contacts) && AllInWindow(v.contacts, v.lastUpdate)
  }

  /** An update keeps a stone well formed when the reported contacts are inside the new window. */
  lemma UpdatedWellFormed(v: StoneView, t: int, recent: seq<Contact>)
    requires NoDupMacs(v.contacts) && AllInWindow(recent, t)
    ensures WellFormed(Updated(v, t, recent))
    ensures Updated(v, t, recent).macAddress == v.macAddress && Updated(v, t, recent).lastUpdate == t
  {
    UpdateNoDupMacs(v.contacts, t, recent);
    UpdateInWindow(v.contacts, t, recent);
  }

  class Stone {
    // Fixed when the stone object is made from a report
    const macAddress: string
    const bAddress: BeaconId
    const comment: string

    // Changed by Update
    var lastUpdate: int
    var contacts: seq<Contact>

    function View(): StoneView
      reads this
    {
      StoneView(macAddress, bAddress, comment, lastUpdate, contacts)
    }

    /** A new stone has not been updated yet: time 0 and no contacts. */
    constructor (macAddress: string, bAddress: BeaconId, comment: string)
      ensures View() == StoneView(macAddress, bAddress, comment, 0, [])
      ensures WellFormed(View())
    {
      this.macAddress := macAddress;
      this.bAddress := bAddress;
      this.comment := comment;
      lastUpdate := 0;
      contacts := [];
    }

    /**
     * Takes `timestamp` as the time of the last update, evicts the contacts older than
     * the window and merges `recent` in, each contact replacing the stored one of its device.
     */
    method Update(timestamp: int, recent: seq<Contact>)
      modifies this
      ensures View() == Updated(old(View()), timestamp, recent)
      ensures old(NoDupMacs(contacts)) && AllInWindow(recent, timestamp) ==> WellFormed(View())
    {
      lastUpdate := timestamp;

      contacts := Evict(contacts, timestamp);
      ghost var evicted := Evict(old(contacts), timestamp);

      // Invariant: the list is the merge of the evicted list with the contacts seen so far.
      for i := 0 to |recent|
        invariant lastUpdate == timestamp
        invariant contacts == MergeAll(evicted, recent[..i])
      {
        var ct := recent[i];
        assert recent[..i + 1][..i] == recent[..i];
        contacts := WithoutMacs(contacts, {ct.macAddress});
        contacts := contacts + [ct];
      }
      assert recent[..|recent|] == recent;

      if old(NoDupMacs(contacts)) && AllInWindow(recent, timestamp) {
        UpdatedWellFormed(old(View()), timestamp, recent);
      }
    }
  }

  /** The values of the stones a map of live stone objects refers to, key by key. */
  function Views(stones: map<string, Stone>): (r: map<string, StoneView>)
    reads stones.Values
    ensures r.Keys == stones.Keys
  {
    map k | k in stones :: stones[k].View()
  }
}
