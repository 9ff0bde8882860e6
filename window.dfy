/**
 * The contact list of one stone as a value: the sliding 60-second window, the
 * replace-by-MAC merge of freshly reported contacts, and what one update does to
 * the list as a whole (Stone.update in aggregation.py).
 */
module Window {
  import opened Domain

  /** Width of the window in seconds. */
  const WindowSeconds := 60

  /** A contact survives an update at `t` when it is at most 60 seconds older than `t`; the boundary is kept. */
  predicate InWindow(c: Contact, t: int) {
    c.timestamp >= t - WindowSeconds
  }

  predicate AllInWindow(cs: seq<Contact>, t: int) {
    forall c :: c in cs ==> InWindow(c, t)
  }

  /** The set of device addresses a contact list mentions. */
  function Macs(cs: seq<Contact>): set<string> {
    set c | c in cs :: c.macAddress
  }

  /** No two contacts in the list are about the same device. */
  predicate NoDupMacs(cs: seq<Contact>) {
    forall i, j :: 0 <= i < j < |cs| ==> cs[i].macAddress != cs[j].macAddress
  }

  /** The eviction step: the contacts still inside the window of `t`, in their original order. */
  function Evict(cs: seq<Contact>, t: int): (r: seq<Contact>)
    ensures |r| <= |cs|
    ensures forall c :: c in r ==> c in cs
    ensures AllInWindow(r, t)
  {
    if cs == [] then []
    else (if InWindow(cs[0], t) then [cs[0]] else []) + Evict(cs[1..], t)
  }

  /** The contacts whose device is not in `macs`, in their original order. */
  function WithoutMacs(cs: seq<Contact>, macs: set<string>): seq<Contact> {
    if cs == [] then []
    else (if cs[0].macAddress in macs then [] else [cs[0]]) + WithoutMacs(cs[1..], macs)
  }

  /** One step of the merge loop: drop every stored contact of `ct`'s device, then append `ct`. */
  function Replace(cs: seq<Contact>, ct: Contact): (r: seq<Contact>)
    ensures |r| > 0 && r[|r| - 1] == ct
    ensures Macs(r) == Macs(cs) + {ct.macAddress}
    ensures NoDupMacs(cs) ==> NoDupMacs(r)
  {
    var m := {ct.macAddress};
    var kept := WithoutMacs(cs, m);
    assert Macs(kept) == Macs(cs) - m by {
      forall x | x in Macs(kept) ensures x in Macs(cs) - m {
        var c :| c in kept && c.macAddress == x;
        WithoutMacsHas(cs, m, c);
      }
      forall x | x in Macs(cs) - m ensures x in Macs(kept) {
        var c :| c in cs && c.macAddress == x;
        WithoutMacsHas(cs, m, c);
      }
    }
    assert Macs([ct]) == m;
    MacsAppend(kept, [ct]);
    assert NoDupMacs(cs) ==> NoDupMacs(kept + [ct]) by {
      if NoDupMacs(cs) {
        WithoutMacsNoDupMacs(cs, m);
        NoDupMacsAppend(kept, [ct]);
      }
    }
    kept + [ct]
  }

  /** The merge loop: `Replace` applied for each contact of `recent`, first to last. */
  function MergeAll(cs: seq<Contact>, recent: seq<Contact>): (r: seq<Contact>)
    ensures recent != [] ==> |r| > 0 && r[|r| - 1] == recent[|recent| - 1]
    ensures Macs(r) == Macs(cs) + Macs(recent)
    ensures NoDupMacs(cs) ==> NoDupMacs(r)
    decreases |recent|
  {
    if recent == [] then
      assert Macs(recent) == {};
      cs
    else
      var front, ct := recent[..|recent| - 1], recent[|recent| - 1];
      assert recent == front + [ct];
      assert Macs([ct]) == {ct.macAddress};
      MacsAppend(front, [ct]);
      Replace(MergeAll(cs, front), ct)
  }

  /** The whole update of a contact list at time `t` with the freshly reported contacts `recent`. */
  function UpdatedContacts(cs: seq<Contact>, t: int, recent: seq<Contact>): (r: seq<Contact>)
    ensures Macs(recent) <= Macs(r) <= Macs(cs) + Macs(recent)
    ensures recent != [] ==> |r| > 0 && r[|r| - 1] == recent[|recent| - 1]
  {
    assert Macs(Evict(cs, t)) <= Macs(cs) by {
      forall x | x in Macs(Evict(cs, t)) ensures x in Macs(cs) {
        var c :| c in Evict(cs, t) && c.macAddress == x;
        EvictHas(cs, t, c);
      }
    }
    MergeAll(Evict(cs, t), recent)
  }

  /** Index `i` of `cs` holds the last contact of its device in `cs`. */
  predicate IsLatest(cs: seq<Contact>, i: int) {
    0 <= i < |cs| && forall j :: i < j < |cs| ==> cs[j].macAddress != cs[i].macAddress
  }

  /**
   * For each device of `cs`, its last contact, in the order of those last contacts:
   * an independent description of what the merge loop leaves at the end of the list.
   */
  function Latest(cs: seq<Contact>): seq<Contact> {
    if cs == [] then []
    else if cs[0].macAddress in Macs(cs[1..]) then Latest(cs[1..])
    else [cs[0]] + Latest(cs[1..])
  }

  /** An update at 61 evicts a contact from time 0 and keeps those from 1 (the boundary), 30 and 61. */
  lemma EvictionExample(c0: Contact, c1: Contact, c30: Contact, c61: Contact)
    requires c0.timestamp == 0 && c1.timestamp == 1 && c30.timestamp == 30 && c61.timestamp == 61
    ensures Evict([c0, c1, c30, c61], 61) == [c1, c30, c61]
  {
    assert [c0, c1, c30, c61][1..] == [c1, c30, c61];
    assert [c1, c30, c61][1..] == [c30, c61];
    assert [c30, c61][1..] == [c61];
    assert Evict([c61], 61) == [c61] by {
      assert [c61][1..] == [];
    }
    calc {
      Evict([c0, c1, c30, c61], 61);
      Evict([c1, c30, c61], 61);
      [c1] + Evict([c30, c61], 61);
      [c1] + ([c30] + Evict([c61], 61));
      [c1, c30, c61];
    }
  }

  // ---------------------------------------------------------------------------
  // The filters

  /** Eviction keeps exactly the contacts inside the window (the boundary `t - 60` included). */
  lemma {:induction false} EvictHas(cs: seq<Contact>, t: int, c: Contact)
    ensures c in Evict(cs, t) <==> c in cs && InWindow(c, t)
  {
    if cs != [] {
      EvictHas(cs[1..], t, c);
      assert cs == [cs[0]] + cs[1..];
    }
  }

  /** Removing devices keeps exactly the contacts of the other devices. */
  lemma {:induction false} WithoutMacsHas(cs: seq<Contact>, macs: set<string>, c: Contact)
    ensures c in WithoutMacs(cs, macs) <==> c in cs && c.macAddress !in macs
  {
    if cs != [] {
      WithoutMacsHas(cs[1..], macs, c);
      assert cs == [cs[0]] + cs[1..];
    }
  }

  lemma {:induction false} WithoutMacsAppend(a: seq<Contact>, b: seq<Contact>, macs: set<string>)
    ensures WithoutMacs(a + b, macs) == WithoutMacs(a, macs) + WithoutMacs(b, macs)
  {
    if a == [] {
      assert a + b == b;
    } else {
      assert (a + b)[1..] == a[1..] + b;
      WithoutMacsAppend(a[1..], b, macs);
    }
  }

  lemma {:induction false} WithoutMacsTwice(cs: seq<Contact>, m: set<string>, n: set<string>)
    ensures WithoutMacs(WithoutMacs(cs, m), n) == WithoutMacs(cs, m + n)
  {
    if cs != [] {
      var head := if cs[0].macAddress in m then [] else [cs[0]];
      WithoutMacsTwice(cs[1..], m, n);
      WithoutMacsAppend(head, WithoutMacs(cs[1..], m), n);
    }
  }

  lemma {:induction false} WithoutMacsNone(cs: seq<Contact>)
    ensures WithoutMacs(cs, {}) == cs
  {
    if cs != [] {
      WithoutMacsNone(cs[1..]);
      assert cs == [cs[0]] + cs[1..];
    }
  }

  lemma {:induction false} WithoutMacsCovered(cs: seq<Contact>, macs: set<string>)
    requires Macs(cs) <= macs
    ensures WithoutMacs(cs, macs) == []
  {
    if cs != [] {
      assert cs[0] in cs;
      MacsTail(cs);
      WithoutMacsCovered(cs[1..], macs);
    }
  }

  lemma {:induction false} EvictAllInWindow(cs: seq<Contact>, t: int)
    requires AllInWindow(cs, t)
    ensures Evict(cs, t) == cs
  {
    if cs != [] {
      assert cs[0] in cs;
      assert AllInWindow(cs[1..], t) by {
        forall c | c in cs[1..] ensures InWindow(c, t) {
          assert c in cs;
        }
      }
      EvictAllInWindow(cs[1..], t);
      assert cs == [cs[0]] + cs[1..];
    }
  }

  // ---------------------------------------------------------------------------
  // Device sets and uniqueness

  lemma MacsTail(cs: seq<Contact>)
    requires cs != []
    ensures Macs(cs) == {cs[0].macAddress} + Macs(cs[1..])
  {
    assert cs == [cs[0]] + cs[1..];
    forall x | x in Macs(cs) ensures x in {cs[0].macAddress} + Macs(cs[1..]) {
      var c :| c in cs && c.macAddress == x;
      if c != cs[0] {
        assert c in cs[1..];
      }
    }
    forall x | x in Macs(cs[1..]) ensures x in Macs(cs) {
      var c :| c in cs[1..] && c.macAddress == x;
      assert c in cs;
    }
  }

  lemma MacsAppend(a: seq<Contact>, b: seq<Contact>)
    ensures Macs(a + b) == Macs(a) + Macs(b)
  {
    forall x | x in Macs(a + b) ensures x in Macs(a) + Macs(b) {
      var c :| c in a + b && c.macAddress == x;
    }
    forall x | x in Macs(a) + Macs(b) ensures x in Macs(a + b) {
      if x in Macs(a) {
        var c :| c in a && c.macAddress == x;
        assert c in a + b;
      } else {
        var c :| c in b && c.macAddress == x;
        assert c in a + b;
      }
    }
  }

  lemma NoDupMacsCons(x: Contact, s: seq<Contact>)
    requires x.macAddress !in Macs(s) && NoDupMacs(s)
    ensures NoDupMacs([x] + s)
  {
    var xs := [x] + s;
    forall i, j | 0 <= i < j < |xs| ensures xs[i].macAddress != xs[j].macAddress {
      if i == 0 {
        assert xs[j] == s[j - 1] && xs[j] in s;
      } else {
        assert xs[i] == s[i - 1] && xs[j] == s[j - 1];
      }
    }
  }

  lemma NoDupMacsTail(cs: seq<Contact>)
    requires cs != [] && NoDupMacs(cs)
    ensures cs[0].macAddress !in Macs(cs[1..])
    ensures NoDupMacs(cs[1..])
  {
    var tail := cs[1..];
    forall c | c in tail ensures c.macAddress != cs[0].macAddress {
      var k :| 0 <= k < |tail| && tail[k] == c;
      assert cs[k + 1] == c;
    }
    forall i, j | 0 <= i < j < |tail| ensures tail[i].macAddress != tail[j].macAddress {
      assert tail[i] == cs[i + 1] && tail[j] == cs[j + 1];
    }
  }

  lemma NoDupMacsAppend(a: seq<Contact>, b: seq<Contact>)
    requires NoDupMacs(a) && NoDupMacs(b) && Macs(a) !! Macs(b)
    ensures NoDupMacs(a + b)
  {
    var ab := a + b;
    forall i, j | 0 <= i < j < |ab| ensures ab[i].macAddress != ab[j].macAddress {
      if j < |a| {
        assert ab[i] == a[i] && ab[j] == a[j];
      } else if i >= |a| {
        assert ab[i] == b[i - |a|] && ab[j] == b[j - |a|];
      } else {
        assert ab[i] == a[i] && ab[i] in a && ab[j] == b[j - |a|] && ab[j] in b;
        assert ab[i].macAddress in Macs(a) && ab[j].macAddress in Macs(b);
      }
    }
  }

  lemma {:induction false} EvictNoDupMacs(cs: seq<Contact>, t: int)
    requires NoDupMacs(cs)
    ensures NoDupMacs(Evict(cs, t))
  {
    if cs != [] {
      var tail := cs[1..];
      NoDupMacsTail(cs);
      EvictNoDupMacs(tail, t);
      if InWindow(cs[0], t) {
        forall c | c in Evict(tail, t) ensures c.macAddress != cs[0].macAddress {
          EvictHas(tail, t, c);
          assert c in tail;
        }
        NoDupMacsCons(cs[0], Evict(tail, t));
      }
    }
  }

  lemma {:induction false} WithoutMacsNoDupMacs(cs: seq<Contact>, macs: set<string>)
    requires NoDupMacs(cs)
    ensures NoDupMacs(WithoutMacs(cs, macs))
  {
    if cs != [] {
      var tail := cs[1..];
      NoDupMacsTail(cs);
      WithoutMacsNoDupMacs(tail, macs);
      if cs[0].macAddress !in macs {
        forall c | c in WithoutMacs(tail, macs) ensures c.macAddress != cs[0].macAddress {
          WithoutMacsHas(tail, macs, c);
          assert c in tail;
        }
        NoDupMacsCons(cs[0], WithoutMacs(tail, macs));
      }
    }
  }

  // ---------------------------------------------------------------------------
  // The latest contact per device

  lemma {:induction false} LatestMacs(cs: seq<Contact>)
    ensures Macs(Latest(cs)) == Macs(cs)
    ensures NoDupMacs(Latest(cs))
  {
    if cs != [] {
      var rest := Latest(cs[1..]);
      LatestMacs(cs[1..]);
      MacsTail(cs);
      if cs[0].macAddress !in Macs(cs[1..]) {
        MacsTail([cs[0]] + rest);
        assert ([cs[0]] + rest)[1..] == rest;
        NoDupMacsCons(cs[0], rest);
      }
    }
  }

  lemma {:induction false} LatestSubset(cs: seq<Contact>, c: Contact)
    requires c in Latest(cs)
    ensures c in cs
  {
    if cs != [] && c != cs[0] {
      LatestSubset(cs[1..], c);
    }
  }

  lemma {:induction false} LatestHas(cs: seq<Contact>, i: int)
    requires IsLatest(cs, i)
    ensures cs[i] in Latest(cs)
  {
    if i == 0 {
      forall c | c in cs[1..] ensures c.macAddress != cs[0].macAddress {
        var k :| 0 <= k < |cs[1..]| && cs[1..][k] == c;
        assert cs[k + 1] == c;
      }
    } else {
      assert IsLatest(cs[1..], i - 1) by {
        forall j | i - 1 < j < |cs[1..]| ensures cs[1..][j].macAddress != cs[1..][i - 1].macAddress {
          assert cs[1..][j] == cs[j + 1];
        }
      }
      LatestHas(cs[1..], i - 1);
    }
  }

  /** A contact whose device is reported again later gives way to that later contact. */
  lemma LatestConsSeen(y: Contact, s: seq<Contact>)
    requires y.macAddress in Macs(s)
    ensures Latest([y] + s) == Latest(s)
  {
    assert ([y] + s)[0] == y && ([y] + s)[1..] == s;
  }

  /** A contact whose device is not reported again later is the latest of its device. */
  lemma LatestConsNew(y: Contact, s: seq<Contact>)
    requires y.macAddress !in Macs(s)
    ensures Latest([y] + s) == [y] + Latest(s)
  {
    assert ([y] + s)[0] == y && ([y] + s)[1..] == s;
  }

  /** Reporting one more contact: its device's earlier last contact gives way to it at the end. */
  lemma {:induction false} LatestSnoc(r: seq<Contact>, x: Contact)
    ensures Latest(r + [x]) == WithoutMacs(Latest(r), {x.macAddress}) + [x]
  {
    if r == [] {
      assert Macs([x][1..]) == {};
    } else {
      LatestSnoc(r[1..], x);
      assert r + [x] == [r[0]] + (r[1..] + [x]) by {
        assert r == [r[0]] + r[1..];
      }
      LatestSnocStep(r[0], r[1..], x);
    }
  }

  /** Removing devices from a list with `y` in front: `y` goes exactly when its device is removed. */
  lemma WithoutMacsCons(y: Contact, s: seq<Contact>, macs: set<string>)
    ensures WithoutMacs([y] + s, macs) == (if y.macAddress in macs then [] else [y]) + WithoutMacs(s, macs)
  {
    assert ([y] + s)[0] == y && ([y] + s)[1..] == s;
  }

  lemma MacsSnoc(s: seq<Contact>, x: Contact)
    ensures Macs(s + [x]) == Macs(s) + {x.macAddress}
  {
    MacsAppend(s, [x]);
    assert Macs([x]) == {x.macAddress};
  }

  /** The inductive step of `LatestSnoc`: putting one contact `y` in front. */
  lemma LatestSnocStep(y: Contact, s: seq<Contact>, x: Contact)
    requires Latest(s + [x]) == WithoutMacs(Latest(s), {x.macAddress}) + [x]
    ensures Latest([y] + (s + [x])) == WithoutMacs(Latest([y] + s), {x.macAddress}) + [x]
  {
    var m := {x.macAddress};
    var sx := s + [x];
    var prev := WithoutMacs(Latest(s), m);
    MacsSnoc(s, x);
    WithoutMacsCons(y, Latest(s), m);
    if y.macAddress in Macs(s) {
      LatestConsSeen(y, sx);
      LatestConsSeen(y, s);
    } else if y.macAddress == x.macAddress {
      LatestConsSeen(y, sx);
      LatestConsNew(y, s);
      assert [] + prev == prev;
    } else {
      LatestConsNew(y, sx);
      LatestConsNew(y, s);
      assert [y] + (prev + [x]) == ([y] + prev) + [x];
    }
  }

  /** The merge loop keeps, in order, the stored contacts of devices not reported, then the latest reported contacts. */
  lemma {:induction false} MergeAllShape(cs: seq<Contact>, recent: seq<Contact>)
    ensures MergeAll(cs, recent) == WithoutMacs(cs, Macs(recent)) + Latest(recent)
    decreases |recent|
  {
    if recent == [] {
      WithoutMacsNone(cs);
      assert Macs(recent) == {};
    } else {
      var r, x := recent[..|recent| - 1], recent[|recent| - 1];
      assert recent == r + [x];
      MergeAllShape(cs, r);
      ReplaceShape(cs, r, x);
    }
  }

  /** One merge step keeps the closed form of `MergeAllShape`. */
  lemma ReplaceShape(cs: seq<Contact>, r: seq<Contact>, x: Contact)
    ensures Replace(WithoutMacs(cs, Macs(r)) + Latest(r), x) == WithoutMacs(cs, Macs(r + [x])) + Latest(r + [x])
  {
    var m := {x.macAddress};
    var kept := WithoutMacs(cs, Macs(r));
    calc {
      Replace(kept + Latest(r), x);
      WithoutMacs(kept + Latest(r), m) + [x];
      { WithoutMacsAppend(kept, Latest(r), m); }
      WithoutMacs(kept, m) + WithoutMacs(Latest(r), m) + [x];
      { WithoutMacsTwice(cs, Macs(r), m); MacsSnoc(r, x); }
      WithoutMacs(cs, Macs(r + [x])) + WithoutMacs(Latest(r), m) + [x];
      { LatestSnoc(r, x); }
      WithoutMacs(cs, Macs(r + [x])) + Latest(r + [x]);
    }
  }

  // ---------------------------------------------------------------------------
  // What one update promises

  /**
   * Order: the result is the surviving stored contacts (inside the window and not
   * reported again) in their original order, followed by the latest reported contact
   * of each reported device.
   */
  lemma UpdateShape(cs: seq<Contact>, t: int, recent: seq<Contact>)
    ensures UpdatedContacts(cs, t, recent) == WithoutMacs(Evict(cs, t), Macs(recent)) + Latest(recent)
  {
    MergeAllShape(Evict(cs, t), recent);
  }

  /**
   * Window: a stored contact is kept exactly when it is inside the window and its device
   * is not reported again; nothing but stored and reported contacts appears.
   */
  lemma UpdateHas(cs: seq<Contact>, t: int, recent: seq<Contact>, c: Contact)
    ensures c in UpdatedContacts(cs, t, recent) ==> c in recent || (c in cs && InWindow(c, t))
    ensures c in cs && InWindow(c, t) && c.macAddress !in Macs(recent) ==> c in UpdatedContacts(cs, t, recent)
    ensures c in cs && !InWindow(c, t) && c !in recent ==> c !in UpdatedContacts(cs, t, recent)
  {
    UpdateShape(cs, t, recent);
    var survivors := WithoutMacs(Evict(cs, t), Macs(recent));
    WithoutMacsHas(Evict(cs, t), Macs(recent), c);
    EvictHas(cs, t, c);
    if c in Latest(recent) {
      LatestSubset(recent, c);
    }
    if c in cs && InWindow(c, t) && c.macAddress !in Macs(recent) {
      assert c in survivors;
    }
  }

  /** When every reported contact is inside the window, so is every contact after the update. */
  lemma UpdateInWindow(cs: seq<Contact>, t: int, recent: seq<Contact>)
    requires AllInWindow(recent, t)
    ensures AllInWindow(UpdatedContacts(cs, t, recent), t)
  {
    forall c | c in UpdatedContacts(cs, t, recent) ensures InWindow(c, t) {
      UpdateHas(cs, t, recent, c);
    }
  }

  /** Uniqueness: a list without repeated devices stays so, even when `recent` repeats a device. */
  lemma UpdateNoDupMacs(cs: seq<Contact>, t: int, recent: seq<Contact>)
    requires NoDupMacs(cs)
    ensures NoDupMacs(UpdatedContacts(cs, t, recent))
  {
    UpdateShape(cs, t, recent);
    EvictNoDupMacs(cs, t);
    var survivors := WithoutMacs(Evict(cs, t), Macs(recent));
    WithoutMacsNoDupMacs(Evict(cs, t), Macs(recent));
    LatestMacs(recent);
    forall x | x in Macs(survivors) ensures x !in Macs(recent) {
      var c :| c in survivors && c.macAddress == x;
      WithoutMacsHas(Evict(cs, t), Macs(recent), c);
    }
    NoDupMacsAppend(survivors, Latest(recent));
  }

  /** Last write wins: the stored contact of a reported device is the last one reported for it. */
  lemma LastWriteWins(cs: seq<Contact>, t: int, recent: seq<Contact>, i: int)
    requires IsLatest(recent, i)
    ensures recent[i] in UpdatedContacts(cs, t, recent)
    ensures forall c :: c in UpdatedContacts(cs, t, recent) && c.macAddress == recent[i].macAddress ==> c == recent[i]
  {
    UpdateShape(cs, t, recent);
    LatestHas(recent, i);
    LatestMacs(recent);
    var survivors := WithoutMacs(Evict(cs, t), Macs(recent));
    var latest := Latest(recent);
    assert recent[i] in recent;
    forall c | c in UpdatedContacts(cs, t, recent) && c.macAddress == recent[i].macAddress
      ensures c == recent[i]
    {
      WithoutMacsHas(Evict(cs, t), Macs(recent), c);
      assert c in latest;
      var k :| 0 <= k < |latest| && latest[k] == c;
      var l :| 0 <= l < |latest| && latest[l] == recent[i];
      assert k == l;
    }
  }

  /** Eviction distributes over concatenation. */
  lemma {:induction false} EvictAppend(a: seq<Contact>, b: seq<Contact>, t: int)
    ensures Evict(a + b, t) == Evict(a, t) + Evict(b, t)
  {
    if a == [] {
      assert a + b == b;
    } else {
      assert (a + b)[1..] == a[1..] + b;
      EvictAppend(a[1..], b, t);
    }
  }

  /** Idempotence: repeating an update with the same time and the same reported contacts changes nothing. */
  lemma UpdateIdempotent(cs: seq<Contact>, t: int, recent: seq<Contact>)
    ensures UpdatedContacts(UpdatedContacts(cs, t, recent), t, recent) == UpdatedContacts(cs, t, recent)
  {
    var once := UpdatedContacts(cs, t, recent);
    var macs := Macs(recent);
    var survivors := WithoutMacs(Evict(cs, t), macs);
    var latest := Latest(recent);
    assert once == survivors + latest by {
      UpdateShape(cs, t, recent);
    }
    assert Evict(survivors, t) == survivors by {
      forall c | c in survivors ensures InWindow(c, t) {
        WithoutMacsHas(Evict(cs, t), macs, c);
        EvictHas(cs, t, c);
      }
      EvictAllInWindow(survivors, t);
    }
    assert WithoutMacs(survivors, macs) == survivors by {
      WithoutMacsTwice(Evict(cs, t), macs, macs);
      assert macs + macs == macs;
    }
    assert WithoutMacs(Evict(latest, t), macs) == [] by {
      LatestMacs(recent);
      forall x | x in Macs(Evict(latest, t)) ensures x in macs {
        var c :| c in Evict(latest, t) && c.macAddress == x;
        EvictHas(latest, t, c);
        assert c in latest;
      }
      WithoutMacsCovered(Evict(latest, t), macs);
    }
    assert WithoutMacs(Evict(once, t), macs) == survivors by {
      EvictAppend(survivors, latest, t);
      WithoutMacsAppend(survivors, Evict(latest, t), macs);
      assert survivors + [] == survivors;
    }
    calc {
      UpdatedContacts(once, t, recent);
      MergeAll(Evict(once, t), recent);
      { MergeAllShape(Evict(once, t), recent); }
      WithoutMacs(Evict(once, t), macs) + latest;
      once;
    }
  }
}
