/**
 * The three views the aggregator publishes (class Aggregator in aggregation.py).
 * Each is a map from node address to a record; the JSON text that carries it is
 * not modelled.
 */
module Aggregator {
  import opened Wrappers
  import opened Domain
  import opened Stones

  /** A contact as the stone view lists it: no timestamp and no minimum or maximum RSSI. */
  datatype ContactEntry = ContactEntry(mac: string, uuid: string, major: int, minor: int, rssiAvg: int, rssiTx: int)

  /** A stone as the stone view shows it; `contacts` is None when the key is left out. */
  datatype StoneEntry = StoneEntry(
    uuid: string, major: int, minor: int, comment: string, lastSeen: int,
    contacts: Option<seq<ContactEntry>>)

  /** A contact as the graph view shows it, with its age instead of its timestamp. */
  datatype GraphContact = GraphContact(
    mac: string, uuid: string, major: int, minor: int, age: int, rssiAvg: int, rssiTx: int)

  /** A stone as the graph view shows it, with its age instead of its last update. */
  datatype GraphStone = GraphStone(
    uuid: string, major: int, minor: int, comment: string, age: int, contacts: seq<GraphContact>)

  /** A node description as the names view shows it. */
  datatype DescEntry = DescEntry(name: string, color: string)

  // ---------------------------------------------------------------------------
  // What a faithful view is

  predicate ListsContact(e: ContactEntry, c: Contact) {
    && e.mac == c.macAddress
    && e.uuid == c.bAddress.uuid && e.major == c.bAddress.major && e.minor == c.bAddress.minor
    && e.rssiAvg == c.rssiAvg && e.rssiTx == c.txRssi
  }

  predicate DescribesStone(e: StoneEntry, s: StoneView, includeContacts: bool) {
    && e.uuid == s.bAddress.uuid && e.major == s.bAddress.major && e.minor == s.bAddress.minor
    && e.comment == s.comment && e.lastSeen == s.lastUpdate
    && (e.contacts.Some? <==> includeContacts)
    && (e.contacts.Some? ==>
          && |e.contacts.value| == |s.contacts|
          && forall j :: 0 <= j < |s.contacts| ==> ListsContact(e.contacts.value[j], s.contacts[j]))
  }

  /** The stone view of `views`: one entry per stone and nothing else. */
  predicate StonesReport(info: map<string, StoneEntry>, views: map<string, StoneView>, includeContacts: bool) {
    && info.Keys == views.Keys
    && forall mac :: mac in info ==> DescribesStone(info[mac], views[mac], includeContacts)
  }

  predicate ChartsContact(e: GraphContact, c: Contact, now: int) {
    && e.mac == c.macAddress
    && e.uuid == c.bAddress.uuid && e.major == c.bAddress.major && e.minor == c.bAddress.minor
    && e.age == now - c.timestamp
    && e.rssiAvg == c.rssiAvg && e.rssiTx == c.txRssi
  }

  predicate ChartsStone(e: GraphStone, s: StoneView, now: int) {
    && e.uuid == s.bAddress.uuid && e.major == s.bAddress.major && e.minor == s.bAddress.minor
    && e.comment == s.comment && e.age == now - s.lastUpdate
    && |e.contacts| == |s.contacts|
    && forall j :: 0 <= j < |s.contacts| ==> ChartsContact(e.contacts[j], s.contacts[j], now)
  }

  /** The graph view of `views` at time `now`: one entry per stone and nothing else. */
  predicate GraphReport(graph: map<string, GraphStone>, views: map<string, StoneView>, now: int) {
    && graph.Keys == views.Keys
    && forall mac :: mac in graph ==> ChartsStone(graph[mac], views[mac], now)
  }

  /** The names view of `descs`: every description as a record, and nothing else. */
  predicate NamesReport(names: map<string, DescEntry>, descs: map<string, (string, string)>) {
    && names.Keys == descs.Keys
    && forall mac :: mac in names ==> names[mac] == DescEntry(descs[mac].0, descs[mac].1)
  }

  // ---------------------------------------------------------------------------
  // The aggregations

  /** The stone view; contacts are listed only when `includeContacts` (the StoneInfoIncludeContacts setting). */
  method AggregateStones(stones: map<string, Stone>, includeContacts: bool) returns (info: map<string, StoneEntry>)
    ensures StonesReport(info, Views(stones), includeContacts)
  {
    info := map[];
    var todo := stones.Keys;
    while todo != {}
      invariant todo <= stones.Keys
      invariant info.Keys == stones.Keys - todo
      invariant forall mac :: mac in info ==> DescribesStone(info[mac], stones[mac].View(), includeContacts)
      decreases |todo|
    {
      var mac :| mac in todo;
      var s := stones[mac];
      var entry := StoneEntry(s.bAddress.uuid, s.bAddress.major, s.bAddress.minor, s.comment, s.lastUpdate, None);
      if includeContacts {
        var list := [];
        for j := 0 to |s.contacts|
          invariant |list| == j
          invariant forall k :: 0 <= k < j ==> ListsContact(list[k], s.contacts[k])
        {
          var c := s.contacts[j];
          list := list + [ContactEntry(c.macAddress, c.bAddress.uuid, c.bAddress.major, c.bAddress.minor, c.rssiAvg, c.txRssi)];
        }
        entry := entry.(contacts := Some(list));
      }
      info := info[mac := entry];
      todo := todo - {mac};
    }
  }

  /** The graph view at `currentTime`: ages of stones and contacts relative to that time. */
  method AggregateGraph(stones: map<string, Stone>, currentTime: int) returns (graph: map<string, GraphStone>)
    ensures GraphReport(graph, Views(stones), currentTime)
  {
    graph := map[];
    var todo := stones.Keys;
    while todo != {}
      invariant todo <= stones.Keys
      invariant graph.Keys == stones.Keys - todo
      invariant forall mac :: mac in graph ==> ChartsStone(graph[mac], stones[mac].View(), currentTime)
      decreases |todo|
    {
      var mac :| mac in todo;
      var s := stones[mac];
      var list := [];
      for j := 0 to |s.contacts|
        invariant |list| == j
        invariant forall k :: 0 <= k < j ==> ChartsContact(list[k], s.contacts[k], currentTime)
      {
        var c := s.contacts[j];
        list := list + [GraphContact(c.macAddress, c.bAddress.uuid, c.bAddress.major, c.bAddress.minor,
                                     currentTime - c.timestamp, c.rssiAvg, c.txRssi)];
      }
      graph := graph[mac := GraphStone(s.bAddress.uuid, s.bAddress.major, s.bAddress.minor, s.comment,
                                       currentTime - s.lastUpdate, list)];
      todo := todo - {mac};
    }
  }

  /** The names view: every description turned into a name/color record. */
  method AggregateDescs(descriptions: map<string, (string, string)>) returns (names: map<string, DescEntry>)
    ensures NamesReport(names, descriptions)
  {
    names := map[];
    var todo := descriptions.Keys;
    while todo != {}
      invariant todo <= descriptions.Keys
      invariant names.Keys == descriptions.Keys - todo
      invariant forall mac :: mac in names ==> names[mac] == DescEntry(descriptions[mac].0, descriptions[mac].1)
      decreases |todo|
    {
      var mac :| mac in todo;
      names := names[mac := DescEntry(descriptions[mac].0, descriptions[mac].1)];
      todo := todo - {mac};
    }
  }
}
