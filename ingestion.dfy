/**
 * The message handler of the aggregator (MqttService.on_message in aggregation.py):
 * a decoded sensor report becomes a stone snapshot that is merged into the World,
 * and the stone and graph views are republished at most once per update interval;
 * a decoded name update overwrites one description and republishes the names view.
 *
 * Decompression and JSON parsing are not modelled: a payload arrives already decoded,
 * as a record of the keys the handler reads (None for an absent key), or as None when
 * it could not be decoded. The timestamp arrives as epoch seconds.
 */
module Ingestion {
  import opened Wrappers
  import opened Domain
  import opened Window
  import opened Stones
  import opened Worlds
  import opened Aggregator

  /** One entry of a report's `data` list. */
  datatype Sighting = Sighting(
    mac: Option<string>,
    uuid: Option<string>,
    major: Option<int>,
    minor: Option<int>,
    min: Option<int>,
    max: Option<int>,
    avg: Option<int>,
    remoteRssi: Option<int>)

  /**
   * A decoded message body. `timestamp` is the epoch-seconds value of the `timestamp`
   * string, None when the key is absent or the string is not of the form YYYY-MM-DDTHH:MM:SSZ.
   */
  datatype Payload = Payload(
    uuid: Option<string>,
    major: Option<int>,
    minor: Option<int>,
    comment: Option<string>,
    timestamp: Option<int>,
    data: Option<seq<Sighting>>,
    mac: Option<string>,
    name: Option<string>,
    color: Option<string>)

  // ---------------------------------------------------------------------------
  // Contacts of one report

  /** The entry names a beacon identity: all of uuid, major and minor are present. */
  predicate HasBeaconId(s: Sighting) {
    s.uuid.Some? && s.major.Some? && s.minor.Some?
  }

  /** The entry has every key the handler reads without checking first. */
  predicate Complete(s: Sighting) {
    s.mac.Some? && s.min.Some? && s.max.Some? && s.avg.Some? && s.remoteRssi.Some?
  }

  /** The contact a report entry describes, stamped with the report's time; None when a required key is missing. */
  function BuildContact(s: Sighting, timestamp: int): (r: Option<Contact>)
    ensures r.Some? <==> Complete(s)
    ensures r.Some? ==>
      && r.value.timestamp == timestamp
      && r.value.macAddress == s.mac.value
      && r.value.rssiMin == s.min.value && r.value.rssiMax == s.max.value
      && r.value.rssiAvg == s.avg.value && r.value.txRssi == s.remoteRssi.value
    ensures r.Some? && HasBeaconId(s) ==> r.value.bAddress == BeaconId(s.uuid.value, s.major.value, s.minor.value)
    ensures r.Some? && !HasBeaconId(s) ==> r.value.bAddress == NoBeacon
  {
    var bid := if HasBeaconId(s) then BeaconId(s.uuid.value, s.major.value, s.minor.value) else NoBeacon;
    if Complete(s) then Some(Contact(timestamp, s.mac.value, bid, s.min.value, s.max.value, s.avg.value, s.remoteRssi.value))
    else None
  }

  /** The contacts of a whole report, one per entry and in order; None as soon as one entry lacks a key. */
  function ParseContacts(items: seq<Sighting>, timestamp: int): (r: Option<seq<Contact>>)
    ensures r.Some? <==> forall i :: 0 <= i < |items| ==> Complete(items[i])
    ensures r.Some? ==> |r.value| == |items|
    ensures r.Some? ==> forall i :: 0 <= i < |items| ==> BuildContact(items[i], timestamp) == Some(r.value[i])
    decreases |items|
  {
    if items == [] then Some([])
    else
      var front := items[..|items| - 1];
      match ParseContacts(front, timestamp)
      case None => None
      case Some(cs) =>
        match BuildContact(items[|items| - 1], timestamp)
        case None => None
        case Some(c) => Some(cs + [c])
  }

  /** Every contact of a parsed report carries the report's time, so all lie inside its window. */
  lemma ParsedInWindow(items: seq<Sighting>, timestamp: int)
    requires ParseContacts(items, timestamp).Some?
    ensures forall c :: c in ParseContacts(items, timestamp).value ==> c.timestamp == timestamp
    ensures AllInWindow(ParseContacts(items, timestamp).value, timestamp)
  {
    var cs := ParseContacts(items, timestamp).value;
    forall c | c in cs ensures c.timestamp == timestamp {
      var i :| 0 <= i < |cs| && cs[i] == c;
      assert BuildContact(items[i], timestamp) == Some(c);
    }
  }

  /** The loop that turns the entries of a report into contacts. */
  method BuildContacts(items: seq<Sighting>, timestamp: int) returns (r: Option<seq<Contact>>)
    ensures r == ParseContacts(items, timestamp)
  {
    var contacts := [];
    for i := 0 to |items|
      invariant ParseContacts(items[..i], timestamp) == Some(contacts)
    {
      assert items[..i + 1][..i] == items[..i];
      var ct := items[i];
      var c := BuildContact(ct, timestamp);
      if c.None? {
        assert !Complete(items[i]);
        return None;
      }
      contacts := contacts + [c.value];
    }
    assert items[..|items|] == items;
    return Some(contacts);
  }

  // ---------------------------------------------------------------------------
  // The stone snapshot of one report

  /** The beacon identity and comment keys of a report are all present, as are its time and data. */
  predicate HasHeader(p: Payload) {
    p.uuid.Some? && p.major.Some? && p.minor.Some? && p.comment.Some? && p.timestamp.Some? && p.data.Some?
  }

  /** Every key a sensor report is read for is present: the header and each entry's required keys. */
  predicate CompleteReport(p: Payload) {
    HasHeader(p) && forall i :: 0 <= i < |p.data.value| ==> Complete(p.data.value[i])
  }

  /** Every key a name update is read for is present. */
  predicate NameComplete(p: Payload) {
    p.mac.Some? && p.name.Some? && p.color.Some?
  }

  /** The devices a list of complete report entries names. */
  function ReportedMacs(items: seq<Sighting>): set<string> {
    set i | 0 <= i < |items| && items[i].mac.Some? :: items[i].mac.value
  }

  /**
   * The stone a sensor report from `address` describes: a new stone updated once with the
   * report's contacts. None when a key the handler reads is missing.
   */
  function ReportedStone(address: string, p: Payload): (r: Option<StoneView>)
    ensures r.Some? <==> CompleteReport(p)
    ensures r.Some? ==>
      && r.value.macAddress == address
      && r.value.bAddress == BeaconId(p.uuid.value, p.major.value, p.minor.value)
      && r.value.comment == p.comment.value
      && r.value.lastUpdate == p.timestamp.value
      && WellFormed(r.value)
      && Macs(r.value.contacts) == ReportedMacs(p.data.value)
  {
    if !HasHeader(p) then None
    else
      var timestamp := p.timestamp.value;
      match ParseContacts(p.data.value, timestamp)
      case None => None
      case Some(cs) =>
        var blank := StoneView(address, BeaconId(p.uuid.value, p.major.value, p.minor.value), p.comment.value, 0, []);
        var s := Updated(blank, timestamp, cs);
        ParsedInWindow(p.data.value, timestamp);
        UpdatedWellFormed(blank, timestamp, cs);
        FirstUpdateMacs(p.data.value, timestamp, cs);
        Some(s)
  }

  lemma ReportedStoneIs(address: string, p: Payload, cs: seq<Contact>)
    requires HasHeader(p) && ParseContacts(p.data.value, p.timestamp.value) == Some(cs)
    ensures ReportedStone(address, p) ==
      Some(Updated(StoneView(address, BeaconId(p.uuid.value, p.major.value, p.minor.value), p.comment.value, 0, []),
                   p.timestamp.value, cs))
  {
  }

  /** The contacts parsed from a report name exactly the devices its entries name. */
  lemma ParsedMacs(items: seq<Sighting>, timestamp: int, cs: seq<Contact>)
    requires ParseContacts(items, timestamp) == Some(cs)
    ensures Macs(cs) == ReportedMacs(items)
  {
    forall x | x in Macs(cs) ensures x in ReportedMacs(items) {
      var c :| c in cs && c.macAddress == x;
      var i :| 0 <= i < |cs| && cs[i] == c;
      assert BuildContact(items[i], timestamp) == Some(c);
    }
    forall x | x in ReportedMacs(items) ensures x in Macs(cs) {
      var i :| 0 <= i < |items| && items[i].mac.Some? && items[i].mac.value == x;
      assert BuildContact(items[i], timestamp) == Some(cs[i]);
      assert cs[i] in cs;
    }
  }

  /** A new stone updated with the contacts of a report holds one contact for each device reported. */
  lemma FirstUpdateMacs(items: seq<Sighting>, timestamp: int, cs: seq<Contact>)
    requires ParseContacts(items, timestamp) == Some(cs)
    ensures Macs(UpdatedContacts([], timestamp, cs)) == ReportedMacs(items)
  {
    assert Macs([]) == {};
    ParsedMacs(items, timestamp, cs);
  }

  /**
   * Merging a report into a World whose stones are all well formed (one contact per device,
   * all inside the window) leaves every stone well formed.
   */
  lemma MergedReportWellFormed(views: map<string, StoneView>, address: string, p: Payload)
    requires AllWellFormed(views) && ReportedStone(address, p).Some?
    ensures AllWellFormed(Upserted(views, ReportedStone(address, p).value))
  {
    UpsertedWellFormed(views, ReportedStone(address, p).value);
  }

  // ---------------------------------------------------------------------------
  // Publishing at most once per update interval

  class Throttle {
    var lastStoneUpdate: int
    const updateInterval: int

    constructor (updateInterval: int)
      ensures lastStoneUpdate == 0 && this.updateInterval == updateInterval
    {
      lastStoneUpdate := 0;
      this.updateInterval := updateInterval;
    }

    /** A report stamped `timestamp` is due for publication. */
    predicate Due(timestamp: int)
      reads this
    {
      timestamp - lastStoneUpdate >= updateInterval
    }

    /** Decides whether the report stamped `timestamp` is published, and if so records its time. */
    method Check(timestamp: int) returns (publish: bool)
      modifies this
      ensures publish == old(Due(timestamp))
      ensures lastStoneUpdate == if publish then timestamp else old(lastStoneUpdate)
      ensures publish ==> forall later :: later < timestamp + updateInterval ==> !Due(later)
    {
      publish := timestamp - lastStoneUpdate >= updateInterval;
      if publish {
        lastStoneUpdate := timestamp;
      }
    }
  }

  // ---------------------------------------------------------------------------
  // Dispatch and handling

  datatype Route = SensorReport(address: string) | NameUpdate | Unhandled

  /** Which handler a topic goes to: the sensor prefix wins over the name-update topic. */
  function RouteOf(topic: string, sensorPrefix: string, nameTopic: string): (r: Route)
    ensures r.SensorReport? <==> sensorPrefix <= topic
    ensures r.SensorReport? ==> sensorPrefix + r.address == topic
    ensures r.NameUpdate? <==> !(sensorPrefix <= topic) && topic == nameTopic
  {
    if sensorPrefix <= topic then
      assert sensorPrefix + topic[|sensorPrefix|..] == topic;
      SensorReport(topic[|sensorPrefix|..])
    else if topic == nameTopic then NameUpdate
    else Unhandled
  }

  /** The stone and graph views published together. */
  datatype Snapshot = Snapshot(stones: map<string, StoneEntry>, graph: map<string, GraphStone>)

  datatype Outcome =
    | Undecodable                        // the payload could not be decompressed or parsed
    | MissingField                       // a key the handler reads is absent
    | Ignored                            // the topic belongs to neither handler
    | Merged(snapshot: Option<Snapshot>) // the report was merged; Some when the views were published
    | Renamed(names: map<string, DescEntry>)  // the description was stored; the names view published

  class Service {
    const world: World
    const throttle: Throttle
    const sensorPrefix: string
    const nameTopic: string
    const includeContacts: bool

    constructor (world: World, sensorPrefix: string, nameTopic: string, updateInterval: int, includeContacts: bool)
      ensures this.world == world && this.sensorPrefix == sensorPrefix && this.nameTopic == nameTopic
      ensures this.includeContacts == includeContacts
      ensures fresh(throttle) && throttle.updateInterval == updateInterval && throttle.lastStoneUpdate == 0
    {
      this.world := world;
      this.sensorPrefix := sensorPrefix;
      this.nameTopic := nameTopic;
      this.includeContacts := includeContacts;
      throttle := new Throttle(updateInterval);
    }

    /**
     * Handles one message: a decoded payload on a sensor topic or on the name-update topic.
     * Stone objects that reach the World are either already there or made here, so a
     * caller may hand the Service one message after another.
     */
    method OnMessage(topic: string, payload: Option<Payload>) returns (out: Outcome)
      requires world.Valid()
      modifies world, world.stones.Values, throttle
      ensures world.Valid()
      ensures forall s :: s in world.stones.Values ==> s in old(world.stones.Values) || fresh(s)
      ensures payload.None? ==> out == Undecodable
      ensures payload.Some? && RouteOf(topic, sensorPrefix, nameTopic).Unhandled? ==> out == Ignored
      // Only a merged report or a stored description changes the state.
      ensures !out.Merged? && !out.Renamed? ==>
        && Views(world.stones) == old(Views(world.stones)) && world.descs == old(world.descs)
        && throttle.lastStoneUpdate == old(throttle.lastStoneUpdate)
      ensures payload.Some? && RouteOf(topic, sensorPrefix, nameTopic).SensorReport? ==>
        var s := ReportedStone(RouteOf(topic, sensorPrefix, nameTopic).address, payload.value);
        && world.descs == old(world.descs)
        && (s.None? ==> out == MissingField)
        && (s.Some? ==>
              && out.Merged?
              && Views(world.stones) == Upserted(old(Views(world.stones)), s.value)
              && (out.snapshot.Some? <==> old(throttle.Due(s.value.lastUpdate)))
              && throttle.lastStoneUpdate == (if out.snapshot.Some? then s.value.lastUpdate else old(throttle.lastStoneUpdate)))
      ensures out.Merged? && out.snapshot.Some? ==>
        && StonesReport(out.snapshot.value.stones, Views(world.stones), includeContacts)
        && GraphReport(out.snapshot.value.graph, Views(world.stones), throttle.lastStoneUpdate)
      ensures payload.Some? && RouteOf(topic, sensorPrefix, nameTopic).NameUpdate? ==>
        var p := payload.value;
        && Views(world.stones) == old(Views(world.stones))
        && throttle.lastStoneUpdate == old(throttle.lastStoneUpdate)
        && (!NameComplete(p) ==> out == MissingField)
        && (NameComplete(p) ==>
              && out.Renamed?
              && world.descs == old(world.descs)[p.mac.value := (p.name.value, p.color.value)]
              && NamesReport(out.names, world.descs))
    {
      if payload.None? {
        return Undecodable;
      }
      var route := RouteOf(topic, sensorPrefix, nameTopic);
      if route.SensorReport? {
        out := HandleReport(route.address, payload.value);
      } else if route.NameUpdate? {
        out := HandleNameUpdate(payload.value);
      } else {
        out := Ignored;
      }
    }

    /**
     * Two complete sensor reports, the first due for publication and the second stamped less
     * than one update interval later: the first publishes the views and the second does not.
     */
    method ReportTwice(topic1: string, first: Payload, topic2: string, second: Payload)
      returns (out1: Outcome, out2: Outcome)
      requires world.Valid()
      requires RouteOf(topic1, sensorPrefix, nameTopic).SensorReport? && CompleteReport(first)
      requires RouteOf(topic2, sensorPrefix, nameTopic).SensorReport? && CompleteReport(second)
      requires throttle.Due(first.timestamp.value)
      requires second.timestamp.value < first.timestamp.value + throttle.updateInterval
      modifies world, world.stones.Values, throttle
      ensures out1.Merged? && out1.snapshot.Some?
      ensures out2.Merged? && out2.snapshot.None?
      ensures throttle.lastStoneUpdate == first.timestamp.value
    {
      out1 := OnMessage(topic1, Some(first));
      out2 := OnMessage(topic2, Some(second));
    }

    /**
     * A report from the stone at `address`: merge its snapshot into the World, then publish
     * the stone and graph views if the throttle is due at the report's own time.
     */
    method HandleReport(address: string, data: Payload) returns (out: Outcome)
      requires world.Valid()
      modifies world, world.stones.Values, throttle
      ensures world.Valid()
      ensures forall s :: s in world.stones.Values ==> s in old(world.stones.Values) || fresh(s)
      ensures var s := ReportedStone(address, data);
        && (s.None? ==>
              && out == MissingField
              && Views(world.stones) == old(Views(world.stones)) && world.descs == old(world.descs)
              && throttle.lastStoneUpdate == old(throttle.lastStoneUpdate))
        && (s.Some? ==>
              && out.Merged?
              && Views(world.stones) == Upserted(old(Views(world.stones)), s.value)
              && world.descs == old(world.descs)
              && (out.snapshot.Some? <==> old(throttle.Due(s.value.lastUpdate)))
              && throttle.lastStoneUpdate == (if out.snapshot.Some? then s.value.lastUpdate else old(throttle.lastStoneUpdate)))
      ensures out.Merged? && out.snapshot.Some? ==>
        && StonesReport(out.snapshot.value.stones, Views(world.stones), includeContacts)
        && GraphReport(out.snapshot.value.graph, Views(world.stones), throttle.lastStoneUpdate)
    {
      var timestamp := MergeReport(address, data);
      if timestamp.None? {
        return MissingField;
      }
      var snapshot := Publish(timestamp.value);
      out := Merged(snapshot);
    }

    /** Makes the stone object a report describes: a new stone updated once with the report's contacts. */
    method BuildStone(address: string, data: Payload) returns (stone: Option<Stone>)
      ensures stone.Some? <==> ReportedStone(address, data).Some?
      ensures stone.Some? ==> fresh(stone.value) && stone.value.View() == ReportedStone(address, data).value
    {
      if !HasHeader(data) {
        return None;
      }
      var t := data.timestamp.value;
      var contacts := BuildContacts(data.data.value, t);
      if contacts.None? {
        return None;
      }
      var s := new Stone(address, BeaconId(data.uuid.value, data.major.value, data.minor.value), data.comment.value);
      s.Update(t, contacts.value);
      ReportedStoneIs(address, data, contacts.value);
      stone := Some(s);
    }

    /** Builds the stone of a report and merges it into the World; returns the report's time. */
    method MergeReport(address: string, data: Payload) returns (timestamp: Option<int>)
      requires world.Valid()
      modifies world, world.stones.Values
      ensures world.Valid()
      ensures forall s :: s in world.stones.Values ==> s in old(world.stones.Values) || fresh(s)
      ensures var s := ReportedStone(address, data);
        && (s.None? ==> timestamp.None? && Views(world.stones) == old(Views(world.stones)))
        && (s.Some? ==> timestamp == Some(s.value.lastUpdate) && Views(world.stones) == Upserted(old(Views(world.stones)), s.value))
      ensures world.descs == old(world.descs)
    {
      var stone := BuildStone(address, data);
      if stone.None? {
        return None;
      }
      world.UpdateStone(stone.value);
      timestamp := Some(data.timestamp.value);
    }

    /** The throttle step: when due at `timestamp`, the stone and graph views of the World at that time. */
    method Publish(timestamp: int) returns (snapshot: Option<Snapshot>)
      modifies throttle
      ensures snapshot.Some? <==> old(throttle.Due(timestamp))
      ensures throttle.lastStoneUpdate == if snapshot.Some? then timestamp else old(throttle.lastStoneUpdate)
      ensures snapshot.Some? ==>
        && StonesReport(snapshot.value.stones, Views(world.stones), includeContacts)
        && GraphReport(snapshot.value.graph, Views(world.stones), timestamp)
    {
      var publish := throttle.Check(timestamp);
      if publish {
        var aggStones := AggregateStones(world.stones, includeContacts);
        var aggGraph := AggregateGraph(world.stones, timestamp);
        snapshot := Some(Snapshot(aggStones, aggGraph));
      } else {
        snapshot := None;
      }
    }

    /** A name update: store the description, then publish the names view. */
    method HandleNameUpdate(data: Payload) returns (out: Outcome)
      modifies world
      ensures world.stones == old(world.stones)
      ensures !NameComplete(data) ==> out == MissingField && world.descs == old(world.descs)
      ensures NameComplete(data) ==>
        && out.Renamed?
        && world.descs == old(world.descs)[data.mac.value := (data.name.value, data.color.value)]
        && NamesReport(out.names, world.descs)
        // The new pair is published and no other description is lost.
        && out.names.Keys == old(world.descs.Keys) + {data.mac.value}
        && out.names[data.mac.value] == DescEntry(data.name.value, data.color.value)
        && forall k :: k in old(world.descs) && k != data.mac.value ==>
             out.names[k] == DescEntry(old(world.descs)[k].0, old(world.descs)[k].1)
    {
      if !NameComplete(data) {
        return MissingField;
      }
      world.UpdateDesc(data.mac.value, data.name.value, data.color.value);
      var names := AggregateDescs(world.descs);
      out := Renamed(names);
    }
  }
}
