# StoneAggregator world-state engine in Dafny

This project models the aggregation engine of StoneAggregator (`aggregation.py`).
Fixed Bluetooth nodes called *stones* send periodic reports of the mobile beacons
they have seen. The aggregator merges each report into an in-memory world. That
world keeps a 60-second sliding window of contacts per stone, plus a display name
and color per node. The aggregator republishes three views: stones, graph and names.
The stone and graph views go out at most once per update interval.

Modules, one per component of the source file:

- `Wrappers` (`wrappers.dfy`): the `Option` type. It stands for JSON keys that may be absent.
- `Domain` (`domain.dfy`): `BeaconId` and `Contact` as datatypes.
- `Window` (`window.dfy`): the contact list of a stone as a value. It holds the
  eviction filter, the replace-by-MAC merge loop, and the lemmas about one update:
  window, uniqueness, last write wins, order and idempotence. `Latest` gives an
  independent description of the merged tail.
- `Stones` (`stone.dfy`): class `Stone`. Its `Update` method works in place and is
  proved against `Updated`.
- `Worlds` (`world.dfy`): class `World`, holding the `stones` and `descs` maps.
  `Upserted` is the value-level specification of `update_stone`.
- `Aggregator` (`aggregator.dfy`): the three aggregations as read-only methods with
  loops. Each is specified by a relation between the view and the world.
- `Ingestion` (`ingestion.dfy`): the message handler. It covers topic routing,
  contact construction from a decoded report, the publish throttle (class
  `Throttle`), and the handler itself (class `Service`).

The `StoneInfoIncludeContacts` setting becomes the `includeContacts` field of
`Service`. `UpdateInterval` becomes `Throttle.updateInterval`. A decoded JSON body
is a `Payload` record with one `Option` per key the handler reads. A body that
could not be decompressed or parsed is `None`. The report's timestamp arrives as
an integer number of epoch seconds.

Notes on the source's behaviour:

- The throttle compares the report's own timestamp with the last publication time
  (aggregation.py:203). It does not use a wall clock. The graph ages are computed
  relative to that same timestamp (aggregation.py:207).
- A report may name one device twice. The merge loop then keeps the last contact
  for that device. The uniqueness lemma does not assume distinct input MACs.
- A missing key raises `KeyError` outside the `try` block (aggregation.py:184-196,
  213). A malformed timestamp string makes `strptime` raise `ValueError`, also outside
  the `try` (aggregation.py:188). A malformed timestamp arrives as an absent
  `timestamp`. The model reports both cases as the `MissingField` outcome. The state is left
  unchanged, because every lookup and the timestamp conversion happen before the
  World is touched.
- `last_update` is assigned before eviction (aggregation.py:59). The result is the
  same as assigning it last.

## Model

| member | source | states |
|---|---|---|
| `Window.Evict` | aggregation.py:62 | eviction never grows the list, keeps only contacts that were stored, and every contact it keeps lies inside the window of `t` |
| `Window.Replace` | aggregation.py:66-67 | one merge step ends the list with the reported contact, leaves the set of devices as before plus that contact's device, and keeps the list free of repeated devices |
| `Window.MergeAll` | aggregation.py:64-67 | the merge loop ends the list with the last reported contact, its devices are the stored ones plus the reported ones, and it keeps the list free of repeated devices |
| `Window.UpdatedContacts` | aggregation.py:55-67 | after an update every reported device has a contact, no device appears that was neither stored nor reported, and the last reported contact ends the list |
| `Window.EvictionExample` | aggregation.py:61-62 | an update at 61 evicts a contact from time 0 and keeps those from 1 (exactly on the boundary), 30 and 61, in order |
| `Window.EvictHas` | aggregation.py:61-62 | a contact survives eviction at `t` iff it was stored and its timestamp is at least `t - 60` |
| `Window.WithoutMacsHas` | aggregation.py:66 | the filter keeps exactly the stored contacts whose MAC is not among those removed |
| `Window.MergeAllShape` | aggregation.py:64-67 | the merge loop leaves the stored contacts of unreported devices in their order, followed by the last reported contact of each reported device |
| `Window.UpdateShape` | aggregation.py:55-67 | after an update the list is the surviving old contacts (in window, not reported again) in original order, followed by the new ones |
| `Window.UpdateHas` | aggregation.py:59-67 | everything stored after an update was reported or was stored and in the window; an in-window old contact of an unreported device is kept; an out-of-window old contact that was not reported again is gone |
| `Window.UpdateInWindow` | aggregation.py:59-67 | if every reported contact is within the window of `t`, every contact after the update is too |
| `Window.UpdateNoDupMacs` | aggregation.py:62-67 | no two contacts share a MAC after an update, even when the report repeats a MAC |
| `Window.LastWriteWins` | aggregation.py:64-67 | the last reported contact of a device is stored, and it is the only stored contact with that MAC |
| `Window.UpdateIdempotent` | aggregation.py:55-67 | repeating an update with the same time and the same reported contacts yields the same list, for any reported contacts |
| `Stones.Updated` | aggregation.py:55-67 | an update keeps the stone's address, beacon id and comment, sets its time to `t`, and gives it a contact for every reported device and for no device that was neither stored nor reported |
| `Stones.UpdatedWellFormed` | aggregation.py:55-67 | an update keeps a stone's identity, sets its time to `t`, and leaves one contact per device, all inside the window, when the reported contacts are |
| `Stones.Stone.constructor` | aggregation.py:45-53 | a new stone has its address, beacon id and comment, time 0 and no contacts |
| `Stones.Stone.Update` | aggregation.py:55-67 | the in-place update: `last_update` becomes `t` and the contact list becomes `UpdatedContacts` of the old one; when the old list had no repeated devices and every reported contact is inside the window of `t`, the stone is well formed afterwards: one contact per device, all inside the window |
| `Worlds.Upserted` | aggregation.py:85-90 | the key set gains the snapshot's address; a new address maps to the snapshot itself; a known one keeps address, beacon id and comment and takes the snapshot's time; every other entry is unchanged |
| `Worlds.UpsertedWellFormed` | aggregation.py:85-90 | merging a well-formed snapshot keeps every stone of the store well formed |
| `Worlds.World.constructor` | aggregation.py:71-74 | a new world has no stones and no descriptions |
| `Worlds.World.UpdateStone` | aggregation.py:85-90 | the stones become `Upserted` of the old stones; an absent address gets the given object itself; descriptions are untouched; no stone object other than the argument enters the map |
| `Worlds.World.UpdateDesc` | aggregation.py:92-94 | `descs[mac]` becomes `(name, color)`, every other key and all stones are untouched |
| `Aggregator.AggregateStones` | aggregation.py:98-108 | the view has exactly the stones' addresses; each entry carries beacon id, comment and `last_seen`; `contacts` is present iff `includeContacts`, with one entry per stored contact in order |
| `Aggregator.AggregateGraph` | aggregation.py:110-118 | the view has exactly the stones' addresses; `age` is `current_time - last_update` per stone and `current_time - timestamp` per contact, one entry per contact in order |
| `Aggregator.AggregateDescs` | aggregation.py:120-126 | the view has exactly the keys of the descriptions, each `{name, color}` of its pair |
| `Ingestion.BuildContact` | aggregation.py:195-196 | a contact is built iff mac, min, max, avg and remoteRssi are present; it carries the report time and those values; the beacon id comes from the entry iff uuid, major and minor are all present, else it is `('', 0, 0)` |
| `Ingestion.ParseContacts` | aggregation.py:193-196 | the report's contacts exist iff every entry is complete, one per entry, each the contact its entry describes |
| `Ingestion.ParsedInWindow` | aggregation.py:193-197 | every contact of a report carries the report's time and so lies within its window |
| `Ingestion.BuildContacts` | aggregation.py:193-196 | the loop computes `ParseContacts` |
| `Ingestion.ReportedStone` | aggregation.py:181-197 | a report yields a stone iff every key read is present (`CompleteReport`); it has the topic's address, the report's beacon id, comment and time, is well formed, and holds a contact for exactly the reported MACs |
| `Ingestion.FirstUpdateMacs` | aggregation.py:193-197 | a new stone updated with a report holds contacts for exactly the MACs of the report's entries |
| `Ingestion.MergedReportWellFormed` | aggregation.py:197-200 | merging a report into a world of well-formed stones leaves every stone well formed |
| `Ingestion.Throttle.constructor` | aggregation.py:156-157 | the interval is the configured one and the last publication time starts at 0 |
| `Ingestion.Throttle.Check` | aggregation.py:203-204 | publish iff `timestamp - last_stone_update >= update_interval`; on publish the last time becomes `timestamp`, otherwise it is unchanged; after a publish no report earlier than `timestamp + update_interval` is due |
| `Ingestion.RouteOf` | aggregation.py:181-183 | a topic with the sensor prefix goes to the report handler with the rest of the topic as address; otherwise the name-update topic goes to the name handler (line 211); anything else is ignored |
| `Ingestion.Service.constructor` | aggregation.py:140-157 | the handler starts with a fresh throttle at time 0 and the configured interval |
| `Ingestion.Service.OnMessage` | aggregation.py:166-218 | an undecodable body is dropped and an unhandled topic ignored, both without change; on a sensor topic an incomplete report gives `MissingField` with no change, a complete one changes the stones exactly as `Upserted` of its snapshot, leaves descriptions alone, and publishes both views of the new stones iff the throttle is due at the report's time; on the name topic stones and throttle are untouched, an incomplete update gives `MissingField`, a complete one stores the pair and publishes the names view; every stone object in the World afterwards was there before or is new |
| `Ingestion.Service.ReportTwice` | aggregation.py:203-204 | two complete sensor reports in a row, the first due and the second less than one interval later: the first publishes, the second is merged without publishing, and the last publication time is the first report's |
| `Ingestion.Service.HandleReport` | aggregation.py:181-209 | a complete report is merged as `Upserted` with descriptions untouched, and both views of the new stones are published iff the throttle is due at the report's time; an incomplete one gives `MissingField` and changes nothing; every stone object in the World afterwards was there before or is new |
| `Ingestion.Service.BuildStone` | aggregation.py:184-197 | a new stone object is made iff the report is complete, and it holds exactly `ReportedStone` of the report |
| `Ingestion.Service.MergeReport` | aggregation.py:183-200 | merges the report's stone into the world; returns the report's time iff the report is complete; every stone object in the World afterwards was there before or is new |
| `Ingestion.Service.Publish` | aggregation.py:202-209 | when due, records the time and returns the stone view and the graph view at that time, both describing the current stones |
| `Ingestion.Service.HandleNameUpdate` | aggregation.py:211-218 | a complete update sets the one description, and the published names view holds the new pair and every other description; an incomplete one changes nothing |

## Left out

- MQTT client setup, subscription, the network loop, `publish_persistent` and disconnection (aggregation.py:129-164, 221-222) are network I/O. The handlers return the views they would publish. Retained delivery is not modelled.
- `Main`, configuration-file loading, `sys.argv` handling and SIGINT handling (aggregation.py:225-260) are process plumbing. The configuration values are constructor parameters.
- The `threading.Lock` (aggregation.py:74, 86, 93, 205, 216) is not modelled. Every World operation and every aggregation is one atomic step.
- zlib detection, decompression, UTF-8 and JSON decoding (aggregation.py:170-179) and JSON encoding of the views (lines 108, 118, 126) are library calls. A body arrives decoded as a `Payload`, or as `None` when it could not be decoded. The views are maps of records, so JSON key order and text are not modelled.
- JSON value types: the model types every value as a string or an integer. The source copies the header keys, the entry keys and the name-update keys (aggregation.py:184, 195-196, 213) into the World unchecked, so a `null`, a fractional RSSI or a string `major` is outside the model's input domain. The published views pass the stored values on as they came in, except the entry keys `min` and `max`: they are stored in each contact but neither view publishes them (lines 107, 117). A present key whose value is `null` cannot be expressed either, because `None` means an absent key. An empty object or an empty string as `data` makes the loop at line 194 run zero times, so it acts as an empty list (the model's `data == Some([])`). Any other `data` that is not a list, a list item that is not an object, a non-string `timestamp` (line 188), a body that is not a JSON object, and an unhashable name-update `mac` (line 94) raise `TypeError`. That error path is not modelled.
- `datetime.strptime` and the epoch conversion (aggregation.py:187-190) are library date arithmetic. The timestamp arrives as an integer. Line 189 discards its result, so line 190 reads the naive time as local time. That effect is not modelled.
- `BeaconId.__hash__` (aggregation.py:29-30) is covered by structural equality of the datatype.
- `World.get_lock`, `get_stones` and `get_descs` (aggregation.py:76-83) only return fields. The model reads the fields directly.
- The log message printed for an undecodable body (aggregation.py:178) is output only.
- Ingestion.Service.OnMessage: the preservation of stone well-formedness is not in its contract. It is stated by `Ingestion.MergedReportWellFormed` and `Worlds.UpsertedWellFormed` over `Upserted`, which the contract names.
