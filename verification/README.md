# osm2mongo bulk-load core in Dafny

This project models the streaming bulk-load core of osm2mongo, which loads
OpenStreetMap data into MongoDB. The model covers three pieces:

- **The reader** (`read`). It walks the records decoded from an OSM PBF file.
  It drops every record whose layer (`ways`, `nodes`, `relations`) is not
  enabled, and every record that is not visible. It turns each remaining way,
  node or relation into an `Object`, pushes the objects in order, and at the
  end returns the decoder's terminal error, if there is one.
- **Tag conversion** (`convertTags`). It turns the decoder's tag pairs into
  stored tags. Order and duplicates are kept.
- **One writer worker** (`write`). It appends one write operation per object
  it receives: an insert in initial mode, an upsert filtered on the object's
  ID otherwise. When the buffer reaches the block size, the worker writes it
  to the store as one batch. On cancellation it writes whatever is still
  buffered, then returns. A rejected batch ends the worker with the store's
  error.

The modules follow the source files:

- `models.dfy`: the document shapes (`Object`, `ID`, `Tag`, `Member`, `Coords`).
- `osm.dfy`: the decoder's record shapes.
- `helpers.dfy`: `convertTags`.
- `reader.dfy`: `read`.
- `writer.dfy`: `write`.
- `pipeline.dfy`: the reader feeding one worker.

Everything is pure functions over immutable data. The worker's `select` loop
is a fold of `Writer.Step` over a sequence of events, `Item(o)` or `Cancel`.
The store is a function `Sink` from (number of earlier calls, batch) to
`Acked` or `Rejected(failure)`. `Object`, `ID`, `Tag` and the kind tags are
defined elsewhere in the program, and the decoder's records come from the OSM
library. Their shapes here are rebuilt from their use at reader.go:46-97 and
helpers.go:8-11. A nil pointer
or nil slice in an object is `None`. models.go declares `Member.Location` as a plain
`Coords`, but reader.go:75-89 assigns a `*Coords` that may be nil. So the
member location is optional here. An object's own `Location` is a `Coords`
value (reader.go:61). A way or relation object carries the zero `Coords`,
with an empty type name and no coordinates; the model writes that as `None`.

Behaviour of the code worth knowing:

- A relation member gets a location only when latitude and longitude are
  **both** non-zero (reader.go:76). So a member on the equator or on the prime meridian also loses
  its location (`Reader.AxisMemberHasNoLocation`).
- The layer names are `ways`, `nodes` and `relations` (reader.go:21-25).
- The upsert filter is the object's whole `ID`, version included
  (writer.go:28). It is not just the (id, kind) pair.
- The final flush happens on the cancellation signal itself (writer.go:31-39).
  It does not wait until the queue is drained. Events after the first
  `Cancel` are never consumed (`Writer.RunStopsAtFirstCancel`).
- The mid-stream flush test is `len(buf) == blockSize` (writer.go:41). With a
  block size of 0 it never fires, so only the final flush writes anything
  (`Writer.ZeroBlockSizeNeverFlushesEarly`).

## Model

| member | source | states |
|---|---|---|
| `Helpers.ConvertTags` | helpers.go:5-14 | one stored tag per input pair: same length, and tag i has the key and value of pair i |
| `Helpers.ConvertTagsRoundTrip` | helpers.go:7-12 | the original pairs can be read back from the stored tags, so nothing is lost |
| `Helpers.ConvertTagsOnto` | helpers.go:7-12 | every stored tag list is the conversion of its own pairs |
| `Helpers.ConvertTagsEmpty` | helpers.go:6 | no pairs give no tags |
| `Helpers.ConvertTagsAppend` | helpers.go:6-13 | converting a + b gives the conversion of a followed by the conversion of b |
| `Helpers.ConvertTagsKeepsDuplicates` | helpers.go:7-12 | each key occurs as often among the output's keys as among the input's keys, so duplicate keys are neither merged nor dropped |
| `Reader.LayerMap` | reader.go:21-29 | the table holds the three known names plus every listed name, and a name maps to true iff it is in `layers` |
| `Reader.Accepts` | reader.go:36-70 | a record passes iff it is a way, node or relation, is visible, and its layer name is in `layers` |
| `Reader.ConvertMember` | reader.go:74-90 | a member keeps its kind, ref, role and orientation, and its version becomes 0. Its location is the point at [Lon, Lat] when both coordinates are non-zero, and absent otherwise |
| `Reader.WayNodeIds` | reader.go:41-44 | a way's node list has the same length and the same ids in the same order, duplicates kept |
| `Reader.ConvertMembers` | reader.go:73-91 | members keep their number and order; member i is the conversion of input member i |
| `Reader.Convert` | reader.go:46-97 | the object's ID is (record id, kind tag of the record's type, record version), and its tags and timestamp come from the record. A node gets the location `Point` at [Lon, Lat] and no node list or members. A way gets its node ids and no location or members. A relation gets its converted members and no location or node list |
| `Reader.MemberLocationRule` | reader.go:75-83 | a member has a location iff Lat != 0 and Lon != 0, and the location is then the point [Lon, Lat] |
| `Reader.MemberRoundTrip` | reader.go:84-90 | a member can be recovered from its stored form iff its version is 0 and its coordinates are both zero or both non-zero |
| `Reader.ConvertRoundTrip` | reader.go:41-97 | a visible record can be recovered from its object iff it is a way, a node, or a relation whose members are all recoverable; so ids, kinds, versions, tags, node references and node positions [Lon, Lat] are all kept |
| `Reader.OriginMemberHasNoLocation` | reader.go:76 | every member at latitude 0 and longitude 0, whatever its other fields, is stored without a location |
| `Reader.AxisMemberHasNoLocation` | reader.go:76 | every member with latitude 0 or longitude 0, whatever its other fields, loses its location, even when its other coordinate is non-zero |
| `Reader.Dispatch` | reader.go:31-100 | at most one object per record, and every object belongs to a layer listed in `layers` |
| `Reader.AcceptedIndices` | reader.go:36-99 | the positions of the accepted records, strictly increasing, with every accepted position present |
| `Reader.DispatchMatchesIndices` | reader.go:31-100 | the k-th object pushed is the conversion of the k-th accepted record, so there is exactly one object per accepted record, in input order |
| `Reader.DispatchAppend` | reader.go:31-100 | the reader works record by record: the output for a + b is the output for a followed by the output for b |
| `Reader.DispatchSingle` | reader.go:36-99 | a single record yields its object if accepted and nothing otherwise, so an `Other` record is skipped |
| `Reader.DispatchSkipsRejected` | reader.go:38-40 | inserting a rejected record anywhere leaves the output unchanged |
| `Reader.InvisibleNeverEmitted` | reader.go:38-70 | a record with `Visible == false` never shows up in the output, whatever the layers: the visibility test at lines 38, 54 and 70 |
| `Reader.DispatchKeepsAccepted` | reader.go:52-98 | an accepted record contributes its object exactly at its place in the output: the pushes at lines 52, 68 and 98 |
| `Reader.NoKnownLayerEmitsNothing` | reader.go:21-29 | when `layers` holds no known name (in particular when it is empty), nothing is pushed |
| `Reader.UnknownLayerIgnored` | reader.go:27-29 | adding an unknown name to `layers` does not change the output |
| `Reader.Read` | reader.go:31-106 | every accepted record's object is pushed, in order, and then the decoder's terminal error is returned (nil when there is none) |
| `Writer.OpFor` | writer.go:19-30 | each received object gives exactly one operation carrying it: an insert iff in initial mode, otherwise an upsert filtered on the object's whole ID |
| `Writer.Step` | writer.go:17-48 | one loop iteration. The operations issued plus those buffered grow by exactly the item's operation. A batch is issued on an item iff the buffer reaches the block size, and on a cancellation iff the buffer is non-empty. That batch is the full buffer, and the buffer is then empty. The worker keeps running only after an item with no rejected write. It returns nil only on a cancellation without a rejected write, and returns the store's error when the batch is rejected |
| `Writer.Run` | writer.go:17-49 | earlier batches are never altered. A running worker has consumed every event. A worker that returned nil did so on a `Cancel` |
| `Writer.RunConserves` | writer.go:17-49 | conservation: the operations of all issued batches, followed by the buffer, are exactly the operations of the items consumed, in order |
| `Writer.RunKeepsBlocks` | writer.go:41-48 | with block size >= 1 the buffer stays below the block size between events. No batch is empty or exceeds the block size, and only the final flush may be shorter than a block |
| `Writer.StepShortCircuits` | writer.go:31-47 | after one iteration, a new batch was either acknowledged, or rejected with exactly the error the worker returns |
| `Writer.RunStopsAtRejection` | writer.go:34-46 | a rejected write, mid-stream or final, is the last batch issued, the worker returns its error, and every earlier batch was acknowledged |
| `Writer.RunIgnoresRest` | writer.go:31-39 | once the worker has returned, further events change nothing: they are never consumed |
| `Writer.RunStopsAtFirstCancel` | writer.go:31-39 | for any events before it and any sink answers, the worker has returned once the first `Cancel` is consumed, and events after that `Cancel` change nothing |
| `Writer.WriteStopsAtFirstCancel` | writer.go:17-49 | items then `Cancel` then anything: the worker returns, consumes at most the items and the `Cancel`, and on a nil return it has issued exactly the operations of all items before the `Cancel`, in order |
| `Writer.RunDrains` | writer.go:17-39 | with a store that never fails, items followed by `Cancel` are consumed up to and including the `Cancel`, and the worker returns nil |
| `Writer.ZeroBlockSizeNeverFlushesEarly` | writer.go:41 | with block size 0 a stream of items issues no batch and buffers every operation |
| `Writer.Write` | writer.go:12-50 | from an empty buffer: conservation of operations, batch-size bounds, nil only after a `Cancel`, and an error only as the rejection of the last batch issued |
| `Writer.WriteDrainsOnCancel` | writer.go:31-39 | items then `Cancel`, with a store that never fails: the worker returns nil, and its batches hold one operation per item, in order |
| `Pipeline.OneWorkerLoadsEveryAcceptedRecord` | writer.go:17-49 | the reader's objects, then `Cancel`, fed to one worker with a store that never fails: exactly one operation per accepted record, in input order, in block-bounded batches, then nil. The reader side is reader.go:31-106, which still reports the decoder's error |
| `Pipeline.ScenarioDispatch` | reader.go:53-70 | a visible node and way with layers `nodes` and `ways` are pushed, the node at [20, 10]; an invisible relation is dropped |
| `Pipeline.ScenarioWrite` | writer.go:19-48 | with initial mode and block size 2, two objects then `Cancel` give exactly one batch of two inserts, and the worker returns nil |
| `Pipeline.ThreeRecordScenario` | writer.go:41-48 | the three-record scenario end to end: two inserts in a single batch, and no terminal flush |

## Left out

- File opening, the PBF decoder and its internal parallelism: a decoded stream is a sequence of records plus an optional terminal error. An `os.Open` failure is not modelled.
- The `ctx.Err()` check before each record in the reader (reader.go:32-34): the reader always runs to the end of the stream.
- Channels, `select` and concurrency: one worker over an explicit event sequence. The race between an item and `ctx.Done()`, multiple workers, and backpressure are not modelled.
- The store: `BulkWrite` is an opaque sink that acknowledges or rejects a whole batch. Unordered execution, per-operation failures, stored contents and upsert idempotence are the database's behaviour.
- Floating point: coordinates are reals. NaN and negative zero (Go's `-0.0 != 0.0` is false) do not exist in the model.
- A negative block size: `make` panics on a negative capacity before the loop starts, so the block size is a natural number.
- The 64-bit widths of ids and versions: the source only copies them (`int64(o.ID)` converts between 64-bit types), so unbounded integers change nothing.
- Logging, the block counter `ic`, and timestamps (copied, never inspected).
- main.go (an older single-threaded loader with its own `read` and `convertTags`) and indexes.go (index provisioning): neither is part of the bulk-load core.
