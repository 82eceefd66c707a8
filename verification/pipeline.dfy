/** The reader feeding one worker: the reader's objects are received as items
    and the cancellation arrives once the reader has returned. */
module Pipeline {
  import opened Models
  import Osm
  import Reader
  import opened Writer

  /** With a store that never fails, one worker fed everything the reader
      pushes and then the cancellation returns nil, and the batches it issued
      hold exactly one operation per accepted record, in input order, in
      batches no larger than a block. The reader still reports the decoder's
      terminal error. */
  lemma OneWorkerLoadsEveryAcceptedRecord(cfg: Config, sink: Sink, source: Reader.Decoded, layers: seq<string>)
    requires AlwaysAcks(sink)
    ensures var read := Reader.Read(source, layers);
      var t := Write(cfg, sink, Items(read.emitted) + [Cancel]);
      var idx := Reader.AcceptedIndices(source.records, layers);
      var ops := Flatten(t.worker.batches);
      && read.failure == source.failure
      && t.worker.status == Returned(None)
      && (cfg.blockSize >= 1 ==> BlockBounded(t.worker.batches, cfg.blockSize))
      && |ops| == |idx|
      && forall k :: 0 <= k < |idx| ==>
           ops[k] == OpFor(cfg.initial, Reader.Convert(source.records[idx[k]]))
  {
    var read := Reader.Read(source, layers);
    assert Items(read.emitted) + [Cancel] + [] == Items(read.emitted) + [Cancel];
    WriteDrainsOnCancel(cfg, sink, read.emitted, []);
  }

  /** A sink that acknowledges every batch. */
  function AcceptAll(): (sink: Sink)
    ensures AlwaysAcks(sink)
  {
    (i: nat, batch: seq<WriteOp>) => Acked
  }

  function ScenarioRecords(): seq<Osm.Record>
  {
    [ Osm.Node(1, true, 1, 0, [], 10.0, 20.0),
      Osm.Way(2, true, 1, 0, [], [Osm.WayNode(1)]),
      Osm.Relation(3, false, 1, 0, [], [Osm.Member("node", 1, "", 0, 0.0, 0.0, 0)]) ]
  }

  function ScenarioNode(): Object
  {
    Object(ID(1, NodeType, 1), [], 0, Some(Point(20.0, 10.0)), None, None)
  }

  function ScenarioWay(): Object
  {
    Object(ID(2, WayType, 1), [], 0, None, Some([1]), None)
  }

  /** The reader's part of the scenario: with the node and way layers on,
      the node and the way are pushed, longitude first for the node, and the
      invisible relation is dropped. */
  lemma ScenarioDispatch()
    ensures Reader.Dispatch(ScenarioRecords(), ["nodes", "ways"]) == [ScenarioNode(), ScenarioWay()]
  {
    var records := ScenarioRecords();
    var layers := ["nodes", "ways"];
    assert Reader.Convert(records[0]) == ScenarioNode();
    assert Reader.Convert(records[1]) == ScenarioWay() by {
      assert Reader.WayNodeIds([Osm.WayNode(1)]) == [1];
    }
    assert !Reader.Accepts(layers, records[2]);
    assert records[..2][..1] == [records[0]];
    assert records[..2] == records[..2][..1] + [records[1]];
    assert Reader.Dispatch([records[0]], layers) == [ScenarioNode()] by {
      Reader.DispatchSingle(records[0], layers);
    }
  }

  /** The worker's part of the scenario: initial mode, block size 2, the two
      objects and then the cancellation. The buffer fills on the second item
      and is written as one batch of two inserts; the cancellation finds it
      empty and issues nothing more. */
  lemma ScenarioWrite()
    ensures var t := Write(Config(true, 2), AcceptAll(), Items([ScenarioNode(), ScenarioWay()]) + [Cancel]);
      && t.worker.batches == [[Insert(ScenarioNode()), Insert(ScenarioWay())]]
      && t.worker.status == Returned(None)
      && t.consumed == 3
  {
    var node, way := ScenarioNode(), ScenarioWay();
    var cfg := Config(true, 2);
    var sink := AcceptAll();
    var events := Items([node, way]) + [Cancel];
    assert events == [Item(node), Item(way), Cancel];
    var w1 := Step(cfg, sink, Idle, Item(node));
    assert w1 == Worker([Insert(node)], [], Running);
    var batch := [Insert(node), Insert(way)];
    assert w1.buffer + [OpFor(true, way)] == batch;
    assert sink(|w1.batches|, batch) == Acked;
    assert Issue(sink, w1.batches, batch, Running) == Worker([], [batch], Running);
    var w2 := Step(cfg, sink, w1, Item(way));
    assert w2 == Worker([], [[Insert(node), Insert(way)]], Running);
    var w3 := Step(cfg, sink, w2, Cancel);
    assert w3 == Worker([], [[Insert(node), Insert(way)]], Returned(None));
    assert Run(cfg, sink, w2, [Cancel]) == Trace(w3, 1) by {
      assert [Cancel][1..] == [];
    }
    assert Run(cfg, sink, w1, [Item(way), Cancel]) == Trace(w3, 2) by {
      assert [Item(way), Cancel][1..] == [Cancel];
    }
    assert Run(cfg, sink, Idle, events) == Trace(w3, 3) by {
      assert events[1..] == [Item(way), Cancel];
    }
  }

  /** The three-record scenario end to end: exactly two write operations,
      both inserts, in a single batch. */
  lemma ThreeRecordScenario()
    ensures var t := Write(Config(true, 2), AcceptAll(),
                           Items(Reader.Dispatch(ScenarioRecords(), ["nodes", "ways"])) + [Cancel]);
      && t.worker.batches == [[Insert(ScenarioNode()), Insert(ScenarioWay())]]
      && t.worker.status == Returned(None)
  {
    ScenarioDispatch();
    ScenarioWrite();
  }
}
