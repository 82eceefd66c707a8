/** One writer worker (writer.go), made deterministic: the items it receives
    and the cancellation it observes form a sequence of events, and the worker
    is a fold of `Step` over that sequence. The store's bulk write is an
    opaque sink that acknowledges or rejects a whole batch. */
module Writer {
  import opened Models

  /** A write operation in a batch: a plain insert (initial load) or an
      upsert whose filter is the object's identity (incremental load). */
  datatype WriteOp = Insert(document: Object) | Upsert(filter: ID, document: Object)

  /** What the worker's select loop observes next. */
  datatype Event = Item(value: Object) | Cancel

  /** The store's answer to one bulk write. */
  datatype Ack = Acked | Rejected(failure: Failure)

  /** The bulk write: given how many batches this worker issued before and
      the batch itself, the store acknowledges or rejects it. */
  type Sink = (nat, seq<WriteOp>) -> Ack

  /** `initial` selects inserts over upserts; `blockSize` is the flush
      threshold (a negative one makes the buffer allocation fail, so it is a
      natural number here). */
  datatype Config = Config(initial: bool, blockSize: nat)

  /** A worker is still looping, or has returned nil or an error. */
  datatype Status = Running | Returned(failure: Option<Failure>)

  /** The worker's private buffer, every batch it has issued so far (in
      order) and whether it is still looping. */
  datatype Worker = Worker(buffer: seq<WriteOp>, batches: seq<seq<WriteOp>>, status: Status)

  /** A run of the worker: its final state and how many events it consumed. */
  datatype Trace = Trace(worker: Worker, consumed: nat)

  const Idle: Worker := Worker([], [], Running)

  /** The one operation a received object adds to the buffer. */
  function OpFor(initial: bool, o: Object): (op: WriteOp)
    ensures op.document == o
    ensures op.Insert? <==> initial
    ensures op.Upsert? ==> op.filter == o.id
  {
    if initial then Insert(o) else Upsert(o.id, o)
  }

  function Ops(initial: bool, objects: seq<Object>): seq<WriteOp>
  {
    seq(|objects|, i requires 0 <= i < |objects| => OpFor(initial, objects[i]))
  }

  lemma OpsAppend(initial: bool, a: seq<Object>, b: seq<Object>)
    ensures Ops(initial, a + b) == Ops(initial, a) + Ops(initial, b)
  {
  }

  /** All operations of a list of batches, in issue order. */
  function Flatten<T>(batches: seq<seq<T>>): seq<T>
  {
    if |batches| == 0 then []
    else Flatten(batches[..|batches| - 1]) + batches[|batches| - 1]
  }

  /** The objects carried by the item events of a sequence, in order. */
  function ItemsIn(events: seq<Event>): seq<Object>
  {
    if |events| == 0 then []
    else (if events[0].Item? then [events[0].value] else []) + ItemsIn(events[1..])
  }

  /** One item event per object. */
  function Items(objects: seq<Object>): seq<Event>
  {
    seq(|objects|, i requires 0 <= i < |objects| => Item(objects[i]))
  }

  lemma {:induction false} ItemsInItems(objects: seq<Object>)
    ensures ItemsIn(Items(objects)) == objects
  {
    if |objects| > 0 {
      ItemsInItems(objects[1..]);
      assert Items(objects)[1..] == Items(objects[1..]);
    }
  }

  lemma ItemsInCons(e: Event, events: seq<Event>)
    ensures ItemsIn([e] + events) == (if e.Item? then [e.value] else []) + ItemsIn(events)
  {
    assert ([e] + events)[1..] == events;
  }

  /** Hand a batch to the sink; after an acknowledgement the worker goes on
      in `next`, after a rejection it returns the error. */
  function Issue(sink: Sink, batches: seq<seq<WriteOp>>, batch: seq<WriteOp>, next: Status): Worker
  {
    match sink(|batches|, batch)
    case Acked => Worker([], batches + [batch], next)
    case Rejected(f) => Worker([], batches + [batch], Returned(Some(f)))
  }

  /** One iteration of the worker's loop. An item appends its operation and,
      when the buffer reaches the block size, the buffer is written and
      emptied. A cancellation writes what is buffered, if anything, and ends
      the loop. A rejected write ends the loop with the store's error. */
  function Step(cfg: Config, sink: Sink, w: Worker, e: Event): (r: Worker)
    requires w.status.Running?
    ensures Flatten(r.batches) + r.buffer
      == Flatten(w.batches) + w.buffer + (if e.Item? then [OpFor(cfg.initial, e.value)] else [])
    ensures |w.batches| <= |r.batches| <= |w.batches| + 1 && r.batches[..|w.batches|] == w.batches
    ensures |r.batches| > |w.batches|
      <==> (if e.Item? then |w.buffer| + 1 == cfg.blockSize else |w.buffer| > 0)
    ensures |r.batches| > |w.batches| ==>
      r.batches[|w.batches|] == (if e.Item? then w.buffer + [OpFor(cfg.initial, e.value)] else w.buffer)
      && r.buffer == []
    ensures r.status.Running?
      <==> e.Item? && (|r.batches| == |w.batches| || sink(|w.batches|, r.batches[|w.batches|]).Acked?)
    ensures r.status == Returned(None)
      <==> e.Cancel? && (|r.batches| == |w.batches| || sink(|w.batches|, r.batches[|w.batches|]).Acked?)
    ensures |r.batches| > |w.batches| && sink(|w.batches|, r.batches[|w.batches|]).Rejected? ==>
      r.status == Returned(Some(sink(|w.batches|, r.batches[|w.batches|]).failure))
    ensures !r.status.Running? ==> r.buffer == []
  {
    match e
    case Item(o) =>
      var buf := w.buffer + [OpFor(cfg.initial, o)];
      if |buf| == cfg.blockSize then
        var r := Issue(sink, w.batches, buf, Running);
        assert r.batches[..|w.batches|] == w.batches;
        r
      else Worker(buf, w.batches, Running)
    case Cancel =>
      if |w.buffer| > 0 then
        var r := Issue(sink, w.batches, w.buffer, Returned(None));
        assert r.batches[..|w.batches|] == w.batches;
        r
      else Worker([], w.batches, Returned(None))
  }

  /** The worker's loop from state `w` over `events`: it stops when it has
      returned or when no event is left. */
  function Run(cfg: Config, sink: Sink, w: Worker, events: seq<Event>): (t: Trace)
    ensures t.consumed <= |events|
    ensures |w.batches| <= |t.worker.batches| && t.worker.batches[..|w.batches|] == w.batches
    ensures !w.status.Running? ==> t == Trace(w, 0)
    ensures t.worker.status.Running? ==> t.consumed == |events|
    ensures w.status.Running? && !t.worker.status.Running? ==> t.worker.buffer == []
    ensures w.status.Running? && t.worker.status == Returned(None) ==>
      0 < t.consumed && events[t.consumed - 1].Cancel?
    decreases |events|
  {
    if !w.status.Running? || |events| == 0 then Trace(w, 0)
    else
      var w1 := Step(cfg, sink, w, events[0]);
      var t := Run(cfg, sink, w1, events[1..]);
      assert t.worker.batches[..|w.batches|] == t.worker.batches[..|w1.batches|][..|w.batches|];
      Trace(t.worker, t.consumed + 1)
  }

  /** Conservation: what was issued plus what is still buffered is exactly
      the operations of the items consumed, in order. */
  lemma {:induction false} RunConserves(cfg: Config, sink: Sink, w: Worker, events: seq<Event>)
    ensures Flatten(Run(cfg, sink, w, events).worker.batches) + Run(cfg, sink, w, events).worker.buffer
      == Flatten(w.batches) + w.buffer
         + Ops(cfg.initial, ItemsIn(events[..Run(cfg, sink, w, events).consumed]))
    decreases |events|
  {
    var t := Run(cfg, sink, w, events);
    if w.status.Running? && |events| > 0 {
      var w1 := Step(cfg, sink, w, events[0]);
      var t1 := Run(cfg, sink, w1, events[1..]);
      assert t == Trace(t1.worker, t1.consumed + 1);
      RunConserves(cfg, sink, w1, events[1..]);
      OpsOfPrefix(cfg.initial, events, t.consumed);
      Chain(Flatten(t.worker.batches) + t.worker.buffer, Flatten(w1.batches) + w1.buffer,
            Flatten(w.batches) + w.buffer,
            if events[0].Item? then [OpFor(cfg.initial, events[0].value)] else [],
            Ops(cfg.initial, ItemsIn(events[1..][..t1.consumed])));
    } else {
      assert events[..t.consumed] == [];
    }
  }

  lemma Chain<T>(x: seq<T>, y: seq<T>, z: seq<T>, head: seq<T>, tail: seq<T>)
    requires x == y + tail && y == z + head
    ensures x == z + (head + tail)
  {
  }

  /** The operations of the items among the first `n` events: those of the
      first event, then those of the next `n - 1`. */
  lemma OpsOfPrefix(initial: bool, events: seq<Event>, n: nat)
    requires 0 < n <= |events|
    ensures Ops(initial, ItemsIn(events[..n]))
      == (if events[0].Item? then [OpFor(initial, events[0].value)] else [])
         + Ops(initial, ItemsIn(events[1..][..n - 1]))
  {
    var head := if events[0].Item? then [events[0].value] else [];
    assert events[..n] == [events[0]] + events[1..][..n - 1];
    ItemsInCons(events[0], events[1..][..n - 1]);
    OpsAppend(initial, head, ItemsIn(events[1..][..n - 1]));
  }

  /** Every batch except possibly the last is exactly a block. */
  predicate Full(batches: seq<seq<WriteOp>>, blockSize: nat)
  {
    forall i :: 0 <= i < |batches| ==> |batches[i]| == blockSize
  }

  /** No batch is empty or larger than a block, and only the last may be
      smaller than a block. */
  predicate BlockBounded(batches: seq<seq<WriteOp>>, blockSize: nat)
  {
    forall i :: 0 <= i < |batches| ==>
      0 < |batches[i]| <= blockSize && (i < |batches| - 1 ==> |batches[i]| == blockSize)
  }

  /** With a positive block size the buffer stays below a block between
      events; while the worker runs every batch is a full block, and after it
      returns only the final flush may be shorter, and it is never empty. */
  lemma {:induction false} RunKeepsBlocks(cfg: Config, sink: Sink, w: Worker, events: seq<Event>)
    requires cfg.blockSize >= 1 && w.status.Running?
    requires |w.buffer| < cfg.blockSize && Full(w.batches, cfg.blockSize)
    ensures var t := Run(cfg, sink, w, events);
      && |t.worker.buffer| < cfg.blockSize
      && (t.worker.status.Running? ==> Full(t.worker.batches, cfg.blockSize))
      && BlockBounded(t.worker.batches, cfg.blockSize)
    decreases |events|
  {
    if |events| > 0 {
      var w1 := Step(cfg, sink, w, events[0]);
      assert |w1.buffer| < cfg.blockSize;
      if w1.status.Running? {
        assert Full(w1.batches, cfg.blockSize) by {
          if |w1.batches| > |w.batches| {
            assert w1.batches == w.batches + [w1.batches[|w.batches|]];
          } else {
            assert w1.batches == w.batches;
          }
        }
        RunKeepsBlocks(cfg, sink, w1, events[1..]);
      } else {
        if |w1.batches| > |w.batches| {
          assert w1.batches == w.batches + [w1.batches[|w.batches|]];
        } else {
          assert w1.batches == w.batches;
        }
      }
    }
  }

  /** Whether a status is a returned error. */
  predicate Failed(s: Status)
  {
    s.Returned? && s.failure.Some?
  }

  /** The sink acknowledged the batches at positions lo up to hi. */
  predicate AckedRange(sink: Sink, batches: seq<seq<WriteOp>>, lo: nat, hi: nat)
    requires lo <= hi <= |batches|
  {
    forall j :: lo <= j < hi ==> sink(j, batches[j]).Acked?
  }

  /** The worker's record of its writes: every batch it issued since it held
      `issuedBefore` batches was acknowledged, except that a worker that
      returned an error issued a last batch, which the sink rejected with
      that very error. */
  predicate ShortCircuits(sink: Sink, issuedBefore: nat, w: Worker)
  {
    && issuedBefore <= |w.batches|
    && (Failed(w.status) ==>
          issuedBefore < |w.batches|
          && sink(|w.batches| - 1, w.batches[|w.batches| - 1]) == Rejected(w.status.failure.value)
          && AckedRange(sink, w.batches, issuedBefore, |w.batches| - 1))
    && (!Failed(w.status) ==> AckedRange(sink, w.batches, issuedBefore, |w.batches|))
  }

  lemma StepShortCircuits(cfg: Config, sink: Sink, w: Worker, e: Event)
    requires w.status.Running?
    ensures ShortCircuits(sink, |w.batches|, Step(cfg, sink, w, e))
  {
  }

  /** Error short-circuit: a rejected bulk write ends the worker at once with
      the store's error, so it is the last batch issued, and every batch
      before it was acknowledged. */
  lemma {:induction false} RunStopsAtRejection(cfg: Config, sink: Sink, w: Worker, events: seq<Event>)
    requires w.status.Running?
    ensures ShortCircuits(sink, |w.batches|, Run(cfg, sink, w, events).worker)
    decreases |events|
  {
    if |events| == 0 {
      assert Run(cfg, sink, w, events).worker == w;
    } else {
      var w1 := Step(cfg, sink, w, events[0]);
      StepShortCircuits(cfg, sink, w, events[0]);
      var t := Run(cfg, sink, w, events);
      if w1.status.Running? {
        RunStopsAtRejection(cfg, sink, w1, events[1..]);
        var n0 := |w.batches|;
        if |w1.batches| > n0 {
          var bs := t.worker.batches;
          assert bs[n0] == w1.batches[n0] by {
            assert bs[..|w1.batches|] == w1.batches;
          }
          var hi := if Failed(t.worker.status) then |bs| - 1 else |bs|;
          AckedRangeDown(sink, bs, n0, hi);
        }
      } else {
        assert t.worker == w1;
      }
    }
  }

  lemma AckedRangeDown(sink: Sink, batches: seq<seq<WriteOp>>, lo: nat, hi: nat)
    requires lo < hi <= |batches|
    requires sink(lo, batches[lo]).Acked? && AckedRange(sink, batches, lo + 1, hi)
    ensures AckedRange(sink, batches, lo, hi)
  {
  }

  /** Events after the worker has returned are never consumed: extending the
      event sequence changes nothing. */
  lemma {:induction false} RunIgnoresRest(cfg: Config, sink: Sink, w: Worker, events: seq<Event>, rest: seq<Event>)
    requires !Run(cfg, sink, w, events).worker.status.Running?
    ensures Run(cfg, sink, w, events + rest) == Run(cfg, sink, w, events)
    decreases |events|
  {
    if w.status.Running? {
      assert (events + rest)[0] == events[0];
      assert (events + rest)[1..] == events[1..] + rest;
      RunIgnoresRest(cfg, sink, Step(cfg, sink, w, events[0]), events[1..], rest);
    }
  }

  /** The first cancellation ends the loop, whatever came before it and
      whatever the sink answers: the worker has returned once it is consumed,
      and nothing after it is ever consumed. */
  lemma {:induction false} RunStopsAtFirstCancel(cfg: Config, sink: Sink, w: Worker, a: seq<Event>, rest: seq<Event>)
    requires w.status.Running?
    ensures !Run(cfg, sink, w, a + [Cancel]).worker.status.Running?
    ensures Run(cfg, sink, w, a + [Cancel] + rest) == Run(cfg, sink, w, a + [Cancel])
    decreases |a|
  {
    var events := a + [Cancel];
    var w1 := Step(cfg, sink, w, events[0]);
    assert (events + rest)[0] == events[0];
    assert (events + rest)[1..] == events[1..] + rest;
    if |a| == 0 {
      assert events[1..] == [];
      assert Run(cfg, sink, w1, events[1..]) == Trace(w1, 0);
      assert Run(cfg, sink, w1, events[1..] + rest) == Trace(w1, 0);
    } else if w1.status.Running? {
      assert events[1..] == a[1..] + [Cancel];
      RunStopsAtFirstCancel(cfg, sink, w1, a[1..], rest);
    } else {
      assert Run(cfg, sink, w1, events[1..]) == Trace(w1, 0);
      assert Run(cfg, sink, w1, events[1..] + rest) == Trace(w1, 0);
    }
  }

  /** No item after the first cancellation is ever written: with `a` holding
      only items, the worker consumes at most `a` and the cancellation, and
      the operations it issued and still buffers are those of a prefix of
      `a`'s items; when no write was rejected, they are exactly the
      operations of all of `a`'s items, all issued. */
  lemma WriteStopsAtFirstCancel(cfg: Config, sink: Sink, a: seq<Event>, rest: seq<Event>)
    requires forall k :: 0 <= k < |a| ==> a[k].Item?
    ensures Write(cfg, sink, a + [Cancel] + rest) == Write(cfg, sink, a + [Cancel])
    ensures var t := Write(cfg, sink, a + [Cancel] + rest);
      && !t.worker.status.Running?
      && t.consumed <= |a| + 1
      && (t.worker.status == Returned(None) ==>
            t.consumed == |a| + 1 && Flatten(t.worker.batches) == Ops(cfg.initial, ItemsIn(a)))
  {
    RunStopsAtFirstCancel(cfg, sink, Idle, a, rest);
    var t := Write(cfg, sink, a + [Cancel]);
    if t.worker.status == Returned(None) {
      assert (a + [Cancel])[t.consumed - 1].Cancel?;
      assert t.consumed == |a| + 1;
      ItemsInSnocCancel(a);
      assert (a + [Cancel])[..t.consumed] == a + [Cancel];
    }
  }

  lemma {:induction false} ItemsInSnocCancel(a: seq<Event>)
    ensures ItemsIn(a + [Cancel]) == ItemsIn(a)
    decreases |a|
  {
    if |a| == 0 {
      assert a + [Cancel] == [Cancel];
      assert [Cancel][1..] == [];
    } else {
      assert (a + [Cancel])[1..] == a[1..] + [Cancel];
      ItemsInSnocCancel(a[1..]);
    }
  }

  /** A sink that acknowledges every batch. */
  ghost predicate AlwaysAcks(sink: Sink)
  {
    forall i, batch :: sink(i, batch) == Acked
  }

  /** With a sink that never fails, a worker fed some items and then a
      cancellation consumes exactly those events and returns nil. */
  lemma {:induction false} RunDrains(cfg: Config, sink: Sink, w: Worker, objects: seq<Object>, rest: seq<Event>)
    requires AlwaysAcks(sink) && w.status.Running?
    ensures Run(cfg, sink, w, Items(objects) + [Cancel] + rest).consumed == |objects| + 1
    ensures Run(cfg, sink, w, Items(objects) + [Cancel] + rest).worker.status == Returned(None)
    decreases |objects|
  {
    var events := Items(objects) + [Cancel] + rest;
    if |objects| == 0 {
      assert events[0] == Cancel;
    } else {
      assert events[0] == Item(objects[0]);
      assert events[1..] == Items(objects[1..]) + [Cancel] + rest;
      var w1 := Step(cfg, sink, w, events[0]);
      RunDrains(cfg, sink, w1, objects[1..], rest);
    }
  }

  /** With block size zero the check after an append never fires, so a
      worker that sees only items issues no batch and keeps them all. */
  lemma {:induction false} ZeroBlockSizeNeverFlushesEarly(cfg: Config, sink: Sink, w: Worker, objects: seq<Object>)
    requires cfg.blockSize == 0 && w.status.Running?
    ensures Run(cfg, sink, w, Items(objects)).worker
      == Worker(w.buffer + Ops(cfg.initial, objects), w.batches, Running)
    decreases |objects|
  {
    if |objects| > 0 {
      var events := Items(objects);
      assert events[0] == Item(objects[0]);
      assert events[1..] == Items(objects[1..]);
      var w1 := Step(cfg, sink, w, events[0]);
      ZeroBlockSizeNeverFlushesEarly(cfg, sink, w1, objects[1..]);
      assert Ops(cfg.initial, objects) == [OpFor(cfg.initial, objects[0])] + Ops(cfg.initial, objects[1..]);
    }
  }

  /** The worker from an empty buffer. */
  function Write(cfg: Config, sink: Sink, events: seq<Event>): (t: Trace)
    ensures t.consumed <= |events|
    ensures Flatten(t.worker.batches) + t.worker.buffer == Ops(cfg.initial, ItemsIn(events[..t.consumed]))
    ensures !t.worker.status.Running? ==>
      t.worker.buffer == [] && Flatten(t.worker.batches) == Ops(cfg.initial, ItemsIn(events[..t.consumed]))
    ensures cfg.blockSize >= 1 ==>
      |t.worker.buffer| < cfg.blockSize && BlockBounded(t.worker.batches, cfg.blockSize)
    ensures t.worker.status == Returned(None) ==> 0 < t.consumed && events[t.consumed - 1].Cancel?
    ensures Failed(t.worker.status) ==>
      0 < |t.worker.batches|
      && sink(|t.worker.batches| - 1, t.worker.batches[|t.worker.batches| - 1]) == Rejected(t.worker.status.failure.value)
  {
    var t := Run(cfg, sink, Idle, events);
    RunConserves(cfg, sink, Idle, events);
    RunStopsAtRejection(cfg, sink, Idle, events);
    if cfg.blockSize >= 1 then
      RunKeepsBlocks(cfg, sink, Idle, events);
      t
    else t
  }

  /** A clean shutdown: items, then a cancellation, with a sink that never
      fails. The worker returns nil after consuming exactly those events, and
      the batches it issued hold one operation per item, in order. */
  lemma WriteDrainsOnCancel(cfg: Config, sink: Sink, objects: seq<Object>, rest: seq<Event>)
    requires AlwaysAcks(sink)
    ensures Write(cfg, sink, Items(objects) + [Cancel] + rest).worker.status == Returned(None)
    ensures Write(cfg, sink, Items(objects) + [Cancel] + rest).consumed == |objects| + 1
    ensures Flatten(Write(cfg, sink, Items(objects) + [Cancel] + rest).worker.batches)
      == Ops(cfg.initial, objects)
  {
    var events := Items(objects) + [Cancel] + rest;
    RunDrains(cfg, sink, Idle, objects, rest);
    assert events[..|objects| + 1] == Items(objects) + [Cancel];
    ItemsInAppendCancel(objects);
  }

  lemma ItemsInAppendCancel(objects: seq<Object>)
    ensures ItemsIn(Items(objects) + [Cancel]) == objects
  {
    ItemsInSnocCancel(Items(objects));
    ItemsInItems(objects);
  }

}
