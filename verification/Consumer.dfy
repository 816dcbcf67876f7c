/** Settling deliveries (consumer/consumer.py) and the wiring and shutdown of the entry point (consumer/main.py). */
module Consumer {
  import opened Wrappers
  import opened Bronze
  import opened Buffer
  import opened WritePath

  datatype Settlement = Ack(tag: nat) | Nack(tag: nat)

  /** The object behind consumer.repository: the table itself, or the buffer that main puts in its place. */
  datatype Sink = Direct(repository: TradeRepository) | Buffered(buffer: BatchBuffer)

  /** `settled` is what the channel was told, in order. A nack is never requeued. */
  class TradeConsumer {
    var repository: Sink
    var settled: seq<Settlement>

    constructor (repository: TradeRepository)
      ensures this.repository == Direct(repository) && settled == []
    {
      this.repository, settled := Direct(repository), [];
    }

    /** main: `consumer.repository = buffer` */
    method UseBuffer(buffer: BatchBuffer)
      modifies this
      ensures repository == Buffered(buffer) && settled == old(settled)
    {
      repository := Buffered(buffer);
    }

    function Objects(): set<object>
      reads this
    {
      match repository
      case Direct(r) => {r}
      case Buffered(b) => {b, b.repository}
    }

    /**
     * One delivery; `body` is None when it does not decode to an object. The delivery is settled exactly once: directly
     * wired it is acknowledged exactly when its insert returned, with the buffer whenever it decodes; then its trade is
     * in bronze exactly when it was before, or this very call flushed and the insert committed.
     */
    method OnMessage(tag: nat, body: Option<Message>, at: int, fate: Fate)
      modifies this, Objects()
      ensures repository == old(repository)
      ensures settled == old(settled) +
        [if body.Some? && (repository.Buffered? || fate.Commits?) then Ack(tag) else Nack(tag)]
      ensures repository.Direct? && Ack(tag) == settled[|old(settled)|] ==>
        Landed(repository.repository.table, body.value)
      ensures repository.Direct? ==>
        repository.repository.table == TableStep(old(repository.repository.table), Delivery(body, at, fate))
      ensures repository.Buffered? && body.Some? ==>
        var b := repository.buffer;
        Landed(b.repository.table, body.value) <==>
          (Landed(old(b.repository.table), body.value) || AddStores(b.batchSize, old(b.View()), fate))
      ensures repository.Buffered? && body.None? ==>
        var b := repository.buffer;
        b.View() == old(b.View()) && b.repository.Contents() == old(b.repository.Contents())
      ensures repository.Buffered? && body.Some? ==>
        var b := repository.buffer;
        var o := AddCall(b.batchSize, old(b.View()), body.value, fate);
        b.View() == o.shared &&
        b.repository.Contents() == StoreAttempt(old(b.repository.Contents()), o.attempted, at, fate)
    {
      var raised := body.None?;
      if body.Some? {
        match repository {
          case Direct(r) =>
            ghost var before := r.Contents();
            raised := r.InsertOneRow(body.value, at, fate);
            InsertedLands(before, body.value, at);
          case Buffered(b) =>
            AddLandsIff(b.batchSize, b.View(), b.repository.Contents(), body.value, at, fate);
            b.Add(body.value, at, fate);
        }
      }
      settled := settled + [if raised then Nack(tag) else Ack(tag)];
    }
  }

  lemma InsertedLands(s: Store, m: Message, at: int)
    ensures Landed(InsertOne(s, m, at).table, m)
  {
    IdsConcat(s.table, [Row(m, at)]);
    IdsOfOne(Row(m, at));
    assert Row(m, at) in s.table + [Row(m, at)];
  }

  /** main: one repository, the buffer in front of it, and the consumer that adds to the buffer. */
  method Wire(batchSize: int) returns (consumer: TradeConsumer, buffer: BatchBuffer)
    ensures fresh(consumer) && fresh(buffer) && fresh(buffer.repository)
    ensures consumer.repository == Buffered(buffer) && consumer.settled == []
    ensures buffer.Valid() && buffer.View() == Initial() && buffer.batchSize == batchSize
    ensures buffer.repository.Contents() == Store([], 0)
  {
    var repository := new TradeRepository();
    buffer := new BatchBuffer(repository, batchSize);
    consumer := new TradeConsumer(repository);
    consumer.UseBuffer(buffer);
  }

  /** The call reaches the batch size, no other flush is under way, and the insert commits. */
  predicate AddStores(batchSize: int, s: Shared, fate: Fate) {
    |s.buffer| + 1 >= batchSize && !s.flushing && !fate.FailsBeforeCommit?
  }

  /** When the acknowledged message is in bronze after an `add`. */
  lemma AddLandsIff(batchSize: int, s: Shared, store: Store, m: Message, at: int, fate: Fate)
    ensures Landed(StoreAttempt(store, AddCall(batchSize, s, m, fate).attempted, at, fate).table, m) <==>
      (Landed(store.table, m) || AddStores(batchSize, s, fate))
  {
    if AddStores(batchSize, s, fate) {
      LandedAfterBatch(store.table, [], s.buffer + [m], at);
      assert [] + (s.buffer + [m]) == s.buffer + [m];
    }
  }

  /**
   * The end of main: flush, then stop. No timer is armed at the return, and a committing insert leaves nothing in the
   * buffer; a flush under way in another thread drains nothing here and starts a timer when it ends.
   */
  method Shutdown(b: BatchBuffer, at: int, fate: Fate)
    modifies b, b.repository
    ensures b.timer == None && (old(b.Valid()) ==> b.armed == {})
    ensures CanTake(old(b.View())) && fate.Commits? ==>
      b.buffer == [] && forall m | m in old(b.buffer) :: Landed(b.repository.table, m)
    ensures old(b.flushing) ==> b.buffer == old(b.buffer) && b.repository.Contents() == old(b.repository.Contents())
  {
    ghost var table := b.repository.table;
    ghost var batch := b.buffer;
    b.Flush(at, fate);
    b.StopTimer();
    LandedAfterBatch(table, [], batch, at);
    assert [] + batch == batch;
  }

  // --- Any history of deliveries to the directly wired consumer ---

  datatype Delivery = Delivery(body: Option<Message>, at: int, fate: Fate)

  /** The table after one delivery. */
  function TableStep(table: seq<Row>, d: Delivery): seq<Row> {
    if d.body.None? || d.fate.FailsBeforeCommit? then table else InsertOne(Store(table, 0), d.body.value, d.at).table
  }

  function TableAfter(start: seq<Row>, ds: seq<Delivery>): seq<Row> {
    if ds == [] then start else TableStep(TableAfter(start, ds[..|ds| - 1]), ds[|ds| - 1])
  }

  predicate Acked(d: Delivery) {
    d.body.Some? && d.fate.Commits?
  }

  /** From any table, every acknowledged trade is in bronze for good, and bronze keeps one row per id. */
  lemma {:induction false} AckedIsStored(start: seq<Row>, ds: seq<Delivery>)
    requires UniqueIds(start)
    ensures UniqueIds(TableAfter(start, ds))
    ensures forall d | d in ds && Acked(d) :: Landed(TableAfter(start, ds), d.body.value)
    ensures start <= TableAfter(start, ds)
  {
    if ds != [] {
      var n := |ds| - 1;
      var before := ds[..n];
      AckedIsStored(start, before);
      assert ds == before + [ds[n]];
      if ds[n].body.Some? && !ds[n].fate.FailsBeforeCommit? {
        InsertOneKeeps(TableAfter(start, before), ds[n].body.value, ds[n].at);
      }
    }
  }

  lemma InsertOneKeeps(table: seq<Row>, m: Message, at: int)
    requires UniqueIds(table)
    ensures var table' := InsertOne(Store(table, 0), m, at).table;
      UniqueIds(table') && Landed(table', m) && forall x | Landed(table, x) :: Landed(table', x)
  {
    InsertedLands(Store(table, 0), m, at);
    IdsConcat(table, [Row(m, at)]);
    KeptUnique(table, [m], at);
    assert Kept(table, [m], at) == if Survives(table, [m], 0) then [Row(m, at)] else [] by {
      assert [m][..0] == [];
    }
    forall x | Landed(table, x) && x.tradeId.None?
      ensures Landed(table + [Row(m, at)], x)
    {
      var r :| r in table && r.message == x;
      assert r in table + [Row(m, at)];
    }
  }
}
