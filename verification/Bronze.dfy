/** The bronze table and the repository that writes it (consumer/repository.py, migrations/). */
module Bronze {
  import opened Wrappers

  /** The JSON fields the silver model reads. `time` counts microseconds. */
  datatype Payload = Payload(price: real, size: real, side: string, time: int)

  /** A decoded message; `trade_id` may be missing, and then the unique index ignores the row. */
  datatype Message = Message(tradeId: Option<string>, payload: Payload)

  datatype Row = Row(message: Message, receivedAt: int)

  /** How one insert call ends; an exception after the commit may come before or after duplicates are `counted`. */
  datatype Fate = Commits | FailsBeforeCommit | CommitsThenRaises(counted: bool)

  predicate Counts(fate: Fate) {
    fate.Commits? || (fate.CommitsThenRaises? && fate.counted)
  }

  function Ids(rows: seq<Row>): set<string> {
    set r | r in rows && r.message.tradeId.Some? :: r.message.tradeId.value
  }

  function MessageIds(ms: seq<Message>): set<string> {
    set m | m in ms && m.tradeId.Some? :: m.tradeId.value
  }

  /** The unique index on trade_id: NULLs never collide. */
  ghost predicate UniqueIds(rows: seq<Row>) {
    forall i, j | 0 <= i < j < |rows| && rows[i].message.tradeId.Some? ::
      rows[i].message.tradeId != rows[j].message.tradeId
  }

  // --- One multi-row INSERT ... ON CONFLICT (trade_id) DO NOTHING ---

  /** Row i is inserted unless its id is already stored or stands earlier in the same statement. */
  predicate Survives(table: seq<Row>, batch: seq<Message>, i: nat)
    requires i < |batch|
  {
    batch[i].tradeId.Some? ==>
      batch[i].tradeId.value !in Ids(table) && batch[i].tradeId.value !in MessageIds(batch[..i])
  }

  /** The rows the statement adds (and RETURNING reports), in order. */
  function Kept(table: seq<Row>, batch: seq<Message>, at: int): (rows: seq<Row>)
    ensures |rows| <= |batch|
    ensures forall r | r in rows :: r.receivedAt == at
  {
    if batch == [] then [] else
      var n := |batch| - 1;
      Kept(table, batch[..n], at) + if Survives(table, batch, n) then [Row(batch[n], at)] else []
  }

  // --- insert_one, folded over a list ---

  datatype Store = Store(table: seq<Row>, skipped: nat)

  function InsertOne(s: Store, m: Message, at: int): Store {
    if m.tradeId.Some? && m.tradeId.value in Ids(s.table)
    then s.(skipped := s.skipped + 1)
    else s.(table := s.table + [Row(m, at)])
  }

  /** One `insert_one` call after another, each reading its own clock. */
  function InsertEach(s: Store, ms: seq<Message>, clock: seq<int>): Store
    requires |ms| == |clock|
  {
    if ms == [] then s else
      var n := |ms| - 1;
      InsertOne(InsertEach(s, ms[..n], clock[..n]), ms[n], clock[n])
  }

  /** The row that an insert adds carries the message and the clock reading of its call; a stored id adds nothing. */
  lemma InsertOneRowAdded(s: Store, m: Message, at: int)
    ensures var s' := InsertOne(s, m, at);
      if m.tradeId.Some? && exists r :: r in s.table && r.message.tradeId == m.tradeId
      then s'.table == s.table && s'.skipped == s.skipped + 1
      else s'.skipped == s.skipped && |s'.table| == |s.table| + 1 && s.table <= s'.table
           && s'.table[|s.table|].message == m && s'.table[|s.table|].receivedAt == at
  {
    if r :| r in s.table && r.message.tradeId == m.tradeId && m.tradeId.Some? {
      assert r.message.tradeId.value in Ids(s.table);
    }
  }

  function Messages(rows: seq<Row>): (ms: seq<Message>)
    ensures |ms| == |rows|
  {
    seq(|rows|, i requires 0 <= i < |rows| => rows[i].message)
  }

  // --- Facts about the statement ---

  lemma IdsConcat(a: seq<Row>, b: seq<Row>)
    ensures Ids(a + b) == Ids(a) + Ids(b)
  {
    forall id | id in Ids(a) + Ids(b)
      ensures id in Ids(a + b)
    {
      var r :| (r in a || r in b) && r.message.tradeId == Some(id);
      assert r in a + b;
    }
  }

  lemma MessageIdsConcat(a: seq<Message>, b: seq<Message>)
    ensures MessageIds(a + b) == MessageIds(a) + MessageIds(b)
  {
    forall id | id in MessageIds(a) + MessageIds(b)
      ensures id in MessageIds(a + b)
    {
      var m :| (m in a || m in b) && m.tradeId == Some(id);
      assert m in a + b;
    }
  }

  lemma IdsOfOne(r: Row)
    ensures Ids([r]) == MessageIds([r.message])
    ensures MessageIds([r.message]) == if r.message.tradeId.Some? then {r.message.tradeId.value} else {}
  {
    assert r in [r] && r.message in [r.message];
  }

  lemma {:induction false} IdsAfterBatch(table: seq<Row>, batch: seq<Message>, at: int)
    ensures Ids(table + Kept(table, batch, at)) == Ids(table) + MessageIds(batch)
  {
    if batch == [] {
      assert table + Kept(table, batch, at) == table;
    } else {
      var n := |batch| - 1;
      IdsAfterBatch(table, batch[..n], at);
      var front := table + Kept(table, batch[..n], at);
      assert batch == batch[..n] + [batch[n]];
      MessageIdsConcat(batch[..n], [batch[n]]);
      IdsOfOne(Row(batch[n], at));
      if Survives(table, batch, n) {
        assert table + Kept(table, batch, at) == front + [Row(batch[n], at)];
        IdsConcat(front, [Row(batch[n], at)]);
      } else {
        assert table + Kept(table, batch, at) == front;
      }
    }
  }

  /** A statement split in two pages of the same transaction inserts the same rows. */
  lemma {:induction false} PagesCompose(table: seq<Row>, a: seq<Message>, b: seq<Message>, at: int)
    ensures Kept(table, a + b, at) == Kept(table, a, at) + Kept(table + Kept(table, a, at), b, at)
  {
    if b == [] {
      assert a + b == a;
    } else {
      var n := |b| - 1;
      var table' := table + Kept(table, a, at);
      PagesCompose(table, a, b[..n], at);
      IdsAfterBatch(table, a, at);
      MessageIdsConcat(a, b[..n]);
      assert (a + b)[..|a + b| - 1] == a + b[..n];
    }
  }

  lemma IdsOfMessages(rows: seq<Row>)
    ensures MessageIds(Messages(rows)) == Ids(rows)
  {
    forall id | id in Ids(rows)
      ensures id in MessageIds(Messages(rows))
    {
      var i :| 0 <= i < |rows| && rows[i].message.tradeId == Some(id);
      assert Messages(rows)[i] == rows[i].message;
    }
    forall id | id in MessageIds(Messages(rows))
      ensures id in Ids(rows)
    {
      var i :| 0 <= i < |rows| && Messages(rows)[i].tradeId == Some(id);
      assert rows[i] in rows;
    }
  }

  lemma MessagesSnoc(rows: seq<Row>, r: Row)
    ensures Messages(rows + [r]) == Messages(rows) + [r.message]
  {
  }

  /** insert_batch refines folding insert_one: same messages stored in the same order, same number skipped. */
  lemma {:induction false} BatchRefinesInsertEach(s: Store, batch: seq<Message>, at: int, clock: seq<int>)
    requires |clock| == |batch|
    ensures Messages(InsertEach(s, batch, clock).table) == Messages(s.table + Kept(s.table, batch, at))
    ensures InsertEach(s, batch, clock).skipped == s.skipped + |batch| - |Kept(s.table, batch, at)|
  {
    if batch == [] {
      assert s.table + Kept(s.table, batch, at) == s.table;
    } else {
      var n := |batch| - 1;
      BatchRefinesInsertEach(s, batch[..n], at, clock[..n]);
      var mid := InsertEach(s, batch[..n], clock[..n]);
      var front := s.table + Kept(s.table, batch[..n], at);
      IdsOfMessages(mid.table);
      IdsOfMessages(front);
      IdsAfterBatch(s.table, batch[..n], at);
      MessagesSnoc(front, Row(batch[n], at));
      MessagesSnoc(mid.table, Row(batch[n], clock[n]));
      if Survives(s.table, batch, n) {
        assert s.table + Kept(s.table, batch, at) == front + [Row(batch[n], at)];
      } else {
        assert s.table + Kept(s.table, batch, at) == front;
      }
    }
  }

  /** ON CONFLICT keeps the index valid. */
  lemma {:induction false} KeptUnique(table: seq<Row>, batch: seq<Message>, at: int)
    requires UniqueIds(table)
    ensures UniqueIds(table + Kept(table, batch, at))
  {
    if batch == [] {
      assert table + Kept(table, batch, at) == table;
    } else {
      var n := |batch| - 1;
      KeptUnique(table, batch[..n], at);
      IdsAfterBatch(table, batch[..n], at);
      var front := table + Kept(table, batch[..n], at);
      if Survives(table, batch, n) {
        var rows := front + [Row(batch[n], at)];
        assert table + Kept(table, batch, at) == rows;
        forall i, j | 0 <= i < j < |rows| && rows[i].message.tradeId.Some?
          ensures rows[i].message.tradeId != rows[j].message.tradeId
        {
          if j == |front| {
            assert front[i] in front && rows[i].message.tradeId.value in Ids(front);
          }
        }
      } else {
        assert table + Kept(table, batch, at) == front;
      }
    }
  }

  // --- What bronze keeps of a message stream ---

  /** The stored messages that carry an id, in table order. */
  function WithId(rows: seq<Row>): seq<Message> {
    if rows == [] then [] else
      var n := |rows| - 1;
      WithId(rows[..n]) + if rows[n].message.tradeId.Some? then [rows[n].message] else []
  }

  /** The messages that carry no id, in order. */
  function NoId(ms: seq<Message>): seq<Message> {
    if ms == [] then [] else
      var n := |ms| - 1;
      NoId(ms[..n]) + if ms[n].tradeId.None? then [ms[n]] else []
  }

  /** The first message of every id, in stream order: the reference for what bronze holds. */
  function FirstOfEachId(ms: seq<Message>): seq<Message> {
    if ms == [] then [] else
      var n := |ms| - 1;
      FirstOfEachId(ms[..n]) +
      if ms[n].tradeId.Some? && ms[n].tradeId.value !in MessageIds(ms[..n]) then [ms[n]] else []
  }

  lemma {:induction false} WithIdConcat(a: seq<Row>, b: seq<Row>)
    ensures WithId(a + b) == WithId(a) + WithId(b)
  {
    if b == [] {
      assert a + b == a;
    } else {
      WithIdConcat(a, b[..|b| - 1]);
      assert (a + b)[..|a + b| - 1] == a + b[..|b| - 1];
    }
  }

  lemma {:induction false} NoIdConcat(a: seq<Message>, b: seq<Message>)
    ensures NoId(a + b) == NoId(a) + NoId(b)
  {
    if b == [] {
      assert a + b == a;
    } else {
      NoIdConcat(a, b[..|b| - 1]);
      assert (a + b)[..|a + b| - 1] == a + b[..|b| - 1];
    }
  }

  lemma {:induction false} NoIdMember(ms: seq<Message>, m: Message)
    ensures m in NoId(ms) <==> m.tradeId.None? && m in ms
  {
    if ms != [] {
      var n := |ms| - 1;
      NoIdMember(ms[..n], m);
      assert ms == ms[..n] + [ms[n]];
    }
  }

  lemma {:induction false} WithIdIds(rows: seq<Row>)
    ensures MessageIds(WithId(rows)) == Ids(rows)
  {
    if rows != [] {
      var n := |rows| - 1;
      WithIdIds(rows[..n]);
      assert rows == rows[..n] + [rows[n]];
      IdsConcat(rows[..n], [rows[n]]);
      IdsOfOne(rows[n]);
      MessageIdsConcat(WithId(rows[..n]), [rows[n].message]);
    }
  }

  lemma {:induction false} FirstOfEachIdIds(ms: seq<Message>)
    ensures MessageIds(FirstOfEachId(ms)) == MessageIds(ms)
  {
    if ms != [] {
      var n := |ms| - 1;
      FirstOfEachIdIds(ms[..n]);
      assert ms == ms[..n] + [ms[n]];
      MessageIdsConcat(ms[..n], [ms[n]]);
      MessageIdsConcat(FirstOfEachId(ms[..n]), [ms[n]]);
      IdsOfOne(Row(ms[n], 0));
    }
  }

  /** What `m` adds to the firsts of the stream `before` it. */
  function FirstAfter(before: seq<Message>, m: Message): seq<Message> {
    if m.tradeId.Some? && m.tradeId.value !in MessageIds(before) then [m] else []
  }

  lemma FirstsSnoc(before: seq<Message>, m: Message)
    ensures FirstOfEachId(before + [m]) == FirstOfEachId(before) + FirstAfter(before, m)
  {
    assert (before + [m])[..|before|] == before;
  }

  lemma KeptSnoc(table: seq<Row>, batch: seq<Message>, m: Message, at: int)
    ensures Kept(table, batch + [m], at) == Kept(table, batch, at) +
      if m.tradeId.Some? && m.tradeId.value in Ids(table) + MessageIds(batch) then [] else [Row(m, at)]
  {
    assert (batch + [m])[..|batch|] == batch;
  }

  lemma WithIdSnoc(rows: seq<Row>, r: Row)
    ensures WithId(rows + [r]) == WithId(rows) + if r.message.tradeId.Some? then [r.message] else []
  {
    assert (rows + [r])[..|rows|] == rows;
  }

  /** Messages whose ids are all stored leave the id-carrying rows alone. */
  lemma {:induction false} StoredBatchAddsNoId(table: seq<Row>, batch: seq<Message>, at: int)
    requires MessageIds(batch) <= Ids(table)
    ensures WithId(table + Kept(table, batch, at)) == WithId(table)
  {
    if batch == [] {
      assert table + Kept(table, batch, at) == table;
    } else {
      var front, m := batch[..|batch| - 1], batch[|batch| - 1];
      assert batch == front + [m];
      MessageIdsConcat(front, [m]);
      IdsOfOne(Row(m, at));
      StoredBatchAddsNoId(table, front, at);
      KeptSnoc(table, front, m, at);
      var rows := table + Kept(table, front, at);
      if m.tradeId.None? {
        assert table + Kept(table, batch, at) == rows + [Row(m, at)];
        WithIdSnoc(rows, Row(m, at));
      } else {
        assert table + Kept(table, batch, at) == rows;
      }
    }
  }

  /** When bronze holds the firsts of a stream, a batch extends it to the firsts of the longer stream. */
  lemma {:induction false} FreshBatchExtendsFirsts(
      table: seq<Row>, before: seq<Message>, batch: seq<Message>, at: int)
    requires WithId(table) == FirstOfEachId(before)
    ensures WithId(table + Kept(table, batch, at)) == FirstOfEachId(before + batch)
  {
    if batch == [] {
      assert table + Kept(table, batch, at) == table && before + batch == before;
    } else {
      var front, m := batch[..|batch| - 1], batch[|batch| - 1];
      assert batch == front + [m] && before + batch == (before + front) + [m];
      FreshBatchExtendsFirsts(table, before, front, at);
      WithIdIds(table);
      FirstOfEachIdIds(before);
      MessageIdsConcat(before, front);
      FirstsSnoc(before + front, m);
      KeptSnoc(table, front, m, at);
      var rows := table + Kept(table, front, at);
      if m.tradeId.Some? && m.tradeId.value in Ids(table) + MessageIds(front) {
        assert table + Kept(table, batch, at) == rows;
      } else {
        assert table + Kept(table, batch, at) == rows + [Row(m, at)];
        WithIdSnoc(rows, Row(m, at));
      }
    }
  }

  /** A retried batch: the ids of its beginning `again` are stored already, the rest is new. */
  lemma RetriedBatchExtendsFirsts(
      table: seq<Row>, stored: seq<Message>, again: seq<Message>, rest: seq<Message>, at: int)
    requires WithId(table) == FirstOfEachId(stored) && MessageIds(again) <= Ids(table)
    ensures WithId(table + Kept(table, again + rest, at)) == FirstOfEachId(stored + rest)
  {
    var table' := table + Kept(table, again, at);
    StoredBatchAddsNoId(table, again, at);
    FreshBatchExtendsFirsts(table', stored, rest, at);
    PagesCompose(table, again, rest, at);
    ConcatAssoc(table, Kept(table, again, at), Kept(table', rest, at));
  }

  lemma ConcatAssoc<T>(a: seq<T>, b: seq<T>, c: seq<T>)
    ensures a + (b + c) == (a + b) + c
  {
  }

  lemma NoIdSnoc(ms: seq<Message>, m: Message)
    ensures NoId(ms + [m]) == NoId(ms) + if m.tradeId.None? then [m] else []
  {
    assert (ms + [m])[..|ms|] == ms;
  }

  /** Messages without an id are all inserted, in order, whatever is already stored. */
  lemma {:induction false} NoIdAllKept(table: seq<Row>, batch: seq<Message>, at: int)
    ensures NoId(Messages(Kept(table, batch, at))) == NoId(batch)
  {
    if batch != [] {
      var n := |batch| - 1;
      NoIdAllKept(table, batch[..n], at);
      var front := Kept(table, batch[..n], at);
      if Survives(table, batch, n) {
        MessagesSnoc(front, Row(batch[n], at));
        NoIdSnoc(Messages(front), batch[n]);
      } else {
        assert Kept(table, batch, at) == front;
      }
    }
  }

  /** An id-less message of the batch is stored as a row of its own. */
  lemma {:induction false} NullStored(table: seq<Row>, batch: seq<Message>, at: int, i: nat)
    requires i < |batch| && batch[i].tradeId.None?
    ensures Row(batch[i], at) in Kept(table, batch, at)
  {
    if i < |batch| - 1 {
      NullStored(table, batch[..|batch| - 1], at, i);
    }
  }

  // --- The repository object ---

  /**
   * A live connection's view of bronze.raw_trades together with the duplicates counter.
   * `at` is the clock reading taken by the call, `fate` what the database does.
   */
  class TradeRepository {
    var table: seq<Row>
    var duplicatesSkipped: nat

    constructor ()
      ensures table == [] && duplicatesSkipped == 0
    {
      table, duplicatesSkipped := [], 0;
    }

    function Contents(): Store
      reads this
    {
      Store(table, duplicatesSkipped)
    }

    method InsertOneRow(trade: Message, at: int, fate: Fate) returns (raised: bool)
      modifies this
      ensures raised == !fate.Commits?
      ensures fate.Commits? ==> Contents() == InsertOne(old(Contents()), trade, at)
      ensures fate.FailsBeforeCommit? ==> Contents() == old(Contents())
      ensures fate.CommitsThenRaises? ==>
        var each := InsertOne(old(Contents()), trade, at);
        table == each.table && duplicatesSkipped == if fate.counted then each.skipped else old(duplicatesSkipped)
    {
      if fate.FailsBeforeCommit? {
        return true;
      }
      var duplicate := trade.tradeId.Some? && trade.tradeId.value in Ids(table);
      if !duplicate {
        table := table + [Row(trade, at)];
      }
      if Counts(fate) && duplicate {
        duplicatesSkipped := duplicatesSkipped + 1;
      }
      return fate.CommitsThenRaises?;
    }

    /** One statement, one commit; its effect is tied to calling insert_one on every trade in turn. */
    method InsertBatch(trades: seq<Message>, at: int, fate: Fate) returns (raised: bool)
      modifies this
      ensures raised == (trades != [] && !fate.Commits?)
      ensures trades == [] || fate.FailsBeforeCommit? ==> Contents() == old(Contents())
      ensures trades != [] && !fate.FailsBeforeCommit? ==> table == old(table) + Kept(old(table), trades, at)
      ensures !fate.FailsBeforeCommit? ==>
        var each := InsertEach(old(Contents()), trades, seq(|trades|, _ => at));
        Messages(table) == Messages(each.table) &&
        duplicatesSkipped == if Counts(fate) then each.skipped else old(duplicatesSkipped)
    {
      if trades == [] {
        return false;
      }
      if fate.FailsBeforeCommit? {
        return true;
      }
      BatchRefinesInsertEach(Contents(), trades, at, seq(|trades|, _ => at));
      var inserted := Kept(table, trades, at);
      table := table + inserted;
      var skipped := |trades| - |inserted|;
      if Counts(fate) && skipped > 0 {
        duplicatesSkipped := duplicatesSkipped + skipped;
      }
      return fate.CommitsThenRaises?;
    }
  }
}
