/** The silver model stg_trades: parse, keep the latest row per id, merge (dbt/models/silver/stg_trades.sql). */
module Silver {
  import opened Wrappers
  import opened Bronze
  import opened Sets

  /** Prices and sizes are numeric(18, 8), counted in units of 10^-8; times in microseconds since 1970. */
  datatype Trade = Trade(id: string, price: int, size: int, side: string, tradedAt: int, ingestedAt: int)

  /** '1900-01-01'::timestamptz */
  const EPOCH := -2_208_988_800_000_000

  /** The cast to numeric(18, 8) rounds half away from zero. */
  function ToNumeric(x: real): int {
    if x >= 0.0 then (x * 100000000.0 + 0.5).Floor else -((-x * 100000000.0 + 0.5).Floor)
  }

  /** The cast picks the nearest multiple of 10^-8, half way the one away from zero, and keeps signs symmetric. */
  lemma CastIsNearest(x: real, n: int)
    ensures -0.5 <= ToNumeric(x) as real - x * 100000000.0 <= 0.5
    ensures ToNumeric(-x) == -ToNumeric(x)
    ensures x * 100000000.0 == n as real ==> ToNumeric(x) == n
    ensures x * 100000000.0 == n as real + 0.5 && n >= 0 ==> ToNumeric(x) == n + 1
    ensures x >= 0.0 ==> ToNumeric(x) >= 0
  {
    assert -x * 100000000.0 == -(x * 100000000.0);
  }

  function Parse(r: Row): Trade
    requires r.message.tradeId.Some?
  {
    var p := r.message.payload;
    Trade(r.message.tradeId.value, ToNumeric(p.price), ToNumeric(p.size), p.side, p.time, r.receivedAt)
  }

  /** Steps 1 and 2 without the incremental filter. */
  function Parsed(bronze: seq<Row>): set<Trade> {
    set r | r in bronze && r.message.tradeId.Some? :: Parse(r)
  }

  ghost predicate HasId(trades: set<Trade>, id: string) {
    exists t :: t in trades && t.id == id
  }

  /** Step 3: one row per id, a latest one. Which of several rows received at the same time wins is left open. */
  ghost predicate IsDeduped(rows: set<Trade>, out: set<Trade>) {
    && out <= rows
    && (forall t | t in rows :: HasId(out, t.id))
    && (forall a, b | a in out && b in out && a.id == b.id :: a == b)
    && (forall o, t | o in out && t in rows && t.id == o.id :: t.ingestedAt <= o.ingestedAt)
  }

  /** coalesce(max(ingested_at), '1900-01-01') over the existing table. */
  ghost function Watermark(target: set<Trade>): int {
    MaxOf(target, (t: Trade) => t.ingestedAt, EPOCH)
  }

  function Newer(rows: set<Trade>, mark: int): set<Trade> {
    set t | t in rows && t.ingestedAt > mark
  }

  /** The merge on unique_key='trade_id'. */
  function Merge(target: set<Trade>, source: set<Trade>): set<Trade> {
    (set t | t in target && forall u | u in source :: u.id != t.id) + source
  }

  /** One run of the model over a snapshot of bronze; `target` is None on the first run or a full refresh. */
  ghost predicate SilverRun(bronze: seq<Row>, target: Option<set<Trade>>, out: set<Trade>) {
    match target
    case None => IsDeduped(Parsed(bronze), out)
    case Some(current) => exists fresher ::
      IsDeduped(Newer(Parsed(bronze), Watermark(current)), fresher) && out == Merge(current, fresher)
  }

  /** Of several rows with one id a full build keeps one that was received last, and it keeps one for every id. */
  lemma LatestRowWins(bronze: seq<Row>, out: set<Trade>, r: Row)
    requires SilverRun(bronze, None, out) && r in bronze && r.message.tradeId.Some?
    ensures exists t :: t in out && t.id == r.message.tradeId.value && t.ingestedAt >= r.receivedAt
    ensures forall t, u | t in out && u in out && t.id == u.id :: t == u
    ensures forall t | t in out :: exists q :: q in bronze && q.message.tradeId == Some(t.id) && Parse(q) == t
  {
    var p := Parse(r);
    assert p in Parsed(bronze) && HasId(out, p.id);
    var t :| t in out && t.id == p.id;
    assert p.ingestedAt <= t.ingestedAt;
  }

  /** The watermark is the ingestion time of a row of the table, and no row is later. */
  lemma WatermarkIsLatest(target: set<Trade>)
    requires target != {}
    ensures exists t :: t in target && t.ingestedAt == Watermark(target)
    ensures forall t | t in target :: t.ingestedAt <= Watermark(target)
  {
  }

  /** Over an empty table an incremental run deduplicates every row received after 1900. */
  lemma EmptySilverTakesAll(bronze: seq<Row>, out: set<Trade>)
    ensures SilverRun(bronze, Some({}), out) <==>
      IsDeduped((set t | t in Parsed(bronze) && t.ingestedAt > -2_208_988_800_000_000), out)
  {
    var none: set<Trade> := {};
    var recent := set t | t in Parsed(bronze) && t.ingestedAt > -2_208_988_800_000_000;
    assert Watermark(none) == -2_208_988_800_000_000;
    assert Newer(Parsed(bronze), Watermark(none)) == recent;
    assert forall source :: Merge(none, source) == source;
  }

  /** The rows a caller adds arrive later than everything silver has seen. */
  predicate ArriveAfter(delta: seq<Row>, mark: int) {
    forall r | r in delta && r.message.tradeId.Some? :: r.receivedAt > mark
  }

  // --- A run always has a result ---

  /** Deduplicating one id and all others separately. */
  lemma DedupSplit(rows: set<Trade>, id: string, latest: Trade, rest: set<Trade>)
    requires latest in rows && latest.id == id
    requires forall t | t in rows && t.id == id :: t.ingestedAt <= latest.ingestedAt
    requires IsDeduped((set t | t in rows && t.id != id), rest)
    ensures IsDeduped(rows, rest + {latest})
  {
    var out := rest + {latest};
    forall t | t in rows
      ensures HasId(out, t.id)
    {
      if t.id == id {
        assert latest in out;
      } else {
        var o :| o in rest && o.id == t.id;
        assert o in out;
      }
    }
  }

  lemma LatestExists(same: set<Trade>) returns (latest: Trade)
    requires same != {}
    ensures latest in same && forall u | u in same :: u.ingestedAt <= latest.ingestedAt
  {
    var m := MaxOf(same, (u: Trade) => u.ingestedAt, 0);
    latest :| latest in same && latest.ingestedAt == m;
  }

  lemma {:induction false} DedupExists(rows: set<Trade>) returns (out: set<Trade>)
    ensures IsDeduped(rows, out)
    decreases |rows|
  {
    if rows == {} {
      out := {};
    } else {
      var t :| t in rows;
      var same := set u | u in rows && u.id == t.id;
      var others := set u | u in rows && u.id != t.id;
      assert t in same;
      var latest := LatestExists(same);
      Smaller(others, rows, t);
      var rest := DedupExists(others);
      DedupSplit(rows, t.id, latest, rest);
      out := rest + {latest};
    }
  }

  lemma SilverRunExists(bronze: seq<Row>, target: Option<set<Trade>>) returns (out: set<Trade>)
    ensures SilverRun(bronze, target, out)
  {
    match target
    case None => out := DedupExists(Parsed(bronze));
    case Some(current) =>
      var fresher := DedupExists(Newer(Parsed(bronze), Watermark(current)));
      out := Merge(current, fresher);
  }

  // --- Incremental against full rebuild ---

  lemma WatermarkBounds(rows: set<Trade>, silver: set<Trade>, t: Trade)
    requires IsDeduped(rows, silver) && t in rows
    ensures t.ingestedAt <= Watermark(silver)
  {
    var o :| o in silver && o.id == t.id;
    assert t.ingestedAt <= o.ingestedAt;
  }

  lemma ParsedConcat(a: seq<Row>, b: seq<Row>)
    ensures Parsed(a + b) == Parsed(a) + Parsed(b)
  {
    forall t | t in Parsed(a) + Parsed(b)
      ensures t in Parsed(a + b)
    {
      var r :| (r in a || r in b) && r.message.tradeId.Some? && Parse(r) == t;
      assert r in a + b;
    }
  }

  /** The incremental filter selects exactly the rows that are new. */
  lemma NewerIsDelta(bronze: seq<Row>, delta: seq<Row>, silver: set<Trade>)
    requires IsDeduped(Parsed(bronze), silver) && ArriveAfter(delta, Watermark(silver))
    ensures Newer(Parsed(bronze + delta), Watermark(silver)) == Parsed(delta)
  {
    ParsedConcat(bronze, delta);
    forall t | t in Parsed(bronze)
      ensures t.ingestedAt <= Watermark(silver)
    {
      WatermarkBounds(Parsed(bronze), silver, t);
    }
  }

  lemma MergeCovers(earlier: set<Trade>, later: set<Trade>, silver: set<Trade>, batch: set<Trade>)
    requires IsDeduped(earlier, silver) && IsDeduped(later, batch)
    ensures forall t | t in earlier + later :: HasId(Merge(silver, batch), t.id)
  {
    forall t | t in earlier + later
      ensures HasId(Merge(silver, batch), t.id)
    {
      if u :| u in batch && u.id == t.id {
        assert u in Merge(silver, batch);
      } else {
        var o :| o in silver && o.id == t.id;
        assert o in Merge(silver, batch);
      }
    }
  }

  lemma MergeLatest(earlier: set<Trade>, later: set<Trade>, silver: set<Trade>, batch: set<Trade>)
    requires IsDeduped(earlier, silver) && IsDeduped(later, batch)
    requires forall t, u | t in earlier && u in later :: t.ingestedAt <= u.ingestedAt
    ensures forall o, t | o in Merge(silver, batch) && t in earlier + later && t.id == o.id ::
      t.ingestedAt <= o.ingestedAt
  {
    forall o, t | o in Merge(silver, batch) && t in earlier + later && t.id == o.id
      ensures t.ingestedAt <= o.ingestedAt
    {
      if o in batch {
        assert o in later;
      } else {
        assert t in later ==> HasId(batch, t.id);
      }
    }
  }

  lemma MergeDedups(earlier: set<Trade>, later: set<Trade>, silver: set<Trade>, batch: set<Trade>)
    requires IsDeduped(earlier, silver) && IsDeduped(later, batch)
    requires forall t, u | t in earlier && u in later :: t.ingestedAt <= u.ingestedAt
    ensures IsDeduped(earlier + later, Merge(silver, batch))
  {
    MergeCovers(earlier, later, silver, batch);
    MergeLatest(earlier, later, silver, batch);
  }

  /** Even with repeated ids in bronze, an incremental run over later rows is a full rebuild. */
  lemma IncrementalIsRebuild(bronze: seq<Row>, delta: seq<Row>, silver: set<Trade>, out: set<Trade>)
    requires IsDeduped(Parsed(bronze), silver) && ArriveAfter(delta, Watermark(silver))
    requires SilverRun(bronze + delta, Some(silver), out)
    ensures SilverRun(bronze + delta, None, out)
  {
    ParsedConcat(bronze, delta);
    NewerIsDelta(bronze, delta, silver);
    var batch :| IsDeduped(Parsed(delta), batch) && out == Merge(silver, batch);
    forall t, u | t in Parsed(bronze) && u in Parsed(delta)
      ensures t.ingestedAt <= u.ingestedAt
    {
      WatermarkBounds(Parsed(bronze), silver, t);
    }
    MergeDedups(Parsed(bronze), Parsed(delta), silver, batch);
  }

  /** Under the unique index the rebuild is the parsed table itself. */
  lemma RebuildIsParsed(bronze: seq<Row>, out: set<Trade>)
    requires UniqueIds(bronze)
    ensures IsDeduped(Parsed(bronze), out) <==> out == Parsed(bronze)
  {
    forall a, b | a in Parsed(bronze) && b in Parsed(bronze) && a.id == b.id
      ensures a == b
    {
      var i :| 0 <= i < |bronze| && bronze[i].message.tradeId.Some? && Parse(bronze[i]) == a;
      var j :| 0 <= j < |bronze| && bronze[j].message.tradeId.Some? && Parse(bronze[j]) == b;
      assert i == j;
    }
  }

  /** Under the unique index an incremental run equals the rebuild exactly when no new row arrived too early. */
  lemma IncrementalIffOnTime(bronze: seq<Row>, delta: seq<Row>, out: set<Trade>)
    requires UniqueIds(bronze + delta)
    requires SilverRun(bronze + delta, Some(Parsed(bronze)), out)
    ensures out == Parsed(bronze + delta) <==> ArriveAfter(delta, Watermark(Parsed(bronze)))
  {
    var silver := Parsed(bronze);
    assert UniqueIds(bronze) by {
      assert forall i | 0 <= i < |bronze| :: (bronze + delta)[i] == bronze[i];
    }
    RebuildIsParsed(bronze, silver);
    RebuildIsParsed(bronze + delta, out);
    if ArriveAfter(delta, Watermark(silver)) {
      IncrementalIsRebuild(bronze, delta, silver, out);
    } else {
      var r :| r in delta && r.message.tradeId.Some? && r.receivedAt <= Watermark(silver);
      LateRowMissing(bronze, delta, r, out);
    }
  }

  lemma LateRowMissing(bronze: seq<Row>, delta: seq<Row>, r: Row, out: set<Trade>)
    requires UniqueIds(bronze + delta) && SilverRun(bronze + delta, Some(Parsed(bronze)), out)
    requires r in delta && r.message.tradeId.Some? && r.receivedAt <= Watermark(Parsed(bronze))
    ensures Parse(r) !in out && Parse(r) in Parsed(bronze + delta)
  {
    var j :| 0 <= j < |delta| && delta[j] == r;
    assert (bronze + delta)[|bronze| + j] == r;
    forall q | q in bronze && q.message.tradeId.Some?
      ensures q.message.tradeId != r.message.tradeId
    {
      var i :| 0 <= i < |bronze| && bronze[i] == q;
      assert (bronze + delta)[i] == q;
    }
    assert r in bronze + delta;
  }

  /** Two batches with one clock reading and a run between them: the second batch never reaches silver. */
  lemma EqualClocksLoseRows(p: Payload)
    ensures var a, b := Row(Message(Some("a"), p), 0), Row(Message(Some("b"), p), 0);
      && UniqueIds([a] + [b])
      && !SilverRun([a] + [b], Some(Parsed([a])), Parsed([a] + [b]))
  {
    var a, b := Row(Message(Some("a"), p), 0), Row(Message(Some("b"), p), 0);
    assert a in [a];
    assert Parsed([a]) == {Parse(a)};
    assert Parse(a) in Parsed([a]) && Parse(a).ingestedAt <= Watermark(Parsed([a]));
    assert b in [b];
    if SilverRun([a] + [b], Some(Parsed([a])), Parsed([a] + [b])) {
      LateRowMissing([a], [b], b, Parsed([a] + [b]));
    }
  }
}
