/** The consumer write path and dbt runs of the silver model, interleaved in any order. */
module Pipeline {
  import opened Wrappers
  import opened Bronze
  import opened WritePath
  import opened WriteGuarantees
  import opened Silver
  import opened Sets
  import opened Gold
  import Export

  /** `seen` is history: how many bronze rows the last silver run read. */
  datatype PState = PState(write: State, silver: Option<set<Trade>>, seen: nat)

  /** A step of the write path, a crash, or a dbt run, which reads one snapshot of bronze; `full` is --full-refresh. */
  datatype PStep = Write(event: Event) | DbtRun(full: bool)

  ghost predicate PNext(strict: bool, batchSize: int, p: PState, step: PStep, p': PState) {
    match step
    case Write(w) =>
      && Possible(p.write, w) && (w.Do? ==> TicksIfStrict(strict, p.write, w.step))
      && p' == p.(write := Next(batchSize, p.write, w))
    case DbtRun(full) =>
      && p'.write == p.write && p'.silver.Some? && p'.seen == |p.write.bronze|
      && SilverRun(p.write.bronze, if full then None else p.silver, p'.silver.value)
  }

  ghost predicate StepAt(strict: bool, batchSize: int, run: seq<PState>, steps: seq<PStep>, i: nat)
    requires i < |steps| && |run| == |steps| + 1
  {
    PNext(strict, batchSize, run[i], steps[i], run[i + 1])
  }

  /** Runs from a clock after 1900; with `strict` it advances between inserts, otherwise it does not go back. */
  ghost predicate IsPipelineRun(strict: bool, batchSize: int, run: seq<PState>, steps: seq<PStep>) {
    && |run| == |steps| + 1
    && run[0] == PState(Init(run[0].write.clock), None, 0) && run[0].write.clock >= EPOCH
    && forall i | 0 <= i < |steps| :: StepAt(strict, batchSize, run, steps, i)
  }

  /** A dbt run is possible at any moment, incremental or not. */
  lemma DbtAlwaysRuns(strict: bool, batchSize: int, p: PState, full: bool) returns (p': PState)
    ensures PNext(strict, batchSize, p, DbtRun(full), p')
  {
    var out := SilverRunExists(p.write.bronze, if full then None else p.silver);
    p' := PState(p.write, Some(out), |p.write.bronze|);
  }

  ghost predicate AfterEpoch(s: State) {
    && s.clock >= EPOCH
    && forall t | Pc(s, t).Stamped? :: Pc(s, t).at > EPOCH
  }

  /** Silver is the rebuild over the rows it has seen, and all other rows are later than its watermark. */
  ghost predicate SilverInv(p: PState) {
    p.silver.Some? ==>
      && p.seen <= |p.write.bronze|
      && p.silver.value == Parsed(p.write.bronze[..p.seen])
      && ArriveAfter(p.write.bronze[p.seen..], Watermark(p.silver.value))
  }

  ghost predicate PInv(batchSize: int, p: PState) {
    Inv(batchSize, p.write) && TimeInv(true, p.write) && AfterEpoch(p.write) && SilverInv(p)
  }

  /** Flushes are serialized, so an insert is stamped later than everything silver can have seen. */
  lemma StampAfterWatermark(p: PState, t: nat)
    requires TimeInv(true, p.write) && AfterEpoch(p.write) && SilverInv(p)
    requires p.silver.Some? && Pc(p.write, t).Stamped?
    ensures Pc(p.write, t).at > Watermark(p.silver.value)
  {
    var silver := p.silver.value;
    if silver != {} {
      var x :| x in silver && x.ingestedAt == Watermark(silver);
      var r :| r in p.write.bronze[..p.seen] && r.message.tradeId.Some? && Parse(r) == x;
      assert r in p.write.bronze;
    }
  }

  lemma BronzeGrows(batchSize: int, s: State, step: Step)
    requires Enabled(s, step)
    ensures Apply(batchSize, s, step).bronze == s.bronze +
      if step.Insert? && !step.fate.FailsBeforeCommit?
      then Kept(s.bronze, Pc(s, step.t).batch, Pc(s, step.t).at) else []
  {
  }

  lemma LaterRows(bronze: seq<Row>, more: seq<Row>, seen: nat, mark: int)
    requires seen <= |bronze| && ArriveAfter(bronze[seen..], mark) && forall r | r in more :: r.receivedAt > mark
    ensures (bronze + more)[..seen] == bronze[..seen]
    ensures ArriveAfter((bronze + more)[seen..], mark)
  {
    assert (bronze + more)[seen..] == bronze[seen..] + more;
  }

  lemma SilverWriteStep(batchSize: int, p: PState, step: Step, p': PState)
    requires PInv(batchSize, p) && PNext(true, batchSize, p, Write(Do(step)), p')
    ensures SilverInv(p')
  {
    if p.silver.Some? {
      var bronze := p.write.bronze;
      var more := if step.Insert? && !step.fate.FailsBeforeCommit?
                  then Kept(bronze, Pc(p.write, step.t).batch, Pc(p.write, step.t).at) else [];
      assert p'.write.bronze == bronze + more && p'.silver == p.silver && p'.seen == p.seen by {
        BronzeGrows(batchSize, p.write, step);
      }
      assert forall r | r in more :: r.receivedAt > Watermark(p.silver.value) by {
        if step.Insert? {
          StampAfterWatermark(p, step.t);
        }
      }
      LaterRows(bronze, more, p.seen, Watermark(p.silver.value));
    }
  }

  lemma EpochStep(batchSize: int, s: State, step: Step)
    requires AfterEpoch(s) && Enabled(s, step) && TicksIfStrict(true, s, step)
    ensures AfterEpoch(Apply(batchSize, s, step))
  {
    OthersStay(batchSize, s, step);
    var s' := Apply(batchSize, s, step);
    forall t | Pc(s', t).Stamped?
      ensures Pc(s', t).at > EPOCH
    {
      if t == step.t {
        assert step.ReadClock?;
      } else {
        assert Pc(s', t) == Pc(s, t);
      }
    }
  }

  lemma DbtStepOf(p: PState, full: bool, p': PState)
    requires UniqueIds(p.write.bronze) && SilverInv(p)
    requires p'.write == p.write && p'.silver.Some? && p'.seen == |p.write.bronze|
    requires SilverRun(p.write.bronze, if full then None else p.silver, p'.silver.value)
    ensures p'.silver == Some(Parsed(p.write.bronze)) && SilverInv(p')
  {
    var bronze, out := p.write.bronze, p'.silver.value;
    if full || p.silver.None? {
      RebuildIsParsed(bronze, out);
    } else {
      var before, delta := bronze[..p.seen], bronze[p.seen..];
      assert bronze == before + delta;
      Silver.IncrementalIffOnTime(before, delta, out);
    }
    assert bronze[..|bronze|] == bronze && bronze[|bronze|..] == [];
  }

  /** A run of the silver model, incremental or not, leaves the parsed table: the one full rebuild there is. */
  lemma SilverDbtStep(batchSize: int, p: PState, full: bool, p': PState)
    requires PInv(batchSize, p) && PNext(true, batchSize, p, DbtRun(full), p')
    ensures p'.silver == Some(Parsed(p.write.bronze)) && SilverInv(p')
  {
    DbtStepOf(p, full, p');
  }

  lemma PStepInv(batchSize: int, p: PState, step: PStep, p': PState)
    requires PInv(batchSize, p) && PNext(true, batchSize, p, step, p')
    ensures PInv(batchSize, p')
  {
    match step
    case Write(Do(w)) =>
      StepInv(batchSize, p.write, w);
      TimeStep(true, batchSize, p.write, w);
      EpochStep(batchSize, p.write, w);
      SilverWriteStep(batchSize, p, w, p');
    case Write(Restart) =>
      RestartInv(true, batchSize, p.write);
      assert forall t :: At(p'.write, t) == Thread(Idle, None);
    case DbtRun(full) =>
      SilverDbtStep(batchSize, p, full, p');
  }

  lemma {:induction false} PRunInv(batchSize: int, run: seq<PState>, steps: seq<PStep>, i: nat)
    requires IsPipelineRun(true, batchSize, run, steps) && i < |run|
    ensures PInv(batchSize, run[i])
  {
    if i == 0 {
      InitInv(batchSize, run[0].write.clock);
      assert forall t :: At(run[0].write, t) == Thread(Idle, None);
    } else {
      PRunInv(batchSize, run, steps, i - 1);
      assert StepAt(true, batchSize, run, steps, i - 1);
      PStepInv(batchSize, run[i - 1], steps[i - 1], run[i]);
    }
  }

  /**
   * Over any interleaving of adds, flushes, failures, crashes and dbt runs, the silver table after a run is the full
   * rebuild over bronze, and the only one.
   */
  lemma SilverIsRebuild(batchSize: int, run: seq<PState>, steps: seq<PStep>, i: nat)
    requires IsPipelineRun(true, batchSize, run, steps) && i < |steps| && steps[i].DbtRun?
    ensures run[i + 1].silver.Some?
    ensures forall out :: SilverRun(run[i].write.bronze, None, out) <==> out == run[i + 1].silver.value
  {
    PRunInv(batchSize, run, steps, i);
    assert StepAt(true, batchSize, run, steps, i);
    SilverDbtStep(batchSize, run[i], steps[i].full, run[i + 1]);
    forall out
      ensures SilverRun(run[i].write.bronze, None, out) <==> out == run[i + 1].silver.value
    {
      RebuildIsParsed(run[i].write.bronze, out);
    }
  }

  // --- On a clock that may stand still ---

  ghost predicate Right(p: PState, step: PStep, p': PState) {
    step.DbtRun? ==> p'.silver == Some(Parsed(p.write.bronze))
  }

  /** An incremental run finds no row it has not seen at or below its watermark. */
  ghost predicate NoneTooEarly(p: PState, step: PStep) {
    step.DbtRun? && !step.full && p.silver.Some? ==>
      p.seen <= |p.write.bronze| && ArriveAfter(p.write.bronze[p.seen..], Watermark(p.silver.value))
  }

  ghost predicate Current(p: PState) {
    && UniqueIds(p.write.bronze)
    && (p.silver.Some? ==> p.seen <= |p.write.bronze| && p.silver.value == Parsed(p.write.bronze[..p.seen]))
  }

  lemma RightIffNoneTooEarly(batchSize: int, p: PState, full: bool, p': PState)
    requires Current(p) && PNext(false, batchSize, p, DbtRun(full), p')
    ensures p'.silver == Some(Parsed(p.write.bronze)) <==>
      (!full && p.silver.Some? ==> ArriveAfter(p.write.bronze[p.seen..], Watermark(p.silver.value)))
    ensures p'.silver == Some(Parsed(p.write.bronze)) ==> Current(p')
  {
    var bronze, out := p.write.bronze, p'.silver.value;
    if full || p.silver.None? {
      RebuildIsParsed(bronze, out);
    } else {
      var before, delta := bronze[..p.seen], bronze[p.seen..];
      assert bronze == before + delta;
      Silver.IncrementalIffOnTime(before, delta, out);
    }
    assert bronze[..|bronze|] == bronze;
  }

  lemma CurrentWriteStep(batchSize: int, p: PState, e: Event, p': PState)
    requires Current(p) && PNext(false, batchSize, p, Write(e), p') && UniqueIds(p'.write.bronze)
    ensures Current(p')
  {
    if e.Do? {
      BronzeGrows(batchSize, p.write, e.step);
    }
    if p.silver.Some? {
      assert p'.write.bronze[..p.seen] == p.write.bronze[..p.seen];
    }
  }

  /** What a pipeline run does to the write path is a run of the write path. */
  lemma {:induction false} WriteRun(batchSize: int, run: seq<PState>, steps: seq<PStep>, n: nat)
    returns (writes: seq<State>, events: seq<Event>)
    requires IsPipelineRun(false, batchSize, run, steps) && n < |run|
    ensures IsRun(batchSize, writes, events) && writes[|events|] == run[n].write
  {
    if n == 0 {
      writes, events := [run[0].write], [];
    } else {
      writes, events := WriteRun(batchSize, run, steps, n - 1);
      assert StepAt(false, batchSize, run, steps, n - 1);
      if steps[n - 1].Write? {
        writes, events := Extend(batchSize, writes, events, steps[n - 1].event);
      }
    }
  }

  lemma IdsStayUnique(batchSize: int, run: seq<PState>, steps: seq<PStep>, n: nat)
    requires IsPipelineRun(false, batchSize, run, steps) && n < |run|
    ensures UniqueIds(run[n].write.bronze)
  {
    var writes, events := WriteRun(batchSize, run, steps, n);
    RunInv(batchSize, writes, events, |events|);
  }

  lemma RightStep(batchSize: int, p: PState, step: PStep, p': PState)
    requires Current(p) && PNext(false, batchSize, p, step, p') && UniqueIds(p'.write.bronze)
    ensures Right(p, step, p') <==> NoneTooEarly(p, step)
    ensures Right(p, step, p') ==> Current(p')
  {
    match step
    case Write(e) => CurrentWriteStep(batchSize, p, e, p');
    case DbtRun(full) => RightIffNoneTooEarly(batchSize, p, full, p');
  }

  ghost predicate AllRight(run: seq<PState>, steps: seq<PStep>, n: nat)
    requires n <= |steps| < |run|
  {
    forall i: nat | i < n :: Right(run[i], steps[i], run[i + 1])
  }

  lemma {:induction false} RightPrefix(batchSize: int, run: seq<PState>, steps: seq<PStep>, n: nat)
    requires IsPipelineRun(false, batchSize, run, steps) && n <= |steps|
    ensures AllRight(run, steps, n) <==> forall i: nat | i < n :: NoneTooEarly(run[i], steps[i])
    ensures AllRight(run, steps, n) ==> Current(run[n])
  {
    if n > 0 {
      RightPrefix(batchSize, run, steps, n - 1);
      if AllRight(run, steps, n - 1) {
        assert StepAt(false, batchSize, run, steps, n - 1);
        IdsStayUnique(batchSize, run, steps, n);
        RightStep(batchSize, run[n - 1], steps[n - 1], run[n]);
      }
    }
  }

  /**
   * On a clock that merely does not go back: silver is the full rebuild after every dbt run exactly when no
   * incremental run has an unseen row at or below its watermark.
   */
  lemma SilverRightIff(batchSize: int, run: seq<PState>, steps: seq<PStep>)
    requires IsPipelineRun(false, batchSize, run, steps)
    ensures AllRight(run, steps, |steps|) <==> forall i: nat | i < |steps| :: NoneTooEarly(run[i], steps[i])
  {
    RightPrefix(batchSize, run, steps, |steps|);
  }

  lemma ParsedGrows(bronze: seq<Row>, n: nat)
    requires n <= |bronze|
    ensures Parsed(bronze[..n]) <= Parsed(bronze)
  {
    assert bronze == bronze[..n] + bronze[n..];
    ParsedConcat(bronze[..n], bronze[n..]);
  }

  ghost predicate SilverGrew(p: PState, p': PState) {
    p.silver.Some? ==> p'.silver.Some? && p.silver.value <= p'.silver.value
  }

  lemma {:induction false} SilverGrewChain(run: seq<PState>, i: nat, j: nat)
    requires i <= j < |run| && forall k | i < k <= j :: SilverGrew(run[k - 1], run[k])
    ensures SilverGrew(run[i], run[j])
  {
    if i < j {
      SilverGrewChain(run, i, j - 1);
    }
  }

  lemma SilverGrowsAt(batchSize: int, run: seq<PState>, steps: seq<PStep>, k: nat)
    requires IsPipelineRun(true, batchSize, run, steps) && k < |steps|
    ensures SilverGrew(run[k], run[k + 1])
  {
    PRunInv(batchSize, run, steps, k);
    assert StepAt(true, batchSize, run, steps, k);
    var p := run[k];
    if steps[k].DbtRun? && p.silver.Some? {
      SilverDbtStep(batchSize, p, steps[k].full, run[k + 1]);
      ParsedGrows(p.write.bronze, p.seen);
    }
  }

  /** Silver only grows, which is what the history theorem of the gold model asks for. */
  lemma SilverOnlyGrows(batchSize: int, run: seq<PState>, steps: seq<PStep>, i: nat, j: nat)
    requires IsPipelineRun(true, batchSize, run, steps) && i <= j < |run|
    ensures SilverGrew(run[i], run[j])
  {
    forall k | i < k <= j
      ensures SilverGrew(run[k - 1], run[k])
    {
      SilverGrowsAt(batchSize, run, steps, k - 1);
    }
    SilverGrewChain(run, i, j);
  }

  /** The silver table at position i of a run, once there is one. */
  function SilverAt(run: seq<PState>, i: nat): set<Trade>
    requires i < |run|
  {
    if run[i].silver.Some? then run[i].silver.value else {}
  }

  /**
   * Gold runs at any positions of a pipeline run, the first a full build: gold equals the full re-aggregation of silver
   * at every one of them exactly when the trades were on time at every one of them.
   */
  lemma GoldOverPipeline(batchSize: int, run: seq<PState>, steps: seq<PStep>,
                         at: seq<nat>, golds: seq<map<int, VwapRow>>)
    requires IsPipelineRun(true, batchSize, run, steps) && |golds| == |at| > 0
    requires forall k | 0 <= k < |at| :: at[k] < |run|
    requires forall k | 0 < k < |at| :: at[k - 1] <= at[k]
    requires golds[0] == GoldRun(SilverAt(run, at[0]), None)
    requires forall k | 0 < k < |at| :: golds[k] == GoldRun(SilverAt(run, at[k]), Some(golds[k - 1]))
    ensures (forall k | 0 <= k < |at| :: golds[k] == Rebuild(SilverAt(run, at[k])))
      <==> (forall k | 0 < k < |at| :: OnTime(SilverAt(run, at[k - 1]), SilverAt(run, at[k])))
  {
    var silvers := seq(|at|, k requires 0 <= k < |at| => SilverAt(run, at[k]));
    forall k | 0 < k < |silvers|
      ensures silvers[k - 1] <= silvers[k]
    {
      SilverOnlyGrows(batchSize, run, steps, at[k - 1], at[k]);
    }
    HistoryIffOnTime(silvers, golds);
    assert forall k | 0 <= k < |at| :: silvers[k] == SilverAt(run, at[k]);
  }

  /** Gold runs at the positions `at`, the first and those marked `full` a full build. */
  ghost predicate GoldRuns(run: seq<PState>, at: seq<nat>, full: seq<bool>, golds: seq<map<int, VwapRow>>) {
    && |golds| == |at| == |full|
    && (forall k | 0 <= k < |at| :: at[k] < |run|)
    && (forall k | 0 < k < |at| :: at[k - 1] <= at[k])
    && forall k: nat | k < |at| :: golds[k] == GoldRun(SilverAt(run, at[k]), TargetAt(full, golds, k))
  }

  /** What the gold run number k merges into. */
  function TargetAt(full: seq<bool>, golds: seq<map<int, VwapRow>>, k: nat): Option<map<int, VwapRow>>
    requires k < |golds| == |full|
  {
    if k == 0 || full[k] then None else Some(golds[k - 1])
  }

  lemma GoldKeys(silver: set<Trade>, target: Option<map<int, VwapRow>>)
    requires target.Some? ==> target.value.Keys <= Minutes(silver)
    ensures GoldRun(silver, target).Keys <= Minutes(silver)
    ensures target.Some? ==> target.value.Keys <= GoldRun(silver, target).Keys
    ensures target.None? ==> GoldRun(silver, target).Keys == Minutes(silver)
  {
    if target.Some? {
      var later := Gold.After(silver, GoldMark(target.value));
      MinutesGrow(later, silver);
      assert Rebuild(later).Keys == Minutes(later);
      assert (target.value + Rebuild(later)).Keys == target.value.Keys + Rebuild(later).Keys;
    } else {
      assert Rebuild(silver).Keys == Minutes(silver);
    }
  }

  lemma GoldStep(batchSize: int, run: seq<PState>, steps: seq<PStep>,
                 at: seq<nat>, full: seq<bool>, golds: seq<map<int, VwapRow>>, k: nat)
    requires IsPipelineRun(true, batchSize, run, steps) && GoldRuns(run, at, full, golds) && 0 < k < |at|
    requires golds[k - 1].Keys <= Minutes(SilverAt(run, at[k - 1]))
    ensures golds[k - 1].Keys <= golds[k].Keys <= Minutes(SilverAt(run, at[k]))
  {
    var before, silver := SilverAt(run, at[k - 1]), SilverAt(run, at[k]);
    assert before <= silver by {
      SilverOnlyGrows(batchSize, run, steps, at[k - 1], at[k]);
    }
    MinutesGrow(before, silver);
    GoldKeys(silver, TargetAt(full, golds, k));
  }

  /** Along a pipeline run gold only gains windows, whatever is incremental or late. */
  lemma {:induction false} GoldWindowsGrow(batchSize: int, run: seq<PState>, steps: seq<PStep>,
                                           at: seq<nat>, full: seq<bool>, golds: seq<map<int, VwapRow>>, j: nat, k: nat)
    requires IsPipelineRun(true, batchSize, run, steps) && GoldRuns(run, at, full, golds) && j <= k < |at|
    ensures golds[k].Keys <= Minutes(SilverAt(run, at[k])) && golds[j].Keys <= golds[k].Keys
  {
    if k == 0 {
      assert TargetAt(full, golds, 0) == None;
      GoldKeys(SilverAt(run, at[0]), None);
    } else {
      GoldWindowsGrow(batchSize, run, steps, at, full, golds, if j < k then j else k - 1, k - 1);
      GoldStep(batchSize, run, steps, at, full, golds, k);
    }
  }

  /** The rows an export reads: one for every window of the gold table. */
  ghost predicate Shows(rows: seq<Export.GoldRow>, gold: map<int, VwapRow>) {
    Export.DistinctWindows(rows) && forall w :: Export.HasWindow(rows, w) <==> w in gold
  }

  /**
   * Exports of the gold tables of a pipeline run are steady as far as gold is concerned, which leaves the clock to the
   * theorem on duplicated windows.
   */
  lemma GoldExportsSteady(batchSize: int, run: seq<PState>, steps: seq<PStep>, at: seq<nat>, full: seq<bool>,
                          golds: seq<map<int, VwapRow>>, read: seq<nat>, events: seq<Export.Event>)
    requires IsPipelineRun(true, batchSize, run, steps) && GoldRuns(run, at, full, golds)
    requires |read| == |events| && (forall i | 0 <= i < |read| :: read[i] < |golds|)
    requires forall i, j | 0 <= i < j < |read| :: read[i] <= read[j]
    requires forall i | 0 <= i < |events| :: Shows(events[i].gold, golds[read[i]])
    requires Export.InClockOrder(events)
    requires forall i: nat | i < |events| :: Export.Succeeded(events, i) ==> Export.NotAhead(events[i])
    ensures Export.Steady(events)
  {
    forall i, j | 0 <= i < j < |events|
      ensures Export.Contains(events[i].gold, events[j].gold)
    {
      GoldWindowsGrow(batchSize, run, steps, at, full, golds, read[i], read[j]);
    }
  }

  // --- End to end ---

  /** n is the nearest multiple of 10^-8, half way the one away from zero. */
  predicate RoundsTo(n: int, x: real) {
    var y := x * 100000000.0;
    && -0.5 <= n as real - y <= 0.5
    && (n as real - y == 0.5 ==> y > 0.0) && (n as real - y == -0.5 ==> y < 0.0)
  }

  lemma CastRounds(x: real)
    ensures RoundsTo(ToNumeric(x), x)
  {
    CastIsNearest(x, 0);
    assert x < 0.0 ==> x * 100000000.0 < 0.0;
  }

  /** The trade carries the fields of the message, price and size up to the rounding of the cast. */
  ghost predicate TradeOf(m: Message, t: Trade) {
    && m.tradeId == Some(t.id)
    && t.side == m.payload.side && t.tradedAt == m.payload.time
    && RoundsTo(t.price, m.payload.price) && RoundsTo(t.size, m.payload.size)
  }

  lemma ParseKeepsFields(r: Row)
    requires r.message.tradeId.Some?
    ensures TradeOf(r.message, Parse(r)) && Parse(r).ingestedAt == r.receivedAt
  {
    CastRounds(r.message.payload.price);
    CastRounds(r.message.payload.size);
  }

  lemma {:induction false} WithIdMember(rows: seq<Row>, m: Message)
    ensures m in WithId(rows) <==> m.tradeId.Some? && exists r :: r in rows && r.message == m
  {
    if rows != [] {
      var n := |rows| - 1;
      WithIdMember(rows[..n], m);
      assert rows == rows[..n] + [rows[n]];
      assert (exists r :: r in rows && r.message == m) <==>
        rows[n].message == m || exists r :: r in rows[..n] && r.message == m;
    }
  }

  /**
   * Once the consumer is at rest, a dbt run makes silver exactly the first message of every id that was added since the
   * process started or committed in an earlier life: one trade per id, none missing, none invented.
   */
  lemma EndToEnd(batchSize: int, run: seq<PState>, steps: seq<PStep>, i: nat)
    requires IsPipelineRun(true, batchSize, run, steps) && i < |steps| && steps[i].DbtRun? && Quiescent(run[i].write)
    ensures run[i + 1].silver.Some?
    ensures var all, silver := Base(run[i].write.crashes) + run[i].write.added, run[i + 1].silver.value;
      var firsts := FirstOfEachId(all);
      && (forall m | m in firsts :: exists t :: t in silver && TradeOf(m, t))
      && (forall t | t in silver :: exists m :: m in firsts && TradeOf(m, t))
      && (forall t, u | t in silver && u in silver && t.id == u.id :: t == u)
  {
    PRunInv(batchSize, run, steps, i);
    assert StepAt(true, batchSize, run, steps, i);
    SilverDbtStep(batchSize, run[i], steps[i].full, run[i + 1]);
    var s, silver := run[i].write, run[i + 1].silver.value;
    QuiescentFlushed(s);
    assert s.stored == s.added;
    FirstsAreTrades(s.bronze, FirstOfEachId(Base(s.crashes) + s.added));
    RebuildIsParsed(s.bronze, silver);
  }

  lemma FirstsAreTrades(bronze: seq<Row>, firsts: seq<Message>)
    requires WithId(bronze) == firsts
    ensures forall m | m in firsts :: exists t :: t in Parsed(bronze) && TradeOf(m, t)
    ensures forall t | t in Parsed(bronze) :: exists m :: m in firsts && TradeOf(m, t)
  {
    forall m | m in firsts
      ensures exists t :: t in Parsed(bronze) && TradeOf(m, t)
    {
      WithIdMember(bronze, m);
      var r :| r in bronze && r.message == m;
      ParseKeepsFields(r);
      assert Parse(r) in Parsed(bronze) && TradeOf(m, Parse(r));
    }
    forall t | t in Parsed(bronze)
      ensures exists m :: m in firsts && TradeOf(m, t)
    {
      var r :| r in bronze && r.message.tradeId.Some? && Parse(r) == t;
      WithIdMember(bronze, r.message);
      ParseKeepsFields(r);
      assert r.message in firsts && TradeOf(r.message, t);
    }
  }

  /**
   * Every vwap that gold computes from what reached silver lies between low_price and high_price, exact or rounded to
   * any grid that contains the prices.
   */
  lemma StoredVwapWithinBounds(bronze: seq<Row>, w: int, grid: int)
    requires forall r | r in bronze :: r.message.payload.size >= 0.0
    requires w in Rebuild(Parsed(bronze)) && Rebuild(Parsed(bronze))[w].vwap.Some? && grid > 0
    ensures var row := Rebuild(Parsed(bronze))[w];
      && row.low as real <= row.vwap.value <= row.high as real
      && row.volume > 0 && IsRowOf(row, MinuteOf(Parsed(bronze), w))
      && row.low * grid <= RoundedQuotient(Notional(Window(Parsed(bronze), w)), row.volume, grid) <= row.high * grid
  {
    var window := Window(Parsed(bronze), w);
    forall t | t in window
      ensures t.size >= 0
    {
      var r :| r in bronze && r.message.tradeId.Some? && Parse(r) == t;
      assert r.message.payload.size >= 0.0;
    }
    assert Volume(window) > 0 by {
      var zero := (t: Trade) => 0;
      SumScale(window, SizeOf, zero, 0);
      SumBounds(window, zero, SizeOf);
    }
    RowsOfRebuild(Parsed(bronze), w);
    VwapWithinBounds(window);
    RoundedVwapWithinBounds(window, grid);
  }
}
