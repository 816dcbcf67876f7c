/** The exporter and the export loop as objects that change files and marks in place (lakehouse/). */
module Lakehouse {
  import opened Wrappers
  import opened Export

  const GOLD_TABLES := ["gold_vwap_1min", "gold_trade_stats_1min"]

  /** The number of the file whose write raises; `partitions` when none does. */
  function StopAt(fault: Fault, partitions: nat): nat {
    if fault.AtPartition? || fault.MidFile? then fault.written else partitions
  }

  /** The Parquet tree, per table; a table without a directory has no entry. */
  class GoldExporter {
    var files: map<string, seq<File>>

    constructor ()
      ensures files == map[]
    {
      files := map[];
    }

    function FilesOf(table: string): seq<File>
      reads this
    {
      if table in files then files[table] else []
    }

    /** One file per date of the query result; writing the file number `stopAt` raises, half way through when `torn`. */
    method WritePartitions(table: string, rows: seq<GoldRow>, stopAt: nat, torn: bool) returns (raised: bool)
      modifies this
      ensures raised <==> stopAt < |Partition(rows)|
      ensures FilesOf(table) ==
        old(FilesOf(table)) + Left(if torn then MidFile(stopAt) else AtPartition(stopAt), Partition(rows))
      ensures forall other | other != table :: FilesOf(other) == old(FilesOf(other))
    {
      var days := DaysOf(rows);
      ghost var parts := Partition(rows);
      var i := 0;
      while i < |days|
        invariant 0 <= i <= |days| && i <= stopAt
        invariant FilesOf(table) == old(FilesOf(table)) + parts[..i]
        invariant forall other | other != table :: FilesOf(other) == old(FilesOf(other))
      {
        var partition := File(days[i], OfDay(rows, days[i]), true);
        if i == stopAt {
          if torn {
            files := files[table := FilesOf(table) + [Torn(partition)]];
          }
          return true;
        }
        assert parts[..i + 1] == parts[..i] + [partition];
        files := files[table := FilesOf(table) + [partition]];
        i := i + 1;
      }
      assert parts[..|days|] == parts;
      return false;
    }

    method FullExport(table: string, gold: seq<GoldRow>, fault: Fault) returns (raised: bool)
      modifies this
      ensures var st := TableState(None, old(FilesOf(table)));
        && FilesOf(table) == RunOnce(st, gold, 0, fault).files
        && (fault.AtUpsert? || (raised <==> !Succeeds(st, gold, fault)))
        && (fault.AtUpsert? ==> !raised)
      ensures forall other | other != table :: FilesOf(other) == old(FilesOf(other))
    {
      if fault.AtStart? && fault.removed <= |FilesOf(table)| {
        files := files[table := FilesOf(table)[fault.removed..]];
        return true;
      }
      files := map name | name in files && name != table :: files[name];
      if fault.AtStart? || fault.AtQuery? {
        return true;
      }
      raised := WritePartitions(table, gold, StopAt(fault, |Partition(gold)|), fault.MidFile?);
    }

    method IncrementalExport(table: string, gold: seq<GoldRow>, mark: int, fault: Fault) returns (raised: bool)
      modifies this
      ensures var st := TableState(Some(mark), old(FilesOf(table)));
        && FilesOf(table) == RunOnce(st, gold, 0, fault).files
        && (fault.AtUpsert? || (raised <==> !Succeeds(st, gold, fault)))
        && (fault.AtUpsert? ==> !raised)
      ensures forall other | other != table :: FilesOf(other) == old(FilesOf(other))
    {
      if fault.AtStart? || fault.AtQuery? {
        return true;
      }
      var rows := NewerThan(gold, mark);
      raised := WritePartitions(table, rows, StopAt(fault, |Partition(rows)|), fault.MidFile?);
    }
  }

  /** ducklake.export_state: one mark per table. */
  class ExportState {
    var marks: map<string, int>

    constructor ()
      ensures marks == map[]
    {
      marks := map[];
    }

    function Mark(table: string): Option<int>
      reads this
    {
      if table in marks then Some(marks[table]) else None
    }

    method Upsert(table: string, lastExportedAt: int)
      modifies this
      ensures Mark(table) == Some(lastExportedAt)
      ensures forall other | other != table :: Mark(other) == old(Mark(other))
    {
      marks := marks[table := lastExportedAt];
    }
  }

  function StateOf(state: ExportState, exporter: GoldExporter, table: string): TableState
    reads state, exporter
  {
    TableState(state.Mark(table), exporter.FilesOf(table))
  }

  /** export_table: one run of the checkpoint protocol on one table; no exception leaves it. */
  method ExportTable(state: ExportState, exporter: GoldExporter, table: string, e: Event) returns (ok: bool)
    modifies state, exporter
    ensures StateOf(state, exporter, table) == RunOnce(old(StateOf(state, exporter, table)), e.gold, e.now, e.fault)
    ensures ok == Succeeds(old(StateOf(state, exporter, table)), e.gold, e.fault)
    ensures forall other | other != table ::
      StateOf(state, exporter, other) == old(StateOf(state, exporter, other))
  {
    var mark := state.Mark(table);
    var raised;
    if mark.None? {
      raised := exporter.FullExport(table, e.gold, e.fault);
    } else {
      raised := exporter.IncrementalExport(table, e.gold, mark.value, e.fault);
    }
    if raised || e.fault.AtUpsert? {
      return false;
    }
    state.Upsert(table, e.now);
    return true;
  }

  /** The states of all gold tables, in order. */
  function States(state: ExportState, exporter: GoldExporter): (sts: seq<TableState>)
    reads state, exporter
    ensures |sts| == |GOLD_TABLES|
    ensures forall k | 0 <= k < |sts| :: sts[k] == StateOf(state, exporter, GOLD_TABLES[k])
  {
    [StateOf(state, exporter, GOLD_TABLES[0]), StateOf(state, exporter, GOLD_TABLES[1])]
  }

  /** What is left when the first n tables have run. */
  function RunTables(sts: seq<TableState>, events: seq<Event>, n: nat): (sts': seq<TableState>)
    requires |events| == |sts| && n <= |sts|
    ensures |sts'| == |sts|
    ensures forall k | 0 <= k < |sts| ::
      sts'[k] == if k < n then RunOnce(sts[k], events[k].gold, events[k].now, events[k].fault) else sts[k]
  {
    seq(|sts|, k requires 0 <= k < |sts| =>
      if k < n then RunOnce(sts[k], events[k].gold, events[k].now, events[k].fault) else sts[k])
  }

  predicate SucceedsAt(sts: seq<TableState>, events: seq<Event>, k: nat)
    requires k < |sts| == |events|
  {
    Succeeds(sts[k], events[k].gold, events[k].fault)
  }

  lemma RunTablesStep(sts: seq<TableState>, events: seq<Event>, n: nat)
    requires |events| == |sts| && n < |sts|
    ensures var before, e := RunTables(sts, events, n), events[n];
      && SucceedsAt(before, events, n) == SucceedsAt(sts, events, n)
      && RunTables(sts, events, n + 1) == before[n := RunOnce(before[n], e.gold, e.now, e.fault)]
  {
  }

  /** The table at position i runs; the others stay. */
  method ExportOne(state: ExportState, exporter: GoldExporter, events: seq<Event>, i: nat) returns (ok: bool)
    requires i < |events| == |GOLD_TABLES|
    modifies state, exporter
    ensures ok == SucceedsAt(old(States(state, exporter)), events, i)
    ensures var start := old(States(state, exporter)); var e := events[i];
      States(state, exporter) == start[i := RunOnce(start[i], e.gold, e.now, e.fault)]
  {
    assert forall k | 0 <= k < |GOLD_TABLES| && k != i :: GOLD_TABLES[k] != GOLD_TABLES[i];
    ok := ExportTable(state, exporter, GOLD_TABLES[i], events[i]);
  }

  /** The results dictionary says how the first n tables ended. */
  ghost predicate Summary(results: map<string, bool>, sts: seq<TableState>, events: seq<Event>, n: nat)
    requires |sts| == |events| == |GOLD_TABLES| && n <= |sts|
  {
    forall k | 0 <= k < n :: GOLD_TABLES[k] in results && results[GOLD_TABLES[k]] == SucceedsAt(sts, events, k)
  }

  lemma SummaryStep(results: map<string, bool>, sts: seq<TableState>, events: seq<Event>, n: nat)
    requires |sts| == |events| == |GOLD_TABLES| && n < |sts| && Summary(results, sts, events, n)
    ensures Summary(results[GOLD_TABLES[n] := SucceedsAt(sts, events, n)], sts, events, n + 1)
  {
    assert forall k | 0 <= k < n :: GOLD_TABLES[k] != GOLD_TABLES[n];
  }

  datatype Outcome = Finished | Raised | Died

  /**
   * run_export: every table is exported whatever happens to the others, and the run raises if one failed. When the
   * process dies during or right after the run of one table, the later ones stay as they are: they have no event.
   */
  method RunExport(state: ExportState, exporter: GoldExporter, events: seq<Event>, diesIn: Option<nat>)
    returns (outcome: Outcome)
    requires |events| == |GOLD_TABLES|
    modifies state, exporter
    ensures outcome.Died? <==> diesIn.Some? && diesIn.value < |GOLD_TABLES|
    ensures States(state, exporter) ==
      RunTables(old(States(state, exporter)), events, if outcome.Died? then diesIn.value + 1 else |GOLD_TABLES|)
    ensures !outcome.Died? ==> (outcome.Raised? <==>
      exists k | 0 <= k < |GOLD_TABLES| :: !SucceedsAt(old(States(state, exporter)), events, k))
  {
    ghost var start := States(state, exporter);
    var results: map<string, bool> := map[];
    var i := 0;
    while i < |GOLD_TABLES|
      invariant 0 <= i <= |GOLD_TABLES| && (diesIn.Some? ==> i <= diesIn.value)
      invariant States(state, exporter) == RunTables(start, events, i)
      invariant Summary(results, start, events, i)
    {
      SummaryStep(results, start, events, i);
      RunTablesStep(start, events, i);
      var ok := ExportOne(state, exporter, events, i);
      results := results[GOLD_TABLES[i] := ok];
      if diesIn == Some(i) {
        return Died;
      }
      i := i + 1;
    }
    outcome := if exists k | 0 <= k < |GOLD_TABLES| :: !results[GOLD_TABLES[k]] then Raised else Finished;
  }

  // --- Any sequence of export runs ---

  datatype ExportRun = ExportRun(events: seq<Event>, diesIn: Option<nat>)

  function TablesReached(r: ExportRun): nat {
    if r.diesIn.Some? && r.diesIn.value < |GOLD_TABLES| then r.diesIn.value + 1 else |GOLD_TABLES|
  }

  predicate WellFormed(runs: seq<ExportRun>) {
    forall r | r in runs :: |r.events| == |GOLD_TABLES|
  }

  /** The tables after these runs, starting from nothing. */
  function StatesAfter(runs: seq<ExportRun>): (sts: seq<TableState>)
    requires WellFormed(runs)
    ensures |sts| == |GOLD_TABLES|
  {
    if runs == [] then seq(|GOLD_TABLES|, _ => TableState(None, [])) else
      var r := runs[|runs| - 1];
      RunTables(StatesAfter(runs[..|runs| - 1]), r.events, TablesReached(r))
  }

  /** The runs of one table: those that the process did not die before. */
  function HistoryOf(runs: seq<ExportRun>, k: nat): seq<Event>
    requires WellFormed(runs) && k < |GOLD_TABLES|
  {
    if runs == [] then [] else
      var r := runs[|runs| - 1];
      HistoryOf(runs[..|runs| - 1], k) + if k < TablesReached(r) then [r.events[k]] else []
  }

  lemma LastRun(runs: seq<ExportRun>, k: nat)
    requires WellFormed(runs) && k < |GOLD_TABLES| && runs != []
    ensures var before, r := runs[..|runs| - 1], runs[|runs| - 1];
      StatesAfter(runs)[k] ==
        if k < TablesReached(r)
        then RunOnce(StatesAfter(before)[k], r.events[k].gold, r.events[k].now, r.events[k].fault)
        else StatesAfter(before)[k]
  {
  }

  /** Over any runs and crashes each table goes through its own history, whatever happens to the other. */
  lemma {:induction false} TablesAreIndependent(runs: seq<ExportRun>, k: nat)
    requires WellFormed(runs) && k < |GOLD_TABLES|
    ensures StatesAfter(runs)[k] == After(HistoryOf(runs, k))
  {
    if runs != [] {
      var before, r := runs[..|runs| - 1], runs[|runs| - 1];
      TablesAreIndependent(before, k);
      LastRun(runs, k);
      if k < TablesReached(r) {
        AfterSnoc(HistoryOf(before, k), r.events[k]);
      } else {
        assert HistoryOf(before, k) + [] == HistoryOf(before, k);
      }
    }
  }
}
