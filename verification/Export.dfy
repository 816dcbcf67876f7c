/**
 * The lakehouse export of one gold table: files, mark and run histories (lakehouse/exporter.py, lakehouse/export.py).
 */
module Export {
  import opened Wrappers

  /** `version` stands for the columns next to window_start: a window can be recomputed. */
  datatype GoldRow = GoldRow(windowStart: int, version: nat)

  /** A Parquet file under year=/month=/day=. When its write died half way it is not `whole`: no row can be read. */
  datatype File = File(day: int, rows: seq<GoldRow>, whole: bool)

  /** What export_state and the file tree hold for one table. */
  datatype TableState = TableState(mark: Option<int>, files: seq<File>)

  /**
   * Where a run of export_table raises: before the query (a full export may by then have removed some files), at the
   * query, before writing the file of the given partition, half way through that file, or before the mark is stored.
   */
  datatype Fault =
    | NoFault
    | AtStart(removed: nat)
    | AtQuery
    | AtPartition(written: nat)
    | MidFile(written: nat)
    | AtUpsert

  const DAY := 86_400_000_000

  function Day(t: int): int {
    t / DAY
  }

  // --- Partitioning by date ---

  /** groupby visits the dates in ascending order. */
  function InsertDay(days: seq<int>, d: int): seq<int> {
    if days == [] || d < days[0] then [d] + days
    else if d == days[0] then days
    else [days[0]] + InsertDay(days[1..], d)
  }

  function DaysOf(rows: seq<GoldRow>): seq<int> {
    if rows == [] then [] else InsertDay(DaysOf(rows[1..]), Day(rows[0].windowStart))
  }

  function OfDay(rows: seq<GoldRow>, d: int): seq<GoldRow> {
    if rows == [] then [] else (if Day(rows[0].windowStart) == d then [rows[0]] else []) + OfDay(rows[1..], d)
  }

  function FilesFor(days: seq<int>, rows: seq<GoldRow>): (files: seq<File>)
    ensures |files| == |days|
    ensures forall i | 0 <= i < |days| :: files[i] == File(days[i], OfDay(rows, days[i]), true)
  {
    seq(|days|, i requires 0 <= i < |days| => File(days[i], OfDay(rows, days[i]), true))
  }

  function Partition(rows: seq<GoldRow>): seq<File> {
    FilesFor(DaysOf(rows), rows)
  }

  function RowsIn(files: seq<File>): seq<GoldRow> {
    if files == [] then [] else files[0].rows + RowsIn(files[1..])
  }

  lemma RowsInCons(f: File, files: seq<File>)
    ensures RowsIn([f] + files) == f.rows + RowsIn(files)
  {
    assert ([f] + files)[1..] == files;
  }

  lemma {:induction false} RowsInConcat(a: seq<File>, b: seq<File>)
    ensures RowsIn(a + b) == RowsIn(a) + RowsIn(b)
  {
    if a == [] {
      assert a + b == b;
    } else {
      var f, rest := a[0], a[1..];
      RowsInConcat(rest, b);
      assert RowsIn(a + b) == RowsIn([f] + (rest + b)) by {
        assert a + b == [f] + (rest + b);
      }
      RowsInCons(f, rest + b);
    }
  }

  predicate Ascending(days: seq<int>) {
    forall i, j | 0 <= i < j < |days| :: days[i] < days[j]
  }

  lemma {:induction false} InsertDayAscending(days: seq<int>, d: int)
    requires Ascending(days)
    ensures Ascending(InsertDay(days, d))
    ensures forall x :: x in InsertDay(days, d) <==> x == d || x in days
  {
    if days == [] || d < days[0] {
    } else if d != days[0] {
      InsertDayAscending(days[1..], d);
      assert days == [days[0]] + days[1..];
    }
  }

  lemma {:induction false} DaysOfAscending(rows: seq<GoldRow>)
    ensures Ascending(DaysOf(rows))
    ensures forall r | r in rows :: Day(r.windowStart) in DaysOf(rows)
  {
    if rows != [] {
      DaysOfAscending(rows[1..]);
      InsertDayAscending(DaysOf(rows[1..]), Day(rows[0].windowStart));
      assert rows == [rows[0]] + rows[1..];
    }
  }

  lemma {:induction false} DaysHaveRows(rows: seq<GoldRow>)
    ensures forall d | d in DaysOf(rows) :: OfDay(rows, d) != []
    ensures rows != [] ==> DaysOf(rows) != []
  {
    if rows != [] {
      DaysHaveRows(rows[1..]);
      DaysOfAscending(rows[1..]);
      InsertDayAscending(DaysOf(rows[1..]), Day(rows[0].windowStart));
    }
  }

  /** Every file that is written holds a row. */
  lemma WrittenFilesHaveRows(rows: seq<GoldRow>, n: nat)
    requires n <= |Partition(rows)|
    ensures RowsIn(Partition(rows)[..n]) != [] <==> n > 0
    ensures Partition(rows) == [] <==> rows == []
  {
    DaysHaveRows(rows);
    if n > 0 {
      assert DaysOf(rows)[0] in DaysOf(rows);
      assert Partition(rows)[..n][0].rows == OfDay(rows, DaysOf(rows)[0]);
    }
  }

  /** The rows of some days, in any order of days, hold each row of those days as often as the input. */
  lemma {:induction false} OfDayCount(rows: seq<GoldRow>, d: int, r: GoldRow)
    ensures multiset(OfDay(rows, d))[r] == if Day(r.windowStart) == d then multiset(rows)[r] else 0
  {
    if rows != [] {
      OfDayCount(rows[1..], d, r);
      assert rows == [rows[0]] + rows[1..];
    }
  }

  lemma FilesForCons(d: int, days: seq<int>, rows: seq<GoldRow>)
    ensures RowsIn(FilesFor([d] + days, rows)) == OfDay(rows, d) + RowsIn(FilesFor(days, rows))
  {
    var files := FilesFor([d] + days, rows);
    assert files[1..] == FilesFor(days, rows);
  }

  lemma {:induction false} FilesForCount(days: seq<int>, rows: seq<GoldRow>, r: GoldRow)
    requires Ascending(days)
    ensures multiset(RowsIn(FilesFor(days, rows)))[r] == if Day(r.windowStart) in days then multiset(rows)[r] else 0
  {
    if days != [] {
      FilesForCount(days[1..], rows, r);
      OfDayCount(rows, days[0], r);
      assert days == [days[0]] + days[1..];
      FilesForCons(days[0], days[1..], rows);
    }
  }

  /** Writing one file per date writes every row exactly as often as the query returned it. */
  lemma PartitionIsPermutation(rows: seq<GoldRow>)
    ensures multiset(RowsIn(Partition(rows))) == multiset(rows)
    ensures forall f, r | f in Partition(rows) && r in f.rows ::
      f.day * 86_400_000_000 <= r.windowStart < (f.day + 1) * 86_400_000_000
    ensures forall i, j | 0 <= i < j < |Partition(rows)| :: Partition(rows)[i].day < Partition(rows)[j].day
  {
    DaysOfAscending(rows);
    forall r
      ensures multiset(RowsIn(Partition(rows)))[r] == multiset(rows)[r]
    {
      FilesForCount(DaysOf(rows), rows, r);
      if r in rows {
        assert Day(r.windowStart) in DaysOf(rows);
      }
    }
    forall f, r | f in Partition(rows) && r in f.rows
      ensures f.day * 86_400_000_000 <= r.windowStart < (f.day + 1) * 86_400_000_000
    {
      OfDayCount(rows, f.day, r);
      assert f.rows == OfDay(rows, f.day);
      assert multiset(f.rows)[r] > 0;
    }
  }

  /** A file holds the rows of its UTC date in the order of the query. */
  lemma {:induction false} FileKeepsOrder(rows: seq<GoldRow>, r: GoldRow, d: int)
    ensures OfDay(rows + [r], d) == OfDay(rows, d) +
      if d * 86_400_000_000 <= r.windowStart < (d + 1) * 86_400_000_000 then [r] else []
  {
    if rows == [] {
      assert rows + [r] == [r] && [r][1..] == [];
    } else {
      FileKeepsOrder(rows[1..], r, d);
      assert (rows + [r])[1..] == rows[1..] + [r];
    }
  }

  // --- One run ---

  function NewerThan(gold: seq<GoldRow>, mark: int): seq<GoldRow> {
    if gold == [] then []
    else if gold[0].windowStart > mark then [gold[0]] + NewerThan(gold[1..], mark)
    else NewerThan(gold[1..], mark)
  }

  /** The rows the run selects: everything without a mark, otherwise what is newer than the mark. */
  function Selected(st: TableState, gold: seq<GoldRow>): seq<GoldRow> {
    if st.mark.Some? then NewerThan(gold, st.mark.value) else gold
  }

  /** A full export starts from an empty tree. */
  function Cleared(st: TableState): seq<File> {
    if st.mark.Some? then st.files else []
  }

  /** A fault at a partition that does not exist never happens. */
  predicate Succeeds(st: TableState, gold: seq<GoldRow>, fault: Fault) {
    fault.NoFault? || ((fault.AtPartition? || fault.MidFile?) && fault.written >= |Partition(Selected(st, gold))|)
  }

  /** What a write that dies half way leaves of a file. */
  function Torn(f: File): File {
    File(f.day, [], false)
  }

  /** The files a run leaves behind, whole or not. */
  function Left(fault: Fault, parts: seq<File>): seq<File> {
    match fault
    case AtStart(_) => []
    case AtQuery => []
    case AtPartition(written) => if written < |parts| then parts[..written] else parts
    case MidFile(written) => if written < |parts| then parts[..written] + [Torn(parts[written])] else parts
    case _ => parts
  }

  /** One call of export_table against a snapshot of gold, reading the clock `now` after the files are written. */
  function RunOnce(st: TableState, gold: seq<GoldRow>, now: int, fault: Fault): TableState {
    var parts := Partition(Selected(st, gold));
    if Succeeds(st, gold, fault) then TableState(Some(now), Cleared(st) + parts)
    else if fault.AtStart? && st.mark.None? && fault.removed <= |st.files| then st.(files := st.files[fault.removed..])
    else st.(files := Cleared(st) + Left(fault, parts))
  }

  /** An incremental query returns the rows newer than the mark, in the order of the table. */
  lemma {:induction false} QueryKeepsOrder(gold: seq<GoldRow>, r: GoldRow, mark: int)
    ensures NewerThan(gold + [r], mark) == NewerThan(gold, mark) + if r.windowStart > mark then [r] else []
  {
    if gold == [] {
      assert gold + [r] == [r] && [r][1..] == [];
    } else {
      QueryKeepsOrder(gold[1..], r, mark);
      assert (gold + [r])[1..] == gold[1..] + [r];
    }
  }

  /**
   * What a failed run leaves: the mark as it was; of a full export that fails while clearing, the files not removed
   * yet; otherwise what was kept and the first files of this run, in order and whole, the last one torn when its write
   * died.
   */
  lemma FailureLeaves(st: TableState, gold: seq<GoldRow>, now: int, fault: Fault)
    requires !Succeeds(st, gold, fault)
    ensures var st', parts := RunOnce(st, gold, now, fault), Partition(Selected(st, gold));
      var kept := if st.mark.Some? then st.files else [];
      && st'.mark == st.mark
      && match fault
         case AtStart(removed) =>
           if st.mark.None? && removed <= |st.files| then st.files == st.files[..removed] + st'.files
           else st'.files == kept
         case AtQuery => st'.files == kept
         case AtPartition(n) => n < |parts| && st'.files == kept + parts[..n]
         case MidFile(n) =>
           && n < |parts| && |st'.files| == |kept| + n + 1 && kept + parts[..n] <= st'.files
           && !st'.files[|kept| + n].whole && st'.files[|kept| + n].rows == []
         case _ => st'.files == kept + parts
  {
    assert st.files + [] == st.files;
  }

  /** How often the tree holds the window. */
  function Copies(files: seq<File>, w: int): nat {
    CopiesIn(RowsIn(files), w)
  }

  function CopiesIn(rows: seq<GoldRow>, w: int): nat {
    if rows == [] then 0 else (if rows[0].windowStart == w then 1 else 0) + CopiesIn(rows[1..], w)
  }

  lemma {:induction false} CopiesConcat(a: seq<GoldRow>, b: seq<GoldRow>, w: int)
    ensures CopiesIn(a + b, w) == CopiesIn(a, w) + CopiesIn(b, w)
  {
    if a == [] {
      assert a + b == b;
    } else {
      CopiesConcat(a[1..], b, w);
      assert (a + b)[1..] == a[1..] + b;
    }
  }

  /** Taking out one occurrence. */
  lemma RemoveOne(b: seq<GoldRow>, i: nat, w: int)
    requires i < |b|
    ensures multiset(b[..i] + b[i + 1..]) == multiset(b) - multiset{b[i]}
    ensures CopiesIn(b, w) == CopiesIn(b[..i] + b[i + 1..], w) + if b[i].windowStart == w then 1 else 0
  {
    var front, r, back := b[..i], [b[i]], b[i + 1..];
    assert b == front + (r + back);
    CopiesConcat(front, r + back, w);
    CopiesConcat(r, back, w);
    CopiesConcat(front, back, w);
  }

  lemma {:induction false} CopiesPermute(a: seq<GoldRow>, b: seq<GoldRow>, w: int)
    requires multiset(a) == multiset(b)
    ensures CopiesIn(a, w) == CopiesIn(b, w)
    decreases |a|
  {
    if a == [] {
      assert |multiset(b)| == 0;
    } else {
      var r := a[0];
      assert a == [r] + a[1..];
      assert multiset(a)[r] > 0;
      var i :| 0 <= i < |b| && b[i] == r;
      RemoveOne(b, i, w);
      assert multiset(a[1..]) == multiset(a) - multiset{r};
      CopiesPermute(a[1..], b[..i] + b[i + 1..], w);
    }
  }

  predicate DistinctWindows(gold: seq<GoldRow>) {
    forall i, j | 0 <= i < j < |gold| :: gold[i].windowStart != gold[j].windowStart
  }

  predicate HasWindow(rows: seq<GoldRow>, w: int) {
    exists r :: r in rows && r.windowStart == w
  }

  lemma {:induction false} CopiesOfDistinct(gold: seq<GoldRow>, w: int)
    requires DistinctWindows(gold)
    ensures CopiesIn(gold, w) == if HasWindow(gold, w) then 1 else 0
  {
    if gold != [] {
      CopiesOfDistinct(gold[1..], w);
      assert gold == [gold[0]] + gold[1..];
      assert HasWindow(gold, w) <==> gold[0].windowStart == w || HasWindow(gold[1..], w);
      forall j | 0 <= j < |gold[1..]|
        ensures gold[1..][j].windowStart != gold[0].windowStart
      {
        assert gold[1..][j] == gold[j + 1];
      }
    }
  }

  lemma {:induction false} CopiesNewerThan(gold: seq<GoldRow>, mark: int, w: int)
    ensures CopiesIn(NewerThan(gold, mark), w) == if w > mark then CopiesIn(gold, w) else 0
  {
    if gold != [] {
      CopiesNewerThan(gold[1..], mark, w);
      if gold[0].windowStart > mark {
        CopiesConcat([gold[0]], NewerThan(gold[1..], mark), w);
      }
    }
  }

  /** What a run selects, and the windows it writes. */
  predicate Sees(st: TableState, gold: seq<GoldRow>, w: int) {
    HasWindow(gold, w) && (st.mark.Some? ==> w > st.mark.value)
  }

  lemma SelectedCopies(st: TableState, gold: seq<GoldRow>, w: int)
    requires DistinctWindows(gold)
    ensures CopiesIn(Selected(st, gold), w) == if Sees(st, gold, w) then 1 else 0
  {
    CopiesOfDistinct(gold, w);
    if st.mark.Some? {
      CopiesNewerThan(gold, st.mark.value, w);
    }
  }

  /** A successful run adds one copy of every window it sees to what it kept. */
  lemma SuccessCopies(st: TableState, gold: seq<GoldRow>, now: int, fault: Fault, w: int)
    requires Succeeds(st, gold, fault) && DistinctWindows(gold)
    ensures Copies(RunOnce(st, gold, now, fault).files, w) ==
      Copies(Cleared(st), w) + if Sees(st, gold, w) then 1 else 0
  {
    var rows := Selected(st, gold);
    PartitionIsPermutation(rows);
    CopiesPermute(RowsIn(Partition(rows)), rows, w);
    RowsInConcat(Cleared(st), Partition(rows));
    CopiesConcat(RowsIn(Cleared(st)), RowsIn(Partition(rows)), w);
    SelectedCopies(st, gold, w);
  }

  lemma SelectedRows(st: TableState, gold: seq<GoldRow>, r: GoldRow)
    ensures r in Selected(st, gold) <==> r in gold && (st.mark.Some? ==> r.windowStart > st.mark.value)
  {
    if st.mark.Some? {
      NewerThanRows(gold, st.mark.value, r);
    }
  }

  lemma {:induction false} NewerThanRows(gold: seq<GoldRow>, mark: int, r: GoldRow)
    ensures r in NewerThan(gold, mark) <==> r in gold && r.windowStart > mark
  {
    if gold != [] {
      NewerThanRows(gold[1..], mark, r);
      assert gold == [gold[0]] + gold[1..];
    }
  }

  // --- Histories ---

  datatype Event = Event(gold: seq<GoldRow>, now: int, fault: Fault)

  function After(events: seq<Event>): TableState {
    if events == [] then TableState(None, []) else
      var e := events[|events| - 1];
      RunOnce(After(events[..|events| - 1]), e.gold, e.now, e.fault)
  }

  lemma AfterSnoc(before: seq<Event>, e: Event)
    ensures After(before + [e]) == RunOnce(After(before), e.gold, e.now, e.fault)
  {
    assert (before + [e])[..|before|] == before;
  }

  predicate Succeeded(events: seq<Event>, i: nat)
    requires i < |events|
  {
    Succeeds(After(events[..i]), events[i].gold, events[i].fault)
  }

  /** Run i succeeded and saw window w in gold, above the mark it read or in a full export. */
  predicate Exported(events: seq<Event>, w: int, i: nat)
    requires i < |events|
  {
    Succeeded(events, i) && Sees(After(events[..i]), events[i].gold, w)
  }

  predicate EverExported(events: seq<Event>, w: int) {
    exists i | 0 <= i < |events| :: Exported(events, w, i)
  }

  lemma ExportedSnoc(before: seq<Event>, e: Event, w: int)
    ensures EverExported(before + [e], w) <==>
      EverExported(before, w) || (Succeeds(After(before), e.gold, e.fault) && Sees(After(before), e.gold, w))
  {
    var events := before + [e];
    assert events[..|before|] == before;
    forall i: nat | i < |before|
      ensures Exported(events, w, i) <==> Exported(before, w, i)
    {
      assert events[..i] == before[..i];
    }
    if EverExported(before, w) {
      var i :| 0 <= i < |before| && Exported(before, w, i);
      assert Exported(events, w, i);
    }
    assert Exported(events, w, |before|) <==>
      Succeeds(After(before), e.gold, e.fault) && Sees(After(before), e.gold, w);
  }

  /** Runs that succeed or fail before writing a file, on a clock that does not go back and is not behind gold. */
  predicate Orderly(events: seq<Event>) {
    && (forall e | e in events :: OrderlyEvent(e))
    && (forall i, j | 0 <= i < j < |events| :: events[i].now <= events[j].now)
  }

  predicate OrderlyEvent(e: Event) {
    && (e.fault.NoFault? || e.fault.AtStart? || e.fault.AtQuery? || e.fault == AtPartition(0))
    && DistinctWindows(e.gold)
    && (e.fault.NoFault? ==> forall r | r in e.gold :: r.windowStart <= e.now)
  }

  lemma OrderlySnoc(before: seq<Event>, e: Event)
    requires Orderly(before + [e])
    ensures Orderly(before) && OrderlyEvent(e)
    ensures forall x | x in before :: x.now <= e.now
  {
    var events := before + [e];
    assert e == events[|before|] && e in events;
    forall i | 0 <= i < |before|
      ensures OrderlyEvent(before[i]) && before[i].now <= e.now
    {
      assert events[i] == before[i] && before[i] in events;
    }
    forall i, j | 0 <= i < j < |before|
      ensures before[i].now <= before[j].now
    {
      assert events[i] == before[i] && events[j] == before[j];
    }
  }

  /** Nothing in the tree is newer than the mark, and the mark is a clock reading of the past. */
  ghost predicate Marked(st: TableState, events: seq<Event>) {
    && (st.mark.None? ==> st.files == [])
    && (st.mark.Some? ==> forall w | Copies(st.files, w) > 0 :: w <= st.mark.value)
    && (st.mark.Some? ==> exists e :: e in events && st.mark.value == e.now)
  }

  /** An orderly run succeeds, seeing no window ahead of its clock reading, or it changes nothing. */
  lemma OrderlyRun(st: TableState, e: Event)
    requires OrderlyEvent(e) && (st.mark.None? ==> st.files == [])
    ensures !Succeeds(st, e.gold, e.fault) ==> RunOnce(st, e.gold, e.now, e.fault) == st
    ensures Succeeds(st, e.gold, e.fault) ==> forall w | Sees(st, e.gold, w) :: w <= e.now
  {
    var rows := Selected(st, e.gold);
    WrittenFilesHaveRows(rows, 0);
    if Succeeds(st, e.gold, e.fault) {
      forall w | Sees(st, e.gold, w)
        ensures w <= e.now
      {
        var r :| r in e.gold && r.windowStart == w;
        SelectedRows(st, e.gold, r);
      }
    } else {
      assert Cleared(st) + [] == st.files;
    }
  }

  lemma MarkedStep(before: seq<Event>, e: Event)
    requires Marked(After(before), before) && OrderlyEvent(e) && forall x | x in before :: x.now <= e.now
    ensures Marked(After(before + [e]), before + [e])
  {
    var st, events := After(before), before + [e];
    AfterSnoc(before, e);
    assert e in events && forall x | x in before :: x in events;
    OrderlyRun(st, e);
    if Succeeds(st, e.gold, e.fault) {
      forall w | Copies(After(events).files, w) > 0
        ensures w <= e.now
      {
        SuccessCopies(st, e.gold, e.now, e.fault, w);
        assert Copies([], w) == 0;
      }
    }
  }

  lemma {:induction false} MarkedAfter(events: seq<Event>)
    requires Orderly(events)
    ensures Marked(After(events), events)
  {
    if events != [] {
      var before, e := events[..|events| - 1], events[|events| - 1];
      assert events == before + [e];
      OrderlySnoc(before, e);
      MarkedAfter(before);
      MarkedStep(before, e);
    }
  }

  lemma ExactlyOnceStep(before: seq<Event>, e: Event, w: int)
    requires Marked(After(before), before) && OrderlyEvent(e)
    requires Copies(After(before).files, w) == if EverExported(before, w) then 1 else 0
    ensures Copies(After(before + [e]).files, w) == if EverExported(before + [e], w) then 1 else 0
  {
    var st := After(before);
    AfterSnoc(before, e);
    ExportedSnoc(before, e, w);
    OrderlyRun(st, e);
    if Succeeds(st, e.gold, e.fault) {
      SuccessCopies(st, e.gold, e.now, e.fault, w);
      assert Copies([], w) == 0;
      if Sees(st, e.gold, w) {
        assert Copies(Cleared(st), w) == 0;
      } else {
        assert Cleared(st) == st.files;
      }
    } else {
      assert After(before + [e]).files == st.files;
    }
  }

  /**
   * Over any such history a window is in the tree exactly when some successful run saw it above the mark it read or in
   * a full export, and then it is there exactly once.
   */
  lemma {:induction false} ExactlyOnce(events: seq<Event>, w: int)
    requires Orderly(events)
    ensures Copies(After(events).files, w) == if EverExported(events, w) then 1 else 0
  {
    if events != [] {
      var before, e := events[..|events| - 1], events[|events| - 1];
      assert events == before + [e];
      OrderlySnoc(before, e);
      MarkedAfter(before);
      ExactlyOnce(before, w);
      ExactlyOnceStep(before, e, w);
    }
  }

  lemma ExportedPrefix(before: seq<Event>, e: Event, w: int, i: nat)
    requires i < |before|
    ensures Exported(before + [e], w, i) <==> Exported(before, w, i)
  {
    assert (before + [e])[..i] == before[..i];
  }

  lemma PartitionRows(rows: seq<GoldRow>, r: GoldRow)
    ensures r in RowsIn(Partition(rows)) <==> r in rows
  {
    PartitionIsPermutation(rows);
    assert r in multiset(RowsIn(Partition(rows))) <==> r in multiset(rows);
  }

  /** A row in the tree after a run was there before, or the run succeeded and selected it from gold. */
  lemma TreeRowStep(st: TableState, e: Event, r: GoldRow)
    requires OrderlyEvent(e) && (st.mark.None? ==> st.files == [])
    requires r in RowsIn(RunOnce(st, e.gold, e.now, e.fault).files)
    ensures r in RowsIn(st.files) ||
      (Succeeds(st, e.gold, e.fault) && r in e.gold && Sees(st, e.gold, r.windowStart))
  {
    OrderlyRun(st, e);
    if Succeeds(st, e.gold, e.fault) {
      var rows := Selected(st, e.gold);
      RowsInConcat(Cleared(st), Partition(rows));
      PartitionRows(rows, r);
      SelectedRows(st, e.gold, r);
    }
  }

  /** Every row in the tree is the row that a successful run saw in gold, all columns included. */
  lemma {:induction false} TreeRowsWereExported(events: seq<Event>, r: GoldRow) returns (i: nat)
    requires Orderly(events) && r in RowsIn(After(events).files)
    ensures i < |events| && Exported(events, r.windowStart, i) && r in events[i].gold
  {
    var before, e := events[..|events| - 1], events[|events| - 1];
    assert events == before + [e];
    OrderlySnoc(before, e);
    MarkedAfter(before);
    AfterSnoc(before, e);
    TreeRowStep(After(before), e, r);
    if r in RowsIn(After(before).files) {
      i := TreeRowsWereExported(before, r);
      ExportedPrefix(before, e, r.windowStart, i);
    } else {
      i := |before|;
    }
  }

  // --- Failures anywhere ---

  predicate EverSucceeded(events: seq<Event>) {
    exists i | 0 <= i < |events| :: Succeeded(events, i)
  }

  lemma SucceededSnoc(before: seq<Event>, e: Event)
    ensures EverSucceeded(before + [e]) <==> EverSucceeded(before) || Succeeds(After(before), e.gold, e.fault)
  {
    var events := before + [e];
    assert events[..|before|] == before;
    forall i: nat | i < |before|
      ensures Succeeded(events, i) <==> Succeeded(before, i)
    {
      assert events[..i] == before[..i];
    }
    if EverSucceeded(before) {
      var i :| 0 <= i < |before| && Succeeded(before, i);
      assert Succeeded(events, i);
    }
    assert Succeeded(events, |before|) <==> Succeeds(After(before), e.gold, e.fault);
  }

  /** There is a mark exactly after some run has succeeded. */
  lemma {:induction false} MarkIffSucceeded(events: seq<Event>)
    ensures After(events).mark.Some? <==> EverSucceeded(events)
  {
    if events != [] {
      var before, e := events[..|events| - 1], events[|events| - 1];
      assert events == before + [e];
      MarkIffSucceeded(before);
      SucceededSnoc(before, e);
      AfterSnoc(before, e);
    }
  }

  /** The mark is the clock reading of the last successful run. */
  lemma {:induction false} MarkIsLastSuccess(events: seq<Event>) returns (i: nat)
    requires EverSucceeded(events)
    ensures i < |events| && Succeeded(events, i) && After(events).mark == Some(events[i].now)
    ensures forall j | i < j < |events| :: !Succeeded(events, j)
  {
    var before, e := events[..|events| - 1], events[|events| - 1];
    assert events == before + [e];
    AfterSnoc(before, e);
    SucceededSnoc(before, e);
    if Succeeds(After(before), e.gold, e.fault) {
      i := |before|;
    } else {
      i := MarkIsLastSuccess(before);
      forall j: nat | j < |before|
        ensures Succeeded(events, j) <==> Succeeded(before, j)
      {
        assert events[..j] == before[..j];
      }
    }
  }

  /** Whatever failing runs left behind, the first successful export leaves exactly the gold snapshot. */
  lemma FirstFullExport(before: seq<Event>, e: Event)
    requires !EverSucceeded(before) && Succeeds(After(before), e.gold, e.fault)
    ensures multiset(RowsIn(After(before + [e]).files)) == multiset(e.gold)
    ensures After(before + [e]).mark == Some(e.now) && AllWhole(After(before + [e]).files)
  {
    MarkIffSucceeded(before);
    AfterSnoc(before, e);
    PartitionIsPermutation(e.gold);
    assert [] + Partition(e.gold) == Partition(e.gold);
  }

  /** An incremental run, whatever happens to it, only adds files; a success brings in every window above the mark. */
  lemma IncrementalAtLeastOnce(st: TableState, gold: seq<GoldRow>, now: int, fault: Fault, w: int)
    requires st.mark.Some? && DistinctWindows(gold)
    ensures st.files <= RunOnce(st, gold, now, fault).files
    ensures Succeeds(st, gold, fault) && HasWindow(gold, w) && w > st.mark.value ==>
      Copies(RunOnce(st, gold, now, fault).files, w) >= 1
  {
    if Succeeds(st, gold, fault) {
      SuccessCopies(st, gold, now, fault, w);
    }
  }

  /** A successful incremental run leaves no window of gold missing exactly when none was missing up to the mark. */
  lemma CompleteIff(st: TableState, gold: seq<GoldRow>, now: int)
    requires st.mark.Some? && DistinctWindows(gold)
    ensures (forall w | HasWindow(gold, w) :: Copies(RunOnce(st, gold, now, NoFault).files, w) >= 1)
      <==> (forall w | HasWindow(gold, w) && w <= st.mark.value :: Copies(st.files, w) >= 1)
  {
    forall w | HasWindow(gold, w)
      ensures Copies(RunOnce(st, gold, now, NoFault).files, w) >= 1 <==>
        (w <= st.mark.value ==> Copies(st.files, w) >= 1)
    {
      SuccessCopies(st, gold, now, NoFault, w);
    }
  }

  // --- Rows that change after their export ---

  /** The rows at or below the mark, which an incremental run passes over. */
  function UpTo(gold: seq<GoldRow>, mark: int): seq<GoldRow> {
    if gold == [] then [] else (if gold[0].windowStart <= mark then [gold[0]] else []) + UpTo(gold[1..], mark)
  }

  lemma {:induction false} SplitAtMark(gold: seq<GoldRow>, mark: int)
    ensures multiset(gold) == multiset(UpTo(gold, mark)) + multiset(NewerThan(gold, mark))
  {
    if gold != [] {
      SplitAtMark(gold[1..], mark);
      assert gold == [gold[0]] + gold[1..];
    }
  }

  /**
   * A successful incremental run leaves the tree with exactly the rows of gold, all columns included, if and only if
   * the tree already held exactly the rows that gold now has at or below the mark: nothing was missing there, held
   * twice, or recomputed since its export.
   */
  lemma ExactIff(st: TableState, gold: seq<GoldRow>, now: int, fault: Fault)
    requires st.mark.Some? && Succeeds(st, gold, fault)
    ensures multiset(RowsIn(RunOnce(st, gold, now, fault).files)) == multiset(gold)
      <==> multiset(RowsIn(st.files)) == multiset(UpTo(gold, st.mark.value))
  {
    var rows := NewerThan(gold, st.mark.value);
    RowsInConcat(st.files, Partition(rows));
    PartitionIsPermutation(rows);
    SplitAtMark(gold, st.mark.value);
    CancelRight(multiset(RowsIn(st.files)), multiset(UpTo(gold, st.mark.value)), multiset(rows));
  }

  lemma CancelRight<T>(a: multiset<T>, b: multiset<T>, c: multiset<T>)
    ensures a + c == b + c <==> a == b
  {
    if a + c == b + c {
      forall x
        ensures a[x] == b[x]
      {
        assert (a + c)[x] == (b + c)[x];
      }
    }
  }

  /** A window exported while partial and recomputed later: the tree keeps the old row. */
  lemma StaleRowKept(w: int, now: int, now': int)
    requires w <= now <= now'
    ensures var events := [Event([GoldRow(w, 0)], now, NoFault), Event([GoldRow(w, 1)], now', NoFault)];
      RowsIn(After(events).files) == [GoldRow(w, 0)]
  {
    var partial, recomputed := [GoldRow(w, 0)], [GoldRow(w, 1)];
    var e0, e1 := Event(partial, now, NoFault), Event(recomputed, now', NoFault);
    assert [e0, e1] == [e0] + [e1] && [e0] == [] + [e0];
    AfterSnoc([], e0);
    AfterSnoc([e0], e1);
    FirstFullExport([], e0);
    var rows := RowsIn(After([e0]).files);
    assert |rows| == |multiset(rows)| == 1 && rows[0] in multiset(partial);
    IncrementalRows(After([e0]), recomputed, now', NoFault);
    assert NewerThan(recomputed, now) == [];
    assert rows + [] == rows;
  }

  // --- Files that died half way ---

  predicate AllWhole(files: seq<File>) {
    forall f | f in files :: f.whole
  }

  /** An incremental run that died inside a file. */
  predicate TearsFile(st: TableState, e: Event) {
    st.mark.Some? && !Succeeds(st, e.gold, e.fault) && e.fault.MidFile?
  }

  predicate EverTorn(events: seq<Event>) {
    events != [] &&
    (EverTorn(events[..|events| - 1]) || TearsFile(After(events[..|events| - 1]), events[|events| - 1]))
  }

  lemma WholeConcat(a: seq<File>, b: seq<File>)
    ensures AllWhole(a + b) <==> AllWhole(a) && AllWhole(b)
  {
    forall f | f in a || f in b
      ensures f in a + b
    {
    }
  }

  lemma LeftWhole(fault: Fault, rows: seq<GoldRow>)
    ensures AllWhole(Partition(rows))
    ensures AllWhole(Left(fault, Partition(rows))) <==> !(fault.MidFile? && fault.written < |Partition(rows)|)
  {
    var parts := Partition(rows);
    if fault.MidFile? && fault.written < |parts| {
      assert Torn(parts[fault.written]) in Left(fault, parts);
    }
  }

  lemma FullRunWhole(st: TableState, e: Event)
    requires st.mark.None? && Succeeds(st, e.gold, e.fault)
    ensures AllWhole(RunOnce(st, e.gold, e.now, e.fault).files)
  {
    LeftWhole(e.fault, e.gold);
    assert [] + Partition(e.gold) == Partition(e.gold);
  }

  lemma IncrementalRunWhole(st: TableState, e: Event)
    requires st.mark.Some?
    ensures AllWhole(RunOnce(st, e.gold, e.now, e.fault).files) <==> AllWhole(st.files) && !TearsFile(st, e)
  {
    var rows := Selected(st, e.gold);
    LeftWhole(e.fault, rows);
    IncrementalFiles(st, e.gold, e.now, e.fault);
    WholeConcat(st.files, Left(e.fault, Partition(rows)));
  }

  /** Before the first success no run is incremental. */
  lemma {:induction false} NoMarkNoTear(events: seq<Event>)
    requires After(events).mark.None?
    ensures !EverTorn(events)
  {
    if events != [] {
      AfterSnoc(events[..|events| - 1], events[|events| - 1]);
      assert events == events[..|events| - 1] + [events[|events| - 1]];
      NoMarkNoTear(events[..|events| - 1]);
    }
  }

  /**
   * Over any history, once a run has succeeded: every file of the tree can be read exactly when no incremental run died
   * inside a file. The first full export clears what died before it, and nothing clears the tree later.
   */
  lemma {:induction false} ReadableIff(events: seq<Event>)
    requires After(events).mark.Some?
    ensures AllWhole(After(events).files) <==> !EverTorn(events)
  {
    var before, e := events[..|events| - 1], events[|events| - 1];
    assert events == before + [e];
    AfterSnoc(before, e);
    if After(before).mark.Some? {
      ReadableIff(before);
      IncrementalRunWhole(After(before), e);
    } else {
      NoMarkNoTear(before);
      FullRunWhole(After(before), e);
    }
  }

  // --- A window behind the mark ---

  predicate InClockOrder(events: seq<Event>) {
    forall i, j | 0 <= i < j < |events| :: events[i].now <= events[j].now
  }

  lemma InClockOrderSnoc(before: seq<Event>, e: Event)
    requires InClockOrder(before + [e])
    ensures InClockOrder(before) && forall x | x in before :: x.now <= e.now
  {
    var events := before + [e];
    forall i | 0 <= i < |before|
      ensures before[i].now <= e.now
    {
      assert events[i] == before[i] && events[|before|] == e;
    }
    forall i, j | 0 <= i < j < |before|
      ensures before[i].now <= before[j].now
    {
      assert events[i] == before[i] && events[j] == before[j];
    }
  }

  /** On a clock that does not go back, the mark is not behind any later reading. */
  lemma {:induction false} MarkIsPast(events: seq<Event>, now: int)
    requires After(events).mark.Some? && forall x | x in events :: x.now <= now
    ensures After(events).mark.value <= now
  {
    var before, e := events[..|events| - 1], events[|events| - 1];
    assert events == before + [e];
    AfterSnoc(before, e);
    if After(events).mark == After(before).mark {
      MarkIsPast(before, now);
    } else {
      assert e in events;
    }
  }

  /** The number of whole files a run writes. */
  function FilesWritten(fault: Fault, partitions: nat): nat {
    match fault
    case AtStart(_) => 0
    case AtQuery => 0
    case AtPartition(written) => if written < partitions then written else partitions
    case MidFile(written) => if written < partitions then written else partitions
    case _ => partitions
  }

  lemma LeftRows(fault: Fault, parts: seq<File>)
    ensures RowsIn(Left(fault, parts)) == RowsIn(parts[..FilesWritten(fault, |parts|)])
  {
    assert parts[..|parts|] == parts && parts[..0] == [];
    if fault.MidFile? && fault.written < |parts| {
      var torn := [Torn(parts[fault.written])];
      RowsInConcat(parts[..fault.written], torn);
      assert RowsIn(torn) == [] by {
        RowsInCons(torn[0], []);
        assert torn == [torn[0]] + [];
      }
    }
  }

  lemma IncrementalFiles(st: TableState, gold: seq<GoldRow>, now: int, fault: Fault)
    requires st.mark.Some?
    ensures RunOnce(st, gold, now, fault).files == st.files + Left(fault, Partition(Selected(st, gold)))
  {
  }

  lemma IncrementalRows(st: TableState, gold: seq<GoldRow>, now: int, fault: Fault)
    requires st.mark.Some?
    ensures var parts := Partition(Selected(st, gold));
      RowsIn(RunOnce(st, gold, now, fault).files) == RowsIn(st.files) + RowsIn(parts[..FilesWritten(fault, |parts|)])
  {
    var parts := Partition(Selected(st, gold));
    IncrementalFiles(st, gold, now, fault);
    RowsInConcat(st.files, Left(fault, parts));
    LeftRows(fault, parts);
  }

  lemma IncrementalCopies(st: TableState, gold: seq<GoldRow>, now: int, fault: Fault, w: int)
    requires st.mark.Some?
    ensures var parts := Partition(Selected(st, gold));
      Copies(RunOnce(st, gold, now, fault).files, w) ==
        Copies(st.files, w) + Copies(parts[..FilesWritten(fault, |parts|)], w)
  {
    var parts := Partition(Selected(st, gold));
    IncrementalRows(st, gold, now, fault);
    CopiesConcat(RowsIn(st.files), RowsIn(parts[..FilesWritten(fault, |parts|)]), w);
  }

  /** Files written up to a failure hold at most as many copies as the query returned. */
  lemma FrontCopies(rows: seq<GoldRow>, n: nat, w: int)
    requires n <= |Partition(rows)|
    ensures Copies(Partition(rows)[..n], w) <= CopiesIn(rows, w)
  {
    var parts := Partition(rows);
    assert parts == parts[..n] + parts[n..];
    RowsInConcat(parts[..n], parts[n..]);
    CopiesConcat(RowsIn(parts[..n]), RowsIn(parts[n..]), w);
    PartitionIsPermutation(rows);
    CopiesPermute(RowsIn(parts), rows, w);
  }

  /** A run whose mark has passed the window writes no copy of it. */
  lemma BehindMarkStep(st: TableState, gold: seq<GoldRow>, now: int, fault: Fault, w: int)
    requires st.mark.Some? && w <= st.mark.value
    ensures Copies(RunOnce(st, gold, now, fault).files, w) == Copies(st.files, w)
  {
    var rows := Selected(st, gold);
    IncrementalCopies(st, gold, now, fault, w);
    FrontCopies(rows, FilesWritten(fault, |Partition(rows)|), w);
    CopiesNewerThan(gold, st.mark.value, w);
  }

  predicate PassedBy(st: TableState, w: int) {
    st.mark.Some? && w <= st.mark.value
  }

  lemma PassedByStep(before: seq<Event>, e: Event, w: int)
    requires PassedBy(After(before), w) && forall x | x in before :: x.now <= e.now
    ensures PassedBy(After(before + [e]), w)
    ensures Copies(After(before + [e]).files, w) == Copies(After(before).files, w)
  {
    AfterSnoc(before, e);
    BehindMarkStep(After(before), e.gold, e.now, e.fault, w);
    MarkIsPast(before, e.now);
  }

  /**
   * The mark is the clock, not the last window: a window that is not in the tree when the mark has passed it is never
   * exported, whatever the later runs are and whatever gold they see.
   */
  lemma {:induction false} LateNeverExported(before: seq<Event>, later: seq<Event>, w: int)
    requires InClockOrder(before + later) && PassedBy(After(before), w)
    ensures PassedBy(After(before + later), w)
    ensures Copies(After(before + later).files, w) == Copies(After(before).files, w)
  {
    if later == [] {
      assert before + later == before;
    } else {
      var front, e := later[..|later| - 1], later[|later| - 1];
      assert before + later == before + front + [e];
      InClockOrderSnoc(before + front, e);
      LateNeverExported(before, front, w);
      PassedByStep(before + front, e, w);
    }
  }

  /** Such a history: the second run succeeds, sees the late window in gold and does not export it. */
  lemma LateWindowLost(early: GoldRow, late: GoldRow, now: int, now': int)
    requires early.windowStart < late.windowStart <= now <= now'
    ensures var events := [Event([early], now, NoFault), Event([early, late], now', NoFault)];
      Copies(After(events).files, late.windowStart) == 0
  {
    var e0, e1 := Event([early], now, NoFault), Event([early, late], now', NoFault);
    assert [e0, e1] == [e0] + [e1] && [e0] == [] + [e0];
    AfterSnoc([], e0);
    AfterSnoc([e0], e1);
    var st := After([e0]);
    SuccessCopies(After([]), [early], now, NoFault, late.windowStart);
    assert !HasWindow([early], late.windowStart);
    SuccessCopies(st, [early, late], now', NoFault, late.windowStart);
  }

  // --- When a retry duplicates ---

  /** The run got as far as writing a row. */
  predicate WritesRows(fault: Fault, selected: seq<GoldRow>) {
    match fault
    case AtPartition(written) => written > 0
    case MidFile(written) => written > 0
    case AtUpsert => selected != []
    case _ => false
  }

  ghost predicate Contains(gold: seq<GoldRow>, later: seq<GoldRow>) {
    forall w | HasWindow(gold, w) :: HasWindow(later, w)
  }

  /** No window is held twice, and none that a next run would see. */
  ghost predicate Tidy(st: TableState) {
    st.mark.Some? ==> forall w :: Copies(st.files, w) <= 1 && (Copies(st.files, w) > 0 ==> w <= st.mark.value)
  }

  /** A failed run that wrote nothing leaves the copies alone; one that wrote leaves a window a next run sees again. */
  lemma FailedRunCopies(st: TableState, gold: seq<GoldRow>, now: int, fault: Fault) returns (w: int)
    requires st.mark.Some? && !Succeeds(st, gold, fault)
    ensures var st', rows := RunOnce(st, gold, now, fault), Selected(st, gold);
      && st'.mark == st.mark
      && if WritesRows(fault, rows) then Sees(st, gold, w) && Copies(st'.files, w) >= 1
         else forall v :: Copies(st'.files, v) == Copies(st.files, v)
  {
    var rows := Selected(st, gold);
    var n := FilesWritten(fault, |Partition(rows)|);
    IncrementalRows(st, gold, now, fault);
    WrittenFilesHaveRows(rows, n);
    w := 0;
    if WritesRows(fault, rows) {
      var r := RowsIn(Partition(rows)[..n])[0];
      w := r.windowStart;
      assert Copies(Partition(rows)[..n], w) >= 1;
      IncrementalCopies(st, gold, now, fault, w);
      WrittenWasSelected(rows, n, r);
      SelectedRows(st, gold, r);
    } else {
      assert RowsIn(st.files) + [] == RowsIn(st.files);
    }
  }

  lemma WrittenWasSelected(rows: seq<GoldRow>, n: nat, r: GoldRow)
    requires n <= |Partition(rows)| && r in RowsIn(Partition(rows)[..n])
    ensures r in rows
  {
    var parts := Partition(rows);
    assert parts == parts[..n] + parts[n..];
    RowsInConcat(parts[..n], parts[n..]);
    PartitionRows(rows, r);
  }

  /**
   * A failed incremental run followed by a success, over a gold that has only gained windows, duplicates a window
   * exactly when the failed run had got as far as writing a row.
   */
  lemma RetryDuplicatesIff(st: TableState, gold: seq<GoldRow>, gold': seq<GoldRow>, now: int, now': int, fault: Fault)
    requires st.mark.Some? && Tidy(st) && !Succeeds(st, gold, fault)
    requires DistinctWindows(gold') && Contains(gold, gold')
    ensures var failed := RunOnce(st, gold, now, fault);
      (exists w :: Copies(RunOnce(failed, gold', now', NoFault).files, w) > 1)
        <==> WritesRows(fault, Selected(st, gold))
  {
    var failed := RunOnce(st, gold, now, fault);
    var w := FailedRunCopies(st, gold, now, fault);
    if WritesRows(fault, Selected(st, gold)) {
      SuccessCopies(failed, gold', now', NoFault, w);
    } else {
      forall w
        ensures Copies(RunOnce(failed, gold', now', NoFault).files, w) <= 1
      {
        SuccessCopies(failed, gold', now', NoFault, w);
      }
    }
  }

  /** An incremental run that failed after writing a row. */
  predicate Spoils(st: TableState, e: Event) {
    st.mark.Some? && !Succeeds(st, e.gold, e.fault) && WritesRows(e.fault, Selected(st, e.gold))
  }

  predicate SpoiledAt(events: seq<Event>, i: nat)
    requires i < |events|
  {
    Spoils(After(events[..i]), events[i])
  }

  predicate EverSpoiled(events: seq<Event>) {
    exists i | 0 <= i < |events| :: SpoiledAt(events, i)
  }

  lemma SpoiledSnoc(before: seq<Event>, e: Event)
    ensures EverSpoiled(before + [e]) <==> EverSpoiled(before) || Spoils(After(before), e)
  {
    var events := before + [e];
    assert events[..|before|] == before;
    forall i: nat | i < |before|
      ensures SpoiledAt(events, i) <==> SpoiledAt(before, i)
    {
      assert events[..i] == before[..i];
    }
    if EverSpoiled(before) {
      var i :| 0 <= i < |before| && SpoiledAt(before, i);
      assert SpoiledAt(events, i);
    }
    assert SpoiledAt(events, |before|) <==> Spoils(After(before), e);
  }

  /** Any faults, on a clock that does not go back; gold only gains windows, and a success is not behind its windows. */
  ghost predicate Steady(events: seq<Event>) {
    && InClockOrder(events)
    && (forall e | e in events :: DistinctWindows(e.gold))
    && (forall i, j | 0 <= i < j < |events| :: Contains(events[i].gold, events[j].gold))
    && (forall i: nat | i < |events| :: Succeeded(events, i) ==> NotAhead(events[i]))
  }

  predicate NotAhead(e: Event) {
    forall r | r in e.gold :: r.windowStart <= e.now
  }

  lemma SteadySnoc(before: seq<Event>, e: Event)
    requires Steady(before + [e])
    ensures Steady(before) && DistinctWindows(e.gold)
    ensures forall x | x in before :: x.now <= e.now && Contains(x.gold, e.gold)
    ensures Succeeds(After(before), e.gold, e.fault) ==> NotAhead(e)
  {
    var events := before + [e];
    InClockOrderSnoc(before, e);
    assert events[|before|] == e && events[..|before|] == before && e in events;
    assert Succeeded(events, |before|) <==> Succeeds(After(before), e.gold, e.fault);
    forall i: nat | i < |before|
      ensures Contains(before[i].gold, e.gold) && before[i] in events
      ensures Succeeded(before, i) ==> NotAhead(before[i])
    {
      assert events[i] == before[i] && events[..i] == before[..i];
      assert Succeeded(events, i) <==> Succeeded(before, i);
    }
    forall i, j | 0 <= i < j < |before|
      ensures Contains(before[i].gold, before[j].gold)
    {
      assert events[i] == before[i] && events[j] == before[j];
    }
  }

  /** The tree holds the window twice, or once while gold holds it above the mark. */
  predicate SpoiledBy(st: TableState, events: seq<Event>, w: int) {
    && st.mark.Some?
    && (Copies(st.files, w) > 1 || (Copies(st.files, w) == 1 && w > st.mark.value && EverInGold(events, w)))
  }

  predicate EverInGold(events: seq<Event>, w: int) {
    exists e :: e in events && HasWindow(e.gold, w)
  }

  /** A success that sees a window the tree holds has it there twice; a failed run takes nothing away. */
  lemma SecondCopy(st: TableState, e: Event, w: int)
    requires st.mark.Some? && DistinctWindows(e.gold)
    ensures var st' := RunOnce(st, e.gold, e.now, e.fault);
      if Succeeds(st, e.gold, e.fault)
      then Copies(st'.files, w) == Copies(st.files, w) + if Sees(st, e.gold, w) then 1 else 0
      else st'.mark == st.mark && Copies(st'.files, w) >= Copies(st.files, w)
  {
    if Succeeds(st, e.gold, e.fault) {
      SuccessCopies(st, e.gold, e.now, e.fault, w);
    } else {
      IncrementalCopies(st, e.gold, e.now, e.fault, w);
    }
  }

  lemma EverInGoldSnoc(before: seq<Event>, e: Event, w: int)
    requires EverInGold(before, w) && forall x | x in before :: Contains(x.gold, e.gold)
    ensures EverInGold(before + [e], w) && HasWindow(e.gold, w)
  {
    var x :| x in before && HasWindow(x.gold, w);
    assert e in before + [e];
  }

  lemma SpoiledStays(before: seq<Event>, e: Event, w: int)
    requires DistinctWindows(e.gold) && forall x | x in before :: Contains(x.gold, e.gold)
    requires SpoiledBy(After(before), before, w)
    ensures SpoiledBy(After(before + [e]), before + [e], w)
    ensures Succeeds(After(before), e.gold, e.fault) ==> Copies(After(before + [e]).files, w) > 1
  {
    AfterSnoc(before, e);
    if EverInGold(before, w) {
      EverInGoldSnoc(before, e, w);
    }
    SecondCopy(After(before), e, w);
  }

  lemma TidySuccess(before: seq<Event>, e: Event)
    requires Steady(before + [e]) && Tidy(After(before)) && Succeeds(After(before), e.gold, e.fault)
    ensures Tidy(After(before + [e])) && After(before + [e]).mark == Some(e.now)
  {
    var st := After(before);
    SteadySnoc(before, e);
    AfterSnoc(before, e);
    if st.mark.Some? {
      MarkIsPast(before, e.now);
    }
    forall w
      ensures Copies(After(before + [e]).files, w) <= 1
      ensures Copies(After(before + [e]).files, w) > 0 ==> w <= e.now
    {
      SuccessCopies(st, e.gold, e.now, e.fault, w);
      assert Copies([], w) == 0;
    }
  }

  lemma TidyFailure(before: seq<Event>, e: Event) returns (w: int)
    requires Tidy(After(before)) && !Succeeds(After(before), e.gold, e.fault)
    ensures var st' := After(before + [e]);
      if Spoils(After(before), e) then SpoiledBy(st', before + [e], w) else Tidy(st')
  {
    var st := After(before);
    AfterSnoc(before, e);
    w := 0;
    if st.mark.Some? {
      w := FailedRunCopies(st, e.gold, e.now, e.fault);
      assert EverInGold(before + [e], w) <== HasWindow(e.gold, w) by {
        assert e in before + [e];
      }
    }
  }

  ghost predicate TidyOrSpoiled(events: seq<Event>, w: int) {
    if EverSpoiled(events) then SpoiledBy(After(events), events, w) else Tidy(After(events))
  }

  lemma TidyOrSpoiledStep(before: seq<Event>, e: Event, w: int) returns (w': int)
    requires Steady(before + [e]) && TidyOrSpoiled(before, w)
    ensures TidyOrSpoiled(before + [e], w')
  {
    w' := w;
    SpoiledSnoc(before, e);
    if EverSpoiled(before) {
      SteadySnoc(before, e);
      SpoiledStays(before, e, w);
    } else if Succeeds(After(before), e.gold, e.fault) {
      TidySuccess(before, e);
    } else {
      w' := TidyFailure(before, e);
    }
  }

  lemma TidyAtStart(w: int)
    ensures TidyOrSpoiled([], w)
  {
  }

  lemma FrontAndLast(events: seq<Event>)
    requires events != []
    ensures events == events[..|events| - 1] + [events[|events| - 1]]
  {
  }

  lemma SteadyFront(events: seq<Event>)
    requires events != [] && Steady(events)
    ensures Steady(events[..|events| - 1])
  {
    FrontAndLast(events);
    SteadySnoc(events[..|events| - 1], events[|events| - 1]);
  }

  lemma TidyOrSpoiledNext(events: seq<Event>, w: int) returns (w': int)
    requires events != [] && Steady(events) && TidyOrSpoiled(events[..|events| - 1], w)
    ensures TidyOrSpoiled(events, w')
  {
    FrontAndLast(events);
    w' := TidyOrSpoiledStep(events[..|events| - 1], events[|events| - 1], w);
  }

  /** The tree is tidy until an incremental run fails after writing a row, and never again. */
  lemma {:induction false} TidyUntilSpoiled(events: seq<Event>) returns (w: int)
    requires Steady(events)
    ensures TidyOrSpoiled(events, w)
  {
    if events == [] {
      w := 0;
      TidyAtStart(w);
    } else {
      SteadyFront(events);
      w := TidyUntilSpoiled(events[..|events| - 1]);
      w := TidyOrSpoiledNext(events, w);
    }
  }

  /**
   * Over any steady history that ends with a success, failures anywhere: some window is in the tree twice exactly when
   * an incremental run failed after writing a row.
   */
  lemma DuplicatesIff(before: seq<Event>, e: Event)
    requires Steady(before + [e]) && Succeeds(After(before), e.gold, e.fault)
    ensures (exists w :: Copies(After(before + [e]).files, w) > 1) <==> EverSpoiled(before)
  {
    SteadySnoc(before, e);
    var w := TidyUntilSpoiled(before);
    if EverSpoiled(before) {
      SpoiledStays(before, e, w);
    } else {
      TidySuccess(before, e);
    }
  }

  /** Such a history: an empty full export, a run that fails before the mark is stored, and its retry. */
  lemma RetryDuplicates(r: GoldRow, now: int)
    requires now < r.windowStart
    ensures var t := r.windowStart;
      Copies(After([Event([], now, NoFault), Event([r], t, AtUpsert), Event([r], t, NoFault)]).files, t) == 2
  {
    var e0, e1, e2 := Event([], now, NoFault), Event([r], r.windowStart, AtUpsert), Event([r], r.windowStart, NoFault);
    assert [e0, e1, e2] == [e0] + [e1] + [e2] && [e0] == [] + [e0];
    AfterSnoc([], e0);
    AfterSnoc([e0], e1);
    AfterSnoc([e0] + [e1], e2);
    var st, failed := After([e0]), After([e0] + [e1]);
    FirstFullExport([], e0);
    assert st.mark == Some(now) && Copies(st.files, r.windowStart) == 0;
    AtUpsertCopies(st, [r], r.windowStart, r.windowStart);
    assert HasWindow([r], r.windowStart) by { assert r in [r]; }
    SuccessCopies(failed, [r], r.windowStart, NoFault, r.windowStart);
  }

  /** A run that fails at the mark leaves the copies of a success. */
  lemma AtUpsertCopies(st: TableState, gold: seq<GoldRow>, now: int, w: int)
    requires DistinctWindows(gold)
    ensures Copies(RunOnce(st, gold, now, AtUpsert).files, w) ==
      Copies(Cleared(st), w) + if Sees(st, gold, w) then 1 else 0
    ensures RunOnce(st, gold, now, AtUpsert).mark == st.mark
  {
    SuccessCopies(st, gold, now, NoFault, w);
  }
}
