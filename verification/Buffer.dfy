/** The thread-safe batch buffer (consumer/batch_buffer.py), one critical section at a time. */
module Buffer {
  import opened Wrappers
  import opened Bronze

  /**
   * Everything the lock protects, plus the timers. `timer` is the `_timer` field, `armed` the started timers
   * that have neither fired nor been cancelled, `nextTimer` the name of the next Timer object.
   */
  datatype Shared = Shared(
    buffer: seq<Message>, overloaded: bool, flushing: bool,
    timer: Option<nat>, armed: set<nat>, nextTimer: nat)

  // --- The critical sections ---

  function StartTimer(s: Shared): Shared {
    s.(timer := Some(s.nextTimer), armed := s.armed + {s.nextTimer}, nextTimer := s.nextTimer + 1)
  }

  function Initial(): Shared {
    StartTimer(Shared([], false, false, None, {}, 0))
  }

  function Append(batchSize: int, s: Shared, m: Message): Shared {
    var buffer := s.buffer + [m];
    s.(buffer := buffer, overloaded := |buffer| > 2 * batchSize)
  }

  /** The guard of `flush`: false means the call returns at once. */
  predicate CanTake(s: Shared) {
    !s.flushing && s.buffer != []
  }

  /** The batch is s.buffer. */
  function Take(s: Shared): Shared {
    s.(flushing := true, buffer := [], overloaded := false)
  }

  function PutBack(s: Shared, batch: seq<Message>): Shared {
    s.(buffer := batch + s.buffer)
  }

  function Clear(s: Shared): Shared {
    s.(flushing := false)
  }

  function CancelTimer(s: Shared): Shared {
    if s.timer.Some? then s.(armed := s.armed - {s.timer.value}) else s
  }

  function ResetTimer(s: Shared): Shared {
    StartTimer(CancelTimer(s))
  }

  function Stop(s: Shared): Shared {
    CancelTimer(s).(timer := None)
  }

  /** A timer fires: its thread will call flush. Not a critical section. */
  function Fire(s: Shared, id: nat): Shared {
    s.(armed := s.armed - {id})
  }

  // --- Whole calls that nothing interrupts ---

  /** The buffer after a call, and the batch the call handed to the repository, if any. */
  datatype Outcome = Outcome(shared: Shared, attempted: Option<seq<Message>>)

  function FlushCall(s: Shared, fate: Fate): Outcome {
    if !CanTake(s) then Outcome(s, None) else
      var after := if fate.Commits? then Take(s) else PutBack(Take(s), s.buffer);
      Outcome(ResetTimer(Clear(after)), Some(s.buffer))
  }

  function AddCall(batchSize: int, s: Shared, m: Message, fate: Fate): Outcome {
    var s' := Append(batchSize, s, m);
    if |s'.buffer| >= batchSize then FlushCall(s', fate) else Outcome(s', None)
  }

  /** The repository's side of insert_batch. */
  function StoreBatch(s: Store, batch: seq<Message>, at: int, fate: Fate): Store {
    if fate.FailsBeforeCommit? then s else
      var kept := Kept(s.table, batch, at);
      Store(s.table + kept, if Counts(fate) then s.skipped + |batch| - |kept| else s.skipped)
  }

  function StoreAttempt(s: Store, attempted: Option<seq<Message>>, at: int, fate: Fate): Store {
    if attempted.Some? then StoreBatch(s, attempted.value, at, fate) else s
  }

  function Flatten(batches: seq<seq<Message>>): seq<Message> {
    if batches == [] then [] else Flatten(batches[..|batches| - 1]) + batches[|batches| - 1]
  }

  lemma FlattenSnoc(batches: seq<seq<Message>>, b: seq<Message>)
    ensures Flatten(batches + [b]) == Flatten(batches) + b
  {
    assert (batches + [b])[..|batches|] == batches;
  }

  /**
   * A timer flush re-arms the timer exactly when it takes a batch: with an empty buffer or another flush under way
   * it returns before the `finally` that starts the next timer.
   */
  lemma TimerFlushRearms(s: Shared, id: nat, fate: Fate)
    requires s.armed == {id} && s.timer == Some(id) && id < s.nextTimer
    ensures FlushCall(Fire(s, id), fate).shared.armed != {} <==> CanTake(s)
  {
    var s' := Fire(s, id);
    if CanTake(s) {
      assert s.nextTimer in FlushCall(s', fate).shared.armed;
    }
  }

  // --- A run without faults, timers or a second thread ---

  datatype Quiet = Quiet(shared: Shared, batches: seq<seq<Message>>)

  /** Add the messages one after another; every insert commits. */
  function AddAll(batchSize: int, ms: seq<Message>): Quiet {
    if ms == [] then Quiet(Initial(), []) else
      AddOne(batchSize, AddAll(batchSize, ms[..|ms| - 1]), ms[|ms| - 1])
  }

  function AddOne(batchSize: int, q: Quiet, m: Message): Quiet {
    var o := AddCall(batchSize, q.shared, m, Commits);
    Quiet(o.shared, if o.attempted.Some? then q.batches + [o.attempted.value] else q.batches)
  }

  /** Sizes below one make every add flush. */
  function EffectiveSize(batchSize: int): (e: nat)
    ensures e > 0
  {
    if batchSize < 1 then 1 else batchSize
  }

  lemma DivUnique(x: nat, e: nat, q: nat, r: nat)
    requires e > 0 && r < e && x == e * q + r
    ensures x / e == q && x % e == r
  {
    var q', r' := x / e, x % e;
    assert e * (q - q') == r' - r;
    if q' < q {
      MulAtLeast(e, q - q');
    } else if q' > q {
      MulAtLeast(e, q' - q);
    }
  }

  lemma MulAtLeast(e: nat, d: nat)
    requires d > 0
    ensures e * d >= e
  {
  }

  /** What a fault-free run has done with the messages so far: `full` batches of e, `rest` messages waiting. */
  ghost predicate Chunked(e: nat, full: nat, rest: nat, ms: seq<Message>, q: Quiet) {
    && |q.batches| == full
    && (forall b | b in q.batches :: |b| == e)
    && |q.shared.buffer| == rest
    && Flatten(q.batches) + q.shared.buffer == ms
    && !q.shared.flushing && !q.shared.overloaded
  }

  lemma ChunkedStep(batchSize: int, full: nat, rest: nat, ms: seq<Message>, q: Quiet, m: Message)
    requires Chunked(EffectiveSize(batchSize), full, rest, ms, q) && rest < EffectiveSize(batchSize)
    ensures var e, q' := EffectiveSize(batchSize), AddOne(batchSize, q, m);
      if rest + 1 < e then Chunked(e, full, rest + 1, ms + [m], q') else Chunked(e, full + 1, 0, ms + [m], q')
  {
    var buffer := q.shared.buffer + [m];
    assert Flatten(q.batches) + buffer == ms + [m];
    if rest + 1 == EffectiveSize(batchSize) {
      FlattenSnoc(q.batches, buffer);
      assert AddOne(batchSize, q, m).batches == q.batches + [buffer];
    }
  }

  lemma {:induction false} ChunkedRun(batchSize: int, ms: seq<Message>) returns (full: nat, rest: nat)
    ensures Chunked(EffectiveSize(batchSize), full, rest, ms, AddAll(batchSize, ms))
    ensures |ms| == EffectiveSize(batchSize) * full + rest && rest < EffectiveSize(batchSize)
  {
    if ms == [] {
      full, rest := 0, 0;
    } else {
      var front, m := ms[..|ms| - 1], ms[|ms| - 1];
      full, rest := ChunkedRun(batchSize, front);
      ChunkedStep(batchSize, full, rest, front, AddAll(batchSize, front), m);
      assert ms == front + [m];
      full, rest := NextChunk(EffectiveSize(batchSize), full, rest);
    }
  }

  lemma NextChunk(e: nat, full: nat, rest: nat) returns (full': nat, rest': nat)
    requires rest < e
    ensures full' == (if rest + 1 < e then full else full + 1) && rest' == if rest + 1 < e then rest + 1 else 0
    ensures e * full' + rest' == e * full + rest + 1
  {
    full', rest' := if rest + 1 < e then full else full + 1, if rest + 1 < e then rest + 1 else 0;
  }

  /** After k adds exactly k / e batches of exactly e messages were written and k % e messages wait. */
  lemma FaultFreeRun(batchSize: int, ms: seq<Message>)
    ensures var e := if batchSize < 1 then 1 else batchSize;
      Chunked(e, |ms| / e, |ms| % e, ms, AddAll(batchSize, ms))
  {
    var full, rest := ChunkedRun(batchSize, ms);
    DivUnique(|ms|, EffectiveSize(batchSize), full, rest);
  }

  // --- The buffer object ---

  class BatchBuffer {
    const repository: TradeRepository
    const batchSize: int
    var buffer: seq<Message>
    var isOverloaded: bool
    var flushing: bool
    var timer: Option<nat>
    var armed: set<nat>
    var nextTimer: nat

    function View(): Shared
      reads this
    {
      Shared(buffer, isOverloaded, flushing, timer, armed, nextTimer)
    }

    /** The `_timer` field names the only timer that can still fire. */
    ghost predicate Valid()
      reads this
    {
      && (forall id | id in armed :: timer == Some(id))
      && (timer.Some? ==> timer.value < nextTimer)
    }

    constructor (repository: TradeRepository, batchSize: int)
      ensures Valid()
      ensures this.repository == repository && this.batchSize == batchSize
      ensures View() == Initial()
    {
      this.repository, this.batchSize := repository, batchSize;
      buffer, isOverloaded, flushing := [], false, false;
      timer, armed, nextTimer := None, {}, 0;
      new;
      StartOneTimer();
    }

    /** First critical section of `add`; returns the size read under the lock. */
    method AppendLocked(m: Message) returns (size: nat)
      modifies this
      ensures View() == Append(batchSize, old(View()), m)
      ensures size == |buffer|
    {
      buffer := buffer + [m];
      size := |buffer|;
      isOverloaded := size > 2 * batchSize;
    }

    /** First critical section of `flush`. */
    method TakeBatch() returns (batch: Option<seq<Message>>)
      modifies this
      ensures batch == if CanTake(old(View())) then Some(old(buffer)) else None
      ensures View() == if CanTake(old(View())) then Take(old(View())) else old(View())
    {
      if flushing || buffer == [] {
        return None;
      }
      flushing := true;
      batch := Some(buffer);
      buffer := [];
      isOverloaded := false;
    }

    method ReturnBatch(batch: seq<Message>)
      modifies this
      ensures View() == PutBack(old(View()), batch)
    {
      buffer := batch + buffer;
    }

    method ClearFlushing()
      modifies this
      ensures View() == Clear(old(View()))
    {
      flushing := false;
    }

    method StartOneTimer()
      modifies this
      ensures View() == StartTimer(old(View()))
    {
      timer := Some(nextTimer);
      armed := armed + {nextTimer};
      nextTimer := nextTimer + 1;
    }

    method ResetOneTimer()
      modifies this
      ensures View() == ResetTimer(old(View()))
    {
      if timer.Some? {
        armed := armed - {timer.value};
      }
      StartOneTimer();
    }

    method StopTimer()
      modifies this
      ensures View() == Stop(old(View()))
    {
      if timer.Some? {
        armed := armed - {timer.value};
        timer := None;
      }
    }

    /** `flush`, running alone. Insert failures never reach the caller. */
    method Flush(at: int, fate: Fate)
      modifies this, repository
      ensures old(Valid()) ==> Valid()
      ensures var o := FlushCall(old(View()), fate);
        View() == o.shared &&
        repository.Contents() == StoreAttempt(old(repository.Contents()), o.attempted, at, fate)
    {
      var taken := TakeBatch();
      if taken.None? {
        return;
      }
      var batch := taken.value;
      ghost var store := repository.Contents();
      BatchRefinesInsertEach(store, batch, at, seq(|batch|, _ => at));
      var raised := repository.InsertBatch(batch, at, fate);
      assert repository.Contents() == StoreBatch(store, batch, at, fate);
      if raised {
        ReturnBatch(batch);
      }
      ClearFlushing();
      ResetOneTimer();
    }

    /** `add`, running alone. */
    method Add(m: Message, at: int, fate: Fate)
      modifies this, repository
      ensures old(Valid()) ==> Valid()
      ensures var o := AddCall(batchSize, old(View()), m, fate);
        View() == o.shared &&
        repository.Contents() == StoreAttempt(old(repository.Contents()), o.attempted, at, fate)
    {
      var size := AppendLocked(m);
      if size >= batchSize {
        Flush(at, fate);
      }
    }
  }
}
