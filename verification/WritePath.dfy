/**
 * The consumer write path as a step system: any number of threads share one buffer and one repository.
 * Every critical section of the buffer is one step, and so are reading the clock, the insert (one statement and
 * one commit) and the decisions made outside the lock.
 */
module WritePath {
  import opened Wrappers
  import opened Bronze
  import opened Buffer

  /** Where a thread stands inside on_message -> add -> flush. */
  datatype Stage =
    | Idle
    | Appended(size: nat)                      // add: the lock is released, the size test is next
    | AtFlush                                  // flush: about to take the lock
    | Inserting(batch: seq<Message>)           // insert_batch was called
    | Stamped(batch: seq<Message>, at: int)    // received_at is fixed
    | Raised(batch: seq<Message>)              // insert_batch raised
    | Clearing                                 // finally: about to clear the flag
    | Resetting                                // about to re-arm the timer

  /** `delivery` is the position in `added` of the message whose on_message call this thread is running. */
  datatype Thread = Thread(pc: Stage, delivery: Option<nat>)

  /**
   * `added`, `flushed`, `stored`, `repeated`, `returned` and `crashes` are history. Since the process started: all
   * messages in the order they were appended; the batches whose flush succeeded, concatenated; the longest prefix of
   * `added` the database has committed. The id-less messages written by a retry after the database had committed them
   * before; the size of the failed batch put back since the last append or take; the earlier lives of the process.
   * `acked` holds the acknowledged positions of `added`.
   */
  datatype State = State(
    shared: Shared, threads: map<nat, Thread>,
    bronze: seq<Row>, skipped: nat, clock: int,
    acked: set<nat>,
    added: seq<Message>, flushed: seq<Message>, stored: seq<Message>, repeated: seq<Message>, returned: nat,
    crashes: seq<Crash>)

  /** What a crash leaves of the messages added in one life: the committed ones, and those lost with the memory. */
  datatype Crash = Crash(kept: seq<Message>, lost: seq<Message>)

  datatype Step =
    | Deliver(t: nat, m: Message)
    | Decide(t: nat)
    | CallFlush(t: nat)
    | FireTimer(t: nat, id: nat)
    | Enter(t: nat)
    | ReadClock(t: nat, now: int)
    | Insert(t: nat, fate: Fate)
    | PutBatchBack(t: nat)
    | ClearFlag(t: nat)
    | Rearm(t: nat)
    | StopTimers(t: nat)

  function Init(clock: int): State {
    State(Initial(), map[], [], 0, clock, {}, [], [], [], [], 0, [])
  }

  function At(s: State, t: nat): Thread {
    if t in s.threads then s.threads[t] else Thread(Idle, None)
  }

  function Pc(s: State, t: nat): Stage {
    At(s, t).pc
  }

  function Move(s: State, t: nat, pc: Stage): State {
    s.(threads := s.threads[t := At(s, t).(pc := pc)])
  }

  /** The outermost call of thread t returns; on_message then acknowledges its delivery. */
  function Return(s: State, t: nat): State {
    s.(threads := s.threads[t := Thread(Idle, None)],
       acked := if At(s, t).delivery.Some? then s.acked + {At(s, t).delivery.value} else s.acked)
  }

  predicate Enabled(s: State, step: Step) {
    match step
    case Deliver(t, _) => Pc(s, t).Idle?
    case Decide(t) => Pc(s, t).Appended?
    case CallFlush(t) => Pc(s, t).Idle?
    case FireTimer(t, id) => Pc(s, t).Idle? && id in s.shared.armed
    case Enter(t) => Pc(s, t).AtFlush?
    case ReadClock(t, now) => Pc(s, t).Inserting? && now >= s.clock
    case Insert(t, _) => Pc(s, t).Stamped?
    case PutBatchBack(t) => Pc(s, t).Raised?
    case ClearFlag(t) => Pc(s, t).Clearing?
    case Rearm(t) => Pc(s, t).Resetting?
    case StopTimers(t) => Pc(s, t).Idle?
  }

  /**
   * Nothing blocks a thread for good: a busy one can take its next step whatever the others do, with any clock reading
   * that is not behind and any fate of its insert, and then it has moved on; an idle one can deliver any message (even
   * during an insert), flush, stop, or run any armed timer.
   */
  lemma NeverBlocked(batchSize: int, s: State, t: nat, m: Message, now: int, fate: Fate, id: nat)
    requires now >= s.clock
    ensures match Pc(s, t)
      case Idle =>
        && Enabled(s, Deliver(t, m)) && Enabled(s, CallFlush(t)) && Enabled(s, StopTimers(t))
        && (id in s.shared.armed ==> Enabled(s, FireTimer(t, id)))
      case Appended(_) => Moves(batchSize, s, Decide(t))
      case AtFlush => Moves(batchSize, s, Enter(t))
      case Inserting(_) => Moves(batchSize, s, ReadClock(t, now))
      case Stamped(_, _) => Moves(batchSize, s, Insert(t, fate))
      case Raised(_) => Moves(batchSize, s, PutBatchBack(t))
      case Clearing => Moves(batchSize, s, ClearFlag(t))
      case Resetting => Moves(batchSize, s, Rearm(t))
  {
  }

  predicate Moves(batchSize: int, s: State, step: Step) {
    Enabled(s, step) && Pc(Apply(batchSize, s, step), step.t) != Pc(s, step.t)
  }

  function Apply(batchSize: int, s: State, step: Step): State
    requires Enabled(s, step)
  {
    match step
    case Deliver(t, m) =>
      var shared := Append(batchSize, s.shared, m);
      s.(shared := shared, added := s.added + [m], returned := 0,
         threads := s.threads[t := Thread(Appended(|shared.buffer|), Some(|s.added|))])
    case Decide(t) => if Pc(s, t).size >= batchSize then Move(s, t, AtFlush) else Return(s, t)
    case CallFlush(t) => Move(s, t, AtFlush)
    case FireTimer(t, id) => Move(s, t, AtFlush).(shared := Fire(s.shared, id))
    case Enter(t) =>
      if CanTake(s.shared)
      then Move(s, t, Inserting(s.shared.buffer)).(shared := Take(s.shared), returned := 0)
      else Return(s, t)
    case ReadClock(t, now) => Move(s, t, Stamped(Pc(s, t).batch, now)).(clock := now)
    case Insert(t, fate) => InsertStep(s, t, fate)
    case PutBatchBack(t) =>
      var batch := Pc(s, t).batch;
      Move(s, t, Clearing).(shared := PutBack(s.shared, batch), returned := |batch|)
    case ClearFlag(t) => Move(s, t, Resetting).(shared := Clear(s.shared))
    case Rearm(t) => Return(s, t).(shared := ResetTimer(s.shared))
    case StopTimers(t) => s.(shared := Stop(s.shared))
  }

  function InsertStep(s: State, t: nat, fate: Fate): State
    requires Pc(s, t).Stamped?
  {
    var batch := Pc(s, t).batch;
    var store := StoreBatch(Store(s.bronze, s.skipped), batch, Pc(s, t).at, fate);
    var s' := s.(bronze := store.table, skipped := store.skipped,
                 repeated := s.repeated + if fate.FailsBeforeCommit? then [] else NoId(Beyond(s.flushed, s.stored)));
    match fate
    case Commits => Move(s', t, Clearing).(flushed := s.flushed + batch, stored := s.flushed + batch)
    case FailsBeforeCommit => Move(s', t, Raised(batch))
    case CommitsThenRaises(_) =>
      Move(s', t, Raised(batch)).(stored := s.flushed + batch)
  }

  /** What `all` holds beyond its prefix. */
  function Beyond(prefix: seq<Message>, all: seq<Message>): seq<Message> {
    if |prefix| <= |all| then all[|prefix|..] else []
  }

  /** The process dies and starts again: memory, threads, channel and counters are new, the table stays. */
  function Restarted(s: State): State {
    State(Initial(), map[], s.bronze, 0, s.clock, {}, [], [], [], s.repeated, 0,
          s.crashes + [Crash(s.stored, Beyond(s.stored, s.added))])
  }

  /** A step of a thread, or a crash at any moment followed by a restart. */
  datatype Event = Do(step: Step) | Restart

  predicate Possible(s: State, e: Event) {
    e.Do? ==> Enabled(s, e.step)
  }

  function Next(batchSize: int, s: State, e: Event): State
    requires Possible(s, e)
  {
    match e
    case Do(step) => Apply(batchSize, s, step)
    case Restart => Restarted(s)
  }

  /** A finite run over any number of lives of the process: every state follows from the one before. */
  ghost predicate IsRun(batchSize: int, run: seq<State>, events: seq<Event>) {
    && |run| == |events| + 1
    && run[0] == Init(run[0].clock)
    && forall i | 0 <= i < |events| ::
         Possible(run[i], events[i]) && run[i + 1] == Next(batchSize, run[i], events[i])
  }

  // --- One flusher at a time ---

  /** Between taking a batch and clearing the flag. */
  predicate InFlush(pc: Stage) {
    pc.Inserting? || pc.Stamped? || pc.Raised? || pc.Clearing?
  }

  predicate Carries(pc: Stage) {
    pc.Inserting? || pc.Stamped? || pc.Raised?
  }

  ghost predicate SingleFlusher(s: State) {
    && (forall t, u | InFlush(Pc(s, t)) && InFlush(Pc(s, u)) :: t == u)
    && (s.shared.flushing <==> exists t :: InFlush(Pc(s, t)))
    && (forall t | Carries(Pc(s, t)) :: Pc(s, t).batch != [])
  }

  /** A step moves only its own thread. */
  lemma OthersStay(batchSize: int, s: State, step: Step)
    requires Enabled(s, step)
    ensures forall u | u != step.t :: At(Apply(batchSize, s, step), u) == At(s, u)
    ensures forall u | u != step.t :: Pc(Apply(batchSize, s, step), u) == Pc(s, u)
  {
  }

  lemma SingleFlusherStep(batchSize: int, s: State, step: Step)
    requires SingleFlusher(s) && Enabled(s, step)
    ensures SingleFlusher(Apply(batchSize, s, step))
  {
    OthersStay(batchSize, s, step);
    var s' := Apply(batchSize, s, step);
    if InFlush(Pc(s', step.t)) {
      assert s'.shared.flushing && (InFlush(Pc(s, step.t)) || !s.shared.flushing);
      assert forall u | u != step.t :: !InFlush(Pc(s, u));
    } else if s'.shared.flushing {
      var u :| InFlush(Pc(s, u));
      assert u != step.t && InFlush(Pc(s', u));
    } else {
      assert InFlush(Pc(s, step.t)) || !s.shared.flushing;
    }
  }

  // --- Nothing lost, duplicated or reordered ---

  /** The batch in flight, empty when no flush carries one. */
  ghost function InFlight(s: State): seq<Message> {
    if exists t :: Carries(Pc(s, t)) then var t :| Carries(Pc(s, t)); Pc(s, t).batch else []
  }

  lemma InFlightOf(s: State, t: nat)
    requires SingleFlusher(s) && Carries(Pc(s, t))
    ensures InFlight(s) == Pc(s, t).batch
  {
    forall u | Carries(Pc(s, u))
      ensures u == t
    {
      assert InFlush(Pc(s, u)) && InFlush(Pc(s, t));
    }
  }

  ghost predicate Conserved(s: State) {
    s.flushed + InFlight(s) + s.shared.buffer == s.added
  }

  /** When only thread t moves, the batch in flight is the one t takes, drops, or leaves alone. */
  lemma InFlightFrame(s: State, s': State, t: nat)
    requires SingleFlusher(s) && SingleFlusher(s')
    requires forall u | u != t :: At(s', u) == At(s, u)
    ensures InFlight(s') ==
      if Carries(Pc(s', t)) then Pc(s', t).batch else if Carries(Pc(s, t)) then [] else InFlight(s)
    ensures Carries(Pc(s, t)) ==> InFlight(s) == Pc(s, t).batch && InFlight(s) != []
    ensures InFlight(s) != [] ==> s.shared.flushing
  {
    if Carries(Pc(s, t)) {
      InFlightOf(s, t);
      assert InFlush(Pc(s, t));
    }
    if Carries(Pc(s', t)) {
      InFlightOf(s', t);
    } else if u :| Carries(Pc(s', u)) {
      assert InFlush(Pc(s, u));
      InFlightOf(s, u);
      InFlightOf(s', u);
    }
    if u :| Carries(Pc(s, u)) {
      assert InFlush(Pc(s, u));
      assert u == t || Carries(Pc(s', u));
    }
  }

  /** How a step moves the batch in flight. */
  lemma InFlightStep(batchSize: int, s: State, step: Step)
    requires SingleFlusher(s) && Enabled(s, step)
    ensures var s' := Apply(batchSize, s, step);
      InFlight(s') ==
        match step
        case Enter(_) => if CanTake(s.shared) then s.shared.buffer else InFlight(s)
        case Insert(_, fate) => if fate.Commits? then [] else InFlight(s)
        case PutBatchBack(_) => []
        case _ => InFlight(s)
    ensures Carries(Pc(s, step.t)) ==> InFlight(s) == Pc(s, step.t).batch && InFlight(s) != []
    ensures step.Enter? && CanTake(s.shared) ==> InFlight(s) == []
  {
    SingleFlusherStep(batchSize, s, step);
    OthersStay(batchSize, s, step);
    InFlightFrame(s, Apply(batchSize, s, step), step.t);
  }

  lemma ConservedStep(batchSize: int, s: State, step: Step)
    requires SingleFlusher(s) && Conserved(s) && Enabled(s, step)
    ensures Conserved(Apply(batchSize, s, step))
  {
    InFlightStep(batchSize, s, step);
    var s' := Apply(batchSize, s, step);
    if step.Deliver? {
      ConcatAssoc(s.flushed + InFlight(s), s.shared.buffer, [step.m]);
    }
  }

  // --- What bronze holds ---

  /** The message is in bronze: its id is stored or, without an id, a row of its own is. */
  ghost predicate Landed(bronze: seq<Row>, m: Message) {
    if m.tradeId.Some? then m.tradeId.value in Ids(bronze) else exists r :: r in bronze && r.message == m
  }

  /** Everything the database committed in earlier lives of the process, in order. */
  function Base(crashes: seq<Crash>): seq<Message> {
    if crashes == [] then [] else Base(crashes[..|crashes| - 1]) + crashes[|crashes| - 1].kept
  }

  /** All messages the database has committed, over all lives. */
  function Stream(s: State): seq<Message> {
    Base(s.crashes) + s.stored
  }

  /** `rows` hold what the stream holds, in order, unless something in the stream was repeated. */
  predicate WithRepeats<T(==)>(rows: seq<T>, stream: seq<T>, repeated: seq<T>) {
    && multiset(rows) == multiset(stream) + multiset(repeated)
    && (repeated == [] ==> rows == stream)
    && (forall m | m in repeated :: m in stream)
  }

  ghost predicate BronzeHolds(bronze: seq<Row>, stream: seq<Message>, repeated: seq<Message>) {
    && UniqueIds(bronze)
    && WithId(bronze) == FirstOfEachId(stream)
    && WithRepeats(NoId(Messages(bronze)), NoId(stream), repeated)
  }

  /** Only the batch in flight can hold more than what is flushed and already stored. */
  ghost predicate BronzeInv(s: State) {
    && BronzeHolds(s.bronze, Stream(s), s.repeated)
    && s.flushed <= s.stored <= s.added
    && (InFlight(s) != [] ==> s.stored <= s.flushed + InFlight(s))
  }

  /** The stream carries the id of the message or, without an id, the message itself. */
  predicate Covers(stream: seq<Message>, m: Message) {
    if m.tradeId.Some? then m.tradeId.value in MessageIds(stream) else m in stream
  }

  /** A message is in bronze exactly when the committed stream covers it. */
  lemma LandedIffCovered(bronze: seq<Row>, stream: seq<Message>, repeated: seq<Message>, m: Message)
    requires BronzeHolds(bronze, stream, repeated)
    ensures Landed(bronze, m) <==> Covers(stream, m)
  {
    if m.tradeId.Some? {
      WithIdIds(bronze);
      FirstOfEachIdIds(stream);
    } else {
      var idless := NoId(Messages(bronze));
      NoIdMember(Messages(bronze), m);
      NoIdMember(stream, m);
      assert m in idless <==> m in multiset(idless);
      MessageOfRow(bronze, m);
    }
  }

  lemma MessageOfRow(rows: seq<Row>, m: Message)
    ensures m in Messages(rows) <==> exists r :: r in rows && r.message == m
  {
    if m in Messages(rows) {
      var i :| 0 <= i < |rows| && Messages(rows)[i] == m;
      assert rows[i] in rows;
    }
    if r :| r in rows && r.message == m {
      var i :| 0 <= i < |rows| && rows[i] == r;
      assert Messages(rows)[i] == m;
    }
  }

  lemma LandedAfterBatch(table: seq<Row>, before: seq<Message>, batch: seq<Message>, at: int)
    requires forall m | m in before :: Landed(table, m)
    ensures forall m | m in before + batch :: Landed(table + Kept(table, batch, at), m)
  {
    var table' := table + Kept(table, batch, at);
    IdsAfterBatch(table, batch, at);
    forall m | m in before + batch
      ensures Landed(table', m)
    {
      if m.tradeId.None? {
        if m in before {
          var r :| r in table && r.message == m;
          assert r in table';
        } else {
          var i :| 0 <= i < |batch| && batch[i] == m;
          NullStored(table, batch, at, i);
          assert Row(m, at) in table';
        }
      }
    }
  }

  lemma AppendAgain<T>(rows: seq<T>, front: seq<T>, again: seq<T>, rest: seq<T>, repeated: seq<T>)
    requires WithRepeats(rows, front + again, repeated)
    ensures WithRepeats(rows + (again + rest), front + again + rest, repeated + again)
  {
    if repeated + again == [] {
      assert repeated == [] && again == [];
    }
  }

  lemma IdlessRowsAfterInsert(bronze: seq<Row>, batch: seq<Message>, at: int)
    ensures NoId(Messages(bronze + Kept(bronze, batch, at))) == NoId(Messages(bronze)) + NoId(batch)
  {
    var kept := Kept(bronze, batch, at);
    NoIdAllKept(bronze, batch, at);
    NoIdConcat(Messages(bronze), Messages(kept));
    assert Messages(bronze + kept) == Messages(bronze) + Messages(kept);
  }

  lemma NoIdConcat3(a: seq<Message>, b: seq<Message>, c: seq<Message>)
    ensures NoId(a + b + c) == NoId(a) + NoId(b) + NoId(c)
  {
    NoIdConcat(a, b);
    NoIdConcat(a + b, c);
  }

  /** An insert that commits, whose batch begins with the messages `again` that were committed before. */
  lemma InsertLands(bronze: seq<Row>, front: seq<Message>, again: seq<Message>, rest: seq<Message>,
                    repeated: seq<Message>, at: int)
    requires BronzeHolds(bronze, front + again, repeated)
    ensures BronzeHolds(bronze + Kept(bronze, again + rest, at), front + again + rest, repeated + NoId(again))
  {
    KeptUnique(bronze, again + rest, at);
    IdlessRowsAfterInsert(bronze, again + rest, at);
    NoIdConcat(again, rest);
    NoIdConcat(front, again);
    NoIdConcat3(front, again, rest);
    AppendAgain(NoId(Messages(bronze)), NoId(front), NoId(again), NoId(rest), repeated);
    assert MessageIds(again) <= Ids(bronze) by {
      WithIdIds(bronze);
      FirstOfEachIdIds(front + again);
      MessageIdsConcat(front, again);
    }
    RetriedBatchExtendsFirsts(bronze, front + again, again, rest, at);
  }

  lemma BronzeInsertStep(batchSize: int, s: State, step: Step)
    requires SingleFlusher(s) && Conserved(s) && BronzeInv(s) && Enabled(s, step) && step.Insert?
    ensures BronzeInv(Apply(batchSize, s, step))
  {
    var batch, at := Pc(s, step.t).batch, Pc(s, step.t).at;
    InFlightStep(batchSize, s, step);
    assert InFlight(s) == batch;
    if !step.fate.FailsBeforeCommit? {
      RetriedBatchLands(s.bronze, Base(s.crashes), s.flushed, s.stored, batch, s.repeated, at);
      assert s.flushed + batch <= s.added;
    }
  }

  /** The same for a batch that follows `flushed`, when the database holds up to `stored` of it already. */
  lemma RetriedBatchLands(bronze: seq<Row>, base: seq<Message>, flushed: seq<Message>, stored: seq<Message>,
                          batch: seq<Message>, repeated: seq<Message>, at: int)
    requires BronzeHolds(bronze, base + stored, repeated) && flushed <= stored <= flushed + batch
    ensures BronzeHolds(bronze + Kept(bronze, batch, at), base + (flushed + batch),
                        repeated + NoId(Beyond(flushed, stored)))
  {
    var again, rest := SplitBatch(base, flushed, stored, batch);
    InsertLands(bronze, base + flushed, again, rest, repeated, at);
  }

  lemma SplitBatch(base: seq<Message>, flushed: seq<Message>, stored: seq<Message>, batch: seq<Message>)
    returns (again: seq<Message>, rest: seq<Message>)
    requires flushed <= stored <= flushed + batch
    ensures again == Beyond(flushed, stored) && batch == again + rest
    ensures base + stored == base + flushed + again && base + (flushed + batch) == base + flushed + again + rest
  {
    again, rest := Beyond(flushed, stored), batch[|stored| - |flushed|..];
    assert stored == flushed + again;
  }

  lemma OthersKeepBronze(batchSize: int, s: State, step: Step)
    requires Enabled(s, step) && !step.Insert?
    ensures var s' := Apply(batchSize, s, step);
      && s'.bronze == s.bronze && s'.repeated == s.repeated && s'.crashes == s.crashes
      && s'.flushed == s.flushed && s'.stored == s.stored && s.added <= s'.added
  {
  }

  /** The batch a flush takes covers what the database holds of it. */
  lemma StoredInFlight(batchSize: int, s: State, step: Step)
    requires SingleFlusher(s) && Conserved(s) && Enabled(s, step) && !step.Insert?
    requires s.stored <= s.added && (InFlight(s) != [] ==> s.stored <= s.flushed + InFlight(s))
    ensures var next := InFlight(Apply(batchSize, s, step)); next != [] ==> s.stored <= s.flushed + next
  {
    InFlightStep(batchSize, s, step);
    if step.Enter? && CanTake(s.shared) {
      assert s.flushed + [] + s.shared.buffer == s.flushed + s.shared.buffer;
    }
  }

  lemma BronzeFrame(s: State, s': State)
    requires BronzeInv(s)
    requires s'.bronze == s.bronze && s'.repeated == s.repeated && s'.crashes == s.crashes
    requires s'.flushed == s.flushed && s'.stored == s.stored && s.added <= s'.added
    requires InFlight(s') != [] ==> s.stored <= s.flushed + InFlight(s')
    ensures BronzeInv(s')
  {
    assert Stream(s') == Stream(s);
  }

  lemma BronzeStep(batchSize: int, s: State, step: Step)
    requires SingleFlusher(s) && Conserved(s) && BronzeInv(s) && Enabled(s, step)
    ensures BronzeInv(Apply(batchSize, s, step))
  {
    if step.Insert? {
      BronzeInsertStep(batchSize, s, step);
    } else {
      OthersKeepBronze(batchSize, s, step);
      StoredInFlight(batchSize, s, step);
      BronzeFrame(s, Apply(batchSize, s, step));
    }
  }

  // --- The order of received_at ---

  ghost predicate Sorted(bronze: seq<Row>) {
    forall i, j | 0 <= i <= j < |bronze| :: bronze[i].receivedAt <= bronze[j].receivedAt
  }

  /** With `strict`, every insert reads a clock later than all rows before it. */
  ghost predicate TimeInv(strict: bool, s: State) {
    && Sorted(s.bronze)
    && (forall r | r in s.bronze :: r.receivedAt <= s.clock)
    && (forall t | Pc(s, t).Stamped? ::
          && Pc(s, t).at <= s.clock
          && forall r | r in s.bronze :: if strict then r.receivedAt < Pc(s, t).at else r.receivedAt <= Pc(s, t).at)
  }

  predicate TicksIfStrict(strict: bool, s: State, step: Step) {
    strict && step.ReadClock? ==> step.now > s.clock
  }

  lemma TimeStep(strict: bool, batchSize: int, s: State, step: Step)
    requires SingleFlusher(s) && TimeInv(strict, s) && Enabled(s, step) && TicksIfStrict(strict, s, step)
    ensures TimeInv(strict, Apply(batchSize, s, step))
  {
    var s' := Apply(batchSize, s, step);
    OthersStay(batchSize, s, step);
    if step.Insert? {
      forall u
        ensures !Pc(s', u).Stamped?
      {
        assert InFlush(Pc(s, step.t));
        assert u == step.t || !InFlush(Pc(s, u));
      }
    } else {
      assert s'.bronze == s.bronze && s'.clock >= s.clock;
      assert Pc(s', step.t).Stamped? ==> step.ReadClock? && Pc(s', step.t).at == step.now == s'.clock;
      forall u | u != step.t && Pc(s', u).Stamped?
        ensures Pc(s, u).Stamped? && Pc(s', u).at == Pc(s, u).at
      {
      }
    }
  }

  // --- Timers and the overload flag ---

  /** The `_timer` field names the only timer that can still fire. */
  ghost predicate TimerInv(s: State) {
    && (forall id | id in s.shared.armed :: s.shared.timer == Some(id))
    && (s.shared.timer.Some? ==> s.shared.timer.value < s.shared.nextTimer)
  }

  /** The flag tells whether the buffer without a batch put back since the last add exceeds 2 * batch_size. */
  ghost predicate OverloadInv(batchSize: int, s: State) {
    && s.returned <= |s.shared.buffer|
    && (s.shared.overloaded <==>
          |s.shared.buffer| > s.returned && |s.shared.buffer| - s.returned > 2 * batchSize)
    && (InFlight(s) != [] ==> s.returned == 0)
  }

  lemma TimerOverloadStep(batchSize: int, s: State, step: Step)
    requires SingleFlusher(s) && TimerInv(s) && OverloadInv(batchSize, s) && Enabled(s, step)
    ensures TimerInv(Apply(batchSize, s, step)) && OverloadInv(batchSize, Apply(batchSize, s, step))
  {
    InFlightStep(batchSize, s, step);
  }

  // --- Acknowledgements ---

  /** Every delivery is either acknowledged or still being handled by exactly one thread. */
  ghost predicate DeliveryInv(s: State) {
    && (forall k | k in s.acked :: k < |s.added|)
    && (forall t | At(s, t).delivery.Some? ::
          At(s, t).delivery.value < |s.added| && At(s, t).delivery.value !in s.acked)
    && (forall t, u | At(s, t).delivery.Some? && At(s, t).delivery == At(s, u).delivery :: t == u)
    && (forall t | Pc(s, t).Idle? :: At(s, t).delivery.None?)
    && (forall k: nat | k < |s.added| :: k in s.acked || exists t :: At(s, t).delivery == Some(k))
  }

  /** The thread that acts keeps its delivery, loses it by acknowledging it, or takes a new one. */
  lemma DeliveryFrame(batchSize: int, s: State, step: Step)
    requires DeliveryInv(s) && Enabled(s, step)
    ensures var s', t := Apply(batchSize, s, step), step.t;
      && (forall u | u != t :: At(s', u) == At(s, u))
      && (Pc(s', t).Idle? ==> At(s', t).delivery.None?)
      && (|| (step.Deliver? && At(s', t).delivery == Some(|s.added|) && s'.acked == s.acked
              && |s'.added| == |s.added| + 1)
          || (!step.Deliver? && At(s', t).delivery == At(s, t).delivery && s'.acked == s.acked && s'.added == s.added)
          || (!step.Deliver? && At(s', t).delivery.None? && At(s, t).delivery.Some? && s'.added == s.added
              && s'.acked == s.acked + {At(s, t).delivery.value}))
  {
  }

  lemma DeliveryStep(batchSize: int, s: State, step: Step)
    requires DeliveryInv(s) && Enabled(s, step)
    ensures DeliveryInv(Apply(batchSize, s, step))
  {
    DeliveryFrame(batchSize, s, step);
    DeliveryKept(s, Apply(batchSize, s, step), step.t);
  }

  lemma DeliveryKept(s: State, s': State, t: nat)
    requires DeliveryInv(s)
    requires forall u | u != t :: At(s', u) == At(s, u)
    requires Pc(s', t).Idle? ==> At(s', t).delivery.None?
    requires
      || (Pc(s, t).Idle? && At(s', t).delivery == Some(|s.added|) && s'.acked == s.acked && |s'.added| == |s.added| + 1)
      || (At(s', t).delivery == At(s, t).delivery && s'.acked == s.acked && s'.added == s.added)
      || (At(s', t).delivery.None? && At(s, t).delivery.Some? && s'.added == s.added
          && s'.acked == s.acked + {At(s, t).delivery.value})
    ensures DeliveryInv(s')
  {
    forall k: nat | k < |s'.added|
      ensures k in s'.acked || exists u :: At(s', u).delivery == Some(k)
    {
      if k == |s.added| {
        assert At(s', t).delivery == Some(k);
      } else if k !in s'.acked {
        var u :| At(s, u).delivery == Some(k);
        assert At(s', u).delivery == Some(k);
      }
    }
  }

  // --- Every run ---

  ghost predicate Inv(batchSize: int, s: State) {
    && SingleFlusher(s) && Conserved(s) && BronzeInv(s) && TimeInv(false, s)
    && TimerInv(s) && OverloadInv(batchSize, s) && DeliveryInv(s)
  }

  lemma InitInv(batchSize: int, clock: int)
    ensures Inv(batchSize, Init(clock)) && TimeInv(true, Init(clock))
  {
    var s := Init(clock);
    assert forall t :: At(s, t) == Thread(Idle, None);
    assert InFlight(s) == [];
  }

  lemma StepInv(batchSize: int, s: State, step: Step)
    requires Inv(batchSize, s) && Enabled(s, step)
    ensures Inv(batchSize, Apply(batchSize, s, step))
  {
    SingleFlusherStep(batchSize, s, step);
    ConservedStep(batchSize, s, step);
    BronzeStep(batchSize, s, step);
    TimeStep(false, batchSize, s, step);
    TimerOverloadStep(batchSize, s, step);
    DeliveryStep(batchSize, s, step);
  }

  lemma StreamRestarted(s: State)
    ensures Stream(Restarted(s)) == Stream(s) && Base(Restarted(s).crashes) == Stream(s)
  {
    var crash := Crash(s.stored, Beyond(s.stored, s.added));
    assert (s.crashes + [crash])[..|s.crashes|] == s.crashes;
  }

  lemma RestartEmpty(batchSize: int, s: State)
    ensures var s' := Restarted(s);
      SingleFlusher(s') && InFlight(s') == [] && TimerInv(s') && OverloadInv(batchSize, s') && DeliveryInv(s')
    ensures forall t :: Pc(Restarted(s), t).Idle?
  {
    var s' := Restarted(s);
    assert forall t :: At(s', t) == Thread(Idle, None);
  }

  lemma RestartKeepsBronze(strict: bool, s: State)
    requires BronzeInv(s) && TimeInv(strict, s)
    ensures var s' := Restarted(s);
      && BronzeHolds(s'.bronze, Stream(s'), s'.repeated) && s'.flushed == s'.stored == s'.added == []
      && s'.shared.buffer == [] && Sorted(s'.bronze) && forall r | r in s'.bronze :: r.receivedAt <= s'.clock
  {
    StreamRestarted(s);
  }

  /** A crash at any moment keeps everything: the committed stream carries over, the rest of the memory is empty. */
  lemma RestartInv(strict: bool, batchSize: int, s: State)
    requires BronzeInv(s) && TimeInv(strict, s)
    ensures Inv(batchSize, Restarted(s)) && TimeInv(strict, Restarted(s))
  {
    var s' := Restarted(s);
    RestartEmpty(batchSize, s);
    RestartKeepsBronze(strict, s);
    assert BronzeInv(s') && Conserved(s');
    NobodyStamped(strict, s');
    NobodyStamped(false, s');
  }

  lemma NobodyStamped(strict: bool, s: State)
    requires Sorted(s.bronze) && (forall r | r in s.bronze :: r.receivedAt <= s.clock)
    requires forall t :: Pc(s, t).Idle?
    ensures TimeInv(strict, s)
  {
  }

  lemma {:induction false} RunInv(batchSize: int, run: seq<State>, events: seq<Event>, i: nat)
    requires IsRun(batchSize, run, events) && i < |run|
    ensures Inv(batchSize, run[i])
  {
    if i == 0 {
      InitInv(batchSize, run[0].clock);
    } else {
      RunInv(batchSize, run, events, i - 1);
      match events[i - 1] {
        case Do(step) => StepInv(batchSize, run[i - 1], step);
        case Restart => RestartInv(false, batchSize, run[i - 1]);
      }
    }
  }
}
