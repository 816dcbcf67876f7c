/** What every run of the write path guarantees, and where it stops short of its documentation. */
module WriteGuarantees {
  import opened Wrappers
  import opened Bronze
  import opened Buffer
  import opened WritePath

  // --- The history fields say what their names say ---

  /** The messages handed to `add`, one sequence for every life of the process; the last is the current life. */
  function Lives(events: seq<Event>): (lives: seq<seq<Message>>)
    ensures lives != []
  {
    if events == [] then [[]] else
      var before := Lives(events[..|events| - 1]);
      match events[|events| - 1]
      case Restart => before + [[]]
      case Do(step) =>
        var n := |before| - 1;
        before[..n] + [before[n] + if step.Deliver? then [step.m] else []]
  }

  /** The batches of the inserts that succeeded within the first n events and the current life, in order. */
  function CommittedBatches(run: seq<State>, events: seq<Event>, n: nat): seq<seq<Message>>
    requires n <= |events| < |run|
  {
    if n == 0 || events[n - 1].Restart? then [] else
      CommittedBatches(run, events, n - 1) + CommittedBy(run[n - 1], events[n - 1].step)
  }

  function CommittedBy(s: State, step: Step): seq<seq<Message>> {
    if step.Insert? && step.fate.Commits? && Pc(s, step.t).Stamped? then [Pc(s, step.t).batch] else []
  }

  function Whole(crashes: seq<Crash>): seq<seq<Message>> {
    seq(|crashes|, i requires 0 <= i < |crashes| => crashes[i].kept + crashes[i].lost)
  }

  lemma WholeSnoc(crashes: seq<Crash>, crash: Crash)
    ensures Whole(crashes + [crash]) == Whole(crashes) + [crash.kept + crash.lost]
  {
  }

  lemma LivesSnoc(before: seq<Event>, e: Event, crashes: seq<Crash>, added: seq<Message>)
    requires Lives(before) == Whole(crashes) + [added]
    ensures Lives(before + [e]) == match e
      case Restart => Whole(crashes) + [added] + [[]]
      case Do(step) => Whole(crashes) + [added + if step.Deliver? then [step.m] else []]
  {
    assert (before + [e])[..|before|] == before;
    assert Lives(before)[..|Lives(before)| - 1] == Whole(crashes);
  }

  lemma HistoryStep(batchSize: int, s: State, step: Step)
    requires Enabled(s, step)
    ensures var s' := Apply(batchSize, s, step);
      && s'.added == s.added + (if step.Deliver? then [step.m] else [])
      && s'.flushed == s.flushed + (if step.Insert? && step.fate.Commits? then Pc(s, step.t).batch else [])
      && s'.crashes == s.crashes
  {
  }

  lemma RunStep(batchSize: int, run: seq<State>, events: seq<Event>, i: nat)
    requires IsRun(batchSize, run, events) && i < |events|
    ensures Possible(run[i], events[i]) && run[i + 1] == Next(batchSize, run[i], events[i])
    ensures events[..i + 1] == events[..i] + [events[i]]
  {
  }

  lemma {:induction false} FlushedMeaning(batchSize: int, run: seq<State>, events: seq<Event>, i: nat)
    requires IsRun(batchSize, run, events) && i < |run|
    ensures run[i].flushed == Flatten(CommittedBatches(run, events, i))
  {
    if i > 0 {
      RunStep(batchSize, run, events, i - 1);
      if events[i - 1].Do? {
        var s, step := run[i - 1], events[i - 1].step;
        FlushedMeaning(batchSize, run, events, i - 1);
        HistoryStep(batchSize, s, step);
        var batches := CommittedBatches(run, events, i - 1);
        if step.Insert? && step.fate.Commits? {
          FlattenSnoc(batches, Pc(s, step.t).batch);
        } else {
          assert batches + [] == batches;
        }
      }
    }
  }

  lemma LivesStep(batchSize: int, s: State, before: seq<Event>, e: Event)
    requires Possible(s, e) && s.stored <= s.added && Lives(before) == Whole(s.crashes) + [s.added]
    ensures var s' := Next(batchSize, s, e); Lives(before + [e]) == Whole(s'.crashes) + [s'.added]
  {
    LivesSnoc(before, e, s.crashes, s.added);
    match e {
      case Do(step) => HistoryStep(batchSize, s, step);
      case Restart =>
        WholeSnoc(s.crashes, Crash(s.stored, Beyond(s.stored, s.added)));
        assert s.stored + Beyond(s.stored, s.added) == s.added;
    }
  }

  lemma {:induction false} LivesMeaning(batchSize: int, run: seq<State>, events: seq<Event>, i: nat)
    requires IsRun(batchSize, run, events) && i < |run|
    ensures Lives(events[..i]) == Whole(run[i].crashes) + [run[i].added]
  {
    if i == 0 {
      assert Whole([]) + [[]] == [[]];
    } else {
      LivesMeaning(batchSize, run, events, i - 1);
      assert run[i - 1].stored <= run[i - 1].added by {
        RunInv(batchSize, run, events, i - 1);
      }
      RunStep(batchSize, run, events, i - 1);
      LivesStep(batchSize, run[i - 1], events[..i - 1], events[i - 1]);
    }
  }

  /**
   * In every reachable state of any interleaving, with arbitrary insert failures and crashes: what was added since the
   * process started is exactly the successful batches, the batch in flight and the buffer, in order; and what was added
   * in an earlier life is exactly what the database had committed followed by what the crash lost.
   */
  lemma NothingLostOrReordered(batchSize: int, run: seq<State>, events: seq<Event>, i: nat)
    requires IsRun(batchSize, run, events) && i < |run|
    ensures Lives(events[..i]) == Whole(run[i].crashes) +
      [Flatten(CommittedBatches(run, events, i)) + InFlight(run[i]) + run[i].shared.buffer]
  {
    RunInv(batchSize, run, events, i);
    FlushedMeaning(batchSize, run, events, i);
    LivesMeaning(batchSize, run, events, i);
  }

  /** `_flushing` is set exactly while one thread is between taking a batch and clearing the flag. */
  lemma OneFlushAtATime(batchSize: int, run: seq<State>, events: seq<Event>, i: nat)
    requires IsRun(batchSize, run, events) && i < |run|
    ensures run[i].shared.flushing <==> exists t :: InFlush(Pc(run[i], t))
    ensures forall t, u | InFlush(Pc(run[i], t)) && InFlush(Pc(run[i], u)) :: t == u
    ensures Sorted(run[i].bronze)
  {
    RunInv(batchSize, run, events, i);
  }

  /**
   * Whatever fails, crashes, commits and then raises, or is delivered twice: the rows with an id are, in table order,
   * the first message of each id of the stream the database has committed over all lives of the process; and that
   * stream goes on with everything flushed.
   */
  lemma BronzeIsFirstOfEachId(batchSize: int, run: seq<State>, events: seq<Event>, i: nat)
    requires IsRun(batchSize, run, events) && i < |run|
    ensures UniqueIds(run[i].bronze)
    ensures run[i].flushed <= run[i].stored <= run[i].added
    ensures WithId(run[i].bronze) == FirstOfEachId(Base(run[i].crashes) + run[i].stored)
    ensures forall m | m in Base(run[i].crashes) + run[i].stored :: Landed(run[i].bronze, m)
  {
    RunInv(batchSize, run, events, i);
    forall m | m in Stream(run[i])
      ensures Landed(run[i].bronze, m)
    {
      CoversMember(Stream(run[i]), m);
      LandedIffCovered(run[i].bronze, Stream(run[i]), run[i].repeated, m);
    }
  }

  /** A message is in bronze exactly when the committed stream carries its id, or itself when it has no id. */
  lemma StoredIffCommitted(batchSize: int, run: seq<State>, events: seq<Event>, i: nat, m: Message)
    requires IsRun(batchSize, run, events) && i < |run|
    ensures Landed(run[i].bronze, m) <==> Covers(Base(run[i].crashes) + run[i].stored, m)
  {
    RunInv(batchSize, run, events, i);
    LandedIffCovered(run[i].bronze, Stream(run[i]), run[i].repeated, m);
  }

  lemma CoversMember(stream: seq<Message>, m: Message)
    requires m in stream
    ensures Covers(stream, m)
  {
  }

  lemma StoredLanded(s: State, k: nat)
    requires BronzeInv(s) && k < |s.stored|
    ensures Landed(s.bronze, s.added[k])
  {
    assert s.added[k] == s.stored[k] && s.stored[k] in Stream(s);
    CoversMember(Stream(s), s.added[k]);
    LandedIffCovered(s.bronze, Stream(s), s.repeated, s.added[k]);
  }

  predicate Quiescent(s: State) {
    !s.shared.flushing && s.shared.buffer == []
  }

  lemma QuiescentFlushed(s: State)
    requires SingleFlusher(s) && Conserved(s) && Quiescent(s)
    ensures s.flushed == s.added
  {
    forall t
      ensures !Carries(Pc(s, t))
    {
      assert Carries(Pc(s, t)) ==> InFlush(Pc(s, t));
    }
    assert InFlight(s) == [];
    assert s.flushed + [] + [] == s.flushed;
  }

  /**
   * At rest the stored ids are exactly the ids added, in this life or committed in an earlier one, each with its first
   * payload. The rows without an id are these messages without an id and the repeated ones; they are exactly these
   * messages, in order, when and only when no retry wrote one again.
   */
  lemma QuiescentBronze(batchSize: int, run: seq<State>, events: seq<Event>, i: nat)
    requires IsRun(batchSize, run, events) && i < |run| && Quiescent(run[i])
    ensures var all := Base(run[i].crashes) + run[i].added;
      && WithId(run[i].bronze) == FirstOfEachId(all)
      && Ids(run[i].bronze) == MessageIds(all)
      && multiset(NoId(Messages(run[i].bronze))) == multiset(NoId(all)) + multiset(run[i].repeated)
      && (NoId(Messages(run[i].bronze)) == NoId(all) <==> run[i].repeated == [])
  {
    RunInv(batchSize, run, events, i);
    QuiescentFlushed(run[i]);
    assert run[i].stored == run[i].added;
    WithIdIds(run[i].bronze);
    FirstOfEachIdIds(Stream(run[i]));
    NoRepeats(NoId(Messages(run[i].bronze)), NoId(Stream(run[i])), run[i].repeated);
  }

  lemma NoRepeats<T>(rows: seq<T>, stream: seq<T>, repeated: seq<T>)
    requires WithRepeats(rows, stream, repeated)
    ensures rows == stream <==> repeated == []
  {
    assert |multiset(rows)| == |multiset(stream)| + |multiset(repeated)|;
  }

  // --- The steps of one thread compose to the calls of the buffer object ---

  /** The steps up to and including the insert, and those after it. */
  function InsertPart(batchSize: int, s: State, t: nat, now: int, fate: Fate): State
    requires Pc(s, t).AtFlush? && now >= s.clock && CanTake(s.shared)
  {
    Apply(batchSize, Apply(batchSize, Apply(batchSize, s, Enter(t)), ReadClock(t, now)), Insert(t, fate))
  }

  function FinishPart(batchSize: int, s: State, t: nat): State
    requires Pc(s, t).Raised? || Pc(s, t).Clearing?
  {
    var s1 := if Pc(s, t).Raised? then Apply(batchSize, s, PutBatchBack(t)) else s;
    Apply(batchSize, Apply(batchSize, s1, ClearFlag(t)), Rearm(t))
  }

  lemma InsertPartEffect(batchSize: int, s: State, t: nat, now: int, fate: Fate)
    requires Pc(s, t).AtFlush? && now >= s.clock && CanTake(s.shared)
    ensures var s' := InsertPart(batchSize, s, t, now, fate);
      && s'.shared == Take(s.shared)
      && Store(s'.bronze, s'.skipped) == StoreBatch(Store(s.bronze, s.skipped), s.shared.buffer, now, fate)
      && Pc(s', t) == (if fate.Commits? then Clearing else Raised(s.shared.buffer))
      && s'.added == s.added
  {
    var s1 := Apply(batchSize, s, Enter(t));
    assert Pc(s1, t) == Inserting(s.shared.buffer);
    var s2 := Apply(batchSize, s1, ReadClock(t, now));
    assert Pc(s2, t) == Stamped(s.shared.buffer, now);
  }

  lemma FinishPartEffect(batchSize: int, s: State, t: nat)
    requires Pc(s, t).Raised? || Pc(s, t).Clearing?
    ensures var s', back := FinishPart(batchSize, s, t),
                            if Pc(s, t).Raised? then PutBack(s.shared, Pc(s, t).batch) else s.shared;
      && s'.shared == ResetTimer(Clear(back)) && Pc(s', t).Idle?
      && s'.bronze == s.bronze && s'.skipped == s.skipped && s'.added == s.added
  {
  }

  /** All steps of one flush call, taken alone, do what the object's `Flush` does. */
  lemma FlushStepsAreFlushCall(batchSize: int, s: State, t: nat, now: int, fate: Fate)
    requires Pc(s, t).AtFlush? && now >= s.clock
    ensures var o := FlushCall(s.shared, fate);
      if CanTake(s.shared) then
        var mid := InsertPart(batchSize, s, t, now, fate);
        && (Pc(mid, t).Raised? || Pc(mid, t).Clearing?)
        && var s' := FinishPart(batchSize, mid, t);
           && s'.shared == o.shared && Pc(s', t).Idle?
           && Store(s'.bronze, s'.skipped) == StoreAttempt(Store(s.bronze, s.skipped), o.attempted, now, fate)
      else
        var s' := Apply(batchSize, s, Enter(t));
        s'.shared == o.shared && Pc(s', t).Idle? && s'.bronze == s.bronze && s'.skipped == s.skipped
  {
    if CanTake(s.shared) {
      InsertPartEffect(batchSize, s, t, now, fate);
      FinishPartEffect(batchSize, InsertPart(batchSize, s, t, now, fate), t);
    }
  }

  /** Appending and deciding, taken alone, go on to the flush exactly when the object's `Add` attempts one. */
  lemma AddStepsAreAddCall(batchSize: int, s: State, t: nat, m: Message, fate: Fate)
    requires Pc(s, t).Idle?
    ensures var s1 := Apply(batchSize, s, Deliver(t, m));
      && Pc(s1, t).Appended?
      && var s2 := Apply(batchSize, s1, Decide(t));
         AddCall(batchSize, s.shared, m, fate) ==
           if Pc(s2, t).AtFlush? then FlushCall(s2.shared, fate) else Outcome(s2.shared, None)
  {
  }

  lemma Extend(batchSize: int, run: seq<State>, events: seq<Event>, e: Event)
    returns (run': seq<State>, events': seq<Event>)
    requires IsRun(batchSize, run, events) && Possible(run[|events|], e)
    ensures IsRun(batchSize, run', events') && run'[|events'|] == Next(batchSize, run[|events|], e)
    ensures run' == run + [run'[|events'|]] && events' == events + [e]
  {
    run', events' := run + [Next(batchSize, run[|events|], e)], events + [e];
  }

  /** A run goes on with one flush call taken alone. */
  lemma FlushRun(batchSize: int, run: seq<State>, events: seq<Event>, t: nat, now: int, fate: Fate)
    returns (run': seq<State>, events': seq<Event>)
    requires IsRun(batchSize, run, events)
    requires var s := run[|events|]; Pc(s, t).AtFlush? && now >= s.clock && CanTake(s.shared)
    ensures IsRun(batchSize, run', events')
    ensures var s, s' := run[|events|], run'[|events'|];
      && s'.shared == FlushCall(s.shared, fate).shared && Pc(s', t).Idle? && s'.added == s.added
      && Store(s'.bronze, s'.skipped) == StoreBatch(Store(s.bronze, s.skipped), s.shared.buffer, now, fate)
      && s'.clock == now
  {
    var s := run[|events|];
    InsertPartEffect(batchSize, s, t, now, fate);
    run', events' := Extend(batchSize, run, events, Do(Enter(t)));
    run', events' := Extend(batchSize, run', events', Do(ReadClock(t, now)));
    run', events' := Extend(batchSize, run', events', Do(Insert(t, fate)));
    FinishPartEffect(batchSize, run'[|events'|], t);
    if !fate.Commits? {
      run', events' := Extend(batchSize, run', events', Do(PutBatchBack(t)));
    }
    run', events' := Extend(batchSize, run', events', Do(ClearFlag(t)));
    run', events' := Extend(batchSize, run', events', Do(Rearm(t)));
  }

  // --- When a message without an id is written twice ---

  /** An insert of a batch with id-less messages committed and then raised. */
  predicate RaisedIdless(s: State, e: Event) {
    && e.Do? && e.step.Insert? && e.step.fate.CommitsThenRaises? && Pc(s, e.step.t).Stamped?
    && NoId(Pc(s, e.step.t).batch) != []
  }

  predicate WritesBatch(e: Event) {
    e.Do? && e.step.Insert? && !e.step.fate.FailsBeforeCommit?
  }

  /** The last insert that wrote in this life committed id-less messages and then raised: a retry would repeat them. */
  predicate Pending(run: seq<State>, events: seq<Event>, n: nat)
    requires n <= |events| < |run|
  {
    && n > 0 && events[n - 1].Do?
    && if WritesBatch(events[n - 1]) then RaisedIdless(run[n - 1], events[n - 1]) else Pending(run, events, n - 1)
  }

  /** Some retry has written them again. */
  predicate Rewritten(run: seq<State>, events: seq<Event>, n: nat)
    requires n <= |events| < |run|
  {
    n > 0 && (Rewritten(run, events, n - 1) || (WritesBatch(events[n - 1]) && Pending(run, events, n - 1)))
  }

  /** The id-less messages a retry would write again. */
  function Again(s: State): seq<Message> {
    NoId(Beyond(s.flushed, s.stored))
  }

  lemma PendingAfter(flushed: seq<Message>, stored: seq<Message>, batch: seq<Message>)
    requires flushed <= stored <= flushed + batch
    ensures Beyond(flushed, flushed + batch) == batch && Beyond(flushed + batch, flushed + batch) == []
    ensures NoId(batch) == [] ==> NoId(Beyond(flushed, stored)) == []
  {
    var again, rest := SplitBatch([], flushed, stored, batch);
    NoIdConcat(again, rest);
  }

  lemma InsertPending(s: State, t: nat, fate: Fate)
    requires Pc(s, t).Stamped? && s.flushed <= s.stored <= s.flushed + Pc(s, t).batch && !fate.FailsBeforeCommit?
    ensures var s' := InsertStep(s, t, fate);
      && (Again(s') != [] <==> RaisedIdless(s, Do(Insert(t, fate))))
      && s'.repeated == s.repeated + Again(s)
  {
    PendingAfter(s.flushed, s.stored, Pc(s, t).batch);
  }

  lemma PendingStep(batchSize: int, s: State, e: Event)
    requires SingleFlusher(s) && Possible(s, e)
    requires s.flushed <= s.stored && (InFlight(s) != [] ==> s.stored <= s.flushed + InFlight(s))
    ensures var s' := Next(batchSize, s, e);
      && (Again(s') != [] <==> e.Do? && if WritesBatch(e) then RaisedIdless(s, e) else Again(s) != [])
      && s'.repeated == s.repeated + if WritesBatch(e) then Again(s) else []
  {
    if e.Do? {
      if e.step.Insert? {
        InFlightStep(batchSize, s, e.step);
        if WritesBatch(e) {
          InsertPending(s, e.step.t, e.step.fate);
        }
      } else {
        OthersKeepBronze(batchSize, s, e.step);
      }
    }
  }

  lemma PendingNext(batchSize: int, run: seq<State>, events: seq<Event>, i: nat)
    requires IsRun(batchSize, run, events) && i < |events|
    ensures var s, s', e := run[i], run[i + 1], events[i];
      && (Again(s') != [] <==> e.Do? && if WritesBatch(e) then RaisedIdless(s, e) else Again(s) != [])
      && s'.repeated == s.repeated + if WritesBatch(e) then Again(s) else []
  {
    RunStep(batchSize, run, events, i);
    RunInv(batchSize, run, events, i);
    PendingStep(batchSize, run[i], events[i]);
  }

  lemma {:induction false} PendingMeaning(batchSize: int, run: seq<State>, events: seq<Event>, i: nat)
    requires IsRun(batchSize, run, events) && i < |run|
    ensures Again(run[i]) != [] <==> Pending(run, events, i)
    ensures run[i].repeated != [] <==> Rewritten(run, events, i)
  {
    if i > 0 {
      PendingMeaning(batchSize, run, events, i - 1);
      PendingNext(batchSize, run, events, i - 1);
    }
  }

  /**
   * Over any number of crashes, at rest: the rows without an id are exactly the messages without one that were added in
   * this life or committed in an earlier one, in order, if and only if no insert wrote while the insert before it, in
   * the same life, had committed id-less messages and then raised.
   */
  lemma IdlessOnceIff(batchSize: int, run: seq<State>, events: seq<Event>, i: nat)
    requires IsRun(batchSize, run, events) && i < |run| && Quiescent(run[i])
    ensures NoId(Messages(run[i].bronze)) == NoId(Base(run[i].crashes) + run[i].added) <==> !Rewritten(run, events, i)
  {
    QuiescentBronze(batchSize, run, events, i);
    PendingMeaning(batchSize, run, events, i);
  }

  /** Nothing without an id was written again, and no retry would. */
  predicate Unrepeated(s: State) {
    s.repeated == [] && NoId(Beyond(s.flushed, s.stored)) == []
  }

  lemma InsertRepeats(s: State, t: nat, fate: Fate)
    requires Pc(s, t).Stamped? && s.flushed <= s.stored <= s.flushed + Pc(s, t).batch
    ensures Unrepeated(InsertStep(s, t, fate)) <==> Unrepeated(s) && !RaisedIdless(s, Do(Insert(t, fate)))
  {
    PendingAfter(s.flushed, s.stored, Pc(s, t).batch);
    var again := NoId(Beyond(s.flushed, s.stored));
    assert s.repeated + again == [] <==> s.repeated == [] && again == [];
  }

  lemma UnrepeatedStep(batchSize: int, s: State, step: Step)
    requires SingleFlusher(s) && Enabled(s, step)
    requires s.flushed <= s.stored && (InFlight(s) != [] ==> s.stored <= s.flushed + InFlight(s))
    ensures Unrepeated(Apply(batchSize, s, step)) <==> Unrepeated(s) && !RaisedIdless(s, Do(step))
  {
    if step.Insert? {
      InFlightStep(batchSize, s, step);
      InsertRepeats(s, step.t, step.fate);
    } else {
      OthersKeepBronze(batchSize, s, step);
    }
  }

  lemma {:induction false} UnrepeatedIff(batchSize: int, run: seq<State>, events: seq<Event>, i: nat)
    requires IsRun(batchSize, run, events) && i < |run| && forall j | 0 <= j < i :: events[j].Do?
    ensures Unrepeated(run[i]) <==> forall j | 0 <= j < i :: !RaisedIdless(run[j], events[j])
  {
    if i > 0 {
      UnrepeatedIff(batchSize, run, events, i - 1);
      RunInv(batchSize, run, events, i - 1);
      UnrepeatedStep(batchSize, run[i - 1], events[i - 1].step);
    }
  }

  /**
   * In one life of the process, at rest: the rows without an id are exactly the messages added without one, in order,
   * if and only if no insert that carried such a message committed and then raised.
   */
  lemma IdlessOnceInOneLife(batchSize: int, run: seq<State>, events: seq<Event>, i: nat)
    requires IsRun(batchSize, run, events) && i < |run| && Quiescent(run[i])
    requires forall j | 0 <= j < i :: events[j].Do?
    ensures NoId(Messages(run[i].bronze)) == NoId(run[i].added) <==>
      forall j | 0 <= j < i :: !RaisedIdless(run[j], events[j])
  {
    QuiescentBronze(batchSize, run, events, i);
    UnrepeatedIff(batchSize, run, events, i);
    RunInv(batchSize, run, events, i);
    QuiescentFlushed(run[i]);
    LivesMeaning(batchSize, run, events, i);
    OneLife(events[..i]);
    assert run[i].crashes == [];
    assert Base([]) + run[i].added == run[i].added;
  }

  lemma {:induction false} OneLife(events: seq<Event>)
    requires forall e | e in events :: e.Do?
    ensures |Lives(events)| == 1
  {
    if events != [] {
      OneLife(events[..|events| - 1]);
    }
  }

  /** "Safe to retry" fails without an id: added once, stored twice. */
  lemma IdlessStoredTwice(m: Message) returns (run: seq<State>, events: seq<Event>)
    requires m.tradeId.None?
    ensures IsRun(1, run, events)
    ensures var s := run[|run| - 1];
      s.added == [m] && Quiescent(s) && |s.bronze| == 2 && s.bronze[0].message == s.bronze[1].message == m
  {
    var s0 := Init(0);
    var s1 := Apply(1, s0, Deliver(0, m));
    var s2 := Apply(1, s1, Decide(0));
    run, events := [s0, s1, s2], [Do(Deliver(0, m)), Do(Decide(0))];
    run, events := FlushRun(1, run, events, 0, 1, CommitsThenRaises(false));
    var s3 := run[|events|];
    assert s3.shared.buffer == [m] && s3.bronze == [Row(m, 1)] by {
      KeptSnoc([], [], m, 1);
      assert [] + [m] == [m];
    }
    run, events := Extend(1, run, events, Do(CallFlush(0)));
    run, events := FlushRun(1, run, events, 0, 2, Commits);
    KeptSnoc([Row(m, 1)], [], m, 2);
    assert [] + [m] == [m];
  }

  // --- Crashes ---

  /**
   * Of the messages added when the process dies, acknowledged or not, exactly those are in bronze that the committed
   * stream covers. In particular all of the committed prefix is, and what is missing was in the batch in flight or the
   * buffer.
   */
  lemma CrashLoses(batchSize: int, run: seq<State>, events: seq<Event>, i: nat, k: nat)
    requires IsRun(batchSize, run, events) && i < |events| && events[i].Restart? && k < |run[i].added|
    ensures var s, s' := run[i], run[i + 1];
      && s'.crashes == s.crashes + [Crash(s.stored, Beyond(s.stored, s.added))]
      && (Landed(s'.bronze, s.added[k]) <==> Covers(Base(s'.crashes), s.added[k]))
      && (k < |s.stored| ==> Landed(s'.bronze, s.added[k]))
      && (k >= |s.stored| ==>
            (s.added[k] in s'.crashes[|s.crashes|].lost && s.added[k] in InFlight(s) + s.shared.buffer))
  {
    var s := run[i];
    RunStep(batchSize, run, events, i);
    RunInv(batchSize, run, events, i);
    StreamRestarted(s);
    StoredIffCommitted(batchSize, run, events, i, s.added[k]);
    if k < |s.stored| {
      StoredLanded(s, k);
    } else {
      WaitingAt(s, k);
      BeyondAt(s.stored, s.added, k);
    }
  }

  lemma WaitingAt(s: State, k: nat)
    requires Conserved(s) && |s.flushed| <= k < |s.added|
    ensures var waiting, j := InFlight(s) + s.shared.buffer, k - |s.flushed|;
      j < |waiting| && waiting[j] == s.added[k]
  {
    assert s.added == s.flushed + (InFlight(s) + s.shared.buffer);
  }

  lemma BeyondAt(prefix: seq<Message>, all: seq<Message>, k: nat)
    requires |prefix| <= k < |all|
    ensures all[k] in Beyond(prefix, all)
  {
    assert Beyond(prefix, all)[k - |prefix|] == all[k];
  }

  /** The id of the message, or the message itself when it has none, arrives with this event. */
  predicate Redelivers(e: Event, m: Message) {
    e.Do? && e.step.Deliver? && Covers([e.step.m], m)
  }

  lemma CoversConcat(a: seq<Message>, b: seq<Message>, m: Message)
    ensures Covers(a + b, m) <==> Covers(a, m) || Covers(b, m)
  {
    MessageIdsConcat(a, b);
  }

  /** Everything added in this life or committed in an earlier one. */
  function Known(s: State): seq<Message> {
    Base(s.crashes) + s.added
  }

  lemma KnownCovers(s: State, m: Message)
    requires s.stored <= s.added
    ensures Covers(Known(s), m) <==> Covers(Stream(s), m) || Covers(Beyond(s.stored, s.added), m)
  {
    CoversConcat(Stream(s), Beyond(s.stored, s.added), m);
    assert Known(s) == Stream(s) + Beyond(s.stored, s.added);
  }

  lemma KnownStep(batchSize: int, s: State, e: Event, m: Message)
    requires Possible(s, e) && s.stored <= s.added && !Covers(Known(s), m) && !Redelivers(e, m)
    ensures !Covers(Known(Next(batchSize, s, e)), m)
  {
    match e
    case Restart =>
      KnownCovers(s, m);
      StreamRestarted(s);
      assert Stream(s) + [] == Stream(s);
    case Do(step) =>
      HistoryStep(batchSize, s, step);
      if step.Deliver? {
        CoversConcat(Known(s), [step.m], m);
        assert Base(s.crashes) + (s.added + [step.m]) == Known(s) + [step.m];
      } else {
        assert s.added + [] == s.added;
      }
  }

  lemma KnownNext(batchSize: int, run: seq<State>, events: seq<Event>, k: nat, m: Message)
    requires IsRun(batchSize, run, events) && k < |events|
    requires !Covers(Known(run[k]), m) && !Redelivers(events[k], m)
    ensures !Covers(Known(run[k + 1]), m)
  {
    RunStep(batchSize, run, events, k);
    assert run[k].stored <= run[k].added by {
      RunInv(batchSize, run, events, k);
    }
    KnownStep(batchSize, run[k], events[k], m);
  }

  lemma {:induction false} NeverAddedAgain(
      batchSize: int, run: seq<State>, events: seq<Event>, i: nat, j: nat, m: Message)
    requires IsRun(batchSize, run, events) && i <= j < |run|
    requires !Covers(Known(run[i]), m)
    requires forall k | i <= k < j :: !Redelivers(events[k], m)
    ensures !Covers(Known(run[j]), m)
  {
    if i < j {
      NeverAddedAgain(batchSize, run, events, i, j - 1, m);
      KnownNext(batchSize, run, events, j - 1, m);
    }
  }

  /** What a crash lost stays lost until the same id, or the same id-less message, is delivered again. */
  lemma LostStaysLost(batchSize: int, run: seq<State>, events: seq<Event>, i: nat, j: nat, m: Message)
    requires IsRun(batchSize, run, events) && i < j < |run| && events[i].Restart?
    requires !Landed(run[i + 1].bronze, m) && forall k | i < k < j :: !Redelivers(events[k], m)
    ensures !Landed(run[j].bronze, m)
  {
    RunStep(batchSize, run, events, i);
    StoredIffCommitted(batchSize, run, events, i + 1, m);
    assert Known(run[i + 1]) == Stream(run[i + 1]);
    NeverAddedAgain(batchSize, run, events, i + 1, j, m);
    StoredIffCommitted(batchSize, run, events, j, m);
    RunInv(batchSize, run, events, j);
    KnownCovers(run[j], m);
  }

  /** Committed rows stay, so the first committed payload of an id is its payload for good. */
  lemma {:induction false} RowsStay(batchSize: int, run: seq<State>, events: seq<Event>, i: nat, j: nat)
    requires IsRun(batchSize, run, events) && i <= j < |run|
    ensures run[i].bronze <= run[j].bronze
  {
    if i < j {
      RowsStay(batchSize, run, events, i, j - 1);
      RunStep(batchSize, run, events, j - 1);
    }
  }

  /** At most one started timer can still fire, and the overload flag is exact up to a batch that came back. */
  lemma TimerAndOverload(batchSize: int, run: seq<State>, events: seq<Event>, i: nat)
    requires IsRun(batchSize, run, events) && i < |run|
    ensures |run[i].shared.armed| <= 1
    ensures run[i].shared.armed <= if run[i].shared.timer.Some? then {run[i].shared.timer.value} else {}
    ensures run[i].shared.overloaded ==> |run[i].shared.buffer| > 2 * batchSize
    ensures run[i].returned == 0 && run[i].shared.buffer != [] ==>
      (run[i].shared.overloaded <==> |run[i].shared.buffer| > 2 * batchSize)
  {
    RunInv(batchSize, run, events, i);
    var s := run[i].shared;
    var bound := if s.timer.Some? then {s.timer.value} else {};
    SubsetSize(s.armed, bound);
  }

  lemma SubsetSize(a: set<nat>, b: set<nat>)
    requires a <= b
    ensures |a| <= |b|
  {
    var rest := b - a;
    assert b == a + rest;
  }

  // --- Acknowledgements ---

  lemma AckStep(batchSize: int, s: State, step: Step, k: nat)
    requires Enabled(s, step) && k in Apply(batchSize, s, step).acked && k !in s.acked
    ensures At(s, step.t).delivery == Some(k)
  {
  }

  ghost predicate NobodyHandles(s: State, k: nat) {
    forall t :: At(s, t).delivery != Some(k)
  }

  lemma {:induction false} AcksStay(batchSize: int, run: seq<State>, events: seq<Event>, i: nat, j: nat)
    requires IsRun(batchSize, run, events) && i <= j < |run| && forall k | i <= k < j :: events[k].Do?
    ensures run[i].acked <= run[j].acked
  {
    if i < j {
      AcksStay(batchSize, run, events, i, j - 1);
      RunStep(batchSize, run, events, j - 1);
    }
  }

  /**
   * Each delivery is acknowledged at most once in the life of its channel, by the thread handling it when its call
   * returns.
   */
  lemma AckedOnce(batchSize: int, run: seq<State>, events: seq<Event>, i: nat, k: nat)
    requires IsRun(batchSize, run, events) && i < |events| && k in run[i + 1].acked && k !in run[i].acked
    ensures events[i].Do? && At(run[i], events[i].step.t).delivery == Some(k)
    ensures forall j | i < j < |run| && (forall l | i < l < j :: events[l].Do?) :: k in run[j].acked
    ensures forall j | 0 <= j <= i && (forall l | j <= l < i :: events[l].Do?) :: k !in run[j].acked
    ensures NobodyHandles(run[i + 1], k)
  {
    RunStep(batchSize, run, events, i);
    AckStep(batchSize, run[i], events[i].step, k);
    RunInv(batchSize, run, events, i + 1);
    forall j | i < j < |run| && forall l | i < l < j :: events[l].Do?
      ensures k in run[j].acked
    {
      AcksStay(batchSize, run, events, i + 1, j);
    }
    forall j | 0 <= j <= i && forall l | j <= l < i :: events[l].Do?
      ensures k !in run[j].acked
    {
      AcksStay(batchSize, run, events, j, i);
    }
  }

  /** A message of this life is stored, or waits at its place in the batch in flight or the buffer. */
  lemma AddedIsSomewhere(batchSize: int, run: seq<State>, events: seq<Event>, i: nat, k: nat)
    requires IsRun(batchSize, run, events) && i < |run| && k < |run[i].added|
    ensures if k < |run[i].flushed| then Landed(run[i].bronze, run[i].added[k]) else
      var waiting, j := InFlight(run[i]) + run[i].shared.buffer, k - |run[i].flushed|;
      j < |waiting| && waiting[j] == run[i].added[k]
  {
    RunInv(batchSize, run, events, i);
    if k < |run[i].flushed| {
      StoredLanded(run[i], k);
    } else {
      WaitingAt(run[i], k);
    }
  }

  /** Only messages of the stream are acknowledged, and when no thread is at work all of them are. */
  lemma AckedAreAdded(batchSize: int, run: seq<State>, events: seq<Event>, i: nat, k: nat)
    requires IsRun(batchSize, run, events) && i < |run|
    ensures k in run[i].acked ==> k < |run[i].added|
    ensures (forall t :: Pc(run[i], t).Idle?) && k < |run[i].added| ==> k in run[i].acked
  {
    var s := run[i];
    RunInv(batchSize, run, events, i);
    if forall t :: Pc(s, t).Idle? {
      forall t
        ensures At(s, t).delivery.None?
      {
        assert Pc(s, t).Idle?;
      }
    }
  }

  /** The contract "ack only after the insert" fails with the buffer wired in: acknowledged, and bronze is empty. */
  lemma AckBeforeInsert(m: Message) returns (run: seq<State>, events: seq<Event>)
    ensures IsRun(2, run, events)
    ensures var s := run[|run| - 1]; s.added == [m] && s.acked == {0} && s.bronze == []
  {
    var s0 := Init(0);
    var s1 := Apply(2, s0, Deliver(0, m));
    var s2 := Apply(2, s1, Decide(0));
    run, events := [s0, s1, s2], [Do(Deliver(0, m)), Do(Decide(0))];
  }

  /** Timed flushing can stop: everything is idle, an acknowledged message waits, and no timer is left to fire. */
  lemma TimerStarves(m: Message) returns (run: seq<State>, events: seq<Event>)
    ensures IsRun(2, run, events)
    ensures var s := run[|run| - 1];
      s.shared.buffer == [m] && s.acked == {0} && s.shared.armed == {} && forall t :: Pc(s, t).Idle?
  {
    var s0 := Init(0);
    var s1 := Apply(2, s0, FireTimer(1, 0));
    var s2 := Apply(2, s1, Enter(1));
    var s3 := Apply(2, s2, Deliver(0, m));
    var s4 := Apply(2, s3, Decide(0));
    run, events := [s0, s1, s2, s3, s4], [Do(FireTimer(1, 0)), Do(Enter(1)), Do(Deliver(0, m)), Do(Decide(0))];
  }

  // --- When no timer is left ---

  /** No thread is between taking a batch and re-arming the timer. */
  ghost predicate NoFlush(s: State) {
    forall t :: !InFlush(Pc(s, t)) && !Pc(s, t).Resetting?
  }

  /**
   * The last timer fired, or was stopped, while no flush was under way, and since then no flush has taken a batch and
   * the process has not started again.
   */
  ghost predicate TimerGone(run: seq<State>, events: seq<Event>, n: nat)
    requires n <= |events| < |run|
  {
    n > 0 &&
    match events[n - 1]
    case Restart => false
    case Do(FireTimer(_, _)) => NoFlush(run[n - 1])
    case Do(StopTimers(_)) => NoFlush(run[n - 1])
    case Do(Enter(_)) => !CanTake(run[n - 1].shared) && TimerGone(run, events, n - 1)
    case _ => TimerGone(run, events, n - 1)
  }

  ghost predicate NoTimer(s: State) {
    s.shared.armed == {} && NoFlush(s)
  }

  /** A step of a flush, from taking the batch to re-arming: never without a flush or a timer. */
  lemma FlushHasTimer(batchSize: int, s: State, step: Step)
    requires Enabled(s, step) && (InFlush(Pc(s, step.t)) || Pc(s, step.t).Resetting?)
    ensures !NoTimer(s) && !NoTimer(Apply(batchSize, s, step))
  {
    var s' := Apply(batchSize, s, step);
    assert step.Rearm? ==> s.shared.nextTimer in s'.shared.armed;
    assert !step.Rearm? ==> InFlush(Pc(s', step.t)) || Pc(s', step.t).Resetting?;
  }

  lemma NoFlushFrame(batchSize: int, s: State, step: Step)
    requires Enabled(s, step) && !InFlush(Pc(s, step.t)) && !Pc(s, step.t).Resetting?
    ensures NoFlush(Apply(batchSize, s, step)) <==> NoFlush(s) && !(step.Enter? && CanTake(s.shared))
  {
    var s', t := Apply(batchSize, s, step), step.t;
    OthersStay(batchSize, s, step);
    assert InFlush(Pc(s', t)) || Pc(s', t).Resetting? <==> step.Enter? && CanTake(s.shared);
    if NoFlush(s') {
      forall u
        ensures !InFlush(Pc(s, u)) && !Pc(s, u).Resetting?
      {
        assert u != t ==> Pc(s', u) == Pc(s, u);
      }
    }
  }

  lemma NoTimerStep(batchSize: int, s: State, step: Step)
    requires TimerInv(s) && Enabled(s, step)
    ensures NoTimer(Apply(batchSize, s, step)) <==>
      match step
      case FireTimer(_, _) => NoFlush(s)
      case StopTimers(_) => NoFlush(s)
      case Enter(_) => !CanTake(s.shared) && NoTimer(s)
      case _ => NoTimer(s)
  {
    if InFlush(Pc(s, step.t)) || Pc(s, step.t).Resetting? {
      FlushHasTimer(batchSize, s, step);
    } else {
      NoFlushFrame(batchSize, s, step);
    }
  }

  /** Exactly when timed flushing has stopped: no timer can fire, and no flush is under way that would start one. */
  lemma {:induction false} TimerGoneIff(batchSize: int, run: seq<State>, events: seq<Event>, i: nat)
    requires IsRun(batchSize, run, events) && i < |run|
    ensures run[i].shared.armed == {} && NoFlush(run[i]) <==> TimerGone(run, events, i)
  {
    if i == 0 {
      assert 0 in run[0].shared.armed;
    } else {
      TimerGoneIff(batchSize, run, events, i - 1);
      RunStep(batchSize, run, events, i - 1);
      match events[i - 1] {
        case Restart => assert 0 in run[i].shared.armed;
        case Do(step) =>
          assert TimerInv(run[i - 1]) by {
            RunInv(batchSize, run, events, i - 1);
          }
          NoTimerStep(batchSize, run[i - 1], step);
      }
    }
  }

  ghost predicate OnlyFlusher(s: State, t: nat) {
    forall u | u != t :: Pc(s, u).Idle?
  }

  lemma StopDuringFlush(m: Message) returns (run: seq<State>, events: seq<Event>)
    ensures IsRun(1, run, events) && |events| == 6
    ensures events[3..] == [Do(CallFlush(1)), Do(Enter(1)), Do(StopTimers(1))]
    ensures Pc(run[6], 0) == Inserting([m]) && OnlyFlusher(run[6], 0) && run[6].clock == 0
    ensures run[6].shared.armed == {} && run[6].shared.buffer == []
  {
    var s0 := Init(0);
    var s1 := Apply(1, s0, Deliver(0, m));
    var s2 := Apply(1, s1, Decide(0));
    var s3 := Apply(1, s2, Enter(0));
    var s4 := Apply(1, s3, CallFlush(1));
    var s5 := Apply(1, s4, Enter(1));
    var s6 := Apply(1, s5, StopTimers(1));
    run := [s0, s1, s2, s3, s4, s5, s6];
    events := [Do(Deliver(0, m)), Do(Decide(0)), Do(Enter(0)), Do(CallFlush(1)), Do(Enter(1)), Do(StopTimers(1))];
  }

  /** A run goes on with the rest of a flush while every other thread is idle. */
  lemma FinishRun(batchSize: int, run: seq<State>, events: seq<Event>, t: nat, now: int)
    returns (run': seq<State>, events': seq<Event>)
    requires IsRun(batchSize, run, events)
    requires var s := run[|events|]; Pc(s, t).Inserting? && now >= s.clock && OnlyFlusher(s, t)
    ensures IsRun(batchSize, run', events') && run <= run'
    ensures events' == events + [Do(ReadClock(t, now)), Do(Insert(t, Commits)), Do(ClearFlag(t)), Do(Rearm(t))]
    ensures var s' := run'[|events'|]; s'.shared.armed != {} && s'.shared.buffer == run[|events|].shared.buffer
    ensures forall u :: Pc(run'[|events'|], u).Idle?
  {
    var s := run[|events|];
    run', events' := Extend(batchSize, run, events, Do(ReadClock(t, now)));
    run', events' := Extend(batchSize, run', events', Do(Insert(t, Commits)));
    run', events' := Extend(batchSize, run', events', Do(ClearFlag(t)));
    run', events' := Extend(batchSize, run', events', Do(Rearm(t)));
    var s' := run'[|events'|];
    assert s.shared.nextTimer in s'.shared.armed;
    forall u
      ensures Pc(s', u).Idle?
    {
      assert u != t ==> Pc(s', u) == Pc(s, u);
    }
  }

  /**
   * `stop` during another flush does not last: thread 1 calls flush, which returns at once, and stop; then the finally
   * of the flush under way starts a timer again, and it is left when everything is idle.
   */
  lemma StopThenRearm(m: Message) returns (run: seq<State>, events: seq<Event>)
    ensures IsRun(1, run, events) && |events| == 10
    ensures events[3..6] == [Do(CallFlush(1)), Do(Enter(1)), Do(StopTimers(1))] && run[6].shared.armed == {}
    ensures forall i | 6 <= i < 10 :: events[i].Do? && events[i].step.t == 0
    ensures run[10].shared.armed != {} && run[10].shared.buffer == [] && forall t :: Pc(run[10], t).Idle?
  {
    run, events := StopDuringFlush(m);
    run, events := FinishRun(1, run, events, 0, 1);
  }

  // --- Shutdown ---

  /** A flush call that nothing interrupts, with an insert that commits; up to the commit. */
  function FlushAlone(batchSize: int, s: State, t: nat, now: int): State
    requires Pc(s, t).AtFlush? && now >= s.clock
  {
    var s1 := Apply(batchSize, s, Enter(t));
    if CanTake(s.shared)
    then Apply(batchSize, Apply(batchSize, s1, ReadClock(t, now)), Insert(t, Commits))
    else s1
  }

  /**
   * A final flush that nothing interrupts and whose insert commits drains everything exactly when no other flush is
   * under way, or the other flush is past its insert and the buffer is empty.
   */
  lemma FinalFlushIff(batchSize: int, s: State, t: nat, now: int)
    requires SingleFlusher(s) && Conserved(s) && Pc(s, t).AtFlush? && now >= s.clock
    ensures FlushAlone(batchSize, s, t, now).flushed == FlushAlone(batchSize, s, t, now).added
      <==> (!s.shared.flushing || (InFlight(s) == [] && s.shared.buffer == []))
  {
    if CanTake(s.shared) {
      InFlightStep(batchSize, s, Enter(t));
      assert s.flushed + [] + s.shared.buffer == s.flushed + s.shared.buffer;
    } else if s.shared.flushing {
      assert |s.added| == |s.flushed| + |InFlight(s)| + |s.shared.buffer|;
      assert InFlight(s) == [] && s.shared.buffer == [] ==> s.flushed + [] + [] == s.flushed;
    } else {
      QuiescentFlushed(s);
    }
  }

  /** The flusher t has everything, or everything is flushed. */
  ghost predicate Draining(s: State, t: nat) {
    || ((Pc(s, t).Inserting? || Pc(s, t).Stamped?) && s.shared.buffer == [])
    || s.flushed == s.added
  }

  lemma DrainingStep(batchSize: int, s: State, t: nat, step: Step)
    requires SingleFlusher(s) && Conserved(s) && Enabled(s, step) && Draining(s, t)
    requires !step.Deliver? && (step.Insert? && step.t == t ==> step.fate.Commits?)
    ensures Draining(Apply(batchSize, s, step), t)
  {
    var s' := Apply(batchSize, s, step);
    OthersStay(batchSize, s, step);
    InFlightStep(batchSize, s, step);
    ConservedStep(batchSize, s, step);
    if s.flushed == s.added {
      assert InFlight(s) == [] by {
        assert |s.added| == |s.flushed| + |InFlight(s)| + |s.shared.buffer|;
      }
    } else {
      assert InFlush(Pc(s, t));
      assert step.t != t ==> !InFlush(Pc(s, step.t));
      if step.Insert? && step.t == t {
        assert InFlight(s') == [] && s'.shared.buffer == [];
        assert s'.flushed + [] + [] == s'.flushed;
      }
    }
  }

  /** The process lives, no message arrives and the insert of thread t commits. */
  predicate ShutdownStep(e: Event, t: nat) {
    e.Do? && !e.step.Deliver? && (e.step.Insert? && e.step.t == t ==> e.step.fate.Commits?)
  }

  lemma DrainingStarts(batchSize: int, s: State, t: nat)
    requires Enabled(s, Enter(t)) && CanTake(s.shared)
    ensures Draining(Apply(batchSize, s, Enter(t)), t)
  {
  }

  lemma DrainingNext(batchSize: int, run: seq<State>, events: seq<Event>, t: nat, j: nat)
    requires IsRun(batchSize, run, events) && j < |events| && ShutdownStep(events[j], t) && Draining(run[j], t)
    ensures Draining(run[j + 1], t)
  {
    RunInv(batchSize, run, events, j);
    RunStep(batchSize, run, events, j);
    DrainingStep(batchSize, run[j], t, events[j].step);
  }

  lemma {:induction false} DrainingRun(batchSize: int, run: seq<State>, events: seq<Event>, t: nat, i: nat, j: nat)
    requires IsRun(batchSize, run, events) && i <= j <= |events|
    requires Draining(run[i], t) && forall k | i <= k < j :: ShutdownStep(events[k], t)
    ensures Draining(run[j], t)
  {
    if i < j {
      DrainingRun(batchSize, run, events, t, i, j - 1);
      DrainingNext(batchSize, run, events, t, j - 1);
    }
  }

  /**
   * Shutdown in any interleaving: once the final flush has taken its batch (no flush was in flight) and no message
   * arrives any more, the commit of its insert leaves every message stored.
   */
  lemma ShutdownDrains(batchSize: int, run: seq<State>, events: seq<Event>, t: nat, i: nat, j: nat)
    requires IsRun(batchSize, run, events) && i < j <= |events|
    requires events[i] == Do(Enter(t)) && CanTake(run[i].shared) && forall k | i < k < j :: ShutdownStep(events[k], t)
    requires !Pc(run[j], t).Inserting? && !Pc(run[j], t).Stamped?
    ensures forall m | m in run[j].added :: Landed(run[j].bronze, m)
  {
    assert Draining(run[i + 1], t) by {
      RunStep(batchSize, run, events, i);
      DrainingStarts(batchSize, run[i], t);
    }
    DrainingRun(batchSize, run, events, t, i + 1, j);
    RunInv(batchSize, run, events, j);
    forall m | m in run[j].added
      ensures Landed(run[j].bronze, m)
    {
      var k :| 0 <= k < |run[j].added| && run[j].added[k] == m;
      StoredLanded(run[j], k);
    }
  }
}
