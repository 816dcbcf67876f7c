/**
 * Why a critical section may count as one step: executed statement by statement under the lock, with the other threads
 * and the timers running in between and crashes at any moment, every section behaves as if it were atomic.
 */
module LockRefinement {
  import opened Wrappers
  import opened Bronze
  import opened Buffer
  import opened WritePath
  import opened WriteGuarantees

  /** The variables of a call: `take` turns false when `flush` decides to return, `batch` and `size` are its locals. */
  datatype Local = Local(take: bool, batch: seq<Message>, size: nat)

  /** The thread inside a critical section, its locals, and how many statements are done. */
  datatype Hold = Hold(section: Step, local: Local, done: nat)

  /**
   * `live` is the memory the threads share. `s` holds everything else; its `shared` component is history that nothing
   * reads, the memory in which the finished sections took effect one after another.
   */
  datatype Fine = Fine(s: State, live: Shared, lock: Option<Hold>)

  /** What a statement reads and writes. */
  datatype Core = Core(mem: Shared, local: Local)

  datatype FineStep =
    | Acquire(section: Step)
    | Execute
    | Release
    | Outside(step: Step)
    | Crashes

  /** The steps that run under `with self.lock`. */
  predicate Locked(step: Step) {
    step.Deliver? || step.Enter? || step.PutBatchBack? || step.ClearFlag? || step.Rearm? || step.StopTimers?
  }

  /** The number of statements of a section; a flush that takes nothing returns after its test. */
  function Statements(section: Step, local: Local): nat {
    match section
    case Deliver(_, _) => 3
    case Enter(_) => if local.take then 5 else 1
    case Rearm(_) => 3
    case StopTimers(_) => 2
    case _ => 1
  }

  /** Statement k of a section; starting a Timer arms the one the field names. */
  function Statement(batchSize: int, section: Step, k: nat, c: Core): Core {
    var m, l := c.mem, c.local;
    match section
    case Deliver(_, message) =>
      if k == 0 then Core(m.(buffer := m.buffer + [message]), l)
      else if k == 1 then Core(m, l.(size := |m.buffer|))
      else Core(m.(overloaded := l.size > 2 * batchSize), l)
    case Enter(_) =>
      if k == 0 then Core(m, l.(take := !(m.flushing || m.buffer == [])))
      else if k == 1 then Core(m.(flushing := true), l)
      else if k == 2 then Core(m, l.(batch := m.buffer))
      else if k == 3 then Core(m.(buffer := []), l)
      else Core(m.(overloaded := false), l)
    case PutBatchBack(_) => Core(m.(buffer := l.batch + m.buffer), l)
    case ClearFlag(_) => Core(m.(flushing := false), l)
    case Rearm(_) =>
      if k == 0 then Core(CancelTimer(m), l)
      else if k == 1 then Core(m.(timer := Some(m.nextTimer), nextTimer := m.nextTimer + 1), l)
      else if m.timer.Some? then Core(m.(armed := m.armed + {m.timer.value}), l)
      else c
    case StopTimers(_) => Core(if k == 0 then CancelTimer(m) else m.(timer := None), l)
    case _ => c
  }

  /** The first k statements, without interruption. */
  function Prefix(batchSize: int, section: Step, k: nat, c: Core): Core {
    if k == 0 then c else Statement(batchSize, section, k - 1, Prefix(batchSize, section, k - 1, c))
  }

  /** The locals at the start of a section: only the handler of a failed flush has a batch from before. */
  function Locals(s: State, t: nat): Local {
    Local(true, if Carries(Pc(s, t)) then Pc(s, t).batch else [], 0)
  }

  /** Where the thread goes on after the section, decided by its locals alone; `shared` and `added` are history. */
  function Finish(s: State, section: Step, c: Core): State {
    var l, s' := c.local, s.(shared := c.mem);
    match section
    case Deliver(t, m) =>
      s'.(added := s.added + [m], returned := 0, threads := s.threads[t := Thread(Appended(l.size), Some(|s.added|))])
    case Enter(t) => if l.take then Move(s', t, Inserting(l.batch)).(returned := 0) else Return(s', t)
    case PutBatchBack(t) => Move(s', t, Clearing).(returned := |l.batch|)
    case ClearFlag(t) => Move(s', t, Resetting)
    case Rearm(t) => Return(s', t)
    case _ => s'
  }

  predicate Done(h: Hold) {
    h.done >= Statements(h.section, h.local)
  }

  /** Only threads that do not hold the lock act outside it; a timer fires when the live memory has it armed. */
  predicate FineEnabled(f: Fine, step: FineStep) {
    match step
    case Acquire(section) => f.lock.None? && Locked(section) && Enabled(f.s, section)
    case Execute => f.lock.Some? && !Done(f.lock.value)
    case Release => f.lock.Some? && Done(f.lock.value)
    case Outside(w) =>
      && !Locked(w)
      && (f.lock.Some? ==> w.t != f.lock.value.section.t)
      && if w.FireTimer? then Pc(f.s, w.t).Idle? && w.id in f.live.armed else Enabled(f.s, w)
    case Crashes => true
  }

  /** The lock is never left held: its holder can go on, and everybody else can act outside or take a free lock. */
  lemma LockNeverWedges(f: Fine, w: Step)
    ensures f.lock.Some? ==> FineEnabled(f, Execute) || FineEnabled(f, Release)
    ensures Enabled(f.s, w) && Locked(w) && f.lock.None? ==> FineEnabled(f, Acquire(w))
    ensures Enabled(f.s, w) && !Locked(w) && !w.FireTimer? && (f.lock.Some? ==> w.t != f.lock.value.section.t) ==>
      FineEnabled(f, Outside(w))
    ensures FineEnabled(f, Crashes)
  {
  }

  function OutsideStep(batchSize: int, s: State, w: Step): State
    requires !w.FireTimer? ==> Enabled(s, w)
  {
    if w.FireTimer? then Move(s, w.t, AtFlush).(shared := Fire(s.shared, w.id)) else Apply(batchSize, s, w)
  }

  /** A section takes effect in `s` with its last statement. */
  function FineApply(batchSize: int, f: Fine, step: FineStep): Fine
    requires FineEnabled(f, step)
  {
    match step
    case Acquire(section) => f.(lock := Some(Hold(section, Locals(f.s, section.t), 0)))
    case Execute =>
      var h := f.lock.value;
      var c := Statement(batchSize, h.section, h.done, Core(f.live, h.local));
      var h' := Hold(h.section, c.local, h.done + 1);
      Fine(if Done(h') then Finish(f.s, h.section, c) else f.s, c.mem, Some(h'))
    case Release => f.(lock := None)
    case Outside(w) =>
      Fine(OutsideStep(batchSize, f.s, w), if w.FireTimer? then Fire(f.live, w.id) else f.live, f.lock)
    case Crashes => Fine(Restarted(f.s), Initial(), None)
  }

  function FineInit(clock: int): Fine {
    Fine(Init(clock), Initial(), None)
  }

  ghost predicate IsFineRun(batchSize: int, run: seq<Fine>, steps: seq<FineStep>) {
    && |run| == |steps| + 1
    && run[0] == FineInit(run[0].s.clock)
    && forall i | 0 <= i < |steps| ::
         FineEnabled(run[i], steps[i]) && run[i + 1] == FineApply(batchSize, run[i], steps[i])
  }

  // --- The refinement relation ---

  function StartOf(s: State, section: Step): Core {
    Core(s.shared, Locals(s, section.t))
  }

  /** The live memory is that of the finished sections plus what the current one has done so far. */
  ghost predicate Matches(batchSize: int, f: Fine) {
    if f.lock.None? || Done(f.lock.value) then f.live == f.s.shared else InSection(batchSize, f, f.lock.value)
  }

  ghost predicate InSection(batchSize: int, f: Fine, h: Hold) {
    && Locked(h.section) && Enabled(f.s, h.section)
    && Core(f.live, h.local) == Prefix(batchSize, h.section, h.done, StartOf(f.s, h.section))
  }

  lemma PrefixUnfolds(batchSize: int, section: Step, c: Core)
    ensures var c1 := Statement(batchSize, section, 0, c); var c2 := Statement(batchSize, section, 1, c1);
      && Prefix(batchSize, section, 0, c) == c
      && Prefix(batchSize, section, 1, c) == c1 && Prefix(batchSize, section, 2, c) == c2
      && Prefix(batchSize, section, 3, c) == Statement(batchSize, section, 2, c2)
      && Prefix(batchSize, section, 4, c) == Statement(batchSize, section, 3, Prefix(batchSize, section, 3, c))
      && Prefix(batchSize, section, 5, c) == Statement(batchSize, section, 4, Prefix(batchSize, section, 4, c))
  {
    assert Prefix(batchSize, section, 1, c) == Statement(batchSize, section, 0, Prefix(batchSize, section, 0, c));
    assert Prefix(batchSize, section, 2, c) == Statement(batchSize, section, 1, Prefix(batchSize, section, 1, c));
  }

  /**
   * All statements of a section together, with the copies and tests they keep in locals, are its atomic step: same
   * memory, and the thread goes on at the same point with the same batch or size.
   */
  lemma SectionIsAtomic(batchSize: int, s: State, section: Step, n: nat)
    requires Locked(section) && Enabled(s, section)
    requires n == Statements(section, Prefix(batchSize, section, n, StartOf(s, section)).local)
    ensures Finish(s, section, Prefix(batchSize, section, n, StartOf(s, section))) == Apply(batchSize, s, section)
  {
    PrefixUnfolds(batchSize, section, StartOf(s, section));
  }

  function FireCore(c: Core, id: nat): Core {
    c.(mem := Fire(c.mem, id))
  }

  /** A firing timer passes every statement but the one that starts a timer. */
  lemma FirePassesStatement(batchSize: int, section: Step, k: nat, c: Core, id: nat)
    requires section.Rearm? ==> k < 2
    ensures Statement(batchSize, section, k, c).mem.armed <= c.mem.armed
    ensures Statement(batchSize, section, k, FireCore(c, id)) == FireCore(Statement(batchSize, section, k, c), id)
  {
    var m := c.mem;
    if m.timer.Some? {
      assert m.armed - {m.timer.value} - {id} == m.armed - {id} - {m.timer.value};
    }
  }

  /** A timer that fires inside a section could as well have fired before it. */
  lemma {:induction false} FireCommutes(batchSize: int, section: Step, k: nat, c: Core, id: nat)
    requires section.Rearm? ==> k <= 2
    ensures Prefix(batchSize, section, k, c).mem.armed <= c.mem.armed
    ensures Prefix(batchSize, section, k, FireCore(c, id)) == FireCore(Prefix(batchSize, section, k, c), id)
  {
    if k > 0 {
      FireCommutes(batchSize, section, k - 1, c, id);
      FirePassesStatement(batchSize, section, k - 1, Prefix(batchSize, section, k - 1, c), id);
    }
  }

  /** The event a fine step stands for, if any. */
  function Abstract(batchSize: int, f: Fine, step: FineStep): Option<Event>
    requires FineEnabled(f, step)
  {
    match step
    case Execute =>
      if Done(FineApply(batchSize, f, step).lock.value) then Some(Do(f.lock.value.section)) else None
    case Outside(w) => Some(Do(w))
    case Crashes => Some(Restart)
    case _ => None
  }

  lemma OutsideMatches(batchSize: int, f: Fine, w: Step)
    requires Matches(batchSize, f) && FineEnabled(f, Outside(w))
    ensures Enabled(f.s, w) && OutsideStep(batchSize, f.s, w) == Apply(batchSize, f.s, w)
    ensures Matches(batchSize, FineApply(batchSize, f, Outside(w)))
  {
    if f.lock.Some? && !Done(f.lock.value) {
      var h := f.lock.value;
      if w.FireTimer? {
        FireCommutes(batchSize, h.section, h.done, StartOf(f.s, h.section), w.id);
      }
      var s' := OutsideStep(batchSize, f.s, w);
      assert Pc(s', h.section.t) == Pc(f.s, h.section.t);
    }
  }

  lemma ExecuteMatches(batchSize: int, f: Fine)
    requires Matches(batchSize, f) && FineEnabled(f, Execute)
    ensures var f', section := FineApply(batchSize, f, Execute), f.lock.value.section;
      && Matches(batchSize, f')
      && (Done(f'.lock.value) ==> Enabled(f.s, section) && f'.s == Apply(batchSize, f.s, section))
  {
    var h, f' := f.lock.value, FineApply(batchSize, f, Execute);
    var c := Prefix(batchSize, h.section, h.done + 1, StartOf(f.s, h.section));
    assert c == Statement(batchSize, h.section, h.done, Core(f.live, h.local));
    if Done(f'.lock.value) {
      LastStatement(batchSize, f.s, h);
      SectionIsAtomic(batchSize, f.s, h.section, h.done + 1);
    }
  }

  /** A section ends with the statement that its count says. */
  lemma LastStatement(batchSize: int, s: State, h: Hold)
    requires !Done(h) && h.local == Prefix(batchSize, h.section, h.done, StartOf(s, h.section)).local
    requires var local' := Prefix(batchSize, h.section, h.done + 1, StartOf(s, h.section)).local;
      Done(Hold(h.section, local', h.done + 1))
    ensures var local' := Prefix(batchSize, h.section, h.done + 1, StartOf(s, h.section)).local;
      h.done + 1 == Statements(h.section, local')
  {
  }

  /** Every fine step is a possible event, or changes nothing but the progress of the current section. */
  lemma FineStepRefines(batchSize: int, f: Fine, step: FineStep)
    requires Matches(batchSize, f) && FineEnabled(f, step)
    ensures var f', a := FineApply(batchSize, f, step), Abstract(batchSize, f, step);
      && Matches(batchSize, f')
      && (a.None? ==> f'.s == f.s)
      && (a.Some? ==> Possible(f.s, a.value) && f'.s == Next(batchSize, f.s, a.value))
  {
    match step
    case Acquire(section) =>
      assert Prefix(batchSize, section, 0, StartOf(f.s, section)) == StartOf(f.s, section);
    case Execute => ExecuteMatches(batchSize, f);
    case Release =>
    case Outside(w) => OutsideMatches(batchSize, f, w);
    case Crashes =>
  }

  /**
   * Statement-level executions refine the step system: the finished sections of any fine run form a run of atomic
   * steps and crashes, and whenever the lock is free the live memory is the one that run has reached.
   */
  lemma {:induction false} FineRunRefines(batchSize: int, fines: seq<Fine>, fsteps: seq<FineStep>, i: nat)
    returns (run: seq<State>, events: seq<Event>)
    requires IsFineRun(batchSize, fines, fsteps) && i < |fines|
    ensures IsRun(batchSize, run, events) && run[|events|] == fines[i].s
    ensures Matches(batchSize, fines[i])
    ensures fines[i].lock.None? ==> fines[i].live == run[|events|].shared
  {
    if i == 0 {
      run, events := [fines[0].s], [];
    } else {
      run, events := FineRunRefines(batchSize, fines, fsteps, i - 1);
      var f, step := fines[i - 1], fsteps[i - 1];
      FineStepRefines(batchSize, f, step);
      if Abstract(batchSize, f, step).Some? {
        run, events := Extend(batchSize, run, events, Abstract(batchSize, f, step).value);
      }
    }
  }

  // --- Nothing lost, statement by statement ---

  predicate Inside(f: Fine) {
    f.lock.Some? && !Done(f.lock.value)
  }

  /** What waits: the shared buffer, or the copy that the running flush has made of it. */
  function Waiting(f: Fine): seq<Message> {
    if Inside(f) && f.lock.value.section.Enter? && f.lock.value.done >= 3 then f.lock.value.local.batch
    else f.live.buffer
  }

  /** The message an unfinished append has put in the buffer. */
  function Arriving(f: Fine): seq<Message> {
    if Inside(f) && f.lock.value.section.Deliver? && f.lock.value.done >= 1 then [f.lock.value.section.m] else []
  }

  /** The running flush has set the flag and not yet left its section. */
  predicate Taking(f: Fine) {
    Inside(f) && f.lock.value.section.Enter? && f.lock.value.done >= 2
  }

  lemma InsideSection(batchSize: int, f: Fine)
    requires Matches(batchSize, f)
    ensures Waiting(f) == f.s.shared.buffer + Arriving(f)
    ensures f.live.flushing <==> f.s.shared.flushing || Taking(f)
  {
    if Inside(f) {
      PrefixUnfolds(batchSize, f.lock.value.section, StartOf(f.s, f.lock.value.section));
    }
  }

  /** Nothing is lost or reordered and the flag keeps its meaning on the live memory, after every single statement. */
  lemma LiveNothingLost(batchSize: int, fines: seq<Fine>, fsteps: seq<FineStep>, i: nat)
    requires IsFineRun(batchSize, fines, fsteps) && i < |fines|
    ensures var f := fines[i]; f.s.flushed + InFlight(f.s) + Waiting(f) == f.s.added + Arriving(f)
    ensures fines[i].live.flushing <==> (exists t :: InFlush(Pc(fines[i].s, t))) || Taking(fines[i])
  {
    var f := fines[i];
    var run, events := FineRunRefines(batchSize, fines, fsteps, i);
    RunInv(batchSize, run, events, |events|);
    InsideSection(batchSize, f);
    ConcatAssoc(f.s.flushed + InFlight(f.s), f.s.shared.buffer, Arriving(f));
  }
}
