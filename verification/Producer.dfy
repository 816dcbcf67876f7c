/** The publisher's bounded retry queue and the reconnecting stream loop (producer/publisher.py, producer/main.py). */
module Producer {
  import opened Wrappers
  import opened Backoff

  type Bytes = seq<bv8>

  const MAX_ATTEMPTS := 3
  const RETRY_QUEUE_MAX := 1000

  /** What one basic_publish does: returns, raises an error that is retried, or raises any other exception. */
  datatype Fate = Confirmed | Unroutable | AmqpError | Escapes

  datatype Result = Delivered | Held | Thrown

  /** The first attempt that is not retried decides; when all are, the message is held. */
  function ResultOf(fates: seq<Fate>): Result {
    if fates == [] then Held
    else match fates[0]
      case Confirmed => Delivered
      case Escapes => Thrown
      case _ => ResultOf(fates[1..])
  }

  predicate Retried(f: Fate) {
    f.Unroutable? || f.AmqpError?
  }

  /** Held when every attempt is unroutable or an AMQP error; otherwise the first attempt that is neither decides. */
  lemma {:induction false} ResultMeaning(fates: seq<Fate>)
    ensures ResultOf(fates).Held? <==> forall f | f in fates :: f == Unroutable || f == AmqpError
    ensures ResultOf(fates).Delivered? <==> exists i: nat :: DecidesAt(fates, i, Confirmed)
    ensures ResultOf(fates).Thrown? <==> exists i: nat :: DecidesAt(fates, i, Escapes)
  {
    if fates != [] {
      var rest := fates[1..];
      ResultMeaning(rest);
      assert fates == [fates[0]] + rest && fates[0] in fates;
      if ResultOf(fates).Held? {
        forall f | f in fates
          ensures f == Unroutable || f == AmqpError
        {
          assert f == fates[0] || f in rest;
        }
      } else if Retried(fates[0]) {
        var f :| f in rest && !(f == Unroutable || f == AmqpError);
        assert f in fates;
      }
      DecidesCons(fates[0], rest, Confirmed);
      DecidesCons(fates[0], rest, Escapes);
    }
  }

  predicate DecidesAt(fates: seq<Fate>, i: nat, f: Fate) {
    i < |fates| && fates[i] == f && forall j | 0 <= j < i :: fates[j] == Unroutable || fates[j] == AmqpError
  }

  lemma DecidesCons(first: Fate, rest: seq<Fate>, f: Fate)
    requires !Retried(f)
    ensures (exists i: nat :: DecidesAt([first] + rest, i, f)) <==>
      first == f || (Retried(first) && exists i: nat :: DecidesAt(rest, i, f))
  {
    var fates := [first] + rest;
    if first == f {
      assert DecidesAt(fates, 0, f);
    }
    if i: nat :| Retried(first) && DecidesAt(rest, i, f) {
      assert DecidesAt(fates, i + 1, f);
    }
    if i: nat :| DecidesAt(fates, i, f) {
      if i > 0 {
        assert fates[0] == first;
        forall j | 0 <= j < i - 1
          ensures rest[j] == Unroutable || rest[j] == AmqpError
        {
          assert rest[j] == fates[j + 1];
        }
        assert DecidesAt(rest, i - 1, f);
      }
    }
  }

  // --- The bounded deque ---

  function LastN(n: nat, ms: seq<Bytes>): seq<Bytes> {
    if |ms| <= n then ms else ms[|ms| - n..]
  }

  /** deque(maxlen=n).append: the oldest entry falls out of a full queue. */
  function PushBounded(n: nat, queue: seq<Bytes>, m: Bytes): seq<Bytes> {
    var longer := queue + [m];
    if |longer| > n then longer[1..] else longer
  }

  /** Appending to the last n messages gives the last n messages. */
  lemma PushKeepsLast(n: nat, ms: seq<Bytes>, m: Bytes)
    requires n > 0
    ensures PushBounded(n, LastN(n, ms), m) == LastN(n, ms + [m])
  {
  }

  /** The queue after these messages failed, one after another, starting empty. */
  function QueueAfter(n: nat, failed: seq<Bytes>): seq<Bytes> {
    if failed == [] then [] else PushBounded(n, QueueAfter(n, failed[..|failed| - 1]), failed[|failed| - 1])
  }

  lemma QueueAfterSnoc(n: nat, before: seq<Bytes>, m: Bytes)
    ensures QueueAfter(n, before + [m]) == PushBounded(n, QueueAfter(n, before), m)
  {
    assert (before + [m])[..|before|] == before;
  }

  /** After any failures the queue is the last min(n, f) of the f failed messages, in order; the others are evicted. */
  lemma {:induction false} QueueIsLastFailed(n: nat, failed: seq<Bytes>)
    requires n > 0
    ensures QueueAfter(n, failed) == failed[if |failed| <= n then 0 else |failed| - n..]
  {
    if failed != [] {
      var before, m := failed[..|failed| - 1], failed[|failed| - 1];
      assert failed == before + [m];
      QueueIsLastFailed(n, before);
      QueueAfterSnoc(n, before, m);
      PushKeepsLast(n, before, m);
    }
  }

  /** Up to a thousand failed messages nothing is evicted; beyond that the last thousand are left. */
  lemma ThousandAreKept(failed: seq<Bytes>)
    ensures QueueAfter(RETRY_QUEUE_MAX, failed) == if |failed| <= 1000 then failed else failed[|failed| - 1000..]
  {
    QueueIsLastFailed(RETRY_QUEUE_MAX, failed);
  }

  class RabbitMQPublisher {
    var retryQueue: seq<Bytes>
    ghost var delivered: seq<Bytes>   // confirmed by the broker
    ghost var held: seq<Bytes>        // every message that failed all attempts
    ghost var thrown: seq<Bytes>      // messages whose publish raised

    ghost predicate Valid()
      reads this
    {
      retryQueue == LastN(RETRY_QUEUE_MAX, held)
    }

    constructor ()
      ensures Valid() && delivered == held == thrown == []
    {
      retryQueue, delivered, held, thrown := [], [], [], [];
    }

    /** The three outcomes file the message in exactly one place; the queue stays the last 1000 failed messages. */
    method Publish(message: Bytes, fates: seq<Fate>) returns (r: Result)
      requires Valid() && |fates| == MAX_ATTEMPTS
      modifies this
      ensures Valid() && r == ResultOf(fates)
      ensures delivered == old(delivered) + (if r.Delivered? then [message] else [])
      ensures held == old(held) + (if r.Held? then [message] else [])
      ensures thrown == old(thrown) + (if r.Thrown? then [message] else [])
      ensures retryQueue == if |held| <= 1000 then held else held[|held| - 1000..]
    {
      for attempt := 0 to MAX_ATTEMPTS
        invariant ResultOf(fates) == ResultOf(fates[attempt..])
        invariant retryQueue == old(retryQueue) && delivered == old(delivered)
        invariant held == old(held) && thrown == old(thrown)
      {
        if fates[attempt].Confirmed? {
          delivered := delivered + [message];
          return Delivered;
        }
        if fates[attempt].Escapes? {
          thrown := thrown + [message];
          return Thrown;
        }
      }
      PushKeepsLast(RETRY_QUEUE_MAX, held, message);
      retryQueue := PushBounded(RETRY_QUEUE_MAX, retryQueue, message);
      held := held + [message];
      return Held;
    }
  }

  // --- Validating trades ---

  /** The `side` field of a trade object: absent, a string, or a JSON value that is not a string. */
  datatype Side = NoSide | Text(side: string) | NotText

  /** The `time` field: not a zoned time, one that UTC can represent, or one that falls off the calendar in UTC. */
  datatype TimeField = NotZoned | Zoned | OffCalendar

  /** One entry of `trades`; `rest` tells whether trade_id, price and size are accepted. */
  datatype Raw = NotAMapping | Fields(side: Side, time: TimeField, rest: bool)

  /** TradeMessage(**trade) returns, raises ValidationError, or raises something else. */
  datatype Verdict = Accepted | Rejected | Malformed

  function Lower(s: string): string {
    seq(|s|, i requires 0 <= i < |s| => if 'A' <= s[i] <= 'Z' then s[i] + 32 as char else s[i])
  }

  predicate SideAccepted(side: Side) {
    side.Text? && (Lower(side.side) == "buy" || Lower(side.side) == "sell")
  }

  /**
   * The validators of `side` and `time` call methods of the value: an AttributeError or OverflowError, like the
   * TypeError for an entry that is not a mapping, is no ValidationError.
   */
  function VerdictOf(raw: Raw): Verdict {
    match raw
    case NotAMapping => Malformed
    case Fields(side, time, rest) =>
      if side.NotText? || time.OffCalendar? then Malformed
      else if SideAccepted(side) && time.Zoned? && rest then Accepted
      else Rejected
  }

  /**
   * A trade is malformed when it is not an object, its side is not a string, or its time falls off the calendar;
   * accepted when side, time and the rest are fine, where the side spells buy or sell in any mix of cases; otherwise
   * it is rejected.
   */
  lemma VerdictMeaning(raw: Raw)
    ensures VerdictOf(raw).Malformed? <==>
      raw.NotAMapping? || raw.side.NotText? || raw.time.OffCalendar?
    ensures VerdictOf(raw).Accepted? <==>
      raw.Fields? && raw.rest && raw.time.Zoned? && raw.side.Text? && BuyOrSell(raw.side.side)
    ensures VerdictOf(raw).Rejected? <==>
      && raw.Fields? && !raw.side.NotText? && !raw.time.OffCalendar?
      && !(raw.rest && raw.time.Zoned? && raw.side.Text? && BuyOrSell(raw.side.side))
  {
    if raw.Fields? && raw.side.Text? {
      LowerSpells(raw.side.side);
    }
  }

  predicate BuyOrSell(s: string) {
    || (|s| == 3 && s[0] in {'b', 'B'} && s[1] in {'u', 'U'} && s[2] in {'y', 'Y'})
    || (|s| == 4 && s[0] in {'s', 'S'} && s[1] in {'e', 'E'} && s[2] in {'l', 'L'} && s[3] in {'l', 'L'})
  }

  lemma LowerSpells(s: string)
    ensures Lower(s) == "buy" || Lower(s) == "sell" <==> BuyOrSell(s)
  {
    var lower := Lower(s);
    assert |lower| == |s|;
    if |s| == 3 {
      assert lower == [lower[0], lower[1], lower[2]];
      assert lower == "buy" <==> lower[0] == 'b' && lower[1] == 'u' && lower[2] == 'y';
    } else if |s| == 4 {
      assert lower == [lower[0], lower[1], lower[2], lower[3]];
      assert lower == "sell" <==> lower[0] == 's' && lower[1] == 'e' && lower[2] == 'l' && lower[3] == 'l';
    }
  }

  // --- Counting trades ---

  /** `body` is what publish sends for an accepted trade; the fates are those of its publish. */
  datatype TradeIn = TradeIn(raw: Raw, body: Bytes, first: Fate, second: Fate, third: Fate)

  function Fates(x: TradeIn): seq<Fate> {
    [x.first, x.second, x.third]
  }

  /** The counters, where the accepted messages went, and as history all trades that were looked at. */
  datatype Tally = Tally(received: nat, valid: nat, invalid: nat,
                         delivered: seq<Bytes>, held: seq<Bytes>, thrown: seq<Bytes>, seen: seq<TradeIn>)

  function HandleOne(t: Tally, x: TradeIn): Tally {
    var t' := t.(received := t.received + 1, seen := t.seen + [x]);
    match VerdictOf(x.raw)
    case Malformed => t'
    case Rejected => t'.(invalid := t.invalid + 1)
    case Accepted =>
      var t'' := t'.(valid := t.valid + 1);
      match ResultOf(Fates(x))
      case Delivered => t''.(delivered := t.delivered + [x.body])
      case Held => t''.(held := t.held + [x.body])
      case Thrown => t''.(thrown := t.thrown + [x.body])
  }

  predicate Throws(x: TradeIn) {
    VerdictOf(x.raw).Malformed? || (VerdictOf(x.raw).Accepted? && ResultOf(Fates(x)).Thrown?)
  }

  /** A valid buy or sell trade that the broker confirms at once is received, valid and delivered. */
  lemma ValidTradeIsDelivered(t: Tally, x: TradeIn)
    requires x.raw.Fields? && x.raw.side in {Text("buy"), Text("sell")} && x.raw.time.Zoned? && x.raw.rest
    requires x.first.Confirmed?
    ensures HandleOne(t, x) == t.(received := t.received + 1, valid := t.valid + 1,
                                  delivered := t.delivered + [x.body], seen := t.seen + [x])
  {
    VerdictMeaning(x.raw);
  }

  /** Three attempts: a message is held when all three fail, and an exception that is no AMQP error gets through. */
  lemma ThreeAttempts(x: TradeIn)
    ensures ResultOf(Fates(x)).Held? <==>
      x.first in {Unroutable, AmqpError} && x.second in {Unroutable, AmqpError} && x.third in {Unroutable, AmqpError}
    ensures ResultOf(Fates(x)).Delivered? <==>
      || x.first == Confirmed
      || (x.first in {Unroutable, AmqpError} && x.second == Confirmed)
      || (x.first in {Unroutable, AmqpError} && x.second in {Unroutable, AmqpError} && x.third == Confirmed)
  {
    var three, two, one := Fates(x), [x.second, x.third], [x.third];
    assert three[1..] == two && two[1..] == one && one[1..] == [];
    assert ResultOf(one) == if x.third.Confirmed? then Delivered else if x.third.Escapes? then Thrown else Held;
    assert x.second in {Unroutable, AmqpError} ==> ResultOf(two) == ResultOf(one);
    assert x.first in {Unroutable, AmqpError} ==> ResultOf(three) == ResultOf(two);
  }

  /** The trades of a frame one after another; an exception of the validation or of publish ends the session. */
  function HandleAll(t: Tally, xs: seq<TradeIn>): (Tally, bool)
    decreases |xs|
  {
    if xs == [] then (t, false)
    else if Throws(xs[0]) then (HandleOne(t, xs[0]), true)
    else HandleAll(HandleOne(t, xs[0]), xs[1..])
  }

  /** A frame of the socket, with the trades of all its events. */
  datatype Frame = Frame(channel: string, trades: seq<TradeIn>)

  function HandleFrames(t: Tally, frames: seq<Frame>): (Tally, bool)
    decreases |frames|
  {
    if frames == [] then (t, false)
    else if frames[0].channel != "market_trades" then HandleFrames(t, frames[1..])
    else
      var (t', threw) := HandleAll(t, frames[0].trades);
      if threw then (t', true) else HandleFrames(t', frames[1..])
  }

  /** A connection attempt that fails, or a subscribed session that ends quietly or by an exception. */
  datatype Session = NoConnection | Session(frames: seq<Frame>, drops: bool)

  /** `sinceSubscribe` is history: the seconds slept since the last successful subscribe. */
  datatype Link = Link(attempt: nat, slept: nat, sinceSubscribe: nat, gaveUp: bool)

  datatype World = World(tally: Tally, link: Link)

  function Lost(link: Link, attempt: nat, since: nat): Link {
    var delay := ExponentialBackoff(attempt, BASE, MAX_DELAY).value;
    Link(attempt + 1, link.slept + Abs(delay), since + Abs(delay), attempt + 1 >= MAX_RECONNECT_ATTEMPTS)
  }

  /** Delays are not negative; this keeps the sum a natural number. */
  function Abs(x: int): nat {
    if x < 0 then 0 else x
  }

  function RunSession(w: World, s: Session): World {
    match s
    case NoConnection => w.(link := Lost(w.link, w.link.attempt, w.link.sinceSubscribe))
    case Session(frames, drops) =>
      var (tally, threw) := HandleFrames(w.tally, frames);
      World(tally, if threw || drops then Lost(w.link, 0, 0) else w.link.(attempt := 0, sinceSubscribe := 0))
  }

  function RunSessions(w: World, sessions: seq<Session>): World
    decreases |sessions|
  {
    if sessions == [] || w.link.gaveUp then w else RunSessions(RunSession(w, sessions[0]), sessions[1..])
  }

  class Metrics {
    var received: nat
    var valid: nat
    var invalid: nat
    ghost var seen: seq<TradeIn>   // the trades that were looked at

    constructor ()
      ensures received == valid == invalid == 0 && seen == []
    {
      received, valid, invalid, seen := 0, 0, 0, [];
    }
  }

  ghost function TallyOf(p: RabbitMQPublisher, m: Metrics): Tally
    reads p, m
  {
    Tally(m.received, m.valid, m.invalid, p.delivered, p.held, p.thrown, m.seen)
  }

  method HandleFrame(p: RabbitMQPublisher, m: Metrics, trades: seq<TradeIn>) returns (threw: bool)
    requires p.Valid()
    modifies p, m
    ensures p.Valid()
    ensures (TallyOf(p, m), threw) == HandleAll(old(TallyOf(p, m)), trades)
  {
    var k := 0;
    while k < |trades|
      invariant 0 <= k <= |trades| && p.Valid()
      invariant HandleAll(old(TallyOf(p, m)), trades) == HandleAll(TallyOf(p, m), trades[k..])
    {
      var trade := trades[k];
      assert trades[k..][0] == trade && trades[k..][1..] == trades[k + 1..];
      ghost var before := TallyOf(p, m);
      m.received := m.received + 1;
      m.seen := m.seen + [trade];
      match VerdictOf(trade.raw) {
        case Malformed =>
          return true;
        case Rejected =>
          m.invalid := m.invalid + 1;
        case Accepted =>
          m.valid := m.valid + 1;
          var r := p.Publish(trade.body, Fates(trade));
          if r.Thrown? {
            assert TallyOf(p, m) == HandleOne(before, trade);
            return true;
          }
      }
      assert TallyOf(p, m) == HandleOne(before, trade);
      k := k + 1;
    }
    return false;
  }

  method HandleSession(p: RabbitMQPublisher, m: Metrics, frames: seq<Frame>) returns (threw: bool)
    requires p.Valid()
    modifies p, m
    ensures p.Valid()
    ensures (TallyOf(p, m), threw) == HandleFrames(old(TallyOf(p, m)), frames)
  {
    var j := 0;
    while j < |frames|
      invariant 0 <= j <= |frames| && p.Valid()
      invariant HandleFrames(old(TallyOf(p, m)), frames) == HandleFrames(TallyOf(p, m), frames[j..])
    {
      if frames[j].channel == "market_trades" {
        threw := HandleFrame(p, m, frames[j].trades);
        if threw {
          return true;
        }
      }
      j := j + 1;
    }
    return false;
  }

  /** _stream over the sessions up to the shutdown request. */
  method Stream(p: RabbitMQPublisher, m: Metrics, sessions: seq<Session>)
    returns (attempt: nat, slept: nat, gaveUp: bool)
    requires p.Valid()
    modifies p, m
    ensures p.Valid()
    ensures var w := RunSessions(World(old(TallyOf(p, m)), Link(0, 0, 0, false)), sessions);
      && TallyOf(p, m) == w.tally
      && attempt == w.link.attempt && slept == w.link.slept && gaveUp == w.link.gaveUp
  {
    attempt, slept, gaveUp := 0, 0, false;
    ghost var since := 0;
    ghost var start := World(TallyOf(p, m), Link(0, 0, 0, false));
    var i := 0;
    while i < |sessions| && !gaveUp
      invariant 0 <= i <= |sessions| && p.Valid()
      invariant RunSessions(start, sessions) ==
        RunSessions(World(TallyOf(p, m), Link(attempt, slept, since, gaveUp)), sessions[i..])
    {
      var raised := true;
      if sessions[i].Session? {
        attempt := 0;
        since := 0;
        var threw := HandleSession(p, m, sessions[i].frames);
        raised := threw || sessions[i].drops;
      }
      if raised {
        var delay := Abs(ExponentialBackoff(attempt, BASE, MAX_DELAY).value);
        slept := slept + delay;
        since := since + delay;
        attempt := attempt + 1;
        gaveUp := attempt >= MAX_RECONNECT_ATTEMPTS;
      }
      i := i + 1;
    }
  }

  // --- What every run keeps ---

  function CountOf(xs: seq<TradeIn>, v: Verdict): nat {
    if xs == [] then 0 else
      var n := |xs| - 1;
      CountOf(xs[..n], v) + if VerdictOf(xs[n].raw) == v then 1 else 0
  }

  /** The accepted trades whose publish ended with `r`, in order. */
  function Filed(xs: seq<TradeIn>, r: Result): seq<Bytes> {
    if xs == [] then [] else
      var n := |xs| - 1;
      Filed(xs[..n], r) + if VerdictOf(xs[n].raw).Accepted? && ResultOf(Fates(xs[n])) == r then [xs[n].body] else []
  }

  /** The counters count the trades looked at, and every accepted trade is in exactly the place its publish says. */
  predicate Balanced(t: Tally) {
    && t.received == |t.seen| && t.valid == CountOf(t.seen, Accepted) && t.invalid == CountOf(t.seen, Rejected)
    && t.delivered == Filed(t.seen, Delivered) && t.held == Filed(t.seen, Held) && t.thrown == Filed(t.seen, Thrown)
  }

  lemma HandleOneBalanced(t: Tally, x: TradeIn)
    requires Balanced(t)
    ensures Balanced(HandleOne(t, x))
  {
    assert (t.seen + [x])[..|t.seen|] == t.seen;
  }

  lemma {:induction false} HandleAllBalanced(t: Tally, xs: seq<TradeIn>)
    requires Balanced(t)
    ensures Balanced(HandleAll(t, xs).0)
    decreases |xs|
  {
    if xs != [] {
      HandleOneBalanced(t, xs[0]);
      if !Throws(xs[0]) {
        HandleAllBalanced(HandleOne(t, xs[0]), xs[1..]);
      }
    }
  }

  lemma {:induction false} HandleFramesBalanced(t: Tally, frames: seq<Frame>)
    requires Balanced(t)
    ensures Balanced(HandleFrames(t, frames).0)
    decreases |frames|
  {
    if frames != [] {
      if frames[0].channel == "market_trades" {
        HandleAllBalanced(t, frames[0].trades);
        var (t', threw) := HandleAll(t, frames[0].trades);
        if !threw {
          HandleFramesBalanced(t', frames[1..]);
        }
      } else {
        HandleFramesBalanced(t, frames[1..]);
      }
    }
  }

  /** The trades up to the first one that throws, including it. */
  function UpToThrow(xs: seq<TradeIn>): seq<TradeIn> {
    if xs == [] || Throws(xs[0]) then xs[..Min(1, |xs|)] else [xs[0]] + UpToThrow(xs[1..])
  }

  function Min(a: nat, b: nat): nat {
    if a < b then a else b
  }

  lemma {:induction false} UpToThrowMeaning(xs: seq<TradeIn>)
    ensures UpToThrow(xs) <= xs
    ensures forall k | 0 <= k < |UpToThrow(xs)| - 1 :: !VerdictOf(xs[k].raw).Malformed? && !Escaped(xs[k])
    ensures UpToThrow(xs) == xs || (UpToThrow(xs) != [] &&
      var last := xs[|UpToThrow(xs)| - 1]; VerdictOf(last.raw).Malformed? || Escaped(last))
  {
    if xs != [] && !Throws(xs[0]) {
      UpToThrowMeaning(xs[1..]);
      assert xs == [xs[0]] + xs[1..];
      forall k | 0 <= k < |UpToThrow(xs)| - 1
        ensures !VerdictOf(xs[k].raw).Malformed? && !Escaped(xs[k])
      {
        assert k > 0 ==> xs[k] == xs[1..][k - 1];
      }
    }
  }

  lemma {:induction false} LooksUpToThrow(t: Tally, xs: seq<TradeIn>)
    ensures HandleAll(t, xs).0.seen == t.seen + UpToThrow(xs)
    ensures HandleAll(t, xs).1 <==> exists x :: x in xs && (VerdictOf(x.raw).Malformed? || Escaped(x))
    decreases |xs|
  {
    if xs != [] {
      assert xs == [xs[0]] + xs[1..];
      if Throws(xs[0]) {
        assert xs[..1] == [xs[0]];
      } else {
        LooksUpToThrow(HandleOne(t, xs[0]), xs[1..]);
      }
    }
  }

  /** The trades of a session's trade frames, in order. */
  function TradesOf(frames: seq<Frame>): seq<TradeIn> {
    if frames == [] then [] else
      (if frames[0].channel == "market_trades" then frames[0].trades else []) + TradesOf(frames[1..])
  }

  /** Frames of other channels are passed over. */
  lemma {:induction false} TradesOfFrames(frames: seq<Frame>, f: Frame)
    ensures TradesOf(frames + [f]) == TradesOf(frames) + if f.channel == "market_trades" then f.trades else []
  {
    if frames == [] {
      assert frames + [f] == [f] && [f][1..] == [];
    } else {
      TradesOfFrames(frames[1..], f);
      assert (frames + [f])[1..] == frames[1..] + [f];
    }
  }

  lemma {:induction false} HandleAllConcat(t: Tally, xs: seq<TradeIn>, ys: seq<TradeIn>)
    ensures HandleAll(t, xs + ys) ==
      var (t', threw) := HandleAll(t, xs); if threw then (t', true) else HandleAll(t', ys)
    decreases |xs|
  {
    if xs == [] {
      assert xs + ys == ys;
    } else {
      assert (xs + ys)[0] == xs[0] && (xs + ys)[1..] == xs[1..] + ys;
      if !Throws(xs[0]) {
        HandleAllConcat(HandleOne(t, xs[0]), xs[1..], ys);
      }
    }
  }

  /** How trades are spread over frames and events does not matter. */
  lemma {:induction false} FramesDoNotMatter(t: Tally, frames: seq<Frame>)
    ensures HandleFrames(t, frames) == HandleAll(t, TradesOf(frames))
    decreases |frames|
  {
    if frames != [] {
      if frames[0].channel == "market_trades" {
        HandleAllConcat(t, frames[0].trades, TradesOf(frames[1..]));
        var (t', threw) := HandleAll(t, frames[0].trades);
        if !threw {
          FramesDoNotMatter(t', frames[1..]);
        }
      } else {
        FramesDoNotMatter(t, frames[1..]);
        assert [] + TradesOf(frames[1..]) == TradesOf(frames[1..]);
      }
    }
  }

  /** What the producer looks at in a session: its trades up to the first that raises. */
  function LookedAt(s: Session): seq<TradeIn> {
    match s
    case NoConnection => []
    case Session(frames, _) => UpToThrow(TradesOf(frames))
  }

  function AllLookedAt(sessions: seq<Session>): seq<TradeIn> {
    if sessions == [] then [] else LookedAt(sessions[0]) + AllLookedAt(sessions[1..])
  }

  lemma SessionLooksAt(w: World, s: Session)
    ensures RunSession(w, s).tally.seen == w.tally.seen + LookedAt(s)
  {
    match s
    case NoConnection => assert w.tally.seen + [] == w.tally.seen;
    case Session(frames, drops) =>
      FramesDoNotMatter(w.tally, frames);
      LooksUpToThrow(w.tally, TradesOf(frames));
  }

  /** The trades looked at are those of the sessions up to where the producer gave up, each up to its first raise. */
  lemma {:induction false} SeenIsInput(w: World, sessions: seq<Session>) returns (n: nat)
    ensures n <= |sessions| && RunSessions(w, sessions).tally.seen == w.tally.seen + AllLookedAt(sessions[..n])
    ensures n < |sessions| ==> RunSessions(w, sessions).link.gaveUp
    decreases |sessions|
  {
    if sessions == [] || w.link.gaveUp {
      n := 0;
    } else {
      var w' := RunSession(w, sessions[0]);
      var m := SeenIsInput(w', sessions[1..]);
      n := m + 1;
      SessionLooksAt(w, sessions[0]);
      assert sessions[..n][0] == sessions[0] && sessions[..n][1..] == sessions[1..][..m];
    }
  }

  predicate Escaped(x: TradeIn) {
    VerdictOf(x.raw).Accepted? && ResultOf(Fates(x)).Thrown?
  }

  lemma {:induction false} ThrownIffEscaped(xs: seq<TradeIn>)
    ensures Filed(xs, Thrown) == [] <==> forall x | x in xs :: !Escaped(x)
  {
    if xs != [] {
      var front, x := xs[..|xs| - 1], xs[|xs| - 1];
      ThrownIffEscaped(front);
      assert xs == front + [x];
      assert |Filed(xs, Thrown)| == |Filed(front, Thrown)| + if Escaped(x) then 1 else 0;
    }
  }

  lemma {:induction false} CountsAddUp(xs: seq<TradeIn>)
    ensures |xs| == CountOf(xs, Accepted) + CountOf(xs, Rejected) + CountOf(xs, Malformed)
    ensures CountOf(xs, Accepted) == |Filed(xs, Delivered)| + |Filed(xs, Held)| + |Filed(xs, Thrown)|
    ensures CountOf(xs, Malformed) == 0 <==> forall x | x in xs :: !VerdictOf(x.raw).Malformed?
  {
    if xs != [] {
      var n := |xs| - 1;
      CountsAddUp(xs[..n]);
      assert xs == xs[..n] + [xs[n]];
    }
  }

  /**
   * received = valid + invalid + malformed and valid = confirmed + failed + let through by an exception; received =
   * valid + invalid exactly when no trade looked at was malformed, and valid = confirmed + failed exactly when the
   * publish of none of them let an exception through.
   */
  lemma BalancedCounts(t: Tally)
    requires Balanced(t)
    ensures t.received == t.valid + t.invalid + CountOf(t.seen, Malformed)
    ensures t.valid == |t.delivered| + |t.held| + |t.thrown|
    ensures t.received == t.valid + t.invalid <==> forall x | x in t.seen :: !VerdictOf(x.raw).Malformed?
    ensures t.valid == |t.delivered| + |t.held| <==> forall x | x in t.seen :: !Escaped(x)
  {
    CountsAddUp(t.seen);
    ThrownIffEscaped(t.seen);
  }

  /** A trade whose side is null is received, and neither valid nor invalid; it costs the connection. */
  lemma NullSideUncounted(x: TradeIn, w: World)
    requires x.raw == Fields(NotText, Zoned, true)
    ensures var w' := RunSession(w, Session([Frame("market_trades", [x])], false));
      && w'.tally.received == w.tally.received + 1
      && w'.tally.valid == w.tally.valid && w'.tally.invalid == w.tally.invalid
      && w'.link.attempt == 1 && w'.link.slept == w.link.slept + 1
  {
    var frames := [Frame("market_trades", [x])];
    assert HandleAll(w.tally, frames[0].trades) == (HandleOne(w.tally, x), true);
    assert HandleFrames(w.tally, frames) == (HandleOne(w.tally, x), true);
  }

  /** The sleep since the last subscribe is the backoff total of the attempt count. */
  predicate LinkInv(l: Link) {
    && l.attempt <= MAX_RECONNECT_ATTEMPTS
    && l.sinceSubscribe == TotalDelay(l.attempt, BASE, MAX_DELAY)
    && (l.gaveUp <==> l.attempt == MAX_RECONNECT_ATTEMPTS)
  }

  lemma LostInv(l: Link, attempt: nat, since: nat)
    requires attempt < MAX_RECONNECT_ATTEMPTS && since == TotalDelay(attempt, BASE, MAX_DELAY)
    ensures LinkInv(Lost(l, attempt, since))
  {
    var delay := ExponentialBackoff(attempt, BASE, MAX_DELAY).value;
    assert delay >= 0;
    assert TotalDelay(attempt + 1, BASE, MAX_DELAY) == since + delay;
  }

  /**
   * Over any sessions the counters and places stay those of the trades looked at (`BalancedCounts` adds them up); the
   * attempt count stays in [0, 10]; and the sleep of an unbroken streak of failures is at most 303 seconds.
   */
  lemma {:induction false} StreamKeeps(w: World, sessions: seq<Session>)
    requires Balanced(w.tally) && LinkInv(w.link)
    ensures var w' := RunSessions(w, sessions);
      Balanced(w'.tally) && LinkInv(w'.link) && w'.link.sinceSubscribe <= 303
    decreases |sessions|
  {
    StreakDelay(w.link.attempt);
    if sessions != [] && !w.link.gaveUp {
      var w' := RunSession(w, sessions[0]);
      match sessions[0] {
        case NoConnection =>
          LostInv(w.link, w.link.attempt, w.link.sinceSubscribe);
        case Session(frames, drops) =>
          HandleFramesBalanced(w.tally, frames);
          LostInv(w.link, 0, 0);
          assert TotalDelay(0, BASE, MAX_DELAY) == 0;
      }
      StreamKeeps(w', sessions[1..]);
    }
  }

  /** The counters over any sessions. */
  lemma StreamCounts(w: World, sessions: seq<Session>)
    requires Balanced(w.tally) && LinkInv(w.link)
    ensures var t := RunSessions(w, sessions).tally;
      && t.received == t.valid + t.invalid + CountOf(t.seen, Malformed)
      && t.valid == |t.delivered| + |t.held| + |t.thrown|
      && (t.received == t.valid + t.invalid <==> forall x | x in t.seen :: !VerdictOf(x.raw).Malformed?)
      && (t.valid == |t.delivered| + |t.held| <==> forall x | x in t.seen :: !Escaped(x))
  {
    StreamKeeps(w, sessions);
    BalancedCounts(RunSessions(w, sessions).tally);
  }

  // --- Reconnecting ---

  /** The session is subscribed and ends by an exception: of the socket, of the validation or of publish. */
  predicate EndsByException(s: Session) {
    s.Session? && (s.drops || exists x :: x in TradesOf(s.frames) && (VerdictOf(x.raw).Malformed? || Escaped(x)))
  }

  /** Seconds slept after the failure that follows k failures in a row. */
  function Delay(k: nat): nat {
    if k < 10 then [1, 2, 4, 8, 16, 32, 60, 60, 60, 60][k] else 60
  }

  lemma BackoffIsDelay(k: nat)
    requires k < 10
    ensures ExponentialBackoff(k, BASE, MAX_DELAY) == Some(Delay(k))
  {
    assert Pow2(1) == 2 && Pow2(2) == 4 && Pow2(3) == 8;
    assert Pow2(4) == 16 && Pow2(5) == 32 && Pow2(6) == 64;
    assert Pow2(7) == 128 && Pow2(8) == 256 && Pow2(9) == 512;
  }

  /**
   * A failed connection counts one more failure; a subscribe starts the count again, so that a dropped session counts
   * as the first failure, whatever came before it.
   */
  lemma SessionLink(w: World, s: Session)
    requires w.link.attempt < 10
    ensures var before, after := w.link, RunSession(w, s).link;
      match s
      case NoConnection =>
        && after.attempt == before.attempt + 1 && after.slept == before.slept + Delay(before.attempt)
        && after.gaveUp == (after.attempt >= 10)
      case Session(_, _) =>
        if EndsByException(s)
        then after.attempt == 1 && after.slept == before.slept + 1 && !after.gaveUp && after.sinceSubscribe == 1
        else after.attempt == 0 && after.slept == before.slept && after.gaveUp == before.gaveUp
  {
    match s
    case NoConnection =>
      BackoffIsDelay(w.link.attempt);
    case Session(frames, drops) =>
      FramesDoNotMatter(w.tally, frames);
      LooksUpToThrow(w.tally, TradesOf(frames));
      BackoffIsDelay(0);
  }

  /** Ten failures in a row end at session n: nine connections that failed, after a tenth that failed or a drop. */
  predicate TenFailuresEndAt(sessions: seq<Session>, n: nat) {
    && 10 <= n <= |sessions|
    && (sessions[n - 10].NoConnection? || EndsByException(sessions[n - 10]))
    && AllFail(sessions, n - 9, n)
  }

  predicate AllFail(sessions: seq<Session>, from: nat, to: nat) {
    from <= to <= |sessions| && forall i | from <= i < to :: sessions[i].NoConnection?
  }

  predicate TenFailures(sessions: seq<Session>) {
    exists n: nat | n <= |sessions| :: TenFailuresEndAt(sessions, n)
  }

  lemma AllFailCons(s: Session, rest: seq<Session>, from: nat, to: nat)
    ensures AllFail([s] + rest, from + 1, to + 1) <==> AllFail(rest, from, to)
    ensures AllFail([s] + rest, 0, to + 1) <==> s.NoConnection? && AllFail(rest, 0, to)
  {
    var all := [s] + rest;
    assert forall i | 0 <= i < |rest| :: rest[i] == all[i + 1];
    if s.NoConnection? && AllFail(rest, 0, to) {
      forall i | 0 <= i < to + 1
        ensures all[i].NoConnection?
      {
        assert i > 0 ==> all[i] == rest[i - 1];
      }
    }
    if AllFail(all, 0, to + 1) {
      assert all[0] == s;
    }
    if AllFail(rest, from, to) {
      assert forall i | from + 1 <= i < to + 1 :: all[i] == rest[i - 1];
    }
  }

  lemma TenFailuresCons(s: Session, rest: seq<Session>)
    ensures TenFailures([s] + rest) <==>
      TenFailures(rest) || ((s.NoConnection? || EndsByException(s)) && AllFail(rest, 0, 9))
  {
    var all := [s] + rest;
    forall n: nat | n <= |rest|
      ensures TenFailuresEndAt(rest, n) <==> n >= 10 && TenFailuresEndAt(all, n + 1)
    {
      if n >= 10 {
        AllFailCons(s, rest, n - 9, n);
        assert all[n + 1 - 10] == rest[n - 10];
      }
    }
    AllFailCons(s, rest, 0, 9);
    if TenFailures(rest) {
      var n: nat :| n <= |rest| && TenFailuresEndAt(rest, n);
      assert TenFailuresEndAt(all, n + 1);
    }
    if AllFail(rest, 0, 9) && (s.NoConnection? || EndsByException(s)) {
      assert TenFailuresEndAt(all, 10);
    }
    if TenFailures(all) {
      var n: nat :| n <= |all| && TenFailuresEndAt(all, n);
      if n > 10 {
        assert TenFailuresEndAt(rest, n - 1);
      } else {
        assert all[0] == s;
      }
    }
  }

  /** From any count: given up exactly when the count is filled up at once, or ten failures follow one another later. */
  lemma {:induction false} GivesUpFrom(w: World, sessions: seq<Session>)
    requires w.link.attempt < 10 && !w.link.gaveUp
    ensures RunSessions(w, sessions).link.gaveUp <==>
      TenFailures(sessions) || AllFail(sessions, 0, 10 - w.link.attempt)
    decreases |sessions|
  {
    if sessions != [] {
      var s, rest, w' := sessions[0], sessions[1..], RunSession(w, sessions[0]);
      assert sessions == [s] + rest;
      SessionLink(w, s);
      TenFailuresCons(s, rest);
      AllFailCons(s, rest, 0, 9 - w.link.attempt);
      if w'.link.attempt < 10 {
        GivesUpFrom(w', rest);
      }
      TenContainsFewer(rest, 9 - w.link.attempt);
      if AllFail(rest, 0, 10) {
        assert rest[0].NoConnection? && TenFailuresEndAt(rest, 10);
      }
    }
  }

  lemma TenContainsFewer(sessions: seq<Session>, k: nat)
    requires k <= 9
    ensures AllFail(sessions, 0, 9) ==> AllFail(sessions, 0, k)
  {
  }

  /**
   * Over any sessions: the producer gives up exactly when ten failures have followed one another since the last
   * subscribe, the drop after that subscribe counted.
   */
  lemma GivesUpIff(t: Tally, sessions: seq<Session>)
    ensures RunSessions(World(t, Link(0, 0, 0, false)), sessions).link.gaveUp <==>
      exists n: nat | n <= |sessions| :: TenFailuresEndAt(sessions, n)
  {
    GivesUpFrom(World(t, Link(0, 0, 0, false)), sessions);
    if AllFail(sessions, 0, 10) {
      assert TenFailuresEndAt(sessions, 10);
    }
  }

  /** How many failures end the sequence, counted from the last subscribe. */
  function FailuresInARow(sessions: seq<Session>): nat {
    if sessions == [] then 0 else
      var before, s := sessions[..|sessions| - 1], sessions[|sessions| - 1];
      if s.NoConnection? then FailuresInARow(before) + 1 else if EndsByException(s) then 1 else 0
  }

  /** The delays after each of the failures. */
  function SleepOf(sessions: seq<Session>): nat {
    if sessions == [] then 0 else
      var before, s := sessions[..|sessions| - 1], sessions[|sessions| - 1];
      SleepOf(before) +
      if s.NoConnection? then Delay(FailuresInARow(before)) else if EndsByException(s) then Delay(0) else 0
  }

  lemma {:induction false} RunSessionsSnoc(w: World, sessions: seq<Session>, s: Session)
    ensures RunSessions(w, sessions + [s]) ==
      var w' := RunSessions(w, sessions); if w'.link.gaveUp then w' else RunSession(w', s)
    decreases |sessions|
  {
    if sessions == [] {
      assert sessions + [s] == [s] && [s][1..] == [];
    } else if !w.link.gaveUp {
      RunSessionsSnoc(RunSession(w, sessions[0]), sessions[1..], s);
      assert (sessions + [s])[1..] == sessions[1..] + [s];
    }
  }

  /**
   * The attempt count and the total sleep that the loop ends with: those of the sessions it ran, all of them unless it
   * gave up, which it does at the tenth failure in a row.
   */
  lemma {:induction false} SleepIsExact(t: Tally, sessions: seq<Session>) returns (n: nat)
    ensures var link := RunSessions(World(t, Link(0, 0, 0, false)), sessions).link;
      && n <= |sessions| && (n < |sessions| ==> link.gaveUp)
      && link.attempt == FailuresInARow(sessions[..n]) <= 10 && link.slept == SleepOf(sessions[..n])
      && (link.gaveUp <==> link.attempt == 10)
  {
    n := 0;
    if sessions != [] {
      var before, s := sessions[..|sessions| - 1], sessions[|sessions| - 1];
      var w := RunSessions(World(t, Link(0, 0, 0, false)), before);
      assert sessions == before + [s];
      n := SleepIsExact(t, before);
      RunSessionsSnoc(World(t, Link(0, 0, 0, false)), before, s);
      if w.link.gaveUp {
        assert sessions[..n] == before[..n];
      } else {
        assert before[..n] == before;
        SessionLink(w, s);
        n := |sessions|;
        assert sessions[..n] == sessions;
      }
    }
  }

  /** A streak of failed connections is given up exactly when it brings the attempt count to ten. */
  lemma {:induction false} StreakGivesUp(w: World, sessions: seq<Session>)
    requires LinkInv(w.link) && forall s | s in sessions :: s.NoConnection?
    ensures RunSessions(w, sessions).link.gaveUp <==> w.link.attempt + |sessions| >= 10
    ensures RunSessions(w, sessions).tally == w.tally
    decreases |sessions|
  {
    if sessions != [] && !w.link.gaveUp {
      LostInv(w.link, w.link.attempt, w.link.sinceSubscribe);
      StreakGivesUp(RunSession(w, sessions[0]), sessions[1..]);
    }
  }
}
