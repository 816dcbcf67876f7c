/**
 * The gold models: one-minute VWAP windows kept incrementally and one-minute statistics rebuilt in full
 * (dbt/models/gold/).
 */
module Gold {
  import opened Wrappers
  import opened Sets
  import opened Silver

  const MINUTE := 60_000_000

  /** date_trunc('minute', t) */
  function Minute(t: int): int {
    t - t % MINUTE
  }

  function Minutes(trades: set<Trade>): set<int> {
    set t | t in trades :: Minute(t.tradedAt)
  }

  function Window(trades: set<Trade>, w: int): set<Trade> {
    set t | t in trades && Minute(t.tradedAt) == w
  }

  /** Prices in 10^-8 dollars; vwap is NULL when the volume is zero. */
  datatype VwapRow = VwapRow(vwap: Option<real>, volume: int, count: nat, high: int, low: int)

  function SizeOf(t: Trade): int { t.size }

  function PriceOf(t: Trade): int { t.price }

  function NotionalOf(t: Trade): int { t.price * t.size }

  ghost function Volume(trades: set<Trade>): int {
    Sum(trades, SizeOf)
  }

  ghost function Notional(trades: set<Trade>): int {
    Sum(trades, NotionalOf)
  }

  ghost function Aggregate(window: set<Trade>): VwapRow {
    var volume := Volume(window);
    VwapRow(if volume == 0 then None else Some(Notional(window) as real / volume as real),
            volume, |window|, MaxOf(window, PriceOf, 0), MinOf(window, PriceOf, 0))
  }

  /** The full re-aggregation. */
  ghost function Rebuild(trades: set<Trade>): map<int, VwapRow> {
    map w | w in Minutes(trades) :: Aggregate(Window(trades, w))
  }

  /** coalesce(max(window_start), '1900-01-01') */
  ghost function GoldMark(gold: map<int, VwapRow>): int {
    MaxKey(gold.Keys, EPOCH)
  }

  function After(trades: set<Trade>, mark: int): set<Trade> {
    set t | t in trades && t.tradedAt > mark
  }

  /** One run; the incremental branch merges on window_start. */
  ghost function GoldRun(silver: set<Trade>, target: Option<map<int, VwapRow>>): map<int, VwapRow> {
    match target
    case None => Rebuild(silver)
    case Some(gold) => gold + Rebuild(After(silver, GoldMark(gold)))
  }

  // --- What a row says ---

  /** The trades of the minute that starts at `w`, in microseconds. */
  function MinuteOf(trades: set<Trade>, w: int): set<Trade> {
    set t | t in trades && w <= t.tradedAt < w + 60_000_000
  }

  lemma MinuteIsTruncation(t: int)
    ensures Minute(t) % 60_000_000 == 0 && Minute(t) <= t < Minute(t) + 60_000_000
    ensures forall w | w % 60_000_000 == 0 && w <= t < w + 60_000_000 :: w == Minute(t)
  {
    forall w | w % 60_000_000 == 0 && w <= t < w + 60_000_000
      ensures w == Minute(t)
    {
      assert (w - Minute(t)) % 60_000_000 == 0;
    }
  }

  lemma WindowIsMinute(trades: set<Trade>, w: int)
    ensures w in Minutes(trades) <==> w % 60_000_000 == 0 && MinuteOf(trades, w) != {}
    ensures w % 60_000_000 == 0 ==> Window(trades, w) == MinuteOf(trades, w)
  {
    forall t | t in trades
      ensures w % 60_000_000 == 0 ==> (Minute(t.tradedAt) == w <==> w <= t.tradedAt < w + 60_000_000)
      ensures Minute(t.tradedAt) == w ==> w % 60_000_000 == 0 && t in MinuteOf(trades, w)
    {
      MinuteIsTruncation(t.tradedAt);
    }
    if t :| t in MinuteOf(trades, w) && w % 60_000_000 == 0 {
      assert Minute(t.tradedAt) == w;
    }
  }

  /** high_price is the price of some trade and no trade is dearer; low_price likewise. */
  lemma HighAndLow(window: set<Trade>)
    requires window != {}
    ensures var row := Aggregate(window);
      && (exists t :: t in window && t.price == row.high)
      && (exists t :: t in window && t.price == row.low)
      && (forall t | t in window :: row.low <= t.price <= row.high)
  {
    var high, low := MaxOf(window, PriceOf, 0), MinOf(window, PriceOf, 0);
    var a :| a in window && PriceOf(a) == high;
    var b :| b in window && PriceOf(b) == low;
    assert a.price == high && b.price == low;
    forall t | t in window
      ensures low <= t.price <= high
    {
      assert low <= PriceOf(t) <= high;
    }
  }

  lemma SumSame<T>(s: set<T>, f: T -> int, g: T -> int)
    requires forall x | x in s :: g(x) == f(x)
    ensures Sum(s, g) == Sum(s, f)
  {
    SumScale(s, f, g, 1);
  }

  lemma SumsOfWindow(window: set<Trade>)
    ensures Volume(window) == Sum(window, (t: Trade) => t.size)
    ensures Notional(window) == Sum(window, (t: Trade) => t.price * t.size)
  {
    SumSame(window, (t: Trade) => t.size, SizeOf);
    SumSame(window, (t: Trade) => t.price * t.size, NotionalOf);
  }

  /**
   * Gold has a row for exactly the minutes with trades, and each row holds the volume, the number, the extreme prices
   * and the volume-weighted price of the trades of its minute, and of no others.
   */
  lemma RowsOfRebuild(silver: set<Trade>, w: int)
    ensures var trades := MinuteOf(silver, w);
      && (w in Rebuild(silver) <==> w % 60_000_000 == 0 && trades != {})
      && (w in Rebuild(silver) ==> IsRowOf(Rebuild(silver)[w], trades))
  {
    WindowIsMinute(silver, w);
    if w in Minutes(silver) {
      HighAndLow(Window(silver, w));
      SumsOfWindow(Window(silver, w));
    }
  }

  ghost predicate IsRowOf(row: VwapRow, trades: set<Trade>) {
    var volume, notional := Sum(trades, (t: Trade) => t.size), Sum(trades, (t: Trade) => t.price * t.size);
    && row.volume == volume && row.count == |trades|
    && row.vwap == (if volume == 0 then None else Some(notional as real / volume as real))
    && (exists t :: t in trades && t.price == row.high)
    && (exists t :: t in trades && t.price == row.low)
    && (forall t | t in trades :: row.low <= t.price <= row.high)
  }

  /** Over an empty gold table an incremental run takes every trade after 1900. */
  lemma EmptyGoldTakesAll(silver: set<Trade>)
    ensures GoldRun(silver, Some(map[])) == Rebuild(set t | t in silver && t.tradedAt > -2_208_988_800_000_000)
  {
    var none: map<int, VwapRow> := map[];
    assert none.Keys == {};
    assert GoldMark(none) == -2_208_988_800_000_000;
    assert After(silver, GoldMark(none)) == set t | t in silver && t.tradedAt > -2_208_988_800_000_000;
  }

  // --- When an incremental run equals the full re-aggregation ---

  ghost function Mark(seen: set<Trade>): int {
    GoldMark(Rebuild(seen))
  }

  /**
   * Every new trade is later than the start of the last window, and that window does not hold both a trade exactly at
   * its start and a later one.
   */
  ghost predicate OnTime(seen: set<Trade>, silver: set<Trade>) {
    && (forall t | t in silver - seen :: t.tradedAt > Mark(seen))
    && !(exists a, b :: a in silver && b in silver && SplitsWindow(a, b, Mark(seen)))
  }

  predicate SplitsWindow(a: Trade, b: Trade, w: int) {
    a.tradedAt == w && b.tradedAt > w && Minute(b.tradedAt) == w
  }

  lemma MarkProperties(seen: set<Trade>)
    ensures forall t | t in seen :: Minute(t.tradedAt) <= Mark(seen)
    ensures Minute(Mark(seen)) == Mark(seen)
    ensures seen != {} ==> Mark(seen) in Minutes(seen)
  {
    assert Rebuild(seen).Keys == Minutes(seen);
    forall t | t in seen
      ensures Minute(t.tradedAt) <= Mark(seen)
    {
      assert Minute(t.tradedAt) in Minutes(seen);
    }
    if seen != {} {
      assert Minute(Pick(seen).tradedAt) in Minutes(seen);
      var t :| t in seen && Minute(t.tradedAt) == Mark(seen);
      MinuteOfMinute(t.tradedAt);
    } else {
      assert Mark(seen) == EPOCH;
    }
  }

  lemma MinuteBounds(t: int)
    ensures Minute(t) <= t < Minute(t) + MINUTE
    ensures forall w | Minute(w) == w && Minute(t) < w :: t < w
  {
    forall w | Minute(w) == w && Minute(t) < w
      ensures t < w
    {
      assert (w - Minute(t)) % MINUTE == 0;
    }
  }

  /** An on-time run leaves every window right. */
  lemma OnTimeWindow(seen: set<Trade>, silver: set<Trade>, w: int)
    requires seen <= silver && OnTime(seen, silver) && w in Minutes(silver)
    ensures var later := After(silver, Mark(seen));
      if w in Minutes(later) then Window(later, w) == Window(silver, w)
      else w in Minutes(seen) && Window(seen, w) == Window(silver, w)
  {
    MarkProperties(seen);
    var mark, later := Mark(seen), After(silver, Mark(seen));
    forall t | t in Window(silver, w)
      ensures t.tradedAt > mark <==> t in later
      ensures w > mark ==> t in later
      ensures w < mark ==> t !in later
      ensures t !in later ==> t in seen
    {
      MinuteBounds(t.tradedAt);
    }
    if w in Minutes(later) {
      var b :| b in later && Minute(b.tradedAt) == w;
      assert b in Window(silver, w);
      forall a | a in Window(silver, w)
        ensures a in later
      {
        MinuteBounds(a.tradedAt);
        assert w == mark ==> !SplitsWindow(a, b, mark);
      }
    } else {
      var t :| t in silver && Minute(t.tradedAt) == w;
      assert t in Window(silver, w) && t !in later;
      forall a | a in Window(silver, w)
        ensures a in Window(seen, w)
      {
        assert a !in later;
      }
    }
  }

  lemma MinutesGrow(part: set<Trade>, whole: set<Trade>)
    requires part <= whole
    ensures Minutes(part) <= Minutes(whole)
  {
  }

  lemma OnTimeSuffices(seen: set<Trade>, silver: set<Trade>)
    requires seen <= silver && OnTime(seen, silver)
    ensures GoldRun(silver, Some(Rebuild(seen))) == Rebuild(silver)
  {
    var later := After(silver, Mark(seen));
    MinutesGrow(seen, silver);
    MinutesGrow(later, silver);
    var before, new', want := Rebuild(seen), Rebuild(later), Rebuild(silver);
    assert before.Keys == Minutes(seen) && new'.Keys == Minutes(later) && want.Keys == Minutes(silver);
    forall w | w in want.Keys
      ensures if w in new'.Keys then new'[w] == want[w] else w in before.Keys && before[w] == want[w]
    {
      OnTimeWindow(seen, silver, w);
    }
    MapUnion(before, new', want);
  }

  lemma MapUnion<K, V>(a: map<K, V>, b: map<K, V>, c: map<K, V>)
    requires a.Keys <= c.Keys && b.Keys <= c.Keys
    requires forall w | w in c.Keys :: if w in b.Keys then b[w] == c[w] else w in a.Keys && a[w] == c[w]
    ensures a + b == c
  {
    assert (a + b).Keys == c.Keys;
  }

  /** A trade missing from the window that the run wrote shows in the trade count. */
  lemma MissingTradeShows(seen: set<Trade>, silver: set<Trade>, t: Trade)
    requires seen <= silver && t in silver
    requires var later := After(silver, Mark(seen));
      t !in later && (Minute(t.tradedAt) !in Minutes(later) ==> t !in seen)
    ensures GoldRun(silver, Some(Rebuild(seen))) != Rebuild(silver)
  {
    var later, w := After(silver, Mark(seen)), Minute(t.tradedAt);
    var out := GoldRun(silver, Some(Rebuild(seen)));
    assert w in Minutes(silver) && t in Window(silver, w);
    assert Rebuild(silver)[w].count == |Window(silver, w)|;
    if w in Minutes(later) {
      Smaller(Window(later, w), Window(silver, w), t);
      assert out[w].count == |Window(later, w)|;
    } else if w in Minutes(seen) {
      Smaller(Window(seen, w), Window(silver, w), t);
      assert out[w].count == |Window(seen, w)|;
    }
  }

  /** An incremental run equals the full re-aggregation exactly when the trades are on time. */
  lemma IncrementalIffOnTime(seen: set<Trade>, silver: set<Trade>)
    requires seen <= silver
    ensures GoldRun(silver, Some(Rebuild(seen))) == Rebuild(silver) <==> OnTime(seen, silver)
  {
    if OnTime(seen, silver) {
      OnTimeSuffices(seen, silver);
    } else {
      var later := After(silver, Mark(seen));
      if t :| t in silver - seen && t.tradedAt <= Mark(seen) {
        MissingTradeShows(seen, silver, t);
      } else {
        var a, b :| a in silver && b in silver && SplitsWindow(a, b, Mark(seen));
        MinuteBounds(a.tradedAt);
        MarkProperties(seen);
        assert b in later && Minute(a.tradedAt) == Minute(b.tradedAt);
        MissingTradeShows(seen, silver, a);
      }
    }
  }

  /** Runs over a growing silver table; the first is a full build. */
  ghost predicate GoldHistory(silvers: seq<set<Trade>>, golds: seq<map<int, VwapRow>>) {
    && |golds| == |silvers| > 0
    && golds[0] == GoldRun(silvers[0], None)
    && forall i | 0 < i < |silvers| ::
         silvers[i - 1] <= silvers[i] && golds[i] == GoldRun(silvers[i], Some(golds[i - 1]))
  }

  lemma {:induction false} HistoryPrefix(silvers: seq<set<Trade>>, golds: seq<map<int, VwapRow>>, n: nat)
    requires GoldHistory(silvers, golds) && n < |silvers|
    ensures (forall i | 0 <= i <= n :: golds[i] == Rebuild(silvers[i]))
      <==> (forall i | 0 < i <= n :: OnTime(silvers[i - 1], silvers[i]))
  {
    if n > 0 {
      HistoryPrefix(silvers, golds, n - 1);
      IncrementalIffOnTime(silvers[n - 1], silvers[n]);
    }
  }

  /** Over any run history gold is always right exactly when every run was on time. */
  lemma HistoryIffOnTime(silvers: seq<set<Trade>>, golds: seq<map<int, VwapRow>>)
    requires GoldHistory(silvers, golds)
    ensures (forall i | 0 <= i < |silvers| :: golds[i] == Rebuild(silvers[i]))
      <==> (forall i | 0 < i < |silvers| :: OnTime(silvers[i - 1], silvers[i]))
  {
    HistoryPrefix(silvers, golds, |silvers| - 1);
  }

  /** A run with nothing new changes gold exactly when the last window holds a trade at its start and a later one. */
  lemma RerunKeepsIff(silver: set<Trade>)
    ensures GoldRun(silver, Some(Rebuild(silver))) == Rebuild(silver) <==>
      !(exists a, b :: a in silver && b in silver && SplitsWindow(a, b, Mark(silver)))
  {
    IncrementalIffOnTime(silver, silver);
  }

  /** Such a silver: a trade exactly on the minute and a later one. */
  lemma RerunDamagesWindow(a: Trade, b: Trade)
    requires SplitsWindow(a, b, a.tradedAt)
    ensures GoldRun({a, b}, Some(Rebuild({a, b}))) != Rebuild({a, b})
  {
    var seen := {a, b};
    MinuteOfMinute(b.tradedAt);
    assert Minute(a.tradedAt) == a.tradedAt;
    assert a in seen && Minutes(seen) == {a.tradedAt};
    MarkProperties(seen);
    RerunKeepsIff(seen);
  }

  lemma MinuteOfMinute(t: int)
    ensures Minute(Minute(t)) == Minute(t)
  {
  }

  // --- VWAP bounds ---

  /** low * volume <= notional <= high * volume */
  lemma NotionalBounds(window: set<Trade>)
    requires forall t | t in window :: t.size >= 0
    ensures MinOf(window, PriceOf, 0) * Volume(window) <= Notional(window) <= MaxOf(window, PriceOf, 0) * Volume(window)
  {
    var low, high := MinOf(window, PriceOf, 0), MaxOf(window, PriceOf, 0);
    var lows, highs := (t: Trade) => low * SizeOf(t), (t: Trade) => high * SizeOf(t);
    forall t | t in window
      ensures lows(t) <= NotionalOf(t) <= highs(t)
    {
      assert low <= PriceOf(t) <= high;
      MulMono(low, t.price, t.size);
      MulMono(t.price, high, t.size);
    }
    SumScale(window, SizeOf, lows, low);
    SumScale(window, SizeOf, highs, high);
    SumBounds(window, lows, NotionalOf);
    SumBounds(window, NotionalOf, highs);
  }

  lemma MulMono(x: int, y: int, k: int)
    requires x <= y && k >= 0
    ensures x * k <= y * k
  {
  }

  lemma QuotientBounds(low: int, num: int, high: int, den: int)
    requires den > 0 && low * den <= num <= high * den
    ensures low as real <= num as real / den as real <= high as real
  {
    assert (low * den) as real == low as real * den as real;
    assert (high * den) as real == high as real * den as real;
  }

  /** With non-negative sizes and some volume, low_price <= vwap <= high_price. */
  lemma VwapWithinBounds(window: set<Trade>)
    requires forall t | t in window :: t.size >= 0
    requires Volume(window) > 0
    ensures var row := Aggregate(window);
      && row.vwap.Some? && row.low as real <= row.vwap.value <= row.high as real
      && (exists t :: t in window && t.price == row.low) && (exists t :: t in window && t.price == row.high)
  {
    assert Volume({}) == 0;
    HighAndLow(window);
    NotionalBounds(window);
    QuotientBounds(MinOf(window, PriceOf, 0), Notional(window), MaxOf(window, PriceOf, 0), Volume(window));
  }

  /** num / den rounded half away from zero to a multiple of 1 / grid, counted in that unit. */
  function RoundedQuotient(num: int, den: int, grid: int): int
    requires den > 0 && grid > 0
  {
    if num >= 0 then (2 * num * grid + den) / (2 * den) else -((2 * -num * grid + den) / (2 * den))
  }

  /** Between the two multiples next to the quotient the nearer one is taken, and on a tie the one away from zero. */
  lemma RoundedIsNearest(num: int, den: int, grid: int)
    requires den > 0 && grid > 0
    ensures var off := RoundedQuotient(num, den, grid) * (2 * den) - 2 * num * grid;
      && -den <= off <= den
      && (off == den ==> num > 0) && (off == -den ==> num < 0)
  {
    if num >= 0 {
      NearestDivision(2 * num * grid, den);
      MulMono(0, num, 2 * grid);
      assert 2 * num * grid == num * (2 * grid);
    } else {
      NearestDivision(2 * -num * grid, den);
      MulMono(0, -num, 2 * grid);
      assert 2 * -num * grid == -num * (2 * grid) == -(2 * num * grid);
      NegMul((2 * -num * grid + den) / (2 * den), 2 * den);
    }
  }

  /** `x` is twice the numerator. */
  lemma NearestDivision(x: int, den: int)
    requires den > 0
    ensures -den < (x + den) / (2 * den) * (2 * den) - x <= den
  {
    var q, r := (x + den) / (2 * den), (x + den) % (2 * den);
    assert x + den == 2 * den * q + r;
    assert q * (2 * den) == 2 * den * q;
  }

  lemma DivBounds(low: int, x: int, high: int, d: int)
    requires d > 0 && low * d <= x < (high + 1) * d
    ensures low <= x / d <= high
  {
    var q, r := x / d, x % d;
    assert x == d * q + r;
    if q < low {
      MulMono(q + 1, low, d);
    }
    if q > high {
      MulMono(high + 1, q, d);
    }
  }

  lemma NearestBounds(low: int, x: int, high: int, den: int)
    requires den > 0 && low * den <= x <= high * den
    ensures low <= (2 * x + den) / (2 * den) <= high
  {
    assert low * (2 * den) == 2 * (low * den);
    assert (high + 1) * (2 * den) == 2 * (high * den) + 2 * den;
    DivBounds(low, 2 * x + den, high, 2 * den);
  }

  lemma MulSwap(a: int, b: int, c: int)
    ensures a * b * c == a * c * b
  {
  }

  lemma RoundedNonNegative(low: int, num: int, high: int, den: int, grid: int)
    requires den > 0 && grid > 0 && low * den <= num <= high * den && num >= 0
    ensures low * grid <= RoundedQuotient(num, den, grid) <= high * grid
  {
    MulMono(low * den, num, grid);
    MulMono(num, high * den, grid);
    MulSwap(low, den, grid);
    MulSwap(high, den, grid);
    NearestBounds(low * grid, num * grid, high * grid, den);
    assert 2 * num * grid == 2 * (num * grid);
  }

  lemma RoundedBounds(low: int, num: int, high: int, den: int, grid: int)
    requires den > 0 && grid > 0 && low * den <= num <= high * den
    ensures low * grid <= RoundedQuotient(num, den, grid) <= high * grid
  {
    if num >= 0 {
      RoundedNonNegative(low, num, high, den, grid);
    } else {
      NegMul(high, den);
      NegMul(low, den);
      RoundedNonNegative(-high, -num, -low, den, grid);
      NegMul(high, grid);
      NegMul(low, grid);
      assert RoundedQuotient(num, den, grid) == -RoundedQuotient(-num, den, grid);
    }
  }

  lemma NegMul(a: int, b: int)
    ensures -a * b == -(a * b)
  {
  }

  /** Rounding the quotient to any grid that contains the prices keeps it between low and high. */
  lemma RoundedVwapWithinBounds(window: set<Trade>, grid: int)
    requires grid > 0 && forall t | t in window :: t.size >= 0
    requires Volume(window) > 0
    ensures var row := Aggregate(window);
      && row.low * grid <= RoundedQuotient(Notional(window), row.volume, grid) <= row.high * grid
      && (exists t :: t in window && t.price == row.low) && (exists t :: t in window && t.price == row.high)
  {
    assert Volume({}) == 0;
    HighAndLow(window);
    NotionalBounds(window);
    RoundedBounds(MinOf(window, PriceOf, 0), Notional(window), MaxOf(window, PriceOf, 0), Volume(window), grid);
  }

  // --- Grouping conserves trades ---

  /** Adding up any per-trade amount window by window adds it up over all trades. */
  lemma {:induction false} WindowsPartition(trades: set<Trade>, ws: set<int>, f: Trade -> int, g: int -> int)
    requires forall w | w in ws :: g(w) == Sum(Window(trades, w), f)
    ensures Sum(ws, g) == Sum((set t | t in trades && Minute(t.tradedAt) in ws), f)
  {
    var part := set t | t in trades && Minute(t.tradedAt) in ws;
    if ws == {} {
      assert part == {};
    } else {
      var w := Pick(ws);
      var rest := set t | t in trades && Minute(t.tradedAt) in ws - {w};
      SumRemove(ws, g, w);
      WindowsPartition(trades, ws - {w}, f, g);
      assert part == Window(trades, w) + rest;
      SumUnion(Window(trades, w), rest, f);
    }
  }

  /** trade_count and total_volume over all windows sum to silver's totals. */
  lemma TotalsConserved(silver: set<Trade>)
    ensures var gold := Rebuild(silver);
      && Sum(gold.Keys, (w: int) => if w in gold then gold[w].count else 0) == |silver|
      && Sum(gold.Keys, (w: int) => if w in gold then gold[w].volume else 0) == Volume(silver)
  {
    var gold := Rebuild(silver);
    var counts := (w: int) => if w in gold then gold[w].count else 0;
    var volumes := (w: int) => if w in gold then gold[w].volume else 0;
    var one := (t: Trade) => 1;
    assert gold.Keys == Minutes(silver);
    forall w | w in gold.Keys
      ensures counts(w) == Sum(Window(silver, w), one)
    {
      SumOnes(Window(silver, w), one);
    }
    WindowsPartition(silver, gold.Keys, one, counts);
    WindowsPartition(silver, gold.Keys, SizeOf, volumes);
    SumOnes(silver, one);
    assert (set t | t in silver && Minute(t.tradedAt) in gold.Keys) == silver;
  }

  /** With positive sizes every window has volume, hence a vwap. */
  lemma EveryWindowTrades(silver: set<Trade>, w: int)
    requires w in Rebuild(silver) && forall t | t in silver :: t.size > 0
    ensures Volume(Window(silver, w)) > 0 && Rebuild(silver)[w].vwap.Some?
  {
    var t :| t in silver && Minute(t.tradedAt) == w;
    PositiveVolume(Window(silver, w), t);
  }

  /** vwap times volume is the money traded in the window. */
  lemma VwapTimesVolume(window: set<Trade>)
    requires Volume(window) != 0
    ensures var row := Aggregate(window);
      row.vwap.Some? && row.vwap.value * row.volume as real == Notional(window) as real
  {
    var n, d := Notional(window) as real, Volume(window) as real;
    var vwap := n / d;
    assert vwap * d == n by {
      QuotientTimes(n, d);
    }
    assert Aggregate(window).vwap == Some(vwap);
  }

  /** vwap * volume */
  ghost function Money(window: set<Trade>): real
    requires Volume(window) != 0
  {
    Aggregate(window).vwap.value * Aggregate(window).volume as real
  }

  lemma MoneyIsNotional(window: set<Trade>)
    requires Volume(window) != 0
    ensures Money(window) == Notional(window) as real
  {
    VwapTimesVolume(window);
  }

  /** The vwap of trades in two parts is the volume-weighted mean of the vwaps of the parts. */
  lemma VwapCombines(a: set<Trade>, b: set<Trade>)
    requires a !! b && Volume(a) != 0 && Volume(b) != 0 && Volume(a + b) != 0
    ensures Volume(a + b) == Volume(a) + Volume(b) && Money(a + b) == Money(a) + Money(b)
  {
    SumUnion(a, b, SizeOf);
    SumUnion(a, b, NotionalOf);
    MoneyIsNotional(a);
    MoneyIsNotional(b);
    MoneyIsNotional(a + b);
  }

  lemma QuotientTimes(n: real, d: real)
    requires d != 0.0
    ensures n / d * d == n
  {
  }

  /** The money traded, added up over the windows, is all the money traded. */
  lemma NotionalConserved(silver: set<Trade>)
    ensures Sum(Minutes(silver), (w: int) => Notional(Window(silver, w))) == Notional(silver)
  {
    var money := (w: int) => Notional(Window(silver, w));
    WindowsPartition(silver, Minutes(silver), NotionalOf, money);
    assert (set t | t in silver && Minute(t.tradedAt) in Minutes(silver)) == silver;
  }

  lemma PositiveVolume(window: set<Trade>, t: Trade)
    requires t in window && forall u | u in window :: u.size > 0
    ensures Volume(window) > 0
  {
    var zero := (u: Trade) => 0;
    SumRemove(window, SizeOf, t);
    SumScale(window - {t}, SizeOf, zero, 0);
    SumBounds(window - {t}, zero, SizeOf);
  }

  // --- gold_trade_stats_1min ---

  datatype StatsRow = StatsRow(buyCount: nat, sellCount: nat, buyVolumePct: Option<real>)

  function OfSide(trades: set<Trade>, side: string): set<Trade> {
    set t | t in trades && t.side == side
  }

  function BuySizeOf(t: Trade): int {
    if t.side == "buy" then t.size else 0
  }

  ghost function StatsOf(window: set<Trade>): StatsRow {
    var volume := Volume(window);
    StatsRow(|OfSide(window, "buy")|, |OfSide(window, "sell")|,
             if volume == 0 then None else Some(Sum(window, BuySizeOf) as real * 100.0 / volume as real))
  }

  ghost function StatsTable(silver: set<Trade>): map<int, StatsRow> {
    map w | w in Minutes(silver) :: StatsOf(Window(silver, w))
  }

  /**
   * The statistics have a row for exactly the minutes with trades: it counts the trades whose side reads buy or sell,
   * and the percentage is the size of the buys among them times 100 over the size of all.
   */
  lemma RowsOfStats(silver: set<Trade>, w: int)
    ensures var trades := MinuteOf(silver, w);
      && (w in StatsTable(silver) <==> w % 60_000_000 == 0 && trades != {})
      && (w in StatsTable(silver) ==>
            var row, volume := StatsTable(silver)[w], Sum(trades, (t: Trade) => t.size);
            var bought := Sum((set t | t in trades && t.side == "buy"), (t: Trade) => t.size);
            && row.buyCount == |set t | t in trades && t.side == "buy"|
            && row.sellCount == |set t | t in trades && t.side == "sell"|
            && row.buyVolumePct == if volume == 0 then None else Some(bought as real * 100.0 / volume as real))
  {
    WindowIsMinute(silver, w);
    if w in Minutes(silver) {
      var trades := Window(silver, w);
      var buys := set t | t in trades && t.side == "buy";
      assert OfSide(trades, "buy") == buys;
      assert OfSide(trades, "sell") == set t | t in trades && t.side == "sell";
      SumsOfWindow(trades);
      SumsOfWindow(buys);
      BuyVolume(trades);
    }
  }

  /** Both gold tables have the same windows, and buys and sells make up the trade count. */
  lemma StatsAgreeWithVwap(silver: set<Trade>)
    requires forall t | t in silver :: t.side == "buy" || t.side == "sell"
    ensures StatsTable(silver).Keys == Rebuild(silver).Keys
    ensures forall w | w in Rebuild(silver) ::
      StatsTable(silver)[w].buyCount + StatsTable(silver)[w].sellCount == Rebuild(silver)[w].count
  {
    forall w | w in Rebuild(silver)
      ensures StatsTable(silver)[w].buyCount + StatsTable(silver)[w].sellCount == Rebuild(silver)[w].count
    {
      var window := Window(silver, w);
      assert window == OfSide(window, "buy") + OfSide(window, "sell");
    }
  }

  /** The buy volume is the volume of the buys. */
  lemma BuyVolume(window: set<Trade>)
    ensures Sum(window, BuySizeOf) == Volume(OfSide(window, "buy"))
  {
    var buys := OfSide(window, "buy");
    var others := window - buys;
    assert window == buys + others;
    SumUnion(buys, others, BuySizeOf);
    SumScale(buys, SizeOf, BuySizeOf, 1);
    SumScale(others, SizeOf, BuySizeOf, 0);
  }

  lemma PercentBounds(part: int, whole: int)
    requires 0 <= part <= whole && whole > 0
    ensures 0.0 <= part as real * 100.0 / whole as real <= 100.0
  {
    QuotientBounds(0, part * 100, 100, whole);
    assert part as real * 100.0 == (part * 100) as real;
  }

  lemma BuysAtMostVolume(window: set<Trade>)
    requires forall t | t in window :: t.size >= 0
    ensures 0 <= Sum(window, BuySizeOf) <= Volume(window)
  {
    var zero := (t: Trade) => 0;
    SumScale(window, SizeOf, zero, 0);
    SumBounds(window, zero, BuySizeOf);
    SumBounds(window, BuySizeOf, SizeOf);
  }

  /** The percentage is defined exactly when there is volume, and lies in [0, 100]. */
  lemma BuyPctInRange(window: set<Trade>)
    requires forall t | t in window :: t.size >= 0
    ensures var pct := StatsOf(window).buyVolumePct;
      && (pct.Some? <==> Volume(window) != 0)
      && (pct.Some? ==> 0.0 <= pct.value <= 100.0)
  {
    BuysAtMostVolume(window);
    var buys, volume := Sum(window, BuySizeOf), Volume(window);
    if volume != 0 {
      PercentBounds(buys, volume);
    }
  }

  /** The percentage of the volume is the volume of the buys. */
  lemma BuyPctTimesVolume(window: set<Trade>)
    requires Volume(window) != 0
    ensures var pct := StatsOf(window).buyVolumePct;
      pct.Some? && pct.value * Volume(window) as real == Volume(OfSide(window, "buy")) as real * 100.0
  {
    BuyVolume(window);
    var n, d := Sum(window, BuySizeOf) as real * 100.0, Volume(window) as real;
    var pct := n / d;
    assert pct * d == n by {
      QuotientTimes(n, d);
    }
    assert StatsOf(window).buyVolumePct == Some(pct);
  }

  lemma EmptySide(window: set<Trade>)
    requires forall t | t in window :: t.side == "buy" || t.side == "sell"
    ensures |OfSide(window, "buy")| == 0 ==> Volume(OfSide(window, "buy")) == 0
    ensures |OfSide(window, "sell")| == 0 ==> OfSide(window, "buy") == window
  {
    if |OfSide(window, "buy")| == 0 {
      assert OfSide(window, "buy") == {};
    }
    if |OfSide(window, "sell")| == 0 {
      assert OfSide(window, "sell") == {};
      forall t | t in window
        ensures t.side == "buy"
      {
        assert t !in OfSide(window, "sell");
      }
    }
  }

  lemma PercentEnds(pct: real, part: real, whole: real)
    requires whole != 0.0 && pct * whole == part * 100.0
    ensures part == 0.0 ==> pct == 0.0
    ensures part == whole ==> pct == 100.0
  {
    if part == whole {
      assert (pct - 100.0) * whole == 0.0;
    }
  }

  /** Counts and percentage agree: without buys it is 0, without sells 100. */
  lemma CountsBoundPct(window: set<Trade>)
    requires forall t | t in window :: t.side == "buy" || t.side == "sell"
    requires Volume(window) != 0
    ensures var row := StatsOf(window);
      && row.buyVolumePct.Some?
      && (row.buyCount == 0 ==> row.buyVolumePct.value == 0.0)
      && (row.sellCount == 0 ==> row.buyVolumePct.value == 100.0)
  {
    BuyPctTimesVolume(window);
    EmptySide(window);
    var pct := StatsOf(window).buyVolumePct.value;
    PercentEnds(pct, Volume(OfSide(window, "buy")) as real, Volume(window) as real);
  }
}
