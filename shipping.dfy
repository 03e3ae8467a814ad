/** The shipping-performance pipeline of `run_shipping_analysis.py`: date
    normalisation, the delay column, per-ship-mode statistics, the anomaly
    threshold and flag, and the guarded rank correlation. Library numerics
    (square root, Spearman's coefficient and p-value) and date parsing are
    supplied by the caller as a `Library` value. */
module Shipping {
  import opened Options
  import Statistics
  import DateParsing

  /** Timestamps are seconds; `.dt.days` floors a difference to days. */
  const SECONDS_PER_DAY: int := 86400
  /** Delays above this many days are the long tail (`> 7`). */
  const LONG_TAIL_DAYS: int := 7
  /** The spread multiplier and fallback margin of the threshold ladder. */
  const STD_MULTIPLIER: real := 3.0
  const FALLBACK_DAYS: real := 30.0

  /** One input row, as read: raw order and ship date texts, the sales
      value (NaN when missing) and the ship mode. */
  datatype Order = Order(orderDate: string, shipDate: string, sales: Option<real>, shipMode: string)

  /** A row with the columns `main` adds: the parsed dates, their invalid
      flags and the shipping delay in days. */
  datatype Record = Record(
    order: Order,
    orderParsed: Option<int>,
    shipParsed: Option<int>,
    orderInvalid: bool,
    shipInvalid: bool,
    delay: Option<int>)

  /** The library routines the script calls. */
  datatype Library = Library(
    toDatetime: DateParsing.BulkParser,
    parseDate: DateParsing.EntryParser,
    sqrt: real -> real,
    spearman: (seq<real>, seq<int>) -> (real, real))

  ghost predicate ValidLibrary(lib: Library) {
    DateParsing.PreservesLength(lib.toDatetime)
  }

  // ---------------------------------------------------------------- delay

  /** `(ship - order).dt.days`: NaN when either date is NaT, otherwise the
      difference floored to whole days (negative when shipped before the
      order date). */
  function DelayDays(orderTs: Option<int>, shipTs: Option<int>): (d: Option<int>)
    ensures d.Some? <==> orderTs.Some? && shipTs.Some?
    ensures d.Some? ==>
      d.value * SECONDS_PER_DAY <= shipTs.value - orderTs.value < (d.value + 1) * SECONDS_PER_DAY
  {
    if orderTs.Some? && shipTs.Some? then Some((shipTs.value - orderTs.value) / SECONDS_PER_DAY) else None
  }

  /** On dates at midnight the delay is the exact difference of day numbers. */
  lemma WholeDayDelay(orderDay: int, shipDay: int)
    ensures DelayDays(Some(orderDay * SECONDS_PER_DAY), Some(shipDay * SECONDS_PER_DAY)) == Some(shipDay - orderDay)
  {
    var d := (shipDay * SECONDS_PER_DAY - orderDay * SECONDS_PER_DAY) / SECONDS_PER_DAY;
    assert shipDay * SECONDS_PER_DAY - orderDay * SECONDS_PER_DAY == (shipDay - orderDay) * SECONDS_PER_DAY;
  }

  /** A delay is negative exactly when the ship date precedes the order date. */
  lemma NegativeDelay(orderTs: int, shipTs: int)
    ensures DelayDays(Some(orderTs), Some(shipTs)).value < 0 <==> shipTs < orderTs
  {
  }

  // ------------------------------------------------------------- columns

  function OrderDates(orders: seq<Order>): (c: seq<string>)
    ensures |c| == |orders|
  {
    seq(|orders|, i requires 0 <= i < |orders| => orders[i].orderDate)
  }

  function ShipDates(orders: seq<Order>): (c: seq<string>)
    ensures |c| == |orders|
  {
    seq(|orders|, i requires 0 <= i < |orders| => orders[i].shipDate)
  }

  /** Lines 41-45: the parsed dates become columns, the invalid flags are
      their `isna()`, the delay their difference. */
  function Normalize(orders: seq<Order>, orderParsed: seq<Option<int>>, shipParsed: seq<Option<int>>): (rs: seq<Record>)
    requires |orderParsed| == |orders| && |shipParsed| == |orders|
    ensures |rs| == |orders|
    ensures forall i :: 0 <= i < |rs| ==>
      && rs[i].order == orders[i]
      && rs[i].orderParsed == orderParsed[i] && rs[i].shipParsed == shipParsed[i]
      && (rs[i].orderInvalid <==> orderParsed[i].None?)
      && (rs[i].shipInvalid <==> shipParsed[i].None?)
      && (rs[i].delay.Some? <==> orderParsed[i].Some? && shipParsed[i].Some?)
  {
    seq(|orders|, i requires 0 <= i < |orders| =>
      Record(orders[i], orderParsed[i], shipParsed[i], orderParsed[i].None?, shipParsed[i].None?,
             DelayDays(orderParsed[i], shipParsed[i])))
  }

  /** The frame after line 45. */
  function Records(orders: seq<Order>, lib: Library): (rs: seq<Record>)
    requires ValidLibrary(lib)
    ensures |rs| == |orders|
  {
    var orderDates, shipDates := OrderDates(orders), ShipDates(orders);
    assert |lib.toDatetime(orderDates)| == |orderDates|;
    assert |lib.toDatetime(shipDates)| == |shipDates|;
    Normalize(orders,
      DateParsing.ParseDates(orderDates, lib.toDatetime, lib.parseDate),
      DateParsing.ParseDates(shipDates, lib.toDatetime, lib.parseDate))
  }

  /** Per row: a date is the bulk parse when that succeeded and the retry
      of the raw text otherwise; an invalid flag is set exactly when that
      date is NaT, which happens exactly when both the bulk parse and the
      retry failed; the delay is present exactly when both dates are. */
  lemma RecordFacts(orders: seq<Order>, lib: Library, i: nat)
    requires ValidLibrary(lib) && i < |orders|
    ensures var r := Records(orders, lib)[i];
      && |lib.toDatetime(OrderDates(orders))| == |orders|
      && |lib.toDatetime(ShipDates(orders))| == |orders|
      && r.order == orders[i]
      && (r.orderInvalid <==> r.orderParsed.None?)
      && (r.shipInvalid <==> r.shipParsed.None?)
      && (r.orderParsed.None? <==>
            lib.toDatetime(OrderDates(orders))[i].None? && lib.parseDate(orders[i].orderDate).None?)
      && (r.shipParsed.None? <==>
            lib.toDatetime(ShipDates(orders))[i].None? && lib.parseDate(orders[i].shipDate).None?)
      && (lib.toDatetime(OrderDates(orders))[i].Some? ==> r.orderParsed == lib.toDatetime(OrderDates(orders))[i])
      && (lib.toDatetime(ShipDates(orders))[i].Some? ==> r.shipParsed == lib.toDatetime(ShipDates(orders))[i])
      && (lib.toDatetime(OrderDates(orders))[i].None? ==> r.orderParsed == lib.parseDate(orders[i].orderDate))
      && (lib.toDatetime(ShipDates(orders))[i].None? ==> r.shipParsed == lib.parseDate(orders[i].shipDate))
      && (r.delay.Some? <==> r.orderParsed.Some? && r.shipParsed.Some?)
      && (r.delay.Some? ==> r.delay == DelayDays(r.orderParsed, r.shipParsed))
  {
    assert |lib.toDatetime(OrderDates(orders))| == |OrderDates(orders)|;
    assert |lib.toDatetime(ShipDates(orders))| == |ShipDates(orders)|;
  }

  // ------------------------------------------------------------ counting

  /** `mask.sum()`: the number of elements satisfying `p`. */
  function CountWhere<T>(s: seq<T>, p: T -> bool): (n: nat)
    ensures n <= |s|
  {
    if s == [] then 0 else CountWhere(s[..|s| - 1], p) + (if p(s[|s| - 1]) then 1 else 0)
  }

  /** A weaker predicate counts at least as many elements. */
  lemma {:induction false} CountWhereMonotone<T>(s: seq<T>, p: T -> bool, q: T -> bool)
    requires forall x :: p(x) ==> q(x)
    ensures CountWhere(s, p) <= CountWhere(s, q)
  {
    if s != [] {
      CountWhereMonotone(s[..|s| - 1], p, q);
    }
  }

  /** The count is positive exactly when some element satisfies `p`. */
  lemma {:induction false} CountWherePositive<T>(s: seq<T>, p: T -> bool)
    ensures CountWhere(s, p) > 0 <==> exists i :: 0 <= i < |s| && p(s[i])
  {
    if s != [] {
      var init := s[..|s| - 1];
      CountWherePositive(init, p);
      if exists i :: 0 <= i < |init| && p(init[i]) {
        var i :| 0 <= i < |init| && p(init[i]);
        assert s[i] == init[i];
      }
      if exists i :: 0 <= i < |s| && p(s[i]) {
        var i :| 0 <= i < |s| && p(s[i]);
        if i < |init| {
          assert init[i] == s[i];
        }
      }
    }
  }

  /** Predicates that agree on every element count the same. */
  lemma {:induction false} CountWhereAgree<T>(s: seq<T>, p: T -> bool, q: T -> bool)
    requires forall i :: 0 <= i < |s| ==> p(s[i]) == q(s[i])
    ensures CountWhere(s, p) == CountWhere(s, q)
  {
    if s != [] {
      var init := s[..|s| - 1];
      assert forall i :: 0 <= i < |init| ==> init[i] == s[i];
      CountWhereAgree(init, p, q);
    }
  }

  /** The present delays of the rows satisfying `p`, in row order (the
      non-null values of the delay column of that selection). */
  function DelaysWhere(rs: seq<Record>, p: Record -> bool): (ds: seq<int>)
    ensures |ds| <= |rs|
  {
    if rs == [] then []
    else
      var last := rs[|rs| - 1];
      DelaysWhere(rs[..|rs| - 1], p) + if p(last) && last.delay.Some? then [last.delay.value] else []
  }

  /** There are as many values as rows satisfying `p` with a present delay. */
  lemma {:induction false} DelaysWhereCount(rs: seq<Record>, p: Record -> bool, q: Record -> bool)
    requires forall r :: q(r) == (p(r) && r.delay.Some?)
    ensures |DelaysWhere(rs, p)| == CountWhere(rs, q)
  {
    if rs != [] {
      DelaysWhereCount(rs[..|rs| - 1], p, q);
    }
  }

  /** The rows satisfying `p` whose delay is `v`. */
  function WithDelay(p: Record -> bool, v: int): Record -> bool {
    (r: Record) => p(r) && r.delay == Some(v)
  }

  /** Each value occurs among the collected delays exactly as often as
      there are selected rows with that delay. */
  lemma {:induction false} DelaysWhereMultiset(rs: seq<Record>, p: Record -> bool, v: int)
    ensures multiset(DelaysWhere(rs, p))[v] == CountWhere(rs, WithDelay(p, v))
  {
    if rs != [] {
      DelaysWhereMultiset(rs[..|rs| - 1], p, v);
    }
  }

  /** A value is among the collected delays exactly when some selected row
      has it as its delay. */
  lemma DelaysWhereMembers(rs: seq<Record>, p: Record -> bool, v: int)
    ensures v in DelaysWhere(rs, p) <==> exists i :: 0 <= i < |rs| && p(rs[i]) && rs[i].delay == Some(v)
  {
    DelaysWhereMultiset(rs, p, v);
    CountWherePositive(rs, WithDelay(p, v));
    assert v in DelaysWhere(rs, p) <==> v in multiset(DelaysWhere(rs, p));
    if exists i :: 0 <= i < |rs| && p(rs[i]) && rs[i].delay == Some(v) {
      var i :| 0 <= i < |rs| && p(rs[i]) && rs[i].delay == Some(v);
      assert WithDelay(p, v)(rs[i]);
    }
  }

  predicate AnyRow(r: Record) {
    true
  }

  predicate HasDelay(r: Record) {
    r.delay.Some?
  }

  predicate NegativeDelayRow(r: Record) {
    r.delay.Some? && r.delay.value < 0
  }

  /** All non-null delays: the sample behind `describe`, `median` and `std`. */
  function Delays(rs: seq<Record>): seq<int> {
    DelaysWhere(rs, AnyRow)
  }

  // --------------------------------------------------- ship-mode groups

  /** The ship modes of the rows satisfying `p`, each once, in order of
      first appearance. */
  function ModesWhere(rs: seq<Record>, p: Record -> bool): (ms: seq<string>)
    ensures forall i, j :: 0 <= i < j < |ms| ==> ms[i] != ms[j]
    ensures forall m :: m in ms <==> exists i :: 0 <= i < |rs| && p(rs[i]) && rs[i].order.shipMode == m
  {
    if rs == [] then []
    else
      var init := rs[..|rs| - 1];
      var last := rs[|rs| - 1];
      var pre := ModesWhere(init, p);
      assert forall i :: 0 <= i < |init| ==> init[i] == rs[i];
      if p(last) && last.order.shipMode !in pre then pre + [last.order.shipMode] else pre
  }

  /** The ship modes of the rows with a present delay (the groups of
      `valid.groupby('Ship Mode')`), each once, in order of first appearance. */
  function Modes(rs: seq<Record>): (ms: seq<string>)
    ensures forall i, j :: 0 <= i < j < |ms| ==> ms[i] != ms[j]
    ensures forall m :: m in ms <==> exists i :: 0 <= i < |rs| && rs[i].delay.Some? && rs[i].order.shipMode == m
  {
    ModesWhere(rs, HasDelay)
  }

  /** The ship modes of all rows (the groups of `df.groupby('Ship Mode')`),
      each once, in order of first appearance. */
  function AllModes(rs: seq<Record>): (ms: seq<string>)
    ensures forall i, j :: 0 <= i < j < |ms| ==> ms[i] != ms[j]
    ensures forall m :: m in ms <==> exists i :: 0 <= i < |rs| && rs[i].order.shipMode == m
  {
    ModesWhere(rs, AnyRow)
  }

  /** The index of `ship_stats`. It comes from the groups of the present-delay
      rows; when there are none, that frame is empty and assigning the
      `neg_rate` series on line 69 gives it the series' index instead, one
      entry per ship mode of all rows. */
  function StatsIndex(rs: seq<Record>): (ms: seq<string>)
    ensures forall i, j :: 0 <= i < j < |ms| ==> ms[i] != ms[j]
    ensures Modes(rs) != [] ==> ms == Modes(rs)
    ensures Modes(rs) == [] ==> forall m :: m in ms <==> exists i :: 0 <= i < |rs| && rs[i].order.shipMode == m
  {
    if Modes(rs) != [] then Modes(rs) else AllModes(rs)
  }

  /** Row selections of one group, as the lambdas of lines 69-70 see them. */
  function InMode(mode: string): Record -> bool {
    (r: Record) => r.order.shipMode == mode
  }

  function PresentInMode(mode: string): Record -> bool {
    (r: Record) => r.order.shipMode == mode && r.delay.Some?
  }

  function NegativeInMode(mode: string): Record -> bool {
    (r: Record) => r.order.shipMode == mode && r.delay.Some? && r.delay.value < 0
  }

  function LongTailInMode(mode: string): Record -> bool {
    (r: Record) => r.order.shipMode == mode && r.delay.Some? && r.delay.value > LONG_TAIL_DAYS
  }

  /** The delays of one group. */
  function GroupDelays(rs: seq<Record>, mode: string): seq<int> {
    DelaysWhere(rs, InMode(mode))
  }

  /** `(g[delay] < 0).sum() / max(g.shape[0], 1)` and the same with `> 7`:
      the denominator is every row of the mode, null delays included. */
  function Rate(hits: nat, size: nat): (r: real)
    ensures hits <= size ==> 0.0 <= r <= 1.0
    ensures hits == 0 ==> r == 0.0
    ensures 0 < size ==> r * size as real == hits as real
    ensures size == 0 ==> r == hits as real
  {
    var denominator := (if size > 1 then size else 1) as real;
    assert hits <= size ==> 0.0 <= hits as real / denominator <= 1.0 by {
      if hits <= size {
        Statistics.DivBounds(hits as real, 0.0, 1.0, denominator);
      }
    }
    hits as real / denominator
  }

  /** One row of `ship_stats`. */
  datatype ModeStats = ModeStats(mode: string, stats: Statistics.Summary, negRate: real, longRate: real)

  function ModeSize(rs: seq<Record>, mode: string): nat {
    CountWhere(rs, InMode(mode))
  }

  function NegativeCount(rs: seq<Record>, mode: string): nat {
    CountWhere(rs, NegativeInMode(mode))
  }

  function LongTailCount(rs: seq<Record>, mode: string): nat {
    CountWhere(rs, LongTailInMode(mode))
  }

  /** One group's row of `ship_stats`: its delay statistics over the rows
      with a present delay, and its two rates over all of its rows. */
  function StatsFor(rs: seq<Record>, mode: string, sqrt: real -> real): (g: ModeStats)
    ensures g.mode == mode
    ensures g.stats == Statistics.Describe(GroupDelays(rs, mode), sqrt)
    ensures g.stats.count == CountWhere(rs, PresentInMode(mode))
    ensures g.negRate == Rate(NegativeCount(rs, mode), ModeSize(rs, mode))
    ensures g.longRate == Rate(LongTailCount(rs, mode), ModeSize(rs, mode))
    ensures 0.0 <= g.negRate <= 1.0 && 0.0 <= g.longRate <= 1.0
  {
    DelaysWhereCount(rs, InMode(mode), PresentInMode(mode));
    CountWhereMonotone(rs, NegativeInMode(mode), InMode(mode));
    CountWhereMonotone(rs, LongTailInMode(mode), InMode(mode));
    ModeStats(
      mode,
      Statistics.Describe(GroupDelays(rs, mode), sqrt),
      Rate(NegativeCount(rs, mode), ModeSize(rs, mode)),
      Rate(LongTailCount(rs, mode), ModeSize(rs, mode)))
  }

  /** `ship_stats`, one row per entry of its index (before the report sorts
      it). */
  function ShipStats(rs: seq<Record>, sqrt: real -> real): (gs: seq<ModeStats>)
    ensures |gs| == |StatsIndex(rs)|
    ensures forall i :: 0 <= i < |gs| ==> gs[i] == StatsFor(rs, StatsIndex(rs)[i], sqrt)
  {
    var ms := StatsIndex(rs);
    seq(|ms|, i requires 0 <= i < |ms| => StatsFor(rs, ms[i], sqrt))
  }

  /** A mode none of whose rows has a delay gets no statistics (its median
      and IQR print as `nan`) and rates of 0. */
  lemma EmptyGroupStats(rs: seq<Record>, mode: string, sqrt: real -> real)
    requires mode !in Modes(rs)
    ensures var g := StatsFor(rs, mode, sqrt);
      && g.stats.count == 0
      && g.stats.median.None? && g.stats.Iqr().None?
      && g.negRate == 0.0 && g.longRate == 0.0
  {
    assert forall i :: 0 <= i < |rs| ==> !PresentInMode(mode)(rs[i]);
    CountWherePositive(rs, PresentInMode(mode));
    CountWhereMonotone(rs, NegativeInMode(mode), PresentInMode(mode));
    CountWhereMonotone(rs, LongTailInMode(mode), PresentInMode(mode));
    DelaysWhereCount(rs, InMode(mode), PresentInMode(mode));
  }

  /** When no row has a delay, `ship_stats` has one row per ship mode of the
      data, in order of first appearance, each without statistics and with
      both rates 0. */
  lemma NoDelayModeRows(rs: seq<Record>, sqrt: real -> real)
    requires Modes(rs) == []
    ensures var gs := ShipStats(rs, sqrt);
      && |gs| == |AllModes(rs)|
      && forall k :: 0 <= k < |gs| ==>
           && gs[k].mode == AllModes(rs)[k]
           && gs[k].stats.count == 0
           && gs[k].stats.median.None? && gs[k].stats.Iqr().None?
           && gs[k].negRate == 0.0 && gs[k].longRate == 0.0
  {
    var ms := AllModes(rs);
    forall k | 0 <= k < |ms| {
      EmptyGroupStats(rs, ms[k], sqrt);
    }
  }

  /** What holds of every group: its count is its number of present-delay
      rows and is positive, and so `min <= median <= max`, `IQR >= 0`, and
      both rates lie in [0, 1]. */
  lemma GroupFacts(rs: seq<Record>, mode: string, sqrt: real -> real)
    requires mode in Modes(rs)
    ensures var g := StatsFor(rs, mode, sqrt);
      && g.stats.count == CountWhere(rs, PresentInMode(mode))
      && g.stats.count > 0
      && g.negRate == Rate(NegativeCount(rs, mode), ModeSize(rs, mode))
      && g.longRate == Rate(LongTailCount(rs, mode), ModeSize(rs, mode))
      && g.stats.median.Some? && g.stats.min.Some? && g.stats.max.Some? && g.stats.Iqr().Some?
      && Statistics.IsMinimum(GroupDelays(rs, mode), g.stats.min.value)
      && Statistics.IsMaximum(GroupDelays(rs, mode), g.stats.max.value)
      && g.stats.min.value <= g.stats.median.value <= g.stats.max.value
      && g.stats.Iqr().value >= 0.0
      && 0.0 <= g.negRate <= 1.0
      && 0.0 <= g.longRate <= 1.0
  {
    CountWherePositive(rs, PresentInMode(mode));
    var i :| 0 <= i < |rs| && rs[i].delay.Some? && rs[i].order.shipMode == mode;
    assert PresentInMode(mode)(rs[i]);
  }

  // ------------------------------------------------------------ anomalies

  /** Lines 73-75: `median + 3 * std` when the deviation is defined, else
      `median + 30` when the median is, else `30`. */
  function ThresholdLadder(median: Option<real>, std: Option<real>): (t: real)
    requires std.Some? ==> median.Some?
    ensures std.Some? ==> t - median.value == STD_MULTIPLIER * std.value
    ensures std.None? && median.Some? ==> t - median.value == FALLBACK_DAYS
    ensures median.None? ==> t == FALLBACK_DAYS
    ensures median.Some? && (std.Some? ==> std.value >= 0.0) ==> t >= median.value
  {
    if std.Some? then median.value + STD_MULTIPLIER * std.value
    else if median.Some? then median.value + FALLBACK_DAYS
    else FALLBACK_DAYS
  }

  /** The threshold of the non-null delay sample, by sample size: no data
      gives 30, a single value `v` gives `v + 30`, two or more values give
      `median + 3 * std`. */
  function Threshold(delays: seq<int>, sqrt: real -> real): (t: real)
    ensures |delays| == 0 ==> t == 30.0
    ensures |delays| == 1 ==> t == delays[0] as real + 30.0
    ensures |delays| >= 2 ==>
      t == Statistics.Describe(delays, sqrt).median.value + 3.0 * sqrt(Statistics.SampleVariance(delays))
  {
    var d := Statistics.Describe(delays, sqrt);
    if |delays| == 1 then
      assert delays == [delays[0]];
      Statistics.DescribeSingle(delays[0], sqrt);
      ThresholdLadder(d.median, d.std)
    else
      ThresholdLadder(d.median, d.std)
  }

  /** Line 76: a row is suspicious when its delay is negative or above the
      threshold; a NaN delay compares false both ways and is never flagged. */
  predicate Flagged(r: Record, threshold: real): (b: bool)
    ensures b ==> r.delay.Some?
    ensures r.delay.Some? && r.delay.value < 0 ==> b
    ensures r.delay.Some? && r.delay.value >= 0 ==> (b <==> r.delay.value as real > threshold)
  {
    r.delay.Some? && (r.delay.value < 0 || r.delay.value as real > threshold)
  }

  function FlaggedAt(threshold: real): Record -> bool {
    (r: Record) => Flagged(r, threshold)
  }

  /** `len(suspicious)`. */
  function SuspiciousCount(rs: seq<Record>, threshold: real): (n: nat)
    ensures n <= |rs|
    ensures n > 0 <==> exists i :: 0 <= i < |rs| && Flagged(rs[i], threshold)
  {
    CountWherePositive(rs, FlaggedAt(threshold));
    CountWhere(rs, FlaggedAt(threshold))
  }

  /** Raising the threshold never flags more rows. */
  lemma SuspiciousMonotone(rs: seq<Record>, t1: real, t2: real)
    requires t1 <= t2
    ensures SuspiciousCount(rs, t2) <= SuspiciousCount(rs, t1)
  {
    CountWhereMonotone(rs, FlaggedAt(t2), FlaggedAt(t1));
  }

  /** Whatever the threshold, every negative delay is flagged and every
      flagged row has a delay. */
  lemma SuspiciousBounds(rs: seq<Record>, threshold: real)
    ensures CountWhere(rs, NegativeDelayRow) <= SuspiciousCount(rs, threshold)
    ensures SuspiciousCount(rs, threshold) <= CountWhere(rs, HasDelay)
  {
    CountWhereMonotone(rs, NegativeDelayRow, FlaggedAt(threshold));
    CountWhereMonotone(rs, FlaggedAt(threshold), HasDelay);
  }

  // ---------------------------------------------------------- correlation

  predicate HasPair(r: Record) {
    r.delay.Some? && r.order.sales.Some?
  }

  /** The rows selected by `mask` on line 79, in row order. */
  function PairRows(rs: seq<Record>): (ps: seq<Record>)
    ensures |ps| == CountWhere(rs, HasPair)
    ensures forall i :: 0 <= i < |ps| ==> HasPair(ps[i])
  {
    if rs == [] then []
    else
      var last := rs[|rs| - 1];
      PairRows(rs[..|rs| - 1]) + if HasPair(last) then [last] else []
  }

  /** The selection keeps row order: one more row adds itself at the end
      exactly when it has both values. */
  lemma PairRowsAppend(rs: seq<Record>, r: Record)
    ensures PairRows(rs + [r]) == PairRows(rs) + if HasPair(r) then [r] else []
  {
    assert (rs + [r])[..|rs|] == rs;
  }

  /** Spearman's coefficient and its p-value, or `(None, None)`. */
  datatype Correlation = Correlation(coefficient: Option<real>, pValue: Option<real>)

  /** Lines 79-83: the rank correlation is only asked for when at least one
      row has both a delay and a sales value. */
  function Correlate(rs: seq<Record>, spearman: (seq<real>, seq<int>) -> (real, real)): (c: Correlation)
    ensures c.coefficient.Some? <==> c.pValue.Some?
    ensures c.coefficient.Some? <==> exists i :: 0 <= i < |rs| && HasPair(rs[i])
    ensures c.coefficient.Some? ==>
      var ps := PairRows(rs);
      spearman(seq(|ps|, i requires 0 <= i < |ps| => ps[i].order.sales.value),
               seq(|ps|, i requires 0 <= i < |ps| => ps[i].delay.value))
        == (c.coefficient.value, c.pValue.value)
  {
    var ps := PairRows(rs);
    CountWherePositive(rs, HasPair);
    if |ps| > 0 then
      var sales := seq(|ps|, i requires 0 <= i < |ps| => ps[i].order.sales.value);
      var delays := seq(|ps|, i requires 0 <= i < |ps| => ps[i].delay.value);
      var (corr, pval) := spearman(sales, delays);
      Correlation(Some(corr), Some(pval))
    else
      Correlation(None, None)
  }

  // ------------------------------------------------------------- charts

  /** `clip(lower=-5, upper=30)` applied to the histogram input. */
  function ClipDelay(d: int): (c: int)
    ensures -5 <= c <= 30
    ensures -5 <= d <= 30 ==> c == d
    ensures d < -5 ==> c == -5
    ensures d > 30 ==> c == 30
  {
    if d < -5 then -5 else if d > 30 then 30 else d
  }

  // ---------------------------------------------------------- the run

  /** Everything the summary reports. */
  datatype Analysis = Analysis(
    total: nat,
    orderInvalid: nat,
    shipInvalid: nat,
    overall: Statistics.Summary,
    modes: seq<ModeStats>,
    threshold: real,
    suspicious: nat,
    correlation: Correlation)

  predicate OrderInvalidRow(r: Record) {
    r.orderInvalid
  }

  predicate ShipInvalidRow(r: Record) {
    r.shipInvalid
  }

  predicate OrderNotParsed(r: Record) {
    r.orderParsed.None?
  }

  predicate ShipNotParsed(r: Record) {
    r.shipParsed.None?
  }

  /** The analysis `main` performs on the rows read from the CSV. */
  function Analyze(orders: seq<Order>, lib: Library): (a: Analysis)
    requires ValidLibrary(lib)
    ensures var rs := Records(orders, lib);
      && a.total == |orders|
      && a.overall == Statistics.Describe(Delays(rs), lib.sqrt)
      && a.modes == ShipStats(rs, lib.sqrt)
      && a.threshold == Threshold(Delays(rs), lib.sqrt)
      && a.suspicious == SuspiciousCount(rs, a.threshold)
      && a.correlation == Correlate(rs, lib.spearman)
    ensures |a.modes| == |StatsIndex(Records(orders, lib))|
    ensures a.correlation.coefficient.Some? <==>
      exists i :: 0 <= i < |orders| && HasPair(Records(orders, lib)[i])
  {
    var rs := Records(orders, lib);
    var delays := Delays(rs);
    var threshold := Threshold(delays, lib.sqrt);
    Analysis(
      |rs|,
      CountWhere(rs, OrderInvalidRow),
      CountWhere(rs, ShipInvalidRow),
      Statistics.Describe(delays, lib.sqrt),
      ShipStats(rs, lib.sqrt),
      threshold,
      SuspiciousCount(rs, threshold),
      Correlate(rs, lib.spearman))
  }

  /** The counts of the report are consistent with each other: the overall
      count is the number of present delays, it never exceeds the number of
      records, and the flagged count lies between the number of negative
      delays and the overall count. */
  lemma AnalysisCounts(orders: seq<Order>, lib: Library)
    requires ValidLibrary(lib)
    ensures var a := Analyze(orders, lib); var rs := Records(orders, lib);
      && a.total == |orders|
      && a.orderInvalid == CountWhere(rs, OrderNotParsed)
      && a.shipInvalid == CountWhere(rs, ShipNotParsed)
      && a.orderInvalid <= a.total && a.shipInvalid <= a.total
      && a.overall.count == CountWhere(rs, HasDelay)
      && a.overall.count <= a.total
      && CountWhere(rs, NegativeDelayRow) <= a.suspicious <= a.overall.count
  {
    var rs := Records(orders, lib);
    var a := Analyze(orders, lib);
    DelaysWhereCount(rs, AnyRow, HasDelay);
    SuspiciousBounds(rs, a.threshold);
    CountWhereAgree(rs, OrderInvalidRow, OrderNotParsed);
    CountWhereAgree(rs, ShipInvalidRow, ShipNotParsed);
  }
}
