/** The concise summary of `run_shipping_analysis.py` (lines 116-141): a
    fixed sequence of sections, built by appending to a list of lines. */
module ShippingReport {
  import opened Options
  import opened Formatting
  import Sorting
  import Statistics
  import DateParsing
  import Shipping

  const HEADER: string := "Concise Shipping Analysis Summary"
  const RULE: string := "--------------------------------"
  const OVERALL_TITLE: string := "Overall shipping delay (days):"
  const MODES_TITLE: string := "Ship Mode summary (median, IQR, neg_rate, long_rate_gt7d):"
  const SUSPICIOUS_LABEL: string := "Suspicious records flagged: "
  const CORRELATION_TITLE: string := "Spearman correlation (Sales vs Delay):"
  const NEXT_STEPS_TITLE: string := "Recommended next steps:"
  const NEXT_STEPS: seq<string> := [
    "- Investigate negative-delay records and fix date-entry or ETL issues",
    "- Review high-variability ship modes and long-tail delays (>7 days)",
    "- Consider prioritizing high-sales orders for faster fulfillment if correlation shows longer delays for larger orders"]

  /** `{v}` of an optional float: `None` when absent. */
  function OptionalText(v: Option<real>, show: RealFormatter): string {
    match v
    case Some(x) => show(x, Repr)
    case None => "None"
  }

  /** `{v:.pf}` of a float that may be NaN. */
  function FixedText(v: Option<real>, places: nat, show: RealFormatter): string {
    match v
    case Some(x) => show(x, Fixed(places))
    case None => "nan"
  }

  /** The `overall_stats` dictionary, in its insertion order. `iqr_days` is
      `float(nan)` rather than `None` on an empty sample, because the
      `'75%' in desc` test on line 50 always holds. */
  function OverallItems(s: Statistics.Summary, show: RealFormatter): (items: seq<(string, string)>)
    ensures |items| == 7
    ensures items[0].0 == "count" && items[1].0 == "mean" && items[2].0 == "median" && items[3].0 == "std"
      && items[4].0 == "min" && items[5].0 == "max" && items[6].0 == "iqr_days"
    ensures items[0].1 == NatToString(s.count)
    ensures s.mean.None? ==> items[1].1 == "None"
    ensures s.std.None? ==> items[3].1 == "None"
    ensures s.Iqr().None? ==> items[6].1 == "nan"
  {
    [("count", NatToString(s.count)),
     ("mean", OptionalText(s.mean, show)),
     ("median", OptionalText(s.median, show)),
     ("std", OptionalText(s.std, show)),
     ("min", OptionalText(s.min, show)),
     ("max", OptionalText(s.max, show)),
     ("iqr_days", match s.Iqr() case Some(x) => show(x, Repr) case None => "nan")]
  }

  function ItemLine(item: (string, string)): string {
    "- " + item.0 + ": " + item.1
  }

  /** The sort key of `ship_stats.sort_values('median')`; every group has a
      median (see `Shipping.GroupFacts`). */
  function MedianKey(g: Shipping.ModeStats): real {
    g.stats.median.GetOr(0.0)
  }

  function SortedModes(modes: seq<Shipping.ModeStats>): seq<Shipping.ModeStats> {
    Sorting.SortBy(modes, MedianKey)
  }

  function ModeLine(g: Shipping.ModeStats, show: RealFormatter): (line: string)
    ensures var prefix := "- " + g.mode + ": median=";
      |prefix| <= |line| && line[..|prefix|] == prefix
  {
    "- " + g.mode
    + ": median=" + FixedText(g.stats.median, 1, show)
    + ", IQR=" + FixedText(g.stats.Iqr(), 1, show)
    + ", neg_rate=" + show(g.negRate, Fixed(3))
    + ", long_rate_gt7d=" + show(g.longRate, Fixed(3))
  }

  function SuspiciousLine(a: Shipping.Analysis, show: RealFormatter): string {
    SUSPICIOUS_LABEL + NatToString(a.suspicious) + " (threshold > " + show(a.threshold, Fixed(1)) + " days)"
  }

  function CorrelationLine(c: Shipping.Correlation, show: RealFormatter): string {
    "- correlation: " + OptionalText(c.coefficient, show) + ", p-value: " + OptionalText(c.pValue, show)
  }

  function ItemLines(items: seq<(string, string)>): (ls: seq<string>)
    ensures |ls| == |items|
  {
    seq(|items|, i requires 0 <= i < |items| => ItemLine(items[i]))
  }

  function ModeLines(modes: seq<Shipping.ModeStats>, show: RealFormatter): (ls: seq<string>)
    ensures |ls| == |modes|
  {
    seq(|modes|, i requires 0 <= i < |modes| => ModeLine(modes[i], show))
  }

  /** The header, the record and invalid-date counts, and the title of the
      overall statistics. */
  function Preamble(a: Shipping.Analysis): seq<string> {
    [HEADER, RULE,
     "Total records: " + NatToString(a.total),
     "Order date invalid: " + NatToString(a.orderInvalid),
     "Ship date invalid: " + NatToString(a.shipInvalid),
     "", OVERALL_TITLE]
  }

  /** The flagged count, the correlation and the fixed next steps. */
  function Closing(a: Shipping.Analysis, show: RealFormatter): seq<string> {
    ["", SuspiciousLine(a, show), "", CORRELATION_TITLE, CorrelationLine(a.correlation, show), "", NEXT_STEPS_TITLE]
    + NEXT_STEPS
  }

  /** The summary, section by section. */
  function SummaryLines(a: Shipping.Analysis, show: RealFormatter): (ls: seq<string>)
    ensures |ls| == 26 + |a.modes|
    ensures ls[0] == HEADER && ls[1] == RULE
    ensures ls[|ls| - 3..] == NEXT_STEPS
  {
    Preamble(a)
    + ItemLines(OverallItems(a.overall, show))
    + ["", MODES_TITLE]
    + ModeLines(SortedModes(a.modes), show)
    + Closing(a, show)
  }

  /** Lines 124-125: one `- key: value` line per overall statistic. */
  method AppendItems(lines: seq<string>, items: seq<(string, string)>) returns (out: seq<string>)
    ensures out == lines + ItemLines(items)
  {
    out := lines;
    for i := 0 to |items|
      invariant out == lines + ItemLines(items[..i])
    {
      assert ItemLines(items[..i + 1]) == ItemLines(items[..i]) + [ItemLine(items[i])];
      out := out + [ItemLine(items[i])];
    }
    assert items[..|items|] == items;
  }

  /** Lines 128-129: one line per ship mode, in the order given. */
  method AppendModes(lines: seq<string>, modes: seq<Shipping.ModeStats>, show: RealFormatter)
    returns (out: seq<string>)
    ensures out == lines + ModeLines(modes, show)
  {
    out := lines;
    for i := 0 to |modes|
      invariant out == lines + ModeLines(modes[..i], show)
    {
      assert ModeLines(modes[..i + 1], show) == ModeLines(modes[..i], show) + [ModeLine(modes[i], show)];
      out := out + [ModeLine(modes[i], show)];
    }
    assert modes[..|modes|] == modes;
  }

  /** Lines 116-123: the header, the counts and the overall title. */
  method StartSummary(a: Shipping.Analysis) returns (lines: seq<string>)
    ensures lines == Preamble(a)
  {
    lines := [];
    lines := lines + [HEADER];
    lines := lines + [RULE];
    lines := lines + ["Total records: " + NatToString(a.total)];
    lines := lines + ["Order date invalid: " + NatToString(a.orderInvalid)];
    lines := lines + ["Ship date invalid: " + NatToString(a.shipInvalid)];
    lines := lines + [""];
    lines := lines + [OVERALL_TITLE];
  }

  /** Lines 130-139: the flagged count, the correlation and the next steps. */
  method AppendClosing(lines: seq<string>, a: Shipping.Analysis, show: RealFormatter) returns (out: seq<string>)
    ensures out == lines + Closing(a, show)
  {
    out := lines;
    out := out + [""];
    out := out + [SuspiciousLine(a, show)];
    out := out + [""];
    out := out + [CORRELATION_TITLE];
    out := out + [CorrelationLine(a.correlation, show)];
    out := out + [""];
    out := out + [NEXT_STEPS_TITLE];
    out := out + [NEXT_STEPS[0]];
    out := out + [NEXT_STEPS[1]];
    out := out + [NEXT_STEPS[2]];
  }

  /** Lines 116-139: the list is built by appending, one loop for the
      overall statistics and one for the sorted ship-mode rows. */
  method BuildSummary(a: Shipping.Analysis, show: RealFormatter) returns (lines: seq<string>)
    ensures lines == SummaryLines(a, show)
  {
    lines := StartSummary(a);
    lines := AppendItems(lines, OverallItems(a.overall, show));
    lines := lines + [""];
    lines := lines + [MODES_TITLE];
    lines := AppendModes(lines, SortedModes(a.modes), show);
    lines := AppendClosing(lines, a, show);
  }

  /** Where every fact stands in the summary: header, record and invalid
      counts, the seven overall statistics, one row per ship mode, the
      flagged count with its threshold, the correlation, the next steps. */
  lemma SummaryLayout(a: Shipping.Analysis, show: RealFormatter)
    ensures var ls := SummaryLines(a, show); var m := |a.modes|;
      && |ls| == 26 + m
      && ls[0] == HEADER && ls[1] == RULE
      && ls[2] == "Total records: " + NatToString(a.total)
      && ls[3] == "Order date invalid: " + NatToString(a.orderInvalid)
      && ls[4] == "Ship date invalid: " + NatToString(a.shipInvalid)
      && ls[6] == OVERALL_TITLE
      && ls[7..14] == ItemLines(OverallItems(a.overall, show))
      && ls[15] == MODES_TITLE
      && ls[16..16 + m] == ModeLines(SortedModes(a.modes), show)
      && ls[17 + m] == SuspiciousLine(a, show)
      && ls[19 + m] == CORRELATION_TITLE
      && ls[20 + m] == CorrelationLine(a.correlation, show)
      && ls[22 + m] == NEXT_STEPS_TITLE
      && ls[23 + m..] == NEXT_STEPS
  {
    var ls := SummaryLines(a, show);
    var m := |a.modes|;
    var overall := ItemLines(OverallItems(a.overall, show));
    var modes := ModeLines(SortedModes(a.modes), show);
    assert |overall| == 7;
    assert ls[7..14] == overall;
    assert ls[16..16 + m] == modes;
    assert ls[23 + m..] == NEXT_STEPS;
  }

  /** The ship-mode rows are every group exactly as often as it occurs, in
      non-decreasing order of median. */
  lemma ModeRowsOrdered(modes: seq<Shipping.ModeStats>)
    ensures multiset(SortedModes(modes)) == multiset(modes)
    ensures forall i, j :: 0 <= i < j < |modes| ==>
      SortedModes(modes)[i].stats.median.GetOr(0.0) <= SortedModes(modes)[j].stats.median.GetOr(0.0)
  {
    var s := SortedModes(modes);
    assert Sorting.SortedBy(s, MedianKey);
    forall i, j | 0 <= i < j < |modes| ensures s[i].stats.median.GetOr(0.0) <= s[j].stats.median.GetOr(0.0) {
      assert MedianKey(s[i]) <= MedianKey(s[j]);
    }
  }

  /** The flagged-records line carries the count as plain decimal digits
      that read back as the count. */
  lemma SuspiciousLineReadsBack(a: Shipping.Analysis, show: RealFormatter)
    ensures exists digits: string ::
      && |digits| > 0
      && (forall i :: 0 <= i < |digits| ==> IsDigit(digits[i]))
      && DigitsValue(digits) == a.suspicious
      && SuspiciousLine(a, show) == SUSPICIOUS_LABEL + digits + " (threshold > " + show(a.threshold, Fixed(1)) + " days)"
  {
    var digits := NatToString(a.suspicious);
    NatToStringRoundTrip(a.suspicious);
    assert SuspiciousLine(a, show) == SUSPICIOUS_LABEL + digits + " (threshold > " + show(a.threshold, Fixed(1)) + " days)";
  }

  /** `main` without chart drawing and file output: columns are added to
      the frame one after another, the statistics computed, and the
      summary assembled and joined with newlines. */
  method RunShippingAnalysis(orders: seq<Shipping.Order>, lib: Shipping.Library, show: RealFormatter)
    returns (lines: seq<string>, text: string)
    requires Shipping.ValidLibrary(lib)
    ensures lines == SummaryLines(Shipping.Analyze(orders, lib), show)
    ensures text == Join(lines)
  {
    var orderDates := Shipping.OrderDates(orders);
    var shipDates := Shipping.ShipDates(orders);
    assert |lib.toDatetime(orderDates)| == |orderDates|;
    assert |lib.toDatetime(shipDates)| == |shipDates|;
    var orderParsed := DateParsing.SafeParseDates(orderDates, lib.toDatetime, lib.parseDate);
    var shipParsed := DateParsing.SafeParseDates(shipDates, lib.toDatetime, lib.parseDate);
    var rs := Shipping.Normalize(orders, orderParsed, shipParsed);
    var delays := Shipping.Delays(rs);
    var overall := Statistics.Describe(delays, lib.sqrt);
    var shipStats := Shipping.ShipStats(rs, lib.sqrt);
    var threshold := Shipping.ThresholdLadder(overall.median, overall.std);
    var suspicious := Shipping.SuspiciousCount(rs, threshold);
    var correlation := Shipping.Correlate(rs, lib.spearman);
    var a := Shipping.Analysis(
      |rs|,
      Shipping.CountWhere(rs, Shipping.OrderInvalidRow),
      Shipping.CountWhere(rs, Shipping.ShipInvalidRow),
      overall, shipStats, threshold, suspicious, correlation);
    lines := BuildSummary(a, show);
    text := Join(lines);
  }
}
