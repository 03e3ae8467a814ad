/** Two-tier date normalisation (`safe_parse_dates`): a bulk, format-inferring
    parse of the whole column, then a permissive per-entry retry of the
    entries the bulk parse left empty. A parsed date is a timestamp in
    seconds; an absent one is pandas' NaT. */
module DateParsing {
  import opened Options

  /** `pd.to_datetime(column, errors='coerce', infer_datetime_format=True)`:
      the inferred format depends on the whole column, so the bulk parser
      maps a column to a column. */
  type BulkParser = seq<string> -> seq<Option<int>>

  /** `dateutil.parser.parse(str(x))` with every exception mapped to NaT. */
  type EntryParser = string -> Option<int>

  /** pandas returns a series as long as its input. */
  ghost predicate PreservesLength(bulk: BulkParser) {
    forall column :: |bulk(column)| == |column|
  }

  /** The normalised column: the bulk result where it parsed, otherwise the
      permissive retry of the raw entry. */
  function ParseDates(raw: seq<string>, bulk: BulkParser, permissive: EntryParser): seq<Option<int>>
    requires |bulk(raw)| == |raw|
  {
    var first := bulk(raw);
    seq(|raw|, i requires 0 <= i < |raw| => if first[i].Some? then first[i] else permissive(raw[i]))
  }

  /** `safe_parse_dates`: the bulk pass fills a buffer, and the entries it
      marks as missing are overwritten in place by the retry. */
  method SafeParseDates(raw: seq<string>, bulk: BulkParser, permissive: EntryParser)
    returns (parsed: seq<Option<int>>)
    requires |bulk(raw)| == |raw|
    ensures |parsed| == |raw|
    ensures forall i :: 0 <= i < |raw| && bulk(raw)[i].Some? ==> parsed[i] == bulk(raw)[i]
    ensures forall i :: 0 <= i < |raw| && bulk(raw)[i].None? ==> parsed[i] == permissive(raw[i])
    ensures forall i :: 0 <= i < |raw| ==>
      (parsed[i].None? <==> bulk(raw)[i].None? && permissive(raw[i]).None?)
    ensures parsed == ParseDates(raw, bulk, permissive)
  {
    var first := bulk(raw);
    var s := new Option<int>[|raw|](i requires 0 <= i < |raw| => first[i]);
    var mask := seq(|raw|, i requires 0 <= i < |raw| => first[i].None?);
    assert forall j :: 0 <= j < |raw| ==> mask[j] == first[j].None?;
    if true in mask {
      var i := 0;
      while i < |raw|
        invariant 0 <= i <= |raw|
        invariant forall j :: 0 <= j < i ==> s[j] == if mask[j] then permissive(raw[j]) else first[j]
        invariant forall j :: i <= j < |raw| ==> s[j] == first[j]
      {
        if mask[i] {
          s[i] := permissive(raw[i]);
        }
        i := i + 1;
      }
    } else {
      assert forall j :: 0 <= j < |raw| ==> mask[j] in mask;
    }
    assert forall j :: 0 <= j < |raw| ==> s[j] == if first[j].None? then permissive(raw[j]) else first[j];
    parsed := s[..];
  }
}
