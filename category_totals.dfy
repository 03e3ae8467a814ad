/** The category roll-up of `aggregate_sales_by_category.py`: `run_csv`
    cleans each row's category and sales text, accumulates per-category
    totals in a dictionary, sorts the totals in descending order and emits
    `cat: total` lines and CSV rows; `run_pandas` first checks that the
    required columns exist. */
module CategoryTotals {
  import opened Options
  import opened Formatting
  import Sorting

  /** A `csv.DictReader` row restricted to the two columns used; a field is
      `None` when the row is too short or the column does not exist. */
  datatype CsvRow = CsvRow(category: Option<string>, sales: Option<string>)

  /** Python's `float(text)`, supplied by the caller; `None` is the
      exception the `try` swallows. */
  type FloatParser = string -> Option<real>

  /** The characters Python's `str.isspace` accepts. */
  predicate IsSpace(c: char) {
    c == ' ' || '\t' <= c <= '\r' || '\U{1C}' <= c <= '\U{1F}' || c == '\U{85}' || c == '\U{A0}'
    || c == '\U{1680}' || '\U{2000}' <= c <= '\U{200A}' || c == '\U{2028}' || c == '\U{2029}'
    || c == '\U{202F}' || c == '\U{205F}' || c == '\U{3000}'
  }

  /** The index of the first non-whitespace character at or after `from`
      (`|s|` when there is none). */
  function FirstNonSpace(s: string, from: nat): (k: nat)
    requires from <= |s|
    ensures from <= k <= |s|
    ensures forall x :: from <= x < k ==> IsSpace(s[x])
    ensures k < |s| ==> !IsSpace(s[k])
    decreases |s| - from
  {
    if from < |s| && IsSpace(s[from]) then FirstNonSpace(s, from + 1) else from
  }

  /** The end of `s[lo..hi]` once trailing whitespace is dropped. */
  function EndBeforeSpaces(s: string, lo: nat, hi: nat): (k: nat)
    requires lo <= hi <= |s|
    ensures lo <= k <= hi
    ensures forall x :: k <= x < hi ==> IsSpace(s[x])
    ensures k > lo ==> !IsSpace(s[k - 1])
    decreases hi
  {
    if hi > lo && IsSpace(s[hi - 1]) then EndBeforeSpaces(s, lo, hi - 1) else hi
  }

  /** `r` is the slice of `s` at `i` and only whitespace lies around it. */
  ghost predicate SliceBetweenSpaces(s: string, r: string, i: int) {
    && 0 <= i <= |s| - |r| && r == s[i..i + |r|]
    && (forall k :: 0 <= k < i ==> IsSpace(s[k]))
    && (forall k :: i + |r| <= k < |s| ==> IsSpace(s[k]))
  }

  /** `s.strip()`: the slice of `s` left after dropping whitespace at both
      ends; it neither starts nor ends with whitespace. */
  function Strip(s: string): (r: string)
    ensures exists i :: SliceBetweenSpaces(s, r, i)
    ensures r != [] ==> !IsSpace(r[0]) && !IsSpace(r[|r| - 1])
  {
    var i := FirstNonSpace(s, 0);
    var j := EndBeforeSpaces(s, i, |s|);
    assert SliceBetweenSpaces(s, s[i..j], i);
    s[i..j]
  }

  /** Stripping twice strips nothing more. */
  lemma StripIdempotent(s: string)
    ensures Strip(Strip(s)) == Strip(s)
  {
    var r := Strip(s);
    assert FirstNonSpace(r, 0) == 0;
    assert EndBeforeSpaces(r, 0, |r|) == |r|;
  }

  /** `s.replace(c, '')`. */
  function RemoveAll(s: string, c: char): (r: string)
    ensures forall x :: x in r <==> x in s && x != c
    ensures forall x :: x != c ==> multiset(r)[x] == multiset(s)[x]
    ensures c !in s ==> r == s
    ensures |s| == 1 ==> r == if s[0] == c then [] else s
  {
    if s == [] then []
    else
      assert s == [s[0]] + s[1..];
      (if s[0] == c then [] else [s[0]]) + RemoveAll(s[1..], c)
  }

  /** Line 33, `(r.get('Category') or '').strip()`: a missing category, or
      one made of whitespace only, is the key `''`; otherwise the key is the
      category with its surrounding whitespace dropped. */
  function CategoryOf(r: CsvRow): (k: string)
    ensures r.category.None? ==> k == ""
    ensures r.category.Some? && (forall x :: 0 <= x < |r.category.value| ==> IsSpace(r.category.value[x]))
      ==> k == ""
    ensures r.category.Some? ==> exists i :: SliceBetweenSpaces(r.category.value, k, i)
    ensures k != "" ==> !IsSpace(k[0]) && !IsSpace(k[|k| - 1])
  {
    var t := r.category.GetOr("");
    assert r.category.Some? ==> t == r.category.value;
    if r.category.Some? && forall x :: 0 <= x < |t| ==> IsSpace(t[x]) then
      assert FirstNonSpace(t, 0) == |t|;
      assert EndBeforeSpaces(t, |t|, |t|) == |t|;
      assert Strip(t) == t[|t|..|t|] == "";
      Strip(t)
    else
      Strip(t)
  }

  /** Removing a character from a concatenation removes it from each part,
      so the kept characters stay in their order. */
  lemma {:induction false} RemoveAllAppend(a: string, b: string, c: char)
    ensures RemoveAll(a + b, c) == RemoveAll(a, c) + RemoveAll(b, c)
  {
    if a == [] {
      assert a + b == b;
    } else {
      assert (a + b)[0] == a[0];
      assert (a + b)[1..] == a[1..] + b;
      RemoveAllAppend(a[1..], b, c);
    }
  }

  /** `.replace('$', '').replace(',', '')`: every dollar sign and comma
      dropped, every other character kept. */
  function DropSeparators(s: string): (t: string)
    ensures '$' !in t && ',' !in t
    ensures forall x :: x != '$' && x != ',' ==> multiset(t)[x] == multiset(s)[x]
    ensures |s| == 1 ==> t == if s[0] == '$' || s[0] == ',' then [] else s
  {
    var noDollar := RemoveAll(s, '$');
    var t := RemoveAll(noDollar, ',');
    assert forall x :: x != '$' && x != ',' ==> multiset(t)[x] == multiset(s)[x] by {
      forall x | x != '$' && x != ',' ensures multiset(t)[x] == multiset(s)[x] {
        assert multiset(t)[x] == multiset(noDollar)[x];
      }
    }
    t
  }

  /** Dropping separators works piecewise: with the one-character case of
      its contract this fixes the result, order included. */
  lemma DropSeparatorsAppend(a: string, b: string)
    ensures DropSeparators(a + b) == DropSeparators(a) + DropSeparators(b)
  {
    RemoveAllAppend(a, b, '$');
    RemoveAllAppend(RemoveAll(a, '$'), RemoveAll(b, '$'), ',');
  }

  /** Line 34: a missing or empty value reads as `'0'`, then every `$` and
      `,` is removed. */
  function SalesText(r: CsvRow): (t: string)
    ensures '$' !in t && ',' !in t
    ensures r.sales.None? || r.sales == Some("") ==> t == "0"
    ensures r.sales.Some? && r.sales.value != "" ==> t == DropSeparators(r.sales.value)
  {
    var raw := if r.sales.None? || r.sales.value == "" then "0" else r.sales.value;
    assert "0" == ['0'];
    DropSeparators(raw)
  }

  /** Lines 35-38: the parsed sales value, 0.0 when `float` fails. */
  function SalesValue(r: CsvRow, parse: FloatParser): (v: real)
    ensures parse(SalesText(r)).None? ==> v == 0.0
    ensures parse(SalesText(r)).Some? ==> v == parse(SalesText(r)).value
  {
    match parse(SalesText(r))
    case Some(v) => v
    case None => 0.0
  }

  /** A Python dictionary from categories to totals: the values and the
      insertion order of the keys. */
  datatype Dict = Dict(keys: seq<string>, values: map<string, real>) {
    ghost predicate Valid() {
      Sorting.Distinct(keys) && forall k :: k in values <==> k in keys
    }

    /** `d[k] = d.get(k, 0.0) + x`: a new key goes to the end of the order,
        every other key keeps its value. */
    function Add(k: string, x: real): (d: Dict)
      ensures Valid() ==> d.Valid()
      ensures k in d.values && d.values[k] == (if k in values then values[k] else 0.0) + x
      ensures forall k' :: k' != k ==> (k' in d.values <==> k' in values)
      ensures forall k' :: k' != k && k' in values ==> d.values[k'] == values[k']
      ensures Valid() && k in values ==> d.keys == keys
      ensures Valid() && k !in values ==> d.keys == keys + [k]
    {
      Dict(if k in values then keys else keys + [k], values[k := (if k in values then values[k] else 0.0) + x])
    }

    /** `d.items()`, in insertion order. */
    function Items(): (items: seq<(string, real)>)
      requires Valid()
      ensures |items| == |keys|
      ensures forall i :: 0 <= i < |items| ==> items[i].0 == keys[i] && items[i].1 == values[keys[i]]
    {
      seq(|keys|, i requires 0 <= i < |keys| => (keys[i], values[keys[i]]))
    }
  }

  /** The per-row update of line 39 reads the row through these two. */
  type KeyOf = CsvRow -> string
  type ValueOf = CsvRow -> real

  function SalesOf(parse: FloatParser): ValueOf {
    (r: CsvRow) => SalesValue(r, parse)
  }

  /** The dictionary after the loop of lines 32-39 has seen `rows`, each row
      adding `value(row)` under `key(row)`. */
  function Totals(rows: seq<CsvRow>, key: KeyOf, value: ValueOf): (d: Dict)
    ensures d.Valid()
  {
    if rows == [] then Dict([], map[])
    else
      var last := rows[|rows| - 1];
      Totals(rows[..|rows| - 1], key, value).Add(key(last), value(last))
  }

  /** One more row: the loop's step. */
  lemma TotalsStep(rows: seq<CsvRow>, i: nat, key: KeyOf, value: ValueOf)
    requires i < |rows|
    ensures Totals(rows[..i + 1], key, value) == Totals(rows[..i], key, value).Add(key(rows[i]), value(rows[i]))
  {
    assert rows[..i + 1][..i] == rows[..i];
  }

  /** Reference definition: the sum of the values of the rows whose key is
      `c`. */
  function SumFor(rows: seq<CsvRow>, c: string, key: KeyOf, value: ValueOf): real {
    if rows == [] then 0.0
    else (if key(rows[0]) == c then value(rows[0]) else 0.0) + SumFor(rows[1..], c, key, value)
  }

  lemma {:induction false} SumForAppend(rows: seq<CsvRow>, r: CsvRow, c: string, key: KeyOf, value: ValueOf)
    ensures SumFor(rows + [r], c, key, value)
      == SumFor(rows, c, key, value) + (if key(r) == c then value(r) else 0.0)
  {
    if rows != [] {
      assert (rows + [r])[1..] == rows[1..] + [r];
      SumForAppend(rows[1..], r, c, key, value);
    }
  }

  /** The keys of `rows`. */
  function Keys(rows: seq<CsvRow>, key: KeyOf): set<string> {
    set i | 0 <= i < |rows| :: key(rows[i])
  }

  /** After the loop, a category is a key exactly when some row has it. */
  lemma {:induction false} TotalsKeys(rows: seq<CsvRow>, key: KeyOf, value: ValueOf)
    ensures Totals(rows, key, value).values.Keys == Keys(rows, key)
  {
    if rows != [] {
      var init := rows[..|rows| - 1];
      var last := rows[|rows| - 1];
      TotalsKeys(init, key, value);
      assert Keys(rows, key) == Keys(init, key) + {key(last)} by {
        forall c | c in Keys(rows, key) ensures c in Keys(init, key) + {key(last)} {
          var i :| 0 <= i < |rows| && key(rows[i]) == c;
          if i < |init| {
            assert init[i] == rows[i];
          }
        }
        forall c | c in Keys(init, key) ensures c in Keys(rows, key) {
          var i :| 0 <= i < |init| && key(init[i]) == c;
          assert rows[i] == init[i];
        }
        assert key(rows[|rows| - 1]) in Keys(rows, key);
      }
    }
  }

  /** After the loop, each total is the sum of the values of the rows with
      that key. */
  lemma {:induction false} TotalsAreSums(rows: seq<CsvRow>, key: KeyOf, value: ValueOf)
    ensures forall c :: c in Totals(rows, key, value).values ==>
      Totals(rows, key, value).values[c] == SumFor(rows, c, key, value)
  {
    if rows != [] {
      var init := rows[..|rows| - 1];
      var last := rows[|rows| - 1];
      var d0 := Totals(init, key, value);
      var d := Totals(rows, key, value);
      assert d == d0.Add(key(last), value(last));
      assert rows == init + [last];
      TotalsAreSums(init, key, value);
      TotalsKeys(init, key, value);
      forall c | c in d.values ensures d.values[c] == SumFor(rows, c, key, value) {
        SumForAppend(init, last, c, key, value);
        if c !in d0.values {
          NoRowsSumZero(init, c, key, value);
        }
      }
    }
  }

  /** A key no row has sums to zero. */
  lemma {:induction false} NoRowsSumZero(rows: seq<CsvRow>, c: string, key: KeyOf, value: ValueOf)
    requires c !in Keys(rows, key)
    ensures SumFor(rows, c, key, value) == 0.0
  {
    if rows != [] {
      assert Keys(rows[1..], key) <= Keys(rows, key) by {
        forall x | x in Keys(rows[1..], key) ensures x in Keys(rows, key) {
          var i :| 0 <= i < |rows[1..]| && key(rows[1..][i]) == x;
          assert rows[i + 1] == rows[1..][i];
        }
      }
      assert key(rows[0]) in Keys(rows, key);
      NoRowsSumZero(rows[1..], c, key, value);
    }
  }

  /** `run_csv`'s totals: the cleaned category is the key, the parsed sales
      (0.0 on failure) the value. */
  lemma CategoryTotalsAreSums(rows: seq<CsvRow>, parse: FloatParser)
    ensures var d := Totals(rows, CategoryOf, SalesOf(parse));
      && d.values.Keys == Keys(rows, CategoryOf)
      && forall c :: c in d.values ==> d.values[c] == SumFor(rows, c, CategoryOf, SalesOf(parse))
  {
    TotalsKeys(rows, CategoryOf, SalesOf(parse));
    TotalsAreSums(rows, CategoryOf, SalesOf(parse));
  }

  /** The sort key of line 40, `lambda x: -x[1]`. */
  function NegatedTotal(item: (string, real)): real {
    -item.1
  }

  /** Line 40: the dictionary items sorted by descending total (a stable
      sort, so equal totals keep insertion order). */
  function SortedRows(rows: seq<CsvRow>, parse: FloatParser): (sorted: seq<(string, real)>)
    ensures multiset(sorted) == multiset(Totals(rows, CategoryOf, SalesOf(parse)).Items())
    ensures |sorted| == |Totals(rows, CategoryOf, SalesOf(parse)).keys|
  {
    Sorting.SortBy(Totals(rows, CategoryOf, SalesOf(parse)).Items(), NegatedTotal)
  }

  /** Sorting a dictionary's items by descending value gives its entries,
      each key exactly once with its value, in non-increasing order. */
  lemma SortedItemsFacts(d: Dict)
    requires d.Valid()
    ensures var sorted := Sorting.SortBy(d.Items(), NegatedTotal);
      && multiset(sorted) == multiset(d.Items())
      && (forall i, j :: 0 <= i < j < |sorted| ==> sorted[i].1 >= sorted[j].1)
      && (forall i :: 0 <= i < |sorted| ==> sorted[i].0 in d.values && sorted[i].1 == d.values[sorted[i].0])
      && (forall c :: c in d.values ==> exists i :: 0 <= i < |sorted| && sorted[i].0 == c)
      && (forall i, j :: 0 <= i < j < |sorted| ==> sorted[i].0 != sorted[j].0)
  {
    var items := d.Items();
    var sorted := Sorting.SortBy(items, NegatedTotal);
    assert Sorting.SortedBy(sorted, NegatedTotal);
    forall i, j | 0 <= i < j < |sorted| ensures sorted[i].1 >= sorted[j].1 {
      assert NegatedTotal(sorted[i]) <= NegatedTotal(sorted[j]);
    }
    forall i | 0 <= i < |sorted| ensures sorted[i].0 in d.values && sorted[i].1 == d.values[sorted[i].0] {
      assert sorted[i] in multiset(items);
      var k :| 0 <= k < |items| && items[k] == sorted[i];
    }
    forall c | c in d.values ensures exists i :: 0 <= i < |sorted| && sorted[i].0 == c {
      var k :| 0 <= k < |d.keys| && d.keys[k] == c;
      assert items[k] in multiset(sorted);
      var i :| 0 <= i < |sorted| && sorted[i] == items[k];
    }
    assert Sorting.Distinct(items) by {
      forall i, j | 0 <= i < j < |items| ensures items[i] != items[j] {
        assert items[i].0 == d.keys[i] && items[j].0 == d.keys[j];
      }
    }
    Sorting.PermutationDistinct(items, sorted);
    forall i, j | 0 <= i < j < |sorted| ensures sorted[i].0 != sorted[j].0 {
      assert sorted[i] != sorted[j];
    }
  }

  /** Line 40 on `run_csv`'s dictionary: every category of the file exactly
      once, with its total, in non-increasing order of total. */
  lemma SortedRowsFacts(rows: seq<CsvRow>, parse: FloatParser)
    ensures var d := Totals(rows, CategoryOf, SalesOf(parse)); var sorted := SortedRows(rows, parse);
      && multiset(sorted) == multiset(d.Items())
      && (forall i, j :: 0 <= i < j < |sorted| ==> sorted[i].1 >= sorted[j].1)
      && (forall i :: 0 <= i < |sorted| ==> sorted[i].0 in d.values && sorted[i].1 == d.values[sorted[i].0])
      && (forall c :: c in Keys(rows, CategoryOf) <==> exists i :: 0 <= i < |sorted| && sorted[i].0 == c)
      && (forall i, j :: 0 <= i < j < |sorted| ==> sorted[i].0 != sorted[j].0)
  {
    var d := Totals(rows, CategoryOf, SalesOf(parse));
    SortedItemsFacts(d);
    TotalsKeys(rows, CategoryOf, SalesOf(parse));
  }

  /** Line 47: one `cat: total` line per sorted row. */
  function TextLines(sorted: seq<(string, real)>, show: RealFormatter): (ls: seq<string>)
    ensures |ls| == |sorted|
  {
    seq(|sorted|, i requires 0 <= i < |sorted| => sorted[i].0 + ": " + show(sorted[i].1, Fixed(2)))
  }

  /** Lines 44-46: the header, then one record per sorted row. */
  function CsvRecords(sorted: seq<(string, real)>, show: RealFormatter): (rs: seq<seq<string>>)
    ensures |rs| == |sorted| + 1
  {
    [["Category", "Sales"]] + seq(|sorted|, i requires 0 <= i < |sorted| => [sorted[i].0, show(sorted[i].1, Fixed(2))])
  }

  /** The CSV and the text list the categories in the same order: record
      `i + 1` holds the two fields of text line `i`. */
  lemma CsvMatchesText(sorted: seq<(string, real)>, show: RealFormatter)
    ensures CsvRecords(sorted, show)[0] == ["Category", "Sales"]
    ensures forall i :: 0 <= i < |sorted| ==>
      |CsvRecords(sorted, show)[i + 1]| == 2
      && TextLines(sorted, show)[i] == CsvRecords(sorted, show)[i + 1][0] + ": " + CsvRecords(sorted, show)[i + 1][1]
  {
  }

  /** Lines 32-39: the loop over the rows, adding each row's value to its
      key in the dictionary; `run_csv` passes the cleaned category as the
      key and the parsed sales as the value. */
  method AccumulateTotals(rows: seq<CsvRow>, key: KeyOf, value: ValueOf) returns (totals: Dict)
    ensures totals == Totals(rows, key, value)
  {
    totals := Dict([], map[]);
    for i := 0 to |rows|
      invariant totals == Totals(rows[..i], key, value)
    {
      var cat := key(rows[i]);
      var val := value(rows[i]);
      TotalsStep(rows, i, key, value);
      totals := totals.Add(cat, val);
    }
    assert rows[..|rows|] == rows;
  }

  /** Lines 43-46: the header record, then one record per sorted row. */
  method WriteRecords(sorted: seq<(string, real)>, show: RealFormatter)
    returns (csv: seq<seq<string>>)
    ensures csv == CsvRecords(sorted, show)
  {
    csv := [["Category", "Sales"]];
    for j := 0 to |sorted|
      invariant csv == CsvRecords(sorted[..j], show)
    {
      assert CsvRecords(sorted[..j + 1], show) == CsvRecords(sorted[..j], show) + [[sorted[j].0, show(sorted[j].1, Fixed(2))]];
      csv := csv + [[sorted[j].0, show(sorted[j].1, Fixed(2))]];
    }
    assert sorted[..|sorted|] == sorted;
  }

  /** `run_csv` on the rows of the file: the dictionary loop, the sort, the
      CSV rows written one by one and the joined text. */
  method RunCsv(rows: seq<CsvRow>, parse: FloatParser, show: RealFormatter)
    returns (text: string, csv: seq<seq<string>>)
    ensures csv == CsvRecords(SortedRows(rows, parse), show)
    ensures text == Join(TextLines(SortedRows(rows, parse), show))
  {
    var totals := AccumulateTotals(rows, CategoryOf, SalesOf(parse));
    var sorted := Sorting.SortBy(totals.Items(), NegatedTotal);
    csv := WriteRecords(sorted, show);
    text := Join(TextLines(sorted, show));
  }

  const MISSING_COLUMNS: string := "Input CSV missing required 'Category' or 'Sales' columns"

  /** Lines 17-18 of `run_pandas`: the run stops before any aggregation
      unless both required columns are present. */
  function RequireColumns(columns: seq<string>): (o: Outcome<string>)
    ensures o == Pass <==> "Category" in columns && "Sales" in columns
    ensures o != Pass ==> o == Fail(MISSING_COLUMNS)
  {
    if "Category" !in columns || "Sales" !in columns then Fail(MISSING_COLUMNS) else Pass
  }
}
