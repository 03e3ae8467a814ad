/** Text rendering shared by both pipelines: decimal rendering of counts
    (Python's `str(int)`), the styles in which reals are rendered, and
    joining lines with newlines (`'\n'.join(lines)`). */
module Formatting {

  /** How a real is rendered: `Repr` is Python's `str(float)` / `{v}`,
      `Fixed(p)` is the `{v:.pf}` format with `p` decimals. */
  datatype RealStyle = Repr | Fixed(places: nat)

  /** The float formatting of the Python runtime, which the model does not
      reproduce; it is supplied by the caller. */
  type RealFormatter = (real, RealStyle) -> string

  predicate IsDigit(c: char) {
    '0' <= c <= '9'
  }

  function DigitChar(d: nat): (c: char)
    requires d < 10
    ensures IsDigit(c) && (c as int) - ('0' as int) == d
  {
    ('0' as int + d) as char
  }

  /** Decimal text of `n`, without sign and without leading zeros. */
  function NatToString(n: nat): (s: string)
    ensures |s| > 0
    ensures forall i :: 0 <= i < |s| ==> IsDigit(s[i])
    ensures |s| > 1 ==> s[0] != '0'
  {
    if n < 10 then [DigitChar(n)] else NatToString(n / 10) + [DigitChar(n % 10)]
  }

  /** The number a string of decimal digits denotes. */
  function DigitsValue(s: string): nat
    requires forall i :: 0 <= i < |s| ==> IsDigit(s[i])
  {
    if s == [] then 0
    else
      assert IsDigit(s[|s| - 1]);
      DigitsValue(s[..|s| - 1]) * 10 + ((s[|s| - 1] as int) - ('0' as int))
  }

  /** Reading back the rendered count gives the count. */
  lemma {:induction false} NatToStringRoundTrip(n: nat)
    ensures DigitsValue(NatToString(n)) == n
  {
    var s := NatToString(n);
    if n >= 10 {
      NatToStringRoundTrip(n / 10);
      assert s[..|s| - 1] == NatToString(n / 10);
    }
  }

  /** Different counts render differently. */
  lemma NatToStringInjective(m: nat, n: nat)
    requires NatToString(m) == NatToString(n)
    ensures m == n
  {
    NatToStringRoundTrip(m);
    NatToStringRoundTrip(n);
  }

  /** `'\n'.join(lines)`. */
  function Join(lines: seq<string>): string {
    if |lines| == 0 then ""
    else if |lines| == 1 then lines[0]
    else lines[0] + "\n" + Join(lines[1..])
  }

  /** Index of the first newline of `s`, `|s|` when there is none. */
  function NewlineIndex(s: string): (k: nat)
    ensures k <= |s|
    ensures forall i :: 0 <= i < k ==> s[i] != '\n'
    ensures k < |s| ==> s[k] == '\n'
  {
    if s == [] || s[0] == '\n' then 0 else 1 + NewlineIndex(s[1..])
  }

  /** `s.split('\n')`, the inverse of `Join` on newline-free lines. */
  function Split(s: string): (lines: seq<string>)
    ensures |lines| > 0
    decreases |s|
  {
    var k := NewlineIndex(s);
    if k == |s| then [s] else [s[..k]] + Split(s[k + 1..])
  }

  /** Joining newline-free lines and splitting the text recovers the lines;
      this is what lets a consumer of the text rely on line order. */
  lemma {:induction false} SplitJoin(lines: seq<string>)
    requires |lines| > 0
    requires forall i :: 0 <= i < |lines| ==> '\n' !in lines[i]
    ensures Split(Join(lines)) == lines
  {
    var l := lines[0];
    if |lines| == 1 {
      assert NewlineIndex(l) == |l|;
    } else {
      var t := Join(lines[1..]);
      var s := l + "\n" + t;
      var k := NewlineIndex(s);
      assert s[|l|] == '\n';
      assert k == |l|;
      assert s[..k] == l;
      assert s[k + 1..] == t;
      SplitJoin(lines[1..]);
      assert lines == [l] + lines[1..];
    }
  }
}
