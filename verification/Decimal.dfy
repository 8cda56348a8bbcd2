/**
 Canonical decimal numbers (domain/parameter/value.go): the accepted notation,
 the canonical string of a number, and the rational value a string denotes.
 */
module Decimal {
  import opened Wrappers
  import opened Text

  const MAX_EXPONENT: int := 100000

  /** The groups of the accepted notation: sign, whole digits, fraction digits, exponent. */
  datatype Parts = Parts(sign: string, whole: string, frac: string, exponent: string)

  /** End of the run of digits that starts at `from`. */
  function SkipDigits(s: string, from: nat): (end: nat)
    requires from <= |s|
    ensures from <= end <= |s|
    ensures AllDigits(s[from..end])
    ensures end < |s| ==> !IsDigit(s[end])
    decreases |s| - from
  {
    if from < |s| && IsDigit(s[from]) then
      var end := SkipDigits(s, from + 1);
      assert s[from..end] == [s[from]] + s[from + 1..end];
      end
    else from
  }

  predicate IsSign(c: char) {
    c == '+' || c == '-'
  }

  /** The decimal pattern: sign? digits+ (. digits*)? ([eE] sign? digits+)? */
  function Match(s: string): (r: Option<Parts>)
    ensures r.Some? ==> AllDigits(r.value.whole) && r.value.whole != [] && AllDigits(r.value.frac)
    ensures r.Some? ==> r.value.sign == "" || r.value.sign == "+" || r.value.sign == "-"
    ensures r.Some? ==> r.value.exponent == "" || Atoi(r.value.exponent).Some?
  {
    var a := if s != [] && IsSign(s[0]) then 1 else 0;
    var b := SkipDigits(s, a);
    if b == a then None else
    var c := if b < |s| && s[b] == '.' then SkipDigits(s, b + 1) else b;
    var frac := if c == b then "" else s[b + 1..c];
    if c == |s| then Some(Parts(s[..a], s[a..b], frac, ""))
    else if s[c] != 'e' && s[c] != 'E' then None
    else
      var d := if c + 1 < |s| && IsSign(s[c + 1]) then c + 2 else c + 1;
      if d == |s| || SkipDigits(s, d) != |s| then None
      else
        assert s[d..|s|] == s[c + 1..][d - c - 1..];
        Some(Parts(s[..a], s[a..b], frac, s[c + 1..]))
  }

  function TrimLeftZeros(s: string): string {
    if s != [] && s[0] == '0' then TrimLeftZeros(s[1..]) else s
  }

  function TrimRight(s: string, c: char): string {
    if s != [] && s[|s| - 1] == c then TrimRight(s[..|s| - 1], c) else s
  }

  function Zeros(n: nat): (s: string)
    ensures |s| == n && AllDigits(s)
  {
    seq(n, _ => '0')
  }

  function Exponent(p: Parts): Option<int> {
    if p.exponent == "" then Some(0) else
    match Atoi(p.exponent)
    case None => None
    case Some(e) => if e > MAX_EXPONENT || e < -MAX_EXPONENT then None else Some(e)
  }

  /** The unsigned body of the canonical form, before trailing zeros are dropped. */
  function Expand(digits: string, scale: int, budget: int): Option<string> {
    if scale <= 0 then
      if |digits| - scale > budget then None else Some(digits + Zeros(-scale))
    else if scale >= |digits| then
      if scale + 2 > budget then None else Some("0." + Zeros(scale - |digits|) + digits)
    else
      Some(digits[..|digits| - scale] + "." + digits[|digits| - scale..])
  }

  function DropTrailingZeros(body: string): string {
    if '.' in body then TrimRight(TrimRight(body, '0'), '.') else body
  }

  /** `canonicalDecimal`: the canonical form of an accepted number. */
  function Canonical(input: string): Option<string> {
    if |input| > MAX_STRING_BYTES then None else
    match Match(input)
    case None => None
    case Some(p) =>
      match Exponent(p)
      case None => None
      case Some(exponent) =>
        var digits := TrimLeftZeros(p.whole + p.frac);
        if digits == "" then Some("0") else
        var budget := MAX_STRING_BYTES - (if p.sign == "-" then 1 else 0);
        match Expand(digits, |p.frac| - exponent, budget)
        case None => None
        case Some(body) =>
          var trimmed := DropTrailingZeros(body);
          var result := if trimmed == "" then "0" else trimmed;
          var signed := if p.sign == "-" && result != "0" then "-" + result else result;
          if |signed| > MAX_STRING_BYTES then None else Some(signed)
  }
}
