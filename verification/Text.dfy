/**
 String primitives of the host language that the modelled code relies on.
 A string is a sequence of bytes, one `char` each.
 */
module Text {
  import opened Wrappers

  /** The largest identity, and the largest parameter string, in bytes. */
  const MAX_STRING_BYTES: nat := 64 * 1024

  predicate IsSpace(c: char) {
    c == ' ' || '\t' <= c <= '\r'
  }

  /** A string that trims to nothing. */
  predicate Blank(s: string) {
    forall i | 0 <= i < |s| :: IsSpace(s[i])
  }

  predicate IsDigit(c: char) {
    '0' <= c <= '9'
  }

  predicate AllDigits(s: string) {
    forall i | 0 <= i < |s| :: IsDigit(s[i])
  }

  function DigitOf(d: nat): (c: char)
    requires d < 10
    ensures IsDigit(c) && DigitValue(c) == d
  {
    ('0' as int + d) as char
  }

  function DigitValue(c: char): (d: nat)
    requires IsDigit(c)
    ensures d < 10 && '0' as int + d == c as int
  {
    c as int - '0' as int
  }

  /** Decimal rendering of a natural number, without leading zeros. */
  function Itoa(n: nat): (s: string)
    ensures s != [] && AllDigits(s)
  {
    if n < 10 then [DigitOf(n)] else Itoa(n / 10) + [DigitOf(n % 10)]
  }

  /** The number a digit string denotes; the empty string denotes zero. */
  function DigitsValue(s: string): nat
    requires AllDigits(s)
  {
    if s == [] then 0 else DigitsValue(s[..|s| - 1]) * 10 + DigitValue(s[|s| - 1])
  }

  lemma {:induction false} ItoaRoundTrip(n: nat)
    ensures DigitsValue(Itoa(n)) == n
  {
    var s := Itoa(n);
    if n < 10 {
      assert s[..|s| - 1] == [];
    } else {
      ItoaRoundTrip(n / 10);
      assert s[..|s| - 1] == Itoa(n / 10);
    }
  }

  /** Signed decimal parse: an optional sign and at least one digit. */
  function Atoi(s: string): Option<int> {
    if s == [] then None
    else if s[0] == '-' || s[0] == '+' then
      if |s| == 1 || !AllDigits(s[1..]) then None
      else
        var magnitude: int := DigitsValue(s[1..]);
        Some(if s[0] == '-' then -magnitude else magnitude)
    else if !AllDigits(s) then None
    else Some(DigitsValue(s))
  }

  lemma AtoiOfItoa(n: nat)
    ensures Atoi(Itoa(n)) == Some(n)
  {
    ItoaRoundTrip(n);
    assert IsDigit(Itoa(n)[0]);
  }

  /** Position of the first `c` at or after `from`, if there is one. */
  function IndexFrom(s: string, c: char, from: nat): (r: Option<nat>)
    requires from <= |s|
    ensures r.None? ==> forall i | from <= i < |s| :: s[i] != c
    ensures r.Some? ==> from <= r.value < |s| && s[r.value] == c
    ensures r.Some? ==> forall i | from <= i < r.value :: s[i] != c
    decreases |s| - from
  {
    if from == |s| then None
    else if s[from] == c then Some(from)
    else IndexFrom(s, c, from + 1)
  }

  lemma IndexFromIs(s: string, c: char, from: nat, i: nat)
    requires from <= i < |s| && s[i] == c && forall j | from <= j < i :: s[j] != c
    ensures IndexFrom(s, c, from) == Some(i)
  {
  }
}
