/**
 What canonical decimals are for: they denote the number they were made from,
 they are their own canonical form, and no number has two of them.
 */
module DecimalLaws {
  import opened Wrappers
  import opened Text
  import opened Decimal
  import Parameters

  // ----- powers of ten -----

  function TenTo(n: nat): (p: nat)
    ensures p > 0
  {
    if n == 0 then 1 else 10 * TenTo(n - 1)
  }

  lemma {:induction false} TenToAdd(a: nat, b: nat)
    ensures TenTo(a + b) == TenTo(a) * TenTo(b)
  {
    if b > 0 { TenToAdd(a, b - 1); }
  }

  /** Multiplication and inversion by name, so that proofs can leave them unopened. */
  function Mul(x: real, y: real): real {
    x * y
  }

  function Inverse(x: real): (r: real)
    requires x > 0.0
    ensures r > 0.0
  {
    1.0 / x
  }

  function Ten(n: nat): (p: real)
    ensures p >= 1.0
  {
    TenTo(n) as real
  }

  function Pow10(k: int): (p: real)
    ensures p > 0.0
  {
    if k >= 0 then Ten(k) else Inverse(Ten(-k))
  }

  lemma RealProduct(p: nat, q: nat)
    ensures (p * q) as real == (p as real) * (q as real)
  {
  }

  lemma TenAdd(a: nat, b: nat)
    ensures Ten(a + b) == Mul(Ten(a), Ten(b))
  {
    TenToAdd(a, b);
    RealProduct(TenTo(a), TenTo(b));
    hide TenTo;
  }

  lemma CancelFactor(p: real, q: real)
    requires p > 0.0 && q > 0.0
    ensures Mul(Inverse(q), Mul(p, q)) == p
    ensures Mul(p, q) > 0.0 && Mul(Inverse(Mul(p, q)), q) == Inverse(p)
  {
    var u := 1.0 / q;
    assert u * q == 1.0;
    assert u * (p * q) == p * (u * q);
    var r := p * q;
    assert r > 0.0;
    var v := 1.0 / r;
    assert v * r == 1.0;
    assert (v * q) * p == v * r;
  }

  lemma Pow10Shift(k: int, n: nat)
    ensures Pow10(k + n) == Mul(Pow10(k), Ten(n))
  {
    hide Mul, Inverse, Ten;
    if k >= 0 {
      TenAdd(k, n);
    } else if k + n >= 0 {
      TenAdd(k + n, -k);
      CancelFactor(Ten(k + n), Ten(-k));
    } else {
      TenAdd(-k - n, n);
      CancelFactor(Ten(-k - n), Ten(n));
    }
  }

  // ----- digit strings -----

  lemma {:induction false} DigitsAppend(a: string, b: string)
    requires AllDigits(a) && AllDigits(b)
    ensures AllDigits(a + b) && DigitsValue(a + b) == DigitsValue(a) * TenTo(|b|) + DigitsValue(b)
  {
    if b == "" {
      assert a + b == a;
    } else {
      var init, whole := b[..|b| - 1], a + b;
      DigitsAppend(a, init);
      assert whole[..|whole| - 1] == a + init && whole[|whole| - 1] == b[|b| - 1];
      assert AllDigits(whole);
      TimesTen(DigitsValue(a), TenTo(|init|));
      assert DigitsValue(whole) == DigitsValue(a + init) * 10 + DigitValue(b[|b| - 1]) by { hide TenTo; }
    }
  }

  lemma TimesTen(x: nat, t: nat)
    ensures x * (10 * t) == (x * t) * 10
  {
  }

  lemma {:induction false} DigitsBelow(s: string)
    requires AllDigits(s)
    ensures DigitsValue(s) < TenTo(|s|)
  {
    if s != "" { DigitsBelow(s[..|s| - 1]); }
  }

  /** A digit string that does not start with a zero is at least the power of its length. */
  lemma {:induction false} DigitsAbove(s: string)
    requires AllDigits(s) && s != "" && s[0] != '0'
    ensures DigitsValue(s) >= TenTo(|s| - 1)
  {
    if |s| == 1 {
      assert s[..0] == "";
    } else {
      DigitsAbove(s[..|s| - 1]);
    }
  }

  lemma {:induction false} DigitsZeros(n: nat)
    ensures DigitsValue(Zeros(n)) == 0
  {
    if n > 0 {
      assert Zeros(n)[..n - 1] == Zeros(n - 1);
      DigitsZeros(n - 1);
    }
  }

  lemma DigitsPadded(s: string, n: nat)
    requires AllDigits(s)
    ensures DigitsValue(s + Zeros(n)) == DigitsValue(s) * TenTo(n)
    ensures DigitsValue(Zeros(n) + s) == DigitsValue(s)
  {
    DigitsAppend(s, Zeros(n));
    DigitsAppend(Zeros(n), s);
    DigitsZeros(n);
  }

  lemma {:induction false} SameLengthInjective(a: string, b: string)
    requires AllDigits(a) && AllDigits(b) && |a| == |b| && DigitsValue(a) == DigitsValue(b)
    ensures a == b
  {
    if a != "" {
      SameLengthInjective(a[..|a| - 1], b[..|b| - 1]);
      assert a == a[..|a| - 1] + [a[|a| - 1]] && b == b[..|b| - 1] + [b[|b| - 1]];
    }
  }

  lemma {:induction false} TenToMonotone(a: nat, b: nat)
    requires a <= b
    ensures TenTo(a) <= TenTo(b)
  {
    if a < b { TenToMonotone(a, b - 1); }
  }

  lemma {:induction false} TrimmedLeft(s: string)
    requires AllDigits(s)
    ensures var t := TrimLeftZeros(s);
            && AllDigits(t) && DigitsValue(t) == DigitsValue(s) && |t| <= |s|
            && (t != "" ==> t[0] != '0') && (t == "" <==> DigitsValue(s) == 0)
  {
    if s != "" && s[0] == '0' {
      TrimmedLeft(s[1..]);
      assert s == Zeros(1) + s[1..];
      DigitsPadded(s[1..], 1);
    } else if s != "" {
      DigitsAbove(s);
    }
  }

  /** Dropping the zeros behind a fraction divides by a power of ten, and leaves none. */
  lemma {:induction false} TrimmedRight(s: string)
    requires AllDigits(s)
    ensures var t := TrimRight(s, '0');
            && AllDigits(t) && |t| <= |s| && s == t + Zeros(|s| - |t|)
            && (t != "" ==> t[|t| - 1] != '0')
  {
    if s != "" && s[|s| - 1] == '0' {
      var init := s[..|s| - 1];
      TrimmedRight(init);
      var t := TrimRight(init, '0');
      assert s == init + "0";
      assert Zeros(|s| - |t|) == Zeros(|init| - |t|) + "0";
    }
  }

  // ----- what a string denotes -----

  /** The number with these digits, scaled by a power of ten. */
  function Scaled(negative: bool, digits: nat, k: int): real {
    var magnitude := Mul(digits as real, Pow10(k));
    if negative then -magnitude else magnitude
  }

  function ExponentOf(p: Parts): int
    requires p.exponent == "" || Atoi(p.exponent).Some?
  {
    if p.exponent == "" then 0 else Atoi(p.exponent).value
  }

  /** The rational number that the notation stands for. */
  function Denotes(s: string): Option<real> {
    match Match(s)
    case None => None
    case Some(p) =>
      DigitsTogether(p);
      Some(Scaled(p.sign == "-", DigitsValue(p.whole + p.frac), ExponentOf(p) - |p.frac|))
  }

  lemma DigitsTogether(p: Parts)
    requires AllDigits(p.whole) && AllDigits(p.frac)
    ensures AllDigits(p.whole + p.frac)
  {
  }

  /** A canonical number taken apart: no redundant zero on either side, and no negative zero. */
  datatype Form = Form(negative: bool, whole: string, frac: string)
  {
    predicate Normal() {
      && AllDigits(whole) && whole != "" && AllDigits(frac)
      && (whole == "0" || whole[0] != '0')
      && (frac != "" ==> frac[|frac| - 1] != '0')
      && (negative ==> whole != "0" || frac != "")
    }

    function Unsigned(): string {
      if frac == "" then whole else whole + "." + frac
    }

    function Written(): string {
      if negative then "-" + Unsigned() else Unsigned()
    }

    function Value(): real
      requires Normal()
    {
      assert AllDigits(whole + frac);
      Scaled(negative, DigitsValue(whole + frac), -|frac|)
    }
  }

  // ----- reading a normal form -----

  lemma {:induction false} SkipDigitsIs(s: string, from: nat, end: nat)
    requires from <= end <= |s| && (forall i | from <= i < end :: IsDigit(s[i])) && (end < |s| ==> !IsDigit(s[end]))
    ensures SkipDigits(s, from) == end
    decreases end - from
  {
    if from < end { SkipDigitsIs(s, from + 1, end); }
  }

  /** The groups found in a string made of them. */
  lemma MatchGroups(s: string, a: nat, b: nat)
    requires s != "" && a == (if IsSign(s[0]) then 1 else 0) && a < b <= |s|
    requires forall i | a <= i < b :: IsDigit(s[i])
    ensures b == |s| ==> Match(s) == Some(Parts(s[..a], s[a..b], "", ""))
    ensures b < |s| && s[b] == '.' && (forall i | b < i < |s| :: IsDigit(s[i])) ==>
      Match(s) == Some(Parts(s[..a], s[a..b], s[b + 1..|s|], ""))
  {
    if b == |s| {
      SkipDigitsIs(s, a, b);
    } else if s[b] == '.' && forall i | b < i < |s| :: IsDigit(s[i]) {
      SkipDigitsIs(s, a, b);
      SkipDigitsIs(s, b + 1, |s|);
    }
    hide SkipDigits;
  }

  lemma Slices(x: string, y: string, z: string)
    ensures var s := x + (y + z);
            s[..|x|] == x && s[|x|..|x| + |y|] == y && s[|x| + |y|..] == z
  {
  }

  lemma MatchForm(f: Form)
    requires f.Normal()
    ensures Match(f.Written()) == Some(Parts(if f.negative then "-" else "", f.whole, f.frac, ""))
  {
    var sign, tail := if f.negative then "-" else "", if f.frac == "" then "" else "." + f.frac;
    var s, a, b := sign + (f.whole + tail), |sign|, |sign| + |f.whole|;
    assert f.Unsigned() == f.whole + tail;
    assert f.Written() == s;
    Slices(sign, f.whole, tail);
    assert s[a] == f.whole[0] && IsDigit(f.whole[0]);
    assert f.negative ==> s[0] == '-';
    hide Match, Form.Unsigned, Form.Written;
    DigitsInside(s, a, b);
    if f.frac != "" {
      TailSlice(s, b, f.frac);
      DigitsInside(s, b + 1, |s|);
    }
    MatchGroups(s, a, b);
  }

  lemma DigitsInside(s: string, a: nat, b: nat)
    requires a <= b <= |s| && AllDigits(s[a..b])
    ensures forall i | a <= i < b :: IsDigit(s[i])
  {
    forall i | a <= i < b
      ensures IsDigit(s[i])
    {
      assert s[i] == s[a..b][i - a];
    }
  }

  lemma TailSlice(s: string, b: nat, frac: string)
    requires b <= |s| && s[b..] == "." + frac
    ensures b < |s| && s[b] == '.' && s[b + 1..|s|] == frac
  {
    assert s[b] == s[b..][0] && s[b + 1..|s|] == s[b..][1..];
  }

  lemma FormDenotes(f: Form)
    requires f.Normal()
    ensures Denotes(f.Written()) == Some(f.Value())
  {
    MatchForm(f);
    var p := Parts(if f.negative then "-" else "", f.whole, f.frac, "");
    assert Match(f.Written()) == Some(p) && ExponentOf(p) - |p.frac| == -|f.frac|;
    hide Match, Scaled, DigitsValue, Form.Written;
  }

  // ----- making a canonical form -----

  lemma MulZero(x: real)
    ensures Mul(0.0, x) == 0.0
  {
  }

  lemma MulAssociative(x: real, y: real, z: real)
    ensures Mul(Mul(x, y), z) == Mul(x, Mul(z, y))
  {
  }

  /** Trailing zeros only move the scale. */
  lemma ScaledShift(negative: bool, digits: nat, k: int, n: nat)
    ensures Scaled(negative, digits * TenTo(n), k) == Scaled(negative, digits, k + n)
  {
    RealProduct(digits, TenTo(n));
    assert (digits * TenTo(n)) as real == Mul(digits as real, Ten(n));
    MulAssociative(digits as real, Ten(n), Pow10(k));
    Pow10Shift(k, n);
    hide Mul, Ten, Pow10, TenTo;
  }

  lemma TrimmingKeepsValue(negative: bool, whole: string, frac: string)
    requires AllDigits(whole) && AllDigits(frac)
    ensures var trimmed := TrimRight(frac, '0');
            && AllDigits(whole + frac) && AllDigits(whole + trimmed)
            && Scaled(negative, DigitsValue(whole + frac), -|frac|)
            == Scaled(negative, DigitsValue(whole + trimmed), -|trimmed|)
  {
    var trimmed := TrimRight(frac, '0');
    TrimmedRight(frac);
    var n := |frac| - |trimmed|;
    assert whole + frac == (whole + trimmed) + Zeros(n);
    DigitsPadded(whole + trimmed, n);
    ScaledShift(negative, DigitsValue(whole + trimmed), -|frac|, n);
    hide Scaled, TenTo, DigitsValue, TrimRight;
  }

  lemma {:induction false} TrimRightStops(head: string, tail: string, c: char)
    requires head != "" && head[|head| - 1] != c
    ensures TrimRight(head + tail, c) == head + TrimRight(tail, c)
  {
    if tail == "" {
      assert head + tail == head;
    } else if tail[|tail| - 1] == c {
      var init := tail[..|tail| - 1];
      assert (head + tail)[..|head + tail| - 1] == head + init;
      TrimRightStops(head, init, c);
    }
  }

  lemma PointDropped(whole: string)
    requires AllDigits(whole) && whole != ""
    ensures TrimRight(whole + ".", '.') == whole
  {
    TrimRightStops(whole, ".", '.');
    assert "."[..0] == "" && TrimRight(".", '.') == "";
    assert whole + "" == whole;
  }

  /** What the two trims leave of a number with a point. */
  lemma DroppedZeros(whole: string, frac: string)
    requires AllDigits(whole) && whole != "" && AllDigits(frac)
    ensures DropTrailingZeros(whole + "." + frac) == Form(false, whole, TrimRight(frac, '0')).Unsigned()
  {
    var body, trimmed := whole + "." + frac, TrimRight(frac, '0');
    assert body[|whole|] == '.';
    TrimRightStops(whole + ".", frac, '0');
    TrimmedRight(frac);
    PointDropped(whole);
    var kept := whole + "." + trimmed;
    assert trimmed == "" ==> kept == whole + ".";
    assert trimmed != "" ==> kept[|kept| - 1] == trimmed[|trimmed| - 1] && IsDigit(trimmed[|trimmed| - 1]);
    assert trimmed != "" ==> TrimRight(kept, '.') == kept;
    hide TrimRight;
  }

  lemma NoPoint(body: string)
    requires AllDigits(body)
    ensures DropTrailingZeros(body) == body
  {
    forall i | 0 <= i < |body|
      ensures body[i] != '.'
    {
      assert IsDigit(body[i]);
    }
  }

  /** The digits with a point in the right place, as a normal form of the same value. */
  lemma PointedForm(negative: bool, whole: string, frac: string) returns (f: Form)
    requires AllDigits(whole) && whole != "" && AllDigits(frac) && (whole == "0" || whole[0] != '0')
    requires whole != "0" || TrimRight(frac, '0') != ""
    ensures f.Normal() && f.negative == negative && AllDigits(whole + frac)
    ensures f.Unsigned() == DropTrailingZeros(whole + "." + frac) && f.Unsigned() != "0"
    ensures f.Value() == Scaled(negative, DigitsValue(whole + frac), -|frac|)
  {
    f := Form(negative, whole, TrimRight(frac, '0'));
    DroppedZeros(whole, frac);
    TrimmedRight(frac);
    TrimmingKeepsValue(negative, whole, frac);
    hide Scaled, DigitsValue, TrimRight, DropTrailingZeros;
  }

  lemma WholeForm(negative: bool, digits: string, zeros: nat) returns (f: Form)
    requires AllDigits(digits) && digits != "" && digits[0] != '0'
    ensures f.Normal() && f.negative == negative
    ensures f.Unsigned() == DropTrailingZeros(digits + Zeros(zeros)) && f.Unsigned() != "0"
    ensures f.Value() == Scaled(negative, DigitsValue(digits), zeros)
  {
    f := Form(negative, digits + Zeros(zeros), "");
    NoPoint(f.whole);
    DigitsPadded(digits, zeros);
    ScaledShift(negative, DigitsValue(digits), 0, zeros);
    assert f.whole + "" == f.whole;
    assert f.whole[0] == digits[0];
    hide Scaled, DigitsValue, DropTrailingZeros;
  }

  lemma SmallForm(negative: bool, digits: string, zeros: nat) returns (f: Form)
    requires AllDigits(digits) && digits != "" && digits[0] != '0'
    ensures f.Normal() && f.negative == negative
    ensures f.Unsigned() == DropTrailingZeros("0." + Zeros(zeros) + digits) && f.Unsigned() != "0"
    ensures f.Value() == Scaled(negative, DigitsValue(digits), -(zeros + |digits|))
  {
    var frac := Zeros(zeros) + digits;
    FractionStays(digits, zeros);
    f := PointedForm(negative, "0", frac);
    assert "0." + Zeros(zeros) + digits == "0" + "." + frac;
    assert "0" == Zeros(1);
    DigitsPadded(frac, 1);
    DigitsPadded(digits, zeros);
    hide Scaled, DigitsValue, TrimRight, DropTrailingZeros, Form.Normal, Form.Unsigned, Form.Value;
  }

  lemma MixedForm(negative: bool, digits: string, scale: int) returns (f: Form)
    requires AllDigits(digits) && digits != "" && digits[0] != '0' && 0 < scale < |digits|
    ensures f.Normal() && f.negative == negative
    ensures f.Unsigned() == DropTrailingZeros(digits[..|digits| - scale] + "." + digits[|digits| - scale..])
    ensures f.Unsigned() != "0" && f.Value() == Scaled(negative, DigitsValue(digits), -scale)
  {
    var whole, frac := digits[..|digits| - scale], digits[|digits| - scale..];
    f := PointedForm(negative, whole, frac);
    assert whole + frac == digits;
    hide Scaled, DigitsValue, TrimRight, DropTrailingZeros, Form.Normal, Form.Unsigned, Form.Value;
  }

  /** The unsigned canonical body of nonzero digits, as a normal form of the same value. */
  lemma ExpandedForm(negative: bool, digits: string, scale: int, budget: int) returns (f: Form)
    requires AllDigits(digits) && digits != "" && digits[0] != '0' && Expand(digits, scale, budget).Some?
    ensures f.Normal() && f.negative == negative
    ensures f.Unsigned() == DropTrailingZeros(Expand(digits, scale, budget).value) && f.Unsigned() != "0"
    ensures f.Value() == Scaled(negative, DigitsValue(digits), -scale)
  {
    hide Scaled, DigitsValue, TrimRight, DropTrailingZeros, Form.Normal, Form.Unsigned, Form.Value;
    if scale <= 0 {
      f := WholeForm(negative, digits, -scale);
    } else if scale >= |digits| {
      f := SmallForm(negative, digits, scale - |digits|);
    } else {
      f := MixedForm(negative, digits, scale);
    }
  }

  lemma FractionStays(digits: string, n: nat)
    requires AllDigits(digits) && digits != "" && digits[0] != '0'
    ensures TrimRight(Zeros(n) + digits, '0') != ""
  {
    var frac := Zeros(n) + digits;
    TrimmedRight(frac);
    var t := TrimRight(frac, '0');
    assert frac[n] == digits[0];
    var padded := t + Zeros(|frac| - |t|);
    assert padded == frac && forall i | |t| <= i < |padded| :: padded[i] == '0';
  }

  lemma ZeroScaled(negative: bool, k: int)
    ensures Scaled(negative, 0, k) == 0.0
  {
    MulZero(Pow10(k));
  }

  /** What canonicalisation returns, from the groups of the input. */
  lemma CanonicalOf(s: string, p: Parts, e: int, digits: string, budget: int)
    requires Canonical(s).Some? && Match(s) == Some(p) && Exponent(p) == Some(e)
    requires digits == TrimLeftZeros(p.whole + p.frac) && budget == MAX_STRING_BYTES - (if p.sign == "-" then 1 else 0)
    ensures |Canonical(s).value| <= MAX_STRING_BYTES
    ensures digits == "" ==> Canonical(s) == Some("0")
    ensures digits != "" ==> Expand(digits, |p.frac| - e, budget).Some?
    ensures digits != "" ==>
      var trimmed := DropTrailingZeros(Expand(digits, |p.frac| - e, budget).value);
      trimmed != "" && trimmed != "0" ==> Canonical(s) == Some(if p.sign == "-" then "-" + trimmed else trimmed)
  {
    hide Match, Expand, DropTrailingZeros, TrimLeftZeros, Exponent;
  }

  lemma DenotesParts(s: string, p: Parts, e: int)
    requires Match(s) == Some(p) && Exponent(p) == Some(e)
    ensures AllDigits(p.whole + p.frac)
    ensures Denotes(s) == Some(Scaled(p.sign == "-", DigitsValue(p.whole + p.frac), e - |p.frac|))
  {
    DigitsTogether(p);
    assert e == ExponentOf(p);
    hide Match, Scaled, DigitsValue;
  }

  /** Canonicalisation keeps the number and yields a normal form within the size limit. */
  lemma CanonicalIsNormal(s: string) returns (f: Form)
    requires Canonical(s).Some?
    ensures f.Normal() && Canonical(s) == Some(f.Written()) && |f.Written()| <= MAX_STRING_BYTES
    ensures Denotes(s) == Some(f.Value())
  {
    var p := Match(s).value;
    var e := Exponent(p).value;
    DigitsTogether(p);
    TrimmedLeft(p.whole + p.frac);
    var digits, negative := TrimLeftZeros(p.whole + p.frac), p.sign == "-";
    var budget := MAX_STRING_BYTES - (if p.sign == "-" then 1 else 0);
    DenotesParts(s, p, e);
    CanonicalOf(s, p, e, digits, budget);
    f := NormalOf(s, p, e, digits, budget);
    hide *;
  }

  lemma NormalOf(s: string, p: Parts, e: int, digits: string, budget: int) returns (f: Form)
    requires Canonical(s).Some? && |Canonical(s).value| <= MAX_STRING_BYTES
    requires AllDigits(digits) && (digits != "" ==> digits[0] != '0')
    requires digits == "" ==> Canonical(s) == Some("0")
    requires digits != "" ==> Expand(digits, |p.frac| - e, budget).Some?
    requires digits != "" ==>
      var trimmed := DropTrailingZeros(Expand(digits, |p.frac| - e, budget).value);
      trimmed != "" && trimmed != "0" ==> Canonical(s) == Some(if p.sign == "-" then "-" + trimmed else trimmed)
    ensures f.Normal() && Canonical(s) == Some(f.Written()) && |f.Written()| <= MAX_STRING_BYTES
    ensures f.Value() == Scaled(p.sign == "-", DigitsValue(digits), e - |p.frac|)
  {
    hide Canonical, Scaled, Expand, DropTrailingZeros;
    if digits == "" {
      f := Form(false, "0", "");
      assert "0" + "" == "0";
      assert DigitsValue("0") == 0;
      ZeroScaled(p.sign == "-", e - |p.frac|);
      ZeroScaled(false, 0);
    } else {
      f := ExpandedForm(p.sign == "-", digits, |p.frac| - e, budget);
      assert -(|p.frac| - e) == e - |p.frac|;
      assert f.Unsigned() != "";
      hide DigitsValue, Form.Normal, Form.Unsigned, Form.Value;
    }
  }

  // ----- normal forms are canonical -----

  lemma {:induction false} LeftZeros(s: string)
    requires AllDigits(s)
    ensures var t := TrimLeftZeros(s); |t| <= |s| && s == Zeros(|s| - |t|) + t
  {
    if s != "" && s[0] == '0' {
      LeftZeros(s[1..]);
      var t := TrimLeftZeros(s[1..]);
      assert s == "0" + s[1..];
      assert Zeros(|s| - |t|) == "0" + Zeros(|s| - 1 - |t|);
    }
  }

  lemma NotTrimmed(s: string, c: char)
    requires s != "" ==> s[|s| - 1] != c
    ensures TrimRight(s, c) == s
  {
  }

  lemma NonzeroTail(s: string)
    requires AllDigits(s) && s != "" && s[|s| - 1] != '0'
    ensures DigitsValue(s) > 0
  {
  }

  /** The body rebuilt from the digits of a normal form is the form itself. */
  lemma ExpandRebuilds(f: Form, budget: int)
    requires f.Normal() && |f.Unsigned()| <= budget && f.Unsigned() != "0"
    ensures AllDigits(f.whole + f.frac)
    ensures Rebuilds(f, TrimLeftZeros(f.whole + f.frac), budget)
  {
    if f.frac == "" {
      assert f.whole + f.frac == f.whole;
      assert f.whole + Zeros(0) == f.whole;
      NoPoint(f.whole);
    } else if f.whole == "0" {
      RebuildsSmall(f, budget);
    } else {
      RebuildsMixed(f, budget);
    }
    hide DropTrailingZeros;
  }

  predicate Rebuilds(f: Form, digits: string, budget: int) {
    && digits != "" && Expand(digits, |f.frac|, budget).Some?
    && DropTrailingZeros(Expand(digits, |f.frac|, budget).value) == f.Unsigned()
  }

  lemma RebuildsMixed(f: Form, budget: int)
    requires f.Normal() && |f.Unsigned()| <= budget && f.whole != "0" && f.frac != ""
    ensures Rebuilds(f, TrimLeftZeros(f.whole + f.frac), budget)
  {
    var all := f.whole + f.frac;
    DroppedZeros(f.whole, f.frac);
    NotTrimmed(f.frac, '0');
    assert TrimLeftZeros(all) == all;
    assert all[..|all| - |f.frac|] == f.whole && all[|all| - |f.frac|..] == f.frac;
    hide DropTrailingZeros, TrimRight, TrimLeftZeros;
  }

  lemma SmallBody(f: Form, digits: string, budget: int)
    requires f.Normal() && f.whole == "0" && f.frac != "" && |f.frac| + 2 <= budget
    requires |digits| <= |f.frac| && f.frac == Zeros(|f.frac| - |digits|) + digits && digits != ""
    ensures Rebuilds(f, digits, budget)
  {
    DroppedZeros(f.whole, f.frac);
    NotTrimmed(f.frac, '0');
    assert "0." + Zeros(|f.frac| - |digits|) + digits == f.whole + "." + f.frac;
    hide DropTrailingZeros, TrimRight;
  }

  lemma RebuildsSmall(f: Form, budget: int)
    requires f.Normal() && |f.Unsigned()| <= budget && f.whole == "0" && f.frac != ""
    ensures Rebuilds(f, TrimLeftZeros(f.whole + f.frac), budget)
  {
    var all := f.whole + f.frac;
    assert all[1..] == f.frac;
    assert TrimLeftZeros(all) == TrimLeftZeros(f.frac);
    LeftZeros(f.frac);
    NonzeroTail(f.frac);
    TrimmedLeft(f.frac);
    hide DropTrailingZeros, TrimLeftZeros, DigitsValue, Rebuilds;
    SmallBody(f, TrimLeftZeros(f.frac), budget);
  }

  /** Canonicalising a string that carries no exponent. */
  lemma CanonicalOfParts(s: string, p: Parts, f: Form)
    requires |s| <= MAX_STRING_BYTES && Match(s) == Some(p) && p.exponent == ""
    requires p.sign == (if f.negative then "-" else "") && p.frac == f.frac && p.whole == f.whole
    requires Rebuilds(f, TrimLeftZeros(p.whole + p.frac), MAX_STRING_BYTES - (if f.negative then 1 else 0))
    requires f.Unsigned() != "" && f.Unsigned() != "0" && |f.Written()| <= MAX_STRING_BYTES
    ensures Canonical(s) == Some(f.Written())
  {
    hide Match, Expand, DropTrailingZeros, TrimLeftZeros, Form.Unsigned;
  }

  /** Every normal form within the size limit is its own canonical form. */
  lemma NormalIsCanonical(f: Form)
    requires f.Normal() && |f.Written()| <= MAX_STRING_BYTES
    ensures Canonical(f.Written()) == Some(f.Written())
  {
    MatchForm(f);
    if f.Unsigned() == "0" {
      ZeroForm(f);
      hide Match, Expand, DropTrailingZeros, TrimLeftZeros;
    } else {
      var budget := MAX_STRING_BYTES - (if f.negative then 1 else 0);
      assert f.Unsigned() != "";
      ExpandRebuilds(f, budget);
      CanonicalOfParts(f.Written(), Parts(if f.negative then "-" else "", f.whole, f.frac, ""), f);
      hide Canonical, Match, Rebuilds;
    }
  }

  lemma ZeroForm(f: Form)
    requires f.Normal() && f.Unsigned() == "0"
    ensures f.whole == "0" && f.frac == "" && !f.negative && TrimLeftZeros(f.whole + f.frac) == ""
  {
    assert f.frac != "" ==> |f.Unsigned()| >= 3;
    assert "0"[1..] == "";
    assert f.whole + f.frac == "0";
  }

  // ----- a number has one normal form -----

  lemma {:induction false} LastDigit(s: string, n: nat, x: nat)
    requires AllDigits(s) && s != "" && DigitsValue(s) == x * TenTo(n) && n > 0
    ensures s[|s| - 1] == '0'
  {
    TimesTen(x, TenTo(n - 1));
    var rest, d := DigitsValue(s[..|s| - 1]), DigitValue(s[|s| - 1]);
    assert DigitsValue(s) == rest * 10 + d;
    assert x * TenTo(n) == (x * TenTo(n - 1)) * 10;
    OnlyZero(rest, d, x * TenTo(n - 1));
  }

  lemma OnlyZero(a: int, d: nat, b: int)
    requires a * 10 + d == b * 10 && d < 10
    ensures d == 0
  {
  }

  lemma MulInjective(a: real, b: real, x: real)
    requires x > 0.0 && Mul(a, x) == Mul(b, x)
    ensures a == b
  {
    assert (a - b) * x == 0.0;
  }

  /** Equal values on the same scale have equal digits and signs, unless they are zero. */
  lemma ScaledInjective(p: bool, a: nat, q: bool, b: nat, k: int)
    requires Scaled(p, a, k) == Scaled(q, b, k)
    ensures a == b && (p == q || a == 0)
  {
    var x := Pow10(k);
    MulSign(a as real, x);
    MulSign(b as real, x);
    if Mul(a as real, x) == Mul(b as real, x) {
      MulInjective(a as real, b as real, x);
    }
    hide Mul;
  }

  lemma MulSign(a: real, x: real)
    requires a >= 0.0 && x > 0.0
    ensures Mul(a, x) >= 0.0 && (Mul(a, x) == 0.0 <==> a == 0.0)
  {
  }

  /** Digits without a redundant leading zero, split at the same place, are determined by their value. */
  lemma SplitInjective(w: string, f: string, x: string, g: string)
    requires AllDigits(w) && AllDigits(f) && AllDigits(x) && AllDigits(g) && |f| == |g|
    requires w != "" && (w == "0" || w[0] != '0') && x != "" && (x == "0" || x[0] != '0')
    requires AllDigits(w + f) && AllDigits(x + g) && DigitsValue(w + f) == DigitsValue(x + g)
    ensures w == x && f == g
  {
    SplitLength(w, f, x, g);
    SplitLength(x, g, w, f);
    SameLengthInjective(w + f, x + g);
    assert w == (w + f)[..|w|] && x == (x + g)[..|x|];
    assert f == (w + f)[|w|..] && g == (x + g)[|x|..];
  }

  lemma SplitLength(w: string, f: string, x: string, g: string)
    requires AllDigits(w + f) && AllDigits(x + g) && |f| == |g| && w != ""
    requires x != "" && (x == "0" || x[0] != '0') && DigitsValue(w + f) == DigitsValue(x + g)
    ensures |x| <= |w|
  {
    if |x| > 1 {
      var v, u := w + f, x + g;
      assert u[0] == x[0] && u != "" && |v| == |w| + |f| && |u| == |x| + |g|;
      LongerIsLarger(v, u);
    }
  }

  lemma TenToReflects(a: nat, b: nat)
    requires TenTo(a) < TenTo(b)
    ensures a < b
  {
    if b <= a { TenToMonotone(b, a); }
  }

  lemma LongerIsLarger(v: string, u: string)
    requires AllDigits(v) && AllDigits(u) && u != "" && u[0] != '0' && DigitsValue(v) >= DigitsValue(u)
    ensures |u| <= |v|
  {
    DigitsBelow(v);
    DigitsAbove(u);
    TenToReflects(|u| - 1, |v|);
    hide DigitsValue, TenTo;
  }

  lemma {:induction false} UniqueUpTo(a: Form, b: Form)
    requires a.Normal() && b.Normal() && a.Value() == b.Value() && |a.frac| <= |b.frac|
    ensures a == b
  {
    var n := |b.frac| - |a.frac|;
    var x, y := DigitsValue(a.whole + a.frac), DigitsValue(b.whole + b.frac);
    ScaledShift(a.negative, x, -|b.frac|, n);
    assert -|b.frac| + n == -|a.frac|;
    ScaledInjective(a.negative, x * TenTo(n), b.negative, y, -|b.frac|);
    assert y == x * TenTo(n);
    assert b.frac != "" ==> (b.whole + b.frac)[|b.whole + b.frac| - 1] == b.frac[|b.frac| - 1];
    if n > 0 {
      LastDigit(b.whole + b.frac, n, x);
    } else {
      assert TenTo(0) == 1;
      SplitInjective(a.whole, a.frac, b.whole, b.frac);
      SignsAgree(a, b);
    }
    hide Scaled, DigitsValue;
  }

  lemma SignsAgree(a: Form, b: Form)
    requires a.Normal() && b.Normal() && a.whole == b.whole && a.frac == b.frac && a.Value() == b.Value()
    ensures a.negative == b.negative
  {
    var x := DigitsValue(a.whole + a.frac);
    ScaledInjective(a.negative, x, b.negative, x, -|a.frac|);
    if x == 0 {
      ZeroDigits(a);
      ZeroDigits(b);
    }
    hide Scaled;
  }

  lemma ZeroDigits(f: Form)
    requires f.Normal() && DigitsValue(f.whole + f.frac) == 0
    ensures !f.negative
  {
    if f.frac != "" {
      NonzeroTail(f.whole + f.frac);
    } else {
      assert f.whole + f.frac == f.whole;
      if f.whole != "0" { DigitsAbove(f.whole); }
    }
  }

  // ----- the laws -----

  /** A canonical string denotes the number it was made from, fits, and is its own canonical form. */
  lemma CanonicalIsStable(s: string)
    requires Canonical(s).Some?
    ensures Denotes(Canonical(s).value) == Denotes(s)
    ensures |Canonical(s).value| <= MAX_STRING_BYTES
    ensures Canonical(Canonical(s).value) == Canonical(s)
  {
    var f := CanonicalIsNormal(s);
    FormDenotes(f);
    NormalIsCanonical(f);
    hide *;
  }

  /** Two accepted strings have the same canonical form exactly when they denote the same number. */
  lemma CanonicalDecidesEquality(s: string, t: string)
    requires Canonical(s).Some? && Canonical(t).Some?
    ensures Canonical(s) == Canonical(t) <==> Denotes(s) == Denotes(t)
  {
    var f := CanonicalIsNormal(s);
    var g := CanonicalIsNormal(t);
    FormDenotes(f);
    FormDenotes(g);
    if f.Value() == g.Value() {
      if |f.frac| <= |g.frac| { UniqueUpTo(f, g); } else { UniqueUpTo(g, f); }
    }
    hide *;
  }

  /** Every number the constructor accepts passes the validation of values. */
  lemma NewNumberIsValid(s: string)
    ensures Parameters.NewNumberValue(s).Some? <==> Canonical(s).Some?
    ensures Parameters.NewNumberValue(s).Some? ==> Parameters.NewNumberValue(s).value.Valid()
  {
    if Canonical(s).Some? { CanonicalIsStable(s); }
    hide Canonical;
  }
}
