/**
 The byte stream a request digest is computed from
 (application/execution/entry_completion_transaction.go): every field in order,
 strings with their length in front, all numbers as eight big-endian bytes.
 */
module Digests {

  const TWO_64: nat := 0x1_0000_0000_0000_0000

  /** A string whose length fits in a machine word. */
  type Text = s: string | |s| < TWO_64

  datatype Token = Str(text: Text) | Num(value: nat)
  {
    predicate Fits() {
      Num? ==> value < TWO_64
    }
  }

  /** `count` big-endian bytes of a number. */
  function Bytes(n: nat, count: nat): (s: string)
    ensures |s| == count
  {
    if count == 0 then "" else Bytes(n / 256, count - 1) + [(n % 256) as char]
  }

  function Power256(count: nat): nat {
    if count == 0 then 1 else 256 * Power256(count - 1)
  }

  lemma {:induction false} BytesInjective(a: nat, b: nat, count: nat)
    requires Bytes(a, count) == Bytes(b, count) && a < Power256(count) && b < Power256(count)
    ensures a == b
  {
    if count > 0 {
      var x, y := Bytes(a, count), Bytes(b, count);
      assert x[..count - 1] == Bytes(a / 256, count - 1) && y[..count - 1] == Bytes(b / 256, count - 1);
      assert x[count - 1] == y[count - 1];
      BytesInjective(a / 256, b / 256, count - 1);
    }
  }

  function Encoded(token: Token): string {
    match token
    case Str(text) => Bytes(|text|, 8) + text
    case Num(n) => Bytes(n, 8)
  }

  function Stream(tokens: seq<Token>): string {
    if tokens == [] then "" else Stream(tokens[..|tokens| - 1]) + Encoded(tokens[|tokens| - 1])
  }

  /** Two token lists of the same shape: strings against strings, numbers against numbers. */
  predicate SameShape(a: seq<Token>, b: seq<Token>) {
    |a| == |b| && forall i | 0 <= i < |a| :: a[i].Str? == b[i].Str? && a[i].Fits() && b[i].Fits()
  }

  lemma Power256Eight()
    ensures Power256(8) == TWO_64
  {
    assert Power256(4) == 0x1_0000_0000;
  }

  /** A token can be split off the front of a stream in only one way. */
  lemma TokenPrefixFree(a: Token, x: string, b: Token, y: string)
    requires a.Str? == b.Str? && a.Fits() && b.Fits() && Encoded(a) + x == Encoded(b) + y
    ensures a == b && x == y
  {
    Power256Eight();
    var s := Encoded(a) + x;
    if a.Num? {
      assert s[..8] == Bytes(a.value, 8) && (Encoded(b) + y)[..8] == Bytes(b.value, 8);
      BytesInjective(a.value, b.value, 8);
      assert s[8..] == x && (Encoded(b) + y)[8..] == y;
    } else {
      assert s[..8] == Bytes(|a.text|, 8) && (Encoded(b) + y)[..8] == Bytes(|b.text|, 8);
      BytesInjective(|a.text|, |b.text|, 8);
      var n := |a.text|;
      assert s[8..8 + n] == a.text && (Encoded(b) + y)[8..8 + n] == b.text;
      assert s[8 + n..] == x && (Encoded(b) + y)[8 + n..] == y;
    }
  }

  lemma {:induction false} StreamCons(tokens: seq<Token>)
    requires tokens != []
    ensures Stream(tokens) == Encoded(tokens[0]) + Stream(tokens[1..])
  {
    hide Encoded;
    if |tokens| == 1 {
      assert tokens[..0] == [] && tokens[1..] == [];
    } else {
      var init := tokens[..|tokens| - 1];
      StreamCons(init);
      assert init[1..] == tokens[1..][..|tokens| - 2];
      assert tokens[1..][|tokens| - 2] == tokens[|tokens| - 1];
    }
  }

  /** Equal streams of the same shape carry equal fields. */
  lemma {:induction false} StreamInjective(a: seq<Token>, b: seq<Token>)
    requires SameShape(a, b) && Stream(a) == Stream(b)
    ensures a == b
  {
    if a != [] {
      StreamCons(a);
      StreamCons(b);
      TokenPrefixFree(a[0], Stream(a[1..]), b[0], Stream(b[1..]));
      assert forall i | 0 <= i < |a[1..]| :: a[1..][i] == a[i + 1] && b[1..][i] == b[i + 1];
      StreamInjective(a[1..], b[1..]);
      assert a == [a[0]] + a[1..] && b == [b[0]] + b[1..];
    }
  }

  /** Streams that start with different tags differ, whatever follows. */
  lemma TagsSeparate(a: seq<Token>, b: seq<Token>)
    requires a != [] && b != [] && a[0].Str? && b[0].Str? && a[0] != b[0]
    ensures Stream(a) != Stream(b)
  {
    StreamCons(a);
    StreamCons(b);
    if Stream(a) == Stream(b) {
      TokenPrefixFree(a[0], Stream(a[1..]), b[0], Stream(b[1..]));
    }
  }

  /** The writer a digest is fed through. */
  class Writer {
    ghost var tokens: seq<Token>
    var written: string

    constructor ()
      ensures tokens == [] && Valid()
    {
      tokens, written := [], "";
    }

    ghost predicate Valid()
      reads this
    {
      written == Stream(tokens)
    }

    method WriteUint64(value: nat)
      requires Valid() && value < TWO_64
      modifies this
      ensures Valid() && tokens == old(tokens) + [Num(value)]
    {
      written := written + Bytes(value, 8);
      tokens := tokens + [Num(value)];
      assert tokens[..|tokens| - 1] == old(tokens);
    }

    method WriteString(value: Text)
      requires Valid()
      modifies this
      ensures Valid() && tokens == old(tokens) + [Str(value)]
    {
      written := written + Bytes(|value|, 8);
      written := written + value;
      tokens := tokens + [Str(value)];
      assert tokens[..|tokens| - 1] == old(tokens);
      assert old(written) + Bytes(|value|, 8) + value == old(written) + (Bytes(|value|, 8) + value);
    }
  }
}
