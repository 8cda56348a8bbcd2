/**
 Element fingerprints and their canonical text (domain/heal/order.go): every
 string with its length in front and the attributes in order of their names, so
 that the text tells any two fingerprints apart but for their framework. A
 character is a code point; lengths count the bytes of its UTF-8 encoding.
 */
module Fingerprints {
  import opened Wrappers
  import opened Text

  datatype FrameworkInfo = FrameworkInfo(kind: string, version: string)

  datatype Fingerprint = Fingerprint(tag: string, attributes: map<string, string>, text: string, role: string,
    name: string, path: seq<string>, siblingIndex: int, prev: string, next: string, parentTag: string,
    labelText: string, formId: string, framework: seq<FrameworkInfo>)
  {
    function Attribute(key: string): string {
      if key in attributes then attributes[key] else ""
    }
  }

  // ----- the order of strings -----

  /** Byte order of strings. */
  predicate Before(a: string, b: string) {
    b != "" && (a == "" || a[0] < b[0] || (a[0] == b[0] && Before(a[1..], b[1..])))
  }

  lemma {:induction false} BeforeIsAsymmetric(a: string, b: string)
    ensures !(Before(a, b) && Before(b, a))
    ensures a == b ==> !Before(a, b)
    ensures a != b ==> Before(a, b) || Before(b, a)
  {
    if a != "" && b != "" {
      BeforeIsAsymmetric(a[1..], b[1..]);
      assert a == [a[0]] + a[1..] && b == [b[0]] + b[1..];
    }
  }

  lemma {:induction false} BeforeIsTransitive(a: string, b: string, c: string)
    requires Before(a, b) && Before(b, c)
    ensures Before(a, c)
  {
    if a != "" && a[0] == b[0] && b[0] == c[0] { BeforeIsTransitive(a[1..], b[1..], c[1..]); }
  }

  predicate Least(keys: set<string>, k: string) {
    k in keys && forall x | x in keys :: x == k || Before(k, x)
  }

  lemma {:induction false} LeastExists(keys: set<string>) returns (k: string)
    requires keys != {}
    ensures Least(keys, k)
  {
    var one :| one in keys;
    var others := keys - {one};
    assert forall x | x in keys :: x == one || x in others;
    if others == {} {
      k := one;
    } else {
      var least := LeastExists(others);
      BeforeIsAsymmetric(one, least);
      k := if Before(one, least) then one else least;
      forall x | x in keys
        ensures x == k || Before(k, x)
      {
        if x != one && x != least && k == one { BeforeIsTransitive(one, least, x); }
      }
    }
  }

  lemma LeastIsUnique(keys: set<string>)
    requires keys != {}
    ensures exists k :: Least(keys, k)
    ensures forall a, b | Least(keys, a) && Least(keys, b) :: a == b
  {
    var k := LeastExists(keys);
    forall a, b | Least(keys, a) && Least(keys, b)
      ensures a == b
    {
      BeforeIsAsymmetric(a, b);
    }
  }

  /** The names in byte order. */
  function Ascending(keys: set<string>): (s: seq<string>)
    ensures forall k :: k in s <==> k in keys
  {
    if keys == {} then [] else
    LeastIsUnique(keys);
    var k :| Least(keys, k);
    [k] + Ascending(keys - {k})
  }

  // ----- the canonical text -----

  function ByteCount(c: char): nat {
    if c < 0x80 as char then 1 else if c < 0x800 as char then 2 else if c < 0x10000 as char then 3 else 4
  }

  /** Length of a string in bytes. */
  function ByteLength(s: string): nat {
    if s == "" then 0 else ByteCount(s[0]) + ByteLength(s[1..])
  }

  function SignedItoa(n: int): string {
    if n < 0 then "-" + Itoa(-n) else Itoa(n)
  }

  /** `writeCanonicalInt`. */
  function Number(n: int): string {
    SignedItoa(n) + ";"
  }

  /** `writeCanonicalString`. */
  function Prefixed(s: string): string {
    Number(ByteLength(s)) + ":" + s
  }

  function AllPrefixed(strings: seq<string>): string {
    if strings == [] then "" else Prefixed(strings[0]) + AllPrefixed(strings[1..])
  }

  /** Names and values in turn, by name. */
  function Flat(names: seq<string>, attributes: map<string, string>): (s: seq<string>)
    requires forall n | n in names :: n in attributes
    ensures |s| == 2 * |names|
  {
    if names == [] then [] else [names[0], attributes[names[0]]] + Flat(names[1..], attributes)
  }

  /** `fingerprintCanonicalKey`. */
  function CanonicalKey(f: Fingerprint): string {
    var names := Ascending(f.attributes.Keys);
    Prefixed(f.tag) + (Number(|names|) + (AllPrefixed(Flat(names, f.attributes))
      + (AllPrefixed([f.text, f.role, f.name]) + (Number(|f.path|) + (AllPrefixed(f.path)
      + (Number(f.siblingIndex) + AllPrefixed([f.prev, f.next, f.parentTag, f.labelText, f.formId])))))))
  }

  // ----- it tells fingerprints apart -----

  lemma SignedRoundTrip(n: int)
    ensures Atoi(SignedItoa(n)) == Some(n)
    ensures forall i | 0 <= i < |SignedItoa(n)| :: SignedItoa(n)[i] != ';'
  {
    if n < 0 { ItoaRoundTrip(-n); } else { AtoiOfItoa(n); }
  }

  lemma FirstSemicolon(n: int, x: string)
    ensures IndexFrom(Number(n) + x, ';', 0) == Some(|SignedItoa(n)|)
  {
    SignedRoundTrip(n);
    var s := Number(n) + x;
    assert forall i | 0 <= i < |SignedItoa(n)| :: s[i] == SignedItoa(n)[i];
    IndexFromIs(s, ';', 0, |SignedItoa(n)|);
  }

  /** A number can be split off the front of a text in only one way. */
  lemma NumberSplits(m: int, x: string, n: int, y: string)
    requires Number(m) + x == Number(n) + y
    ensures m == n && x == y
  {
    FirstSemicolon(m, x);
    FirstSemicolon(n, y);
    var s, k := Number(m) + x, |SignedItoa(m)|;
    assert s[..k] == SignedItoa(m) && (Number(n) + y)[..k] == SignedItoa(n);
    SignedRoundTrip(m);
    SignedRoundTrip(n);
    assert s[k + 1..] == x && (Number(n) + y)[k + 1..] == y;
    hide SignedItoa, IndexFrom, Atoi;
  }

  /** So can a string of a known number of bytes. */
  lemma {:induction false} BytesSplit(a: string, x: string, b: string, y: string)
    requires a + x == b + y && ByteLength(a) == ByteLength(b)
    ensures a == b && x == y
  {
    if a == "" || b == "" {
      assert a == "" && b == "" && a + x == x && b + y == y;
    } else {
      assert (a + x)[0] == a[0] && (b + y)[0] == b[0];
      assert (a + x)[1..] == a[1..] + x && (b + y)[1..] == b[1..] + y;
      BytesSplit(a[1..], x, b[1..], y);
      assert a == [a[0]] + a[1..] && b == [b[0]] + b[1..];
    }
  }

  lemma PrefixedSplits(a: string, x: string, b: string, y: string)
    requires Prefixed(a) + x == Prefixed(b) + y
    ensures a == b && x == y
  {
    assert Prefixed(a) + x == Number(ByteLength(a)) + (":" + (a + x));
    assert Prefixed(b) + y == Number(ByteLength(b)) + (":" + (b + y));
    hide Number, ByteLength;
    NumberSplits(ByteLength(a), ":" + (a + x), ByteLength(b), ":" + (b + y));
    assert (":" + (a + x))[1..] == a + x && (":" + (b + y))[1..] == b + y;
    BytesSplit(a, x, b, y);
  }

  lemma AllPrefixedStarts(s: seq<string>, x: string)
    requires s != []
    ensures AllPrefixed(s) + x == Prefixed(s[0]) + (AllPrefixed(s[1..]) + x)
  {
    hide Prefixed;
  }

  lemma {:induction false} AllSplit(a: seq<string>, x: string, b: seq<string>, y: string)
    requires |a| == |b| && AllPrefixed(a) + x == AllPrefixed(b) + y
    ensures a == b && x == y
  {
    if a == [] {
      assert AllPrefixed(a) + x == x && AllPrefixed(b) + y == y;
    } else {
      var p, q := AllPrefixed(a[1..]), AllPrefixed(b[1..]);
      AllPrefixedStarts(a, x);
      AllPrefixedStarts(b, y);
      hide Prefixed, AllPrefixed;
      PrefixedSplits(a[0], p + x, b[0], q + y);
      AllSplit(a[1..], x, b[1..], y);
      assert a == [a[0]] + a[1..] && b == [b[0]] + b[1..];
    }
  }

  /** Names and values in turn determine the names, and the value of each. */
  lemma {:induction false} FlatSplits(m: seq<string>, a: map<string, string>, n: seq<string>, b: map<string, string>)
    requires (forall k | k in m :: k in a) && (forall k | k in n :: k in b)
    requires Flat(m, a) == Flat(n, b)
    ensures m == n && forall k | k in m :: a[k] == b[k]
  {
    var s, t := Flat(m, a), Flat(n, b);
    assert |m| == |n|;
    if m != [] {
      assert s[0] == m[0] && t[0] == n[0] && s[1] == a[m[0]] && t[1] == b[n[0]];
      assert s[2..] == Flat(m[1..], a) && t[2..] == Flat(n[1..], b);
      FlatSplits(m[1..], a, n[1..], b);
      assert m == [m[0]] + m[1..] && n == [n[0]] + n[1..];
    }
  }

  lemma AttributesSplit(a: map<string, string>, b: map<string, string>)
    requires Flat(Ascending(a.Keys), a) == Flat(Ascending(b.Keys), b)
    ensures a == b
  {
    FlatSplits(Ascending(a.Keys), a, Ascending(b.Keys), b);
    hide Ascending, Flat;
    assert forall k :: k in a.Keys <==> k in Ascending(a.Keys);
    assert forall k :: k in b.Keys <==> k in Ascending(b.Keys);
    assert a.Keys == b.Keys;
  }

  /** Two fingerprints have the same canonical text exactly when they differ at most in their framework. */
  lemma KeyIsCanonical(a: Fingerprint, b: Fingerprint)
    ensures CanonicalKey(a) == CanonicalKey(b) <==> a.(framework := []) == b.(framework := [])
  {
    if CanonicalKey(a) == CanonicalKey(b) {
      KeySplits(a, b);
    }
    hide Ascending, Flat, AllPrefixed, Prefixed, Number;
  }

  /** What follows the attributes in the canonical text. */
  function Tail(f: Fingerprint): string {
    AllPrefixed([f.text, f.role, f.name]) + (Number(|f.path|) + (AllPrefixed(f.path)
      + (Number(f.siblingIndex) + AllPrefixed([f.prev, f.next, f.parentTag, f.labelText, f.formId]))))
  }

  lemma TailSplits(a: Fingerprint, b: Fingerprint)
    requires Tail(a) == Tail(b)
    ensures a.text == b.text && a.role == b.role && a.name == b.name && a.path == b.path
    ensures a.siblingIndex == b.siblingIndex && a.prev == b.prev && a.next == b.next
    ensures a.parentTag == b.parentTag && a.labelText == b.labelText && a.formId == b.formId
  {
    var s, t := [a.text, a.role, a.name], [b.text, b.role, b.name];
    var u, v := [a.prev, a.next, a.parentTag, a.labelText, a.formId], [b.prev, b.next, b.parentTag, b.labelText, b.formId];
    var x4, y4 := AllPrefixed(u), AllPrefixed(v);
    var x3, y3 := Number(a.siblingIndex) + x4, Number(b.siblingIndex) + y4;
    var x2, y2 := AllPrefixed(a.path) + x3, AllPrefixed(b.path) + y3;
    var x1, y1 := Number(|a.path|) + x2, Number(|b.path|) + y2;
    hide AllPrefixed, Number;
    AllSplit(s, x1, t, y1);
    NumberSplits(|a.path|, x2, |b.path|, y2);
    AllSplit(a.path, x3, b.path, y3);
    NumberSplits(a.siblingIndex, x4, b.siblingIndex, y4);
    assert x4 + "" == x4 && y4 + "" == y4;
    AllSplit(u, "", v, "");
    assert a.text == s[0] && a.role == s[1] && a.name == s[2];
    assert a.prev == u[0] && a.next == u[1] && a.parentTag == u[2] && a.labelText == u[3] && a.formId == u[4];
  }

  lemma KeySplits(a: Fingerprint, b: Fingerprint)
    requires CanonicalKey(a) == CanonicalKey(b)
    ensures a.(framework := []) == b.(framework := [])
  {
    var m, n := Ascending(a.attributes.Keys), Ascending(b.attributes.Keys);
    var p, q := Flat(m, a.attributes), Flat(n, b.attributes);
    hide Ascending, Flat, AllPrefixed, Prefixed, Number;
    PrefixedSplits(a.tag, Number(|m|) + (AllPrefixed(p) + Tail(a)), b.tag, Number(|n|) + (AllPrefixed(q) + Tail(b)));
    NumberSplits(|m|, AllPrefixed(p) + Tail(a), |n|, AllPrefixed(q) + Tail(b));
    AllSplit(p, Tail(a), q, Tail(b));
    TailSplits(a, b);
    AttributesSplit(a.attributes, b.attributes);
  }
}
