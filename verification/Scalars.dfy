/**
 What the grammar admits is what section 3 of RFC 3629 encodes: the numbers of
 Unicode's characters, each in its one shortest form.
 */
module Scalars {
  import opened Prelude
  import opened Utf8

  /** A number that UTF-8 encodes: no surrogate, and at most 10FFFF. */
  predicate Scalar(c: nat) {
    c <= 0xD7FF || 0xE000 <= c <= 0x10FFFF
  }

  function Encoded(c: nat): Bytes
    requires Scalar(c)
  {
    if c <= 0x7F then [c as byte]
    else if c <= 0x7FF then [(0xC0 + c / 64) as byte, Low(c)]
    else if c <= 0xFFFF then [(0xE0 + c / 4096) as byte, Low(c / 64), Low(c)]
    else [(0xF0 + c / 262144) as byte, Low(c / 4096), Low(c / 64), Low(c)]
  }

  /** The lowest six bits, in a tail octet. */
  function Low(c: nat): byte {
    (0x80 + c % 64) as byte
  }

  function Six(b: byte): nat
    requires 0x80 <= b
  {
    (b as nat) - 0x80
  }

  /** The number a character of the grammar carries. */
  function Carried(s: Bytes): nat
    requires IsChar(s)
  {
    if |s| == 1 then s[0] as nat
    else if |s| == 2 then ((s[0] as nat) - 0xC0) * 64 + Six(s[1])
    else if |s| == 3 then (((s[0] as nat) - 0xE0) * 64 + Six(s[1])) * 64 + Six(s[2])
    else ((((s[0] as nat) - 0xF0) * 64 + Six(s[1])) * 64 + Six(s[2])) * 64 + Six(s[3])
  }

  lemma SixBitsApart(high: nat, low: nat)
    requires low < 64
    ensures (high * 64 + low) / 64 == high && (high * 64 + low) % 64 == low
  {
  }

  /** Every encoding is a character of the grammar, and carries what it encodes. */
  lemma EncodedIsAChar(c: nat)
    requires Scalar(c)
    ensures IsChar(Encoded(c)) && Carried(Encoded(c)) == c
  {
    assert c / 4096 == c / 64 / 64 && c / 262144 == c / 64 / 64 / 64;
  }

  /** Every character of the grammar is the encoding of what it carries. */
  lemma CharIsEncoded(s: Bytes)
    requires IsChar(s)
    ensures Scalar(Carried(s)) && Encoded(Carried(s)) == s
  {
    if |s| == 2 {
      SixBitsApart((s[0] as nat) - 0xC0, Six(s[1]));
    } else if |s| == 3 {
      SixBitsApart((s[0] as nat) - 0xE0, Six(s[1]));
      SixBitsApart(((s[0] as nat) - 0xE0) * 64 + Six(s[1]), Six(s[2]));
      assert Carried(s) / 4096 == Carried(s) / 64 / 64;
    } else if |s| == 4 {
      LongCharIsEncoded(s);
    }
  }

  lemma LongCharIsEncoded(s: Bytes)
    requires IsChar(s) && |s| == 4
    ensures Scalar(Carried(s)) && Encoded(Carried(s)) == s
  {
    var c, top := Carried(s), ((s[0] as nat) - 0xF0) * 64 + Six(s[1]);
    SixBitsApart((s[0] as nat) - 0xF0, Six(s[1]));
    SixBitsApart(top, Six(s[2]));
    SixBitsApart(top * 64 + Six(s[2]), Six(s[3]));
    assert c / 4096 == c / 64 / 64 && c / 262144 == c / 64 / 64 / 64;
  }

  ghost predicate AllScalars(text: seq<nat>) {
    forall i :: 0 <= i < |text| ==> Scalar(text[i])
  }

  /** A text: its characters' encodings, end to end. */
  function EncodedAll(text: seq<nat>): Bytes
    requires AllScalars(text)
  {
    if text == [] then [] else Encoded(text[0]) + EncodedAll(text[1..])
  }

  ghost predicate IsText(s: Bytes) {
    exists text: seq<nat> :: AllScalars(text) && EncodedAll(text) == s
  }

  /** The well-formed strings are the encodings of the texts. */
  lemma {:induction false} WellFormedIsText(s: Bytes)
    ensures WellFormed(s) <==> IsText(s)
    decreases |s|
  {
    hide IsChar, Encoded, Carried;
    if s == [] {
      assert AllScalars([]) && EncodedAll([]) == s;
    } else {
      if WellFormed(s) {
        var k :| 1 <= k <= |s| && IsChar(s[..k]) && WellFormed(s[k..]);
        WellFormedIsText(s[k..]);
        CharThenText(s, k);
      }
      if IsText(s) {
        var k := TextBegins(s);
        WellFormedIsText(s[k..]);
      }
    }
  }

  lemma CharThenText(s: Bytes, k: nat)
    requires k <= |s| && IsChar(s[..k]) && IsText(s[k..])
    ensures IsText(s)
  {
    hide IsChar, Encoded, Carried, Scalar;
    var rest: seq<nat> :| AllScalars(rest) && EncodedAll(rest) == s[k..];
    CharIsEncoded(s[..k]);
    var text := [Carried(s[..k])] + rest;
    assert text[1..] == rest && s == s[..k] + s[k..];
    assert AllScalars(text) && EncodedAll(text) == s;
  }

  lemma TextBegins(s: Bytes) returns (k: nat)
    requires s != [] && IsText(s)
    ensures 1 <= k <= |s| && IsChar(s[..k]) && IsText(s[k..])
  {
    hide IsChar, Encoded, Carried, Scalar;
    var text: seq<nat> :| AllScalars(text) && EncodedAll(text) == s;
    EncodedIsAChar(text[0]);
    EncodedIsNotEmpty(text[0]);
    k := |Encoded(text[0])|;
    assert s[..k] == Encoded(text[0]) && s[k..] == EncodedAll(text[1..]);
    assert AllScalars(text[1..]);
  }

  lemma EncodedIsNotEmpty(c: nat)
    requires Scalar(c)
    ensures |Encoded(c)| > 0
  {
  }

  /** One string is the encoding of one text. */
  lemma {:induction false} TextIsUnique(a: seq<nat>, b: seq<nat>)
    requires AllScalars(a) && AllScalars(b)
    requires EncodedAll(a) == EncodedAll(b)
    ensures a == b
  {
    hide IsChar, Encoded, Carried;
    if a == [] || b == [] {
      if a != [] { EncodedIsNotEmpty(a[0]); }
      if b != [] { EncodedIsNotEmpty(b[0]); }
    } else {
      var s := EncodedAll(a);
      EncodedIsAChar(a[0]);
      EncodedIsAChar(b[0]);
      var j, k := |Encoded(a[0])|, |Encoded(b[0])|;
      assert s[..j] == Encoded(a[0]) && s[..k] == Encoded(b[0]);
      CharsAreUnique(s, j, k);
      assert s[j..] == EncodedAll(a[1..]) && s[k..] == EncodedAll(b[1..]);
      TextIsUnique(a[1..], b[1..]);
      assert a == [a[0]] + a[1..] && b == [b[0]] + b[1..];
    }
  }
}
