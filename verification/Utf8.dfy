/**
 UTF-8 as section 4 of RFC 3629 gives its grammar, and the standard decoder's
 verdict on one buffer.
 */
module Utf8 {
  import opened Prelude

  predicate Tail(b: byte) {
    0x80 <= b <= 0xBF
  }

  /** One UTF8-char of the grammar: UTF8-1 to UTF8-4. */
  predicate IsChar(s: Bytes) {
    if |s| == 1 then s[0] <= 0x7F
    else if |s| == 2 then 0xC2 <= s[0] <= 0xDF && Tail(s[1])
    else if |s| == 3 then
      && Tail(s[2])
      && ((s[0] == 0xE0 && 0xA0 <= s[1] <= 0xBF)
          || (0xE1 <= s[0] <= 0xEC && Tail(s[1]))
          || (s[0] == 0xED && 0x80 <= s[1] <= 0x9F)
          || (0xEE <= s[0] <= 0xEF && Tail(s[1])))
    else if |s| == 4 then
      && Tail(s[2]) && Tail(s[3])
      && ((s[0] == 0xF0 && 0x90 <= s[1] <= 0xBF)
          || (0xF1 <= s[0] <= 0xF3 && Tail(s[1]))
          || (s[0] == 0xF4 && 0x80 <= s[1] <= 0x8F))
    else false
  }

  /** UTF8-octets: zero or more characters. */
  ghost predicate WellFormed(s: Bytes)
    decreases |s|
  {
    s == [] || exists k :: 1 <= k <= |s| && IsChar(s[..k]) && WellFormed(s[k..])
  }

  /** The length of the character `s` starts with, or 0. */
  function CharAt(s: Bytes): (k: nat)
    ensures k <= |s| && (k > 0 ==> IsChar(s[..k]))
  {
    if |s| >= 1 && IsChar(s[..1]) then 1
    else if |s| >= 2 && IsChar(s[..2]) then 2
    else if |s| >= 3 && IsChar(s[..3]) then 3
    else if |s| >= 4 && IsChar(s[..4]) then 4
    else 0
  }

  /** A string cut short inside a character: some bytes would complete it. */
  predicate Begins(s: Bytes) {
    if |s| == 1 then 0xC2 <= s[0] <= 0xF4
    else if |s| == 2 then
      || (s[0] == 0xE0 && 0xA0 <= s[1] <= 0xBF)
      || (0xE1 <= s[0] <= 0xEC && Tail(s[1]))
      || (s[0] == 0xED && 0x80 <= s[1] <= 0x9F)
      || (0xEE <= s[0] <= 0xEF && Tail(s[1]))
      || (s[0] == 0xF0 && 0x90 <= s[1] <= 0xBF)
      || (0xF1 <= s[0] <= 0xF3 && Tail(s[1]))
      || (s[0] == 0xF4 && 0x80 <= s[1] <= 0x8F)
    else if |s| == 3 then
      && Tail(s[2])
      && ((s[0] == 0xF0 && 0x90 <= s[1] <= 0xBF)
          || (0xF1 <= s[0] <= 0xF3 && Tail(s[1]))
          || (s[0] == 0xF4 && 0x80 <= s[1] <= 0x8F))
    else false
  }

  lemma BeginsIsAPrefixOfSome(s: Bytes)
    ensures Begins(s) <==> s != [] && exists t :: t != [] && IsChar(s + t)
  {
    if Begins(s) {
      var t: Bytes :=
        if |s| == 1 then
          (if s[0] <= 0xDF then [0x80] else if s[0] == 0xE0 then [0xA0, 0x80] else if s[0] <= 0xEF then [0x80, 0x80]
           else if s[0] == 0xF0 then [0x90, 0x80, 0x80] else [0x80, 0x80, 0x80])
        else if |s| == 2 then (if s[0] <= 0xEF then [0x80] else [0x80, 0x80])
        else [0x80];
      assert IsChar(s + t);
    }
  }

  /** What the standard decoder says of a buffer: it is UTF-8, or how far it is,
      and whether what follows is only cut short. */
  datatype Verdict = Valid | Invalid(validUpTo: nat, cutShort: bool)

  function FromUtf8(s: Bytes): (v: Verdict)
    ensures v.Invalid? ==> v.validUpTo <= |s| && (v.cutShort ==> Begins(s[v.validUpTo..]))
    decreases |s|
  {
    if s == [] then Valid
    else
      var k := CharAt(s);
      if k == 0 then Invalid(0, Begins(s))
      else match FromUtf8(s[k..])
           case Valid => Valid
           case Invalid(n, cut) => assert s[k..][n..] == s[k + n..]; Invalid(k + n, cut)
  }

  // ----- the grammar is prefix-free, so a decoder never has to look back

  /** How many bytes a lead byte's character takes, as the stream computes it. */
  function Width(lead: byte): nat {
    if lead >= 0xF0 then 4 else if lead >= 0xE0 then 3 else 2
  }

  lemma CharsAreUnique(s: Bytes, j: nat, k: nat)
    requires j <= |s| && k <= |s| && IsChar(s[..j]) && IsChar(s[..k])
    ensures j == k
  {
    assert s[..j][0] == s[0] && s[..k][0] == s[0];
  }

  lemma CharAtFindsIt(s: Bytes, k: nat)
    requires k <= |s| && IsChar(s[..k])
    ensures CharAt(s) == k
  {
    CharsAreUnique(s, k, CharAt(s));
  }

  /** A well-formed string starts with the character its decoder finds. */
  lemma WellFormedStep(s: Bytes)
    requires s != []
    ensures WellFormed(s) <==> CharAt(s) > 0 && WellFormed(s[CharAt(s)..])
  {
    if WellFormed(s) {
      var k :| 1 <= k <= |s| && IsChar(s[..k]) && WellFormed(s[k..]);
      CharAtFindsIt(s, k);
    }
  }

  lemma {:induction false} WellFormedThen(a: Bytes, b: Bytes)
    requires WellFormed(a)
    ensures WellFormed(a + b) <==> WellFormed(b)
    decreases |a|
  {
    hide IsChar, CharAt;
    if a == [] {
      assert a + b == b;
    } else {
      WellFormedStep(a);
      var k := CharAt(a);
      assert (a + b)[..k] == a[..k];
      CharAtFindsIt(a + b, k);
      WellFormedStep(a + b);
      assert (a + b)[k..] == a[k..] + b;
      WellFormedThen(a[k..], b);
    }
  }

  lemma ShortChar(s: Bytes, t: Bytes, k: nat)
    requires k <= |s| && IsChar((s + t)[..k])
    ensures CharAt(s) == k
  {
    assert (s + t)[..k] == s[..k];
    CharAtFindsIt(s, k);
  }

  lemma LongChar(s: Bytes, t: Bytes, k: nat)
    requires s != [] && |s| < k <= |s + t| && IsChar((s + t)[..k])
    ensures Begins(s)
  {
    assert (s + t)[..k] == s + t[..k - |s|];
    BeginsIsAPrefixOfSome(s);
  }

  /** No character starts here and none is cut short here: nothing that follows
      can make it well-formed. */
  lemma BadStaysBad(s: Bytes, t: Bytes)
    requires s != [] && CharAt(s) == 0 && !Begins(s)
    ensures !WellFormed(s + t)
  {
    hide IsChar, Begins;
    var k := CharAt(s + t);
    if 0 < k <= |s| {
      ShortChar(s, t, k);
    }
    if |s| < k {
      LongChar(s, t, k);
    }
    WellFormedStep(s + t);
  }

  /** After a lead byte of `Width` 2 to 4 a well-formed string has that many bytes,
      and they are one character. */
  lemma LeadTakesWidth(s: Bytes)
    requires s != [] && 0xC2 <= s[0] <= 0xF4 && WellFormed(s)
    ensures |s| >= Width(s[0]) && IsChar(s[..Width(s[0])]) && WellFormed(s[Width(s[0])..])
  {
    WellFormedStep(s);
    assert s[..CharAt(s)][0] == s[0];
  }

  /** The decoder's verdict is the grammar's, and says how far it holds. */
  lemma {:induction false} FromUtf8IsWellFormed(s: Bytes)
    ensures FromUtf8(s).Valid? <==> WellFormed(s)
    ensures FromUtf8(s).Invalid? ==> WellFormed(s[..FromUtf8(s).validUpTo])
    decreases |s|
  {
    hide IsChar, Begins, CharAt;
    if s != [] {
      WellFormedStep(s);
      var k := CharAt(s);
      if k == 0 {
        assert s[..0] == [];
      } else {
        FromUtf8IsWellFormed(s[k..]);
        CharIsWellFormed(s[..k]);
        var v := FromUtf8(s[k..]);
        if v.Invalid? {
          assert s[..k + v.validUpTo] == s[..k] + s[k..][..v.validUpTo];
          WellFormedThen(s[..k], s[k..][..v.validUpTo]);
        }
      }
    }
  }

  /** Where the decoder fails before the end, nothing that follows mends it. */
  lemma {:induction false} FailureIsFinal(s: Bytes, t: Bytes)
    requires FromUtf8(s).Invalid? && !FromUtf8(s).cutShort
    ensures !WellFormed(s + t)
    decreases |s|
  {
    hide IsChar, Begins, CharAt;
    var k := CharAt(s);
    if k == 0 {
      BadStaysBad(s, t);
    } else {
      FailureIsFinal(s[k..], t);
      CharIsWellFormed(s[..k]);
      assert s + t == s[..k] + (s[k..] + t);
      WellFormedThen(s[..k], s[k..] + t);
    }
  }

  lemma CharIsWellFormed(c: Bytes)
    requires IsChar(c)
    ensures WellFormed(c)
  {
    assert c[..|c|] == c && WellFormed(c[|c|..]);
  }
}
