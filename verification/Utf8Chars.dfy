/** Characters as section 3 of RFC 3629 encodes them, which is what Utf8 takes for them. */
module Utf8Chars {
  import opened Utf8
  import Excerpt

  /** A code point that has an encoding: the surrogates have none. */
  predicate IsScalar(r: int) {
    0 <= r <= 0xD7FF || 0xE000 <= r <= 0x10FFFF
  }

  /** The last six bits of r, as a continuing byte. */
  function TailOf(r: nat): (b: byte)
    ensures Tail(b)
  {
    0x80 + r % 0x40
  }

  /** What is left of r before its last six bits. */
  function Before(r: nat): (q: nat)
    ensures r == q * 0x40 + (TailOf(r) as int - 0x80)
  {
    r / 0x40
  }

  lemma BeforeIs(q: nat, b: byte)
    requires Tail(b)
    ensures Before(q * 0x40 + (b as int - 0x80)) == q && TailOf(q * 0x40 + (b as int - 0x80)) == b
  {
  }

  function Encoding(r: int): Bytes
    requires IsScalar(r)
  {
    if r < 0x80 then [r]
    else if r < 0x800 then [0xC0 + Before(r), TailOf(r)]
    else if r < 0x10000 then [0xE0 + Before(Before(r)), TailOf(Before(r)), TailOf(r)]
    else [0xF0 + Before(Before(Before(r))), TailOf(Before(Before(r))), TailOf(Before(r)), TailOf(r)]
  }

  /** What is encoded is read back, whatever follows it. */
  lemma EncodingIsRead(r: int, rest: Bytes)
    requires IsScalar(r)
    ensures CharLen(Encoding(r) + rest) == |Encoding(r)|
    ensures Excerpt.Rune(Encoding(r) + rest) == r
  {
    var s := Encoding(r) + rest;
    if r < 0x80 {
      assert s[0] == r;
    } else if r < 0x800 {
      assert s[0] == 0xC0 + Before(r) && s[1] == TailOf(r);
    } else if r < 0x10000 {
      ThreeAreRead(r, s);
    } else {
      FourAreRead(r, s);
    }
  }

  lemma ThreeAreRead(r: int, s: Bytes)
    requires IsScalar(r) && 0x800 <= r < 0x10000
    requires |s| >= 3 && s[0] == 0xE0 + Before(Before(r)) && s[1] == TailOf(Before(r)) && s[2] == TailOf(r)
    ensures CharLen(s) == 3 && Excerpt.Rune(s) == r
  {
  }

  lemma FourAreRead(r: int, s: Bytes)
    requires IsScalar(r) && 0x10000 <= r
    requires |s| >= 4 && s[0] == 0xF0 + Before(Before(Before(r))) && s[1] == TailOf(Before(Before(r)))
    requires s[2] == TailOf(Before(r)) && s[3] == TailOf(r)
    ensures CharLen(s) == 4 && Excerpt.Rune(s) == r
  {
  }

  /** And whatever is read as a character is the encoding of what it is read as: no overlong
      form, no surrogate and nothing beyond the last code point is. */
  lemma ReadIsEncoding(s: Bytes)
    requires CharLen(s) > 0
    ensures IsScalar(Excerpt.Rune(s)) && s[..CharLen(s)] == Encoding(Excerpt.Rune(s))
  {
    var n := CharLen(s);
    if n == 1 {
      assert s[..1] == [s[0]];
    } else if n == 2 {
      BeforeIs(s[0] as int - 0xC0, s[1]);
      assert s[..2] == [s[0], s[1]];
    } else if n == 3 {
      ThreeAreEncoding(s);
    } else {
      FourAreEncoding(s);
    }
  }

  lemma ThreeAreEncoding(s: Bytes)
    requires CharLen(s) == 3
    ensures IsScalar(Excerpt.Rune(s)) && s[..3] == Encoding(Excerpt.Rune(s))
  {
    var high := (s[0] as int - 0xE0) * 0x40 + (s[1] as int - 0x80);
    BeforeIs(s[0] as int - 0xE0, s[1]);
    BeforeIs(high, s[2]);
    assert Excerpt.Rune(s) == high * 0x40 + (s[2] as int - 0x80);
    assert s[..3] == [s[0], s[1], s[2]];
  }

  lemma FourAreEncoding(s: Bytes)
    requires CharLen(s) == 4
    ensures IsScalar(Excerpt.Rune(s)) && s[..4] == Encoding(Excerpt.Rune(s))
  {
    var high := (s[0] as int - 0xF0) * 0x40 + (s[1] as int - 0x80);
    var middle := high * 0x40 + (s[2] as int - 0x80);
    BeforeIs(s[0] as int - 0xF0, s[1]);
    BeforeIs(high, s[2]);
    BeforeIs(middle, s[3]);
    assert Excerpt.Rune(s) == middle * 0x40 + (s[3] as int - 0x80);
    assert s[..4] == [s[0], s[1], s[2], s[3]];
  }

  /** A character of a given length is at the head of a text exactly if it is the encoding of
      some code point. */
  lemma CharIff(s: Bytes, n: nat)
    requires 0 < n <= |s|
    ensures CharLen(s) == n <==> exists r: int :: IsScalar(r) && s[..n] == Encoding(r)
  {
    if CharLen(s) == n { ReadIsEncoding(s); }
    if r: int :| IsScalar(r) && s[..n] == Encoding(r) {
      EncodingIsRead(r, s[n..]);
      assert s[..n] + s[n..] == s;
    }
  }
}
