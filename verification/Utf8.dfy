/** UTF-8 as in section 3 and 4 of RFC 3629, over sequences of bytes. */
module Utf8 {

  type byte = b: int | 0 <= b < 256

  type Bytes = seq<byte>

  /** A byte that does not continue a character (utf8.RuneStart). */
  predicate RuneStart(b: byte) {
    b < 0x80 || b >= 0xC0
  }

  predicate Tail(b: byte) {
    0x80 <= b <= 0xBF
  }

  /** The length of the well-formed character at the head of s; 0 if there is none. */
  function CharLen(s: Bytes): (n: nat)
    ensures n <= 4 && n <= |s|
    ensures n > 0 ==> RuneStart(s[0])
    ensures forall i :: 1 <= i < n ==> !RuneStart(s[i])
  {
    if s == [] then 0
    else
      var b := s[0];
      if b < 0x80 then 1
      else if 0xC2 <= b <= 0xDF then
        if |s| >= 2 && Tail(s[1]) then 2 else 0
      else if 0xE0 <= b <= 0xEF then
        if |s| >= 3 && Tail(s[1]) && Tail(s[2])
           && (b == 0xE0 ==> s[1] >= 0xA0) && (b == 0xED ==> s[1] <= 0x9F) then 3 else 0
      else if 0xF0 <= b <= 0xF4 then
        if |s| >= 4 && Tail(s[1]) && Tail(s[2]) && Tail(s[3])
           && (b == 0xF0 ==> s[1] >= 0x90) && (b == 0xF4 ==> s[1] <= 0x8F) then 4 else 0
      else 0
  }

  /** A sequence of well-formed characters. */
  predicate Valid(s: Bytes) {
    s == [] || (CharLen(s) > 0 && Valid(s[CharLen(s)..]))
  }

  /** An offset at which a character starts, or the end. */
  predicate Boundary(s: Bytes, i: nat)
    requires i <= |s|
  {
    i == |s| || RuneStart(s[i])
  }

  /** The first boundary at or after i, but no further than high. */
  function Forward(s: Bytes, i: nat, high: nat): (r: nat)
    requires i <= high <= |s|
    ensures i <= r <= high && (r == high || RuneStart(s[r]))
    ensures forall j :: i <= j < r ==> !RuneStart(s[j])
    decreases high - i
  {
    if i < high && !RuneStart(s[i]) then Forward(s, i + 1, high) else i
  }

  /** The last boundary at or before i, but not before low. */
  function Back(s: Bytes, low: nat, i: nat): (r: nat)
    requires low <= i <= |s|
    ensures low <= r <= i && (r == low || Boundary(s, r))
    ensures forall j :: r < j <= i ==> !Boundary(s, j)
    decreases i
  {
    if i < |s| && i > low && !RuneStart(s[i]) then Back(s, low, i - 1) else i
  }

  lemma CharLenPrefix(s: Bytes, n: nat)
    requires CharLen(s) > 0 && CharLen(s) <= n <= |s|
    ensures CharLen(s[..n]) == CharLen(s)
  {
  }

  /** In valid text an offset is a boundary if and only if cutting there leaves
      valid text on both sides. */
  lemma {:induction false} BoundarySplits(s: Bytes, i: nat)
    requires Valid(s) && i <= |s|
    ensures Boundary(s, i) <==> Valid(s[..i]) && Valid(s[i..])
    ensures Boundary(s, i) <==> Valid(s[..i])
    ensures Boundary(s, i) <==> Valid(s[i..])
  {
    var n := CharLen(s);
    if i == 0 {
      assert s[0..] == s;
    } else if i < n {
      assert CharLen(s[..i]) == 0;
    } else {
      BoundarySplits(s[n..], i - n);
      CharLenPrefix(s, i);
      assert s[..i][n..] == s[n..][..i - n];
      assert s[i..] == s[n..][i - n..];
    }
  }

  /** Every character is at most four bytes, so at most three bytes in a row of
      valid text are not boundaries. */
  lemma {:induction false} BoundaryNear(s: Bytes, i: nat)
    requires Valid(s) && i <= |s|
    ensures exists j :: i - 3 <= j <= i && 0 <= j && Boundary(s, j)
  {
    if i == 0 {
      assert Boundary(s, 0);
    } else {
      var n := CharLen(s);
      if i < n {
        assert Boundary(s, 0);
      } else {
        BoundaryNear(s[n..], i - n);
        var j: int :| i - n - 3 <= j <= i - n && 0 <= j && Boundary(s[n..], j);
        assert Boundary(s, j + n);
      }
    }
  }

  lemma CharLenAppend(a: Bytes, b: Bytes)
    requires CharLen(a) > 0
    ensures CharLen(a + b) == CharLen(a)
  {
  }

  lemma {:induction false} ValidConcat(a: Bytes, b: Bytes)
    requires Valid(a) && Valid(b)
    ensures Valid(a + b)
  {
    if a == [] {
      assert a + b == b;
    } else {
      CharLenAppend(a, b);
      var n := CharLen(a);
      assert (a + b)[n..] == a[n..] + b;
      ValidConcat(a[n..], b);
    }
  }

  /** A character that starts before a boundary ends at or before it. */
  lemma CharEndsBy(s: Bytes, i: nat, j: nat)
    requires Valid(s) && i < j <= |s|
    requires Boundary(s, i) && Boundary(s, j)
    ensures 0 < CharLen(s[i..]) <= j - i
    ensures Boundary(s, i + CharLen(s[i..]))
  {
    BoundarySplits(s, i);
    var n := CharLen(s[i..]);
    if j < |s| {
      assert s[i..][j - i] == s[j];
    }
    BoundarySplits(s[i..], n);
    assert Boundary(s[i..], n);
  }

  lemma BoundaryBehind(s: Bytes, i: nat, j: nat)
    requires i <= j <= |s| && Boundary(s, i) && Boundary(s, j)
    ensures Boundary(s[i..], j - i)
  {
  }

  lemma ValidFrom(s: Bytes, i: nat)
    requires Valid(s) && i <= |s| && Boundary(s, i)
    ensures Valid(s[i..])
  {
    BoundarySplits(s, i);
  }

  lemma ValidUpTo(s: Bytes, i: nat)
    requires Valid(s) && i <= |s| && Boundary(s, i)
    ensures Valid(s[..i])
  {
    BoundarySplits(s, i);
  }

  lemma ValidBetween(s: Bytes, i: nat, j: nat)
    requires Valid(s) && i <= j <= |s|
    requires Boundary(s, i) && Boundary(s, j)
    ensures Valid(s[i..j])
  {
    assert s[i..][..j - i] == s[i..j];
    BoundaryBehind(s, i, j);
    ValidFrom(s, i);
    ValidUpTo(s[i..], j - i);
  }

  /** The code points with the property White_Space (unicode.IsSpace). */
  predicate IsSpace(r: int) {
    0x09 <= r <= 0x0D || r == 0x20 || r == 0x85 || r == 0xA0 || r == 0x1680
    || 0x2000 <= r <= 0x200A || r == 0x2028 || r == 0x2029 || r == 0x202F || r == 0x205F || r == 0x3000
  }
}
