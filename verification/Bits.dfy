/**
 An unsigned machine word as a set of small numbers, and counting its members.
 The bitwise operators are given by the binary digits of their operands.
 */
module Bits {

  function And(x: nat, y: nat): nat {
    if x == 0 || y == 0 then 0
    else (if x % 2 == 1 && y % 2 == 1 then 1 else 0) + 2 * And(x / 2, y / 2)
  }

  function Or(x: nat, y: nat): nat
    decreases x + y
  {
    if x == 0 && y == 0 then 0
    else (if x % 2 == 1 || y % 2 == 1 then 1 else 0) + 2 * Or(x / 2, y / 2)
  }

  /** 1 shifted left by t. */
  function Shifted(t: nat): nat {
    if t == 0 then 1 else 2 * Shifted(t - 1)
  }

  predicate Bit(b: nat, i: nat)
    decreases i
  {
    if i == 0 then b % 2 == 1 else Bit(b / 2, i - 1)
  }

  /** The positions whose bit is set. */
  function Members(b: nat): set<nat> {
    if b == 0 then {} else (if b % 2 == 1 then {0} else {}) + Up(Members(b / 2))
  }

  function Up(s: set<nat>): set<nat> {
    set i | i in s :: i + 1
  }

  lemma {:induction false} UpSize(s: set<nat>)
    ensures |Up(s)| == |s|
  {
    if s != {} {
      var x :| x in s;
      UpSize(s - {x});
      UpAdd(s - {x}, x);
      assert s == s - {x} + {x};
    }
  }

  lemma UpAdd(s: set<nat>, x: nat)
    ensures Up(s + {x}) == Up(s) + {x + 1}
    ensures x + 1 in Up(s) <==> x in s
  {
    assert x in s + {x};
  }

  function Ones(b: nat): nat {
    if b == 0 then 0 else b % 2 + Ones(b / 2)
  }

  lemma {:induction false} MembersCounted(b: nat)
    ensures |Members(b)| == Ones(b)
  {
    if b > 0 {
      MembersCounted(b / 2);
      UpSize(Members(b / 2));
    }
  }

  lemma {:induction false} MemberIsBit(b: nat, i: nat)
    ensures i in Members(b) <==> Bit(b, i)
    decreases i
  {
    if b == 0 {
      ZeroHasNoBit(i);
    } else if i > 0 {
      MemberIsBit(b / 2, i - 1);
    }
  }

  lemma {:induction false} ZeroHasNoBit(i: nat)
    ensures !Bit(0, i)
  {
    if i > 0 { ZeroHasNoBit(i - 1); }
  }

  lemma {:induction false} OrBit(x: nat, y: nat, i: nat)
    ensures Bit(Or(x, y), i) <==> Bit(x, i) || Bit(y, i)
    decreases i
  {
    if x == 0 && y == 0 {
      ZeroHasNoBit(i);
    } else if i > 0 {
      OrBit(x / 2, y / 2, i - 1);
    }
  }

  lemma {:induction false} ShiftedBit(t: nat, i: nat)
    ensures Bit(Shifted(t), i) <==> i == t
    decreases i
  {
    if i > 0 {
      if t == 0 { ZeroHasNoBit(i - 1); } else { ShiftedBit(t - 1, i - 1); }
    }
  }

  /** Setting the bit of t adds t to the members. */
  lemma SetBit(b: nat, t: nat)
    ensures Members(Or(b, Shifted(t))) == Members(b) + {t}
  {
    forall i: nat ensures i in Members(Or(b, Shifted(t))) <==> i in Members(b) + {t} {
      OrBit(b, Shifted(t), i);
      ShiftedBit(t, i);
      MemberIsBit(b, i);
      MemberIsBit(Or(b, Shifted(t)), i);
    }
  }

  /** Setting bits below w stays below w bits, so a uint32 does not overflow. */
  lemma {:induction false} OrFits(x: nat, y: nat, w: nat)
    requires x < Shifted(w) && y < Shifted(w)
    ensures Or(x, y) < Shifted(w)
  {
    if w > 0 { OrFits(x / 2, y / 2, w - 1); }
  }

  lemma {:induction false} ShiftedBelow(t: nat, w: nat)
    requires t < w
    ensures 0 < Shifted(t) < Shifted(w)
  {
    if t > 0 {
      ShiftedBelow(t - 1, w - 1);
    } else if w > 1 {
      ShiftedBelow(0, w - 1);
    }
  }

  lemma {:induction false} AndSelf(b: nat)
    ensures And(b, b) == b
  {
    if b > 0 { AndSelf(b / 2); }
  }

  lemma OnesOfDigits(half: nat, digit: nat)
    requires digit < 2
    ensures Ones(2 * half + digit) == digit + Ones(half)
  {
    assert (2 * half + digit) / 2 == half && (2 * half + digit) % 2 == digit;
  }

  lemma ClearedDigits(half: nat, digit: nat)
    requires digit < 2 && 2 * half + digit > 0
    ensures
      var b := 2 * half + digit;
      And(b, b - 1) == 2 * (if digit == 1 then half else And(half, half - 1))
  {
    var b := 2 * half + digit;
    assert b / 2 == half && b % 2 == digit;
    if digit == 1 {
      AndSelf(half);
      assert (b - 1) / 2 == half;
    } else {
      assert (b - 1) / 2 == half - 1;
    }
  }

  /** Clearing the lowest set bit takes out one. */
  lemma {:induction false} DropLowest(b: nat)
    requires b > 0
    ensures Ones(And(b, b - 1)) == Ones(b) - 1
  {
    var half, digit := b / 2, b % 2;
    if digit == 0 { DropLowest(half); }
    assert b == 2 * half + digit;
    ClearedDigits(half, digit);
    OnesOfDigits(half, digit);
    OnesOfDigits(if digit == 1 then half else And(half, half - 1), 0);
  }

  /** Counts by clearing the lowest set bit until none is left. */
  method Popcount(bits: nat) returns (count: nat)
    ensures count == |Members(bits)|
  {
    var b := bits;
    count := 0;
    while b != 0
      invariant count + Ones(b) == Ones(bits)
      decreases Ones(b)
    {
      DropLowest(b);
      b := And(b, b - 1);
      count := count + 1;
    }
    MembersCounted(bits);
  }
}
