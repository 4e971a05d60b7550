/** The 64-bit word operations of the glob automaton, on non-negative integers below 2^64. */
module Word64 {

  function Pow2(n: nat): (p: nat)
    ensures p > 0
  {
    if n == 0 then 1 else 2 * Pow2(n - 1)
  }

  type uint64 = x: nat | x < Pow2(64) witness 0

  function Bit(x: nat, i: nat): bool
    decreases i
  {
    if i == 0 then x % 2 == 1 else Bit(x / 2, i - 1)
  }

  function And(x: nat, y: nat): (z: nat)
    ensures z <= x && z <= y
  {
    if x == 0 || y == 0 then 0
    else 2 * And(x / 2, y / 2) + (if x % 2 == 1 && y % 2 == 1 then 1 else 0)
  }

  function Or(x: nat, y: nat): nat {
    if x == 0 then y
    else if y == 0 then x
    else 2 * Or(x / 2, y / 2) + (if x % 2 == 1 || y % 2 == 1 then 1 else 0)
  }

  /** `x << 1`: the top bit is lost. */
  function ShiftLeft(x: uint64): uint64 {
    (2 * x) % Pow2(64)
  }

  function TrailingZeros(x: nat): nat
    requires x != 0
  {
    if x % 2 == 1 then 0 else 1 + TrailingZeros(x / 2)
  }

  lemma {:induction false} BitZero(i: nat)
    ensures !Bit(0, i)
    decreases i
  {
    if i > 0 {
      BitZero(i - 1);
    }
  }

  lemma {:induction false} BitAnd(x: nat, y: nat, i: nat)
    ensures Bit(And(x, y), i) <==> Bit(x, i) && Bit(y, i)
    decreases i
  {
    if x == 0 || y == 0 {
      BitZero(i);
    } else if i > 0 {
      BitAnd(x / 2, y / 2, i - 1);
    }
  }

  lemma {:induction false} BitOr(x: nat, y: nat, i: nat)
    ensures Bit(Or(x, y), i) <==> Bit(x, i) || Bit(y, i)
    decreases i
  {
    if x == 0 || y == 0 {
      BitZero(i);
    } else if i > 0 {
      BitOr(x / 2, y / 2, i - 1);
    }
  }

  lemma {:induction false} BitPow2(n: nat, i: nat)
    ensures Bit(Pow2(n), i) <==> i == n
    decreases i
  {
    if n == 0 && i > 0 {
      BitZero(i - 1);
    } else if i > 0 {
      BitPow2(n - 1, i - 1);
    }
  }

  lemma {:induction false} OrBound(x: nat, y: nat, n: nat)
    requires x < Pow2(n) && y < Pow2(n)
    ensures Or(x, y) < Pow2(n)
    decreases n
  {
    if n > 0 && x != 0 && y != 0 {
      OrBound(x / 2, y / 2, n - 1);
    }
  }

  lemma {:induction false} Pow2Monotone(m: nat, n: nat)
    requires m <= n
    ensures Pow2(m) <= Pow2(n)
    decreases n - m
  {
    if m < n {
      Pow2Monotone(m, n - 1);
    }
  }

  lemma Pow2Double(n: nat)
    ensures Pow2(n + 1) == 2 * Pow2(n)
  {}

  lemma SmallModulo(x: nat, m: nat)
    requires x < m
    ensures x % m == x
  {}

  lemma BitDouble(x: nat, i: nat)
    ensures Bit(2 * x, i) <==> i > 0 && Bit(x, i - 1)
  {
    assert 2 * x / 2 == x;
  }

  /** Below 2^63 the shift loses nothing. */
  lemma BitShift(x: uint64, i: nat)
    requires x < Pow2(63)
    ensures ShiftLeft(x) == 2 * x
    ensures Bit(ShiftLeft(x), i) <==> i > 0 && Bit(x, i - 1)
  {
    var m := Pow2(64);
    assert m == 2 * Pow2(63);
    SmallModulo(2 * x, m);
    BitDouble(x, i);
  }

  lemma {:induction false} NonZero(x: nat) returns (i: nat)
    requires x != 0
    ensures Bit(x, i)
    decreases x
  {
    if x % 2 == 1 {
      i := 0;
    } else {
      var j := NonZero(x / 2);
      i := j + 1;
    }
  }

  lemma {:induction false} BitTrailing(x: nat)
    requires x != 0
    ensures Bit(x, TrailingZeros(x))
    decreases x
  {
    if x % 2 == 0 {
      BitTrailing(x / 2);
    }
  }

  lemma {:induction false} AndSelf(x: nat)
    ensures And(x, x) == x
    decreases x
  {
    if x != 0 {
      AndSelf(x / 2);
    }
  }

  /** `x & (x - 1)` clears exactly the lowest set bit. */
  lemma {:induction false} ClearLowest(x: nat, i: nat)
    requires x != 0
    ensures Bit(And(x, x - 1), i) <==> Bit(x, i) && i != TrailingZeros(x)
    ensures And(x, x - 1) < x
    decreases x
  {
    if x % 2 == 1 {
      AndSelf(x / 2);
      assert (x - 1) / 2 == x / 2;
      if x == 1 {
        BitZero(i);
        if i > 0 { BitZero(i - 1); }
      }
    } else {
      assert (x - 1) / 2 == x / 2 - 1;
      if i == 0 {
        ClearLowest(x / 2, 0);
      } else {
        ClearLowest(x / 2, i - 1);
      }
    }
  }

  /** Testing a word against a single bit. */
  lemma TestBit(x: nat, n: nat)
    ensures And(x, Pow2(n)) != 0 <==> Bit(x, n)
  {
    BitAnd(x, Pow2(n), n);
    BitPow2(n, n);
    BitZero(n);
    if And(x, Pow2(n)) != 0 {
      var i := NonZero(And(x, Pow2(n)));
      BitAnd(x, Pow2(n), i);
      BitPow2(n, i);
    }
  }
}
