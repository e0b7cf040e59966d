// Machine words bit by bit.

module PbWords {
  import opened Coding

  // The bitwise or of two numbers.
  function BitOr(a: nat, b: nat): nat {
    if a == 0 then b else if b == 0 then a
    else 2 * BitOr(a / 2, b / 2) + if a % 2 == 1 || b % 2 == 1 then 1 else 0
  }

  function ShiftLeft(n: nat, bits: nat): nat { n * Power(2, bits) }

  predicate HasBit(n: nat, r: nat)
    decreases r
  {
    if r == 0 then n % 2 == 1 else HasBit(n / 2, r - 1)
  }

  lemma {:induction false} HasBitOr(a: nat, b: nat, r: nat)
    ensures HasBit(BitOr(a, b), r) <==> HasBit(a, r) || HasBit(b, r)
    decreases r
  {
    if a == 0 {
      NoBits(r);
    } else if b == 0 {
      NoBits(r);
    } else if r > 0 {
      HasBitOr(a / 2, b / 2, r - 1);
    }
  }

  lemma {:induction false} NoBits(r: nat)
    ensures !HasBit(0, r)
  {
    if r == 0 {
    } else {
      NoBits(r - 1);
    }
  }

  lemma {:induction false} OneBit(k: nat, r: nat)
    ensures HasBit(Power(2, k), r) <==> r == k
    decreases r
  {
    if r == 0 {
    } else {
      if k > 0 { OneBit(k - 1, r - 1); } else { NoBits(r - 1); }
    }
  }

  lemma {:induction false} OrFits(a: nat, b: nat, k: nat)
    requires a < Power(2, k) && b < Power(2, k)
    ensures BitOr(a, b) < Power(2, k)
    decreases k
  {
    if a > 0 && b > 0 { OrFits(a / 2, b / 2, k - 1); }
  }

  function ShiftRight(n: nat, bits: nat): nat
    decreases bits
  {
    if bits == 0 then n else ShiftRight(n / 2, bits - 1)
  }

  // The word with just the first m bits set.
  function LowOnes(m: nat): nat { if m == 0 then 0 else 2 * LowOnes(m - 1) + 1 }

  lemma {:induction false} LowOnesHas(m: nat, r: nat)
    ensures HasBit(LowOnes(m), r) <==> r < m
    decreases r
  {
    if m == 0 {
      NoBits(r);
    } else if r > 0 {
      LowOnesHas(m - 1, r - 1);
    }
  }

  lemma {:induction false} LowOnesFit(m: nat, k: nat)
    requires m <= k
    ensures LowOnes(m) < Power(2, k) && ShiftRight(LowOnes(k), k - m) == LowOnes(m)
    decreases k
  {
    if m < k {
      LowOnesFit(m, k - 1);
    } else if k > 0 {
      LowOnesFit(k - 1, k - 1);
    }
  }

  lemma {:induction false} BitsDecide(a: nat, b: nat, k: nat)
    requires a < Power(2, k) && b < Power(2, k) && forall r :: 0 <= r < k ==> HasBit(a, r) == HasBit(b, r)
    ensures a == b
    decreases k
  {
    if k == 0 {
    } else {
      assert HasBit(a, 0) == HasBit(b, 0);
      forall r | 0 <= r < k - 1 ensures HasBit(a / 2, r) == HasBit(b / 2, r) {
        assert HasBit(a, r + 1) == HasBit(b, r + 1);
      }
      BitsDecide(a / 2, b / 2, k - 1);
    }
  }

  ghost predicate Ones(n: nat, m: nat, k: nat) { forall r :: 0 <= r < k ==> HasBit(n, r) == (r < m) }

  lemma OnesDecide(n: nat, m: nat, k: nat)
    requires n < Power(2, k) && m <= k
    ensures n == LowOnes(m) <==> Ones(n, m, k)
  {
    LowOnesFit(m, k);
    forall r | 0 <= r < k ensures HasBit(LowOnes(m), r) == (r < m) { LowOnesHas(m, r); }
    assert Ones(LowOnes(m), m, k);
    if Ones(n, m, k) { BitsDecide(n, LowOnes(m), k); }
  }

  // Bits below and above a place do not meet.
  lemma {:induction false} OrIsSum(a: nat, b: nat, k: nat)
    requires a < Power(2, k)
    ensures BitOr(a, ShiftLeft(b, k)) == a + ShiftLeft(b, k)
    decreases k
  {
    if k == 0 {
    } else {
      var c := ShiftLeft(b, k - 1);
      assert ShiftLeft(b, k) == 2 * c;
      OrIsSum(a / 2, b, k - 1);
    }
  }
}
