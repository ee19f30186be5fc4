/** Bits of natural numbers, for the 64-bit words and masks of the program. */
module Bits {

  /** Bit `i`, the least significant being bit 0. */
  predicate Bit(w: nat, i: nat)
    decreases i
  {
    if i == 0 then w % 2 == 1 else Bit(w / 2, i - 1)
  }

  /** Bitwise and. */
  function And(a: nat, b: nat): (w: nat)
    ensures w <= a && w <= b
  {
    if a == 0 || b == 0 then 0
    else 2 * And(a / 2, b / 2) + if a % 2 == 1 && b % 2 == 1 then 1 else 0
  }

  /** Bitwise or. */
  function Or(a: nat, b: nat): nat {
    if a == 0 then b
    else if b == 0 then a
    else 2 * Or(a / 2, b / 2) + if a % 2 == 1 || b % 2 == 1 then 1 else 0
  }

  /** One shifted left by `k`. */
  function Pow2(k: nat): (w: nat)
    ensures w > 0
  {
    if k == 0 then 1 else 2 * Pow2(k - 1)
  }

  lemma {:induction false} ZeroBit(i: nat)
    ensures !Bit(0, i)
    decreases i
  {
    if i > 0 {
      ZeroBit(i - 1);
    }
  }

  lemma AndHalves(a: nat, b: nat)
    ensures And(a, b) / 2 == And(a / 2, b / 2)
    ensures And(a, b) % 2 == if a % 2 == 1 && b % 2 == 1 then 1 else 0
  {
  }

  lemma OrHalves(a: nat, b: nat)
    ensures Or(a, b) / 2 == Or(a / 2, b / 2)
    ensures Or(a, b) % 2 == if a % 2 == 1 || b % 2 == 1 then 1 else 0
  {
  }

  lemma {:induction false} AndBit(a: nat, b: nat, i: nat)
    ensures Bit(And(a, b), i) == (Bit(a, i) && Bit(b, i))
    decreases i
  {
    AndHalves(a, b);
    hide And;
    if i > 0 {
      AndBit(a / 2, b / 2, i - 1);
    }
  }

  lemma {:induction false} OrBit(a: nat, b: nat, i: nat)
    ensures Bit(Or(a, b), i) == (Bit(a, i) || Bit(b, i))
    decreases i
  {
    OrHalves(a, b);
    hide Or;
    if i > 0 {
      OrBit(a / 2, b / 2, i - 1);
    }
  }

  lemma {:induction false} PowBit(k: nat, i: nat)
    ensures Bit(Pow2(k), i) == (i == k)
    decreases i
  {
    if k == 0 && i > 0 {
      ZeroBit(i - 1);
    } else if i > 0 {
      PowBit(k - 1, i - 1);
    }
  }

  lemma {:induction false} PowGrows(k: nat, n: nat)
    requires k <= n
    ensures Pow2(k) <= Pow2(n)
    decreases n
  {
    if k < n {
      PowGrows(k, n - 1);
    }
  }

  /** A number with `n` bits has no bit from `n` on. */
  lemma {:induction false} HighBit(w: nat, n: nat, i: nat)
    requires w < Pow2(n) && n <= i
    ensures !Bit(w, i)
    decreases i
  {
    if w == 0 {
      ZeroBit(i);
    } else if i > 0 && n > 0 {
      HighBit(w / 2, n - 1, i - 1);
    }
  }

  /** All ones of `n` bits, shifted left by `k`. */
  lemma {:induction false} OnesBit(k: nat, n: nat, i: nat)
    requires k <= n
    ensures Pow2(k) <= Pow2(n) && Bit(Pow2(n) - Pow2(k), i) == (k <= i < n)
    decreases i
  {
    PowGrows(k, n);
    if k == n {
      ZeroBit(i);
    } else if i > 0 {
      var low: nat := if k == 0 then 0 else k - 1;
      OnesBit(low, n - 1, i - 1);
      assert (Pow2(n) - Pow2(k)) / 2 == Pow2(n - 1) - Pow2(low);
    }
  }

  /** A number that is not zero has a bit. */
  lemma {:induction false} SomeBit(w: nat) returns (i: nat)
    requires w != 0
    ensures Bit(w, i)
  {
    i := 0;
    if w % 2 == 0 {
      i := SomeBit(w / 2);
      i := i + 1;
    }
  }

  lemma {:induction false} OrFits(a: nat, b: nat, n: nat)
    requires a < Pow2(n) && b < Pow2(n)
    ensures Or(a, b) < Pow2(n)
    decreases n
  {
    if a != 0 && b != 0 && n > 0 {
      OrFits(a / 2, b / 2, n - 1);
    }
  }

  ghost predicate IsPowerOfTwo(n: nat) {
    n == 1 || (n > 1 && n % 2 == 0 && IsPowerOfTwo(n / 2))
  }

  /** Masking with a power of two less one takes the remainder by it. */
  lemma {:induction false} MaskIsRemainder(h: nat, n: nat)
    requires IsPowerOfTwo(n)
    ensures And(h, n - 1) == h % n
    decreases n
  {
    if n > 1 {
      var m := n / 2;
      MaskIsRemainder(h / 2, m);
      AndHalves(h, n - 1);
      HalfRemainder(h, m);
      hide And;
      Rejoined(And(h, n - 1), h / 2 % m, h % 2);
    } else {
      assert h % n == 0;
    }
  }

  lemma Rejoined(w: nat, half: nat, low: nat)
    requires w / 2 == half && w % 2 == low
    ensures w == 2 * half + low
  {
  }

  lemma HalfRemainder(h: nat, m: nat)
    requires m > 0
    ensures h % (2 * m) == 2 * (h / 2 % m) + h % 2
  {
    var q, r := h / 2 / m, h / 2 % m;
    assert h / 2 == q * m + r;
    assert h == q * (2 * m) + (2 * r + h % 2);
    RemainderIs(h, 2 * m, q, 2 * r + h % 2);
  }

  lemma RemainderIs(h: nat, n: nat, q: nat, r: nat)
    requires n > 0 && h == q * n + r && r < n
    ensures h % n == r
  {
    var d := h / n - q;
    assert h == (h / n) * n + h % n;
    assert d * n == r - h % n;
    assert d >= 1 ==> d * n >= n;
    assert d < 0 ==> d * n + n <= 0;
  }
}
