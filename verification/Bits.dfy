// Bitwise operations on unsigned words, as arithmetic on their values.

module Bits {
  import opened Arithmetic
  import opened Bytes

  predicate PowerOfTwo(n: nat) {
    n == 1 || (n > 1 && n % 2 == 0 && PowerOfTwo(n / 2))
  }

  function BitAnd(x: nat, y: nat): nat {
    if x == 0 || y == 0 then 0 else (if x % 2 == 1 && y % 2 == 1 then 1 else 0) + 2 * BitAnd(x / 2, y / 2)
  }

  /** In words of any width, the complement of `align - 1` is `limit - align`. */
  lemma {:induction false} MaskClearsLowBits(x: nat, align: nat, limit: nat)
    requires PowerOfTwo(align) && PowerOfTwo(limit) && align <= limit && x < limit
    ensures BitAnd(x, limit - align) == x - x % align
  {
    if align == 1 {
      if limit > 1 { MaskClearsLowBits(x / 2, 1, limit / 2); }
    } else {
      MaskClearsLowBits(x / 2, align / 2, limit / 2);
      HalvedRemainder(x, align / 2);
      assert (limit - align) / 2 == limit / 2 - align / 2;
    }
  }

  lemma {:induction false} PowersMultiply(n: nat, k: nat)
    requires PowerOfTwo(n) && PowerOfTwo(k)
    ensures PowerOfTwo(n * k)
  {
    if n > 1 {
      PowersMultiply(n / 2, k);
      MulAssoc(2, n / 2, k);
    }
  }

  lemma WordIsPower()
    ensures PowerOfTwo(U64_LIMIT)
  {
    assert PowerOfTwo(16);
    PowersMultiply(16, 16);
    PowersMultiply(256, 256);
    PowersMultiply(0x1_0000, 0x1_0000);
    PowersMultiply(0x1_0000_0000, 0x1_0000_0000);
  }

  lemma HalvedRemainder(x: nat, half: nat)
    requires half > 0
    ensures x % (2 * half) == x % 2 + 2 * ((x / 2) % half)
  {
    var q, r := (x / 2) / half, (x / 2) % half;
    DividedHalf(x / 2, half, q, r);
    DivModUnique(q, x % 2 + 2 * r, 2 * half);
  }

  lemma DividedHalf(y: nat, half: nat, q: nat, r: nat)
    requires half > 0 && q == y / half && r == y % half
    ensures 2 * y == q * (2 * half) + 2 * r && 0 <= r < half
  {
    assert y == q * half + r;
    MulAssoc(q, 2, half);
    MulAssoc(2, q, half);
  }

  function BitOr(x: nat, y: nat): nat {
    if x == 0 then y else if y == 0 then x
    else (if x % 2 == 1 || y % 2 == 1 then 1 else 0) + 2 * BitOr(x / 2, y / 2)
  }

  /** Bits that do not meet are added. */
  lemma {:induction false} OrAdds(x: nat, y: nat, p: nat)
    requires PowerOfTwo(p) && x % p == 0 && y < p
    ensures BitOr(x, y) == x + y
  {
    if p > 1 && x > 0 && y > 0 {
      HalvedRemainder(x, p / 2);
      OrAdds(x / 2, y / 2, p / 2);
    }
  }

  lemma {:induction false} Power256IsPower(k: nat)
    ensures PowerOfTwo(Power256(k))
  {
    if k > 0 {
      Power256IsPower(k - 1);
      assert PowerOfTwo(16);
      PowersMultiply(16, 16);
      PowersMultiply(256, Power256(k - 1));
    }
  }
}
