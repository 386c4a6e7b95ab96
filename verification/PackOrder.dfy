// Packing byte strings into integers (llib/src/intlookup.rs): the arithmetic of keys.
//
// `width` is the number of bytes of the integer type. Shifts by whole bytes are multiplications
// and divisions by powers of 256; that the loop's `|=` then adds, and that `&` with the mask rounds
// down, is proved on bits.

module PackOrder {
  import opened Arithmetic
  import opened Bytes
  import opened Bits

  predicate NulFree(s: seq<byte>) {
    forall i :: 0 <= i < |s| ==> s[i] != 0
  }

  /** The string without its trailing NUL bytes. */
  function Stripped(s: seq<byte>): seq<byte> {
    if s != [] && s[|s| - 1] == 0 then Stripped(s[..|s| - 1]) else s
  }

  predicate Clean(s: seq<byte>) {
    s != [] ==> s[|s| - 1] != 0
  }

  lemma {:induction false} StrippedIsClean(s: seq<byte>)
    ensures Clean(Stripped(s)) && Stripped(s) <= s && (Clean(s) <==> Stripped(s) == s)
  {
    if !Clean(s) { StrippedIsClean(s[..|s| - 1]); }
  }

  /** The first byte of the string is the most significant; missing bytes are zero. */
  function Pack(s: seq<byte>, width: nat): nat
    requires |s| <= width
  {
    if s == [] then 0 else s[0] * Power256(width - 1) + Pack(s[1..], width - 1)
  }

  /** Lexicographic order of byte strings. */
  predicate Lex(a: seq<byte>, b: seq<byte>) {
    b != [] && (a == [] || a[0] < b[0] || (a[0] == b[0] && Lex(a[1..], b[1..])))
  }

  // ----- Splitting a packed key after n bytes -----

  lemma {:induction false} PackSplit(s: seq<byte>, n: nat, width: nat)
    requires n <= |s| <= width
    ensures Pack(s, width) == Pack(s[..n], width) + Pack(s[n..], width - n)
  {
    if n > 0 {
      PackSplit(s[1..], n - 1, width - 1);
      assert s[1..][..n - 1] == s[..n][1..] && s[1..][n - 1..] == s[n..];
    } else {
      assert s[..0] == [] && s[0..] == s;
    }
  }

  lemma {:induction false} PackBound(s: seq<byte>, width: nat)
    requires |s| <= width
    ensures Pack(s, width) < Power256(width)
  {
    if s != [] {
      PackBound(s[1..], width - 1);
      MulLe(s[0], 255, Power256(width - 1));
    }
  }

  // ----- Order -----

  lemma {:induction false} PackPositive(s: seq<byte>, width: nat)
    requires s != [] && |s| <= width && Clean(s)
    ensures Pack(s, width) > 0
  {
    if |s| == 1 {
      MulLe(1, s[0], Power256(width - 1));
    } else {
      assert s[1..] != [];
      PackPositive(s[1..], width - 1);
    }
  }

  lemma {:induction false} PackKeepsOrder(a: seq<byte>, b: seq<byte>, width: nat)
    requires |a| <= width && |b| <= width && Clean(a) && Clean(b) && Lex(a, b)
    ensures Pack(a, width) < Pack(b, width)
  {
    var p := Power256(width - 1);
    if a == [] {
      PackPositive(b, width);
    } else {
      PackBound(a[1..], width - 1);
      if a[0] < b[0] {
        MulLe(a[0] + 1, b[0], p);
        assert (a[0] + 1) * p == a[0] * p + p;
      } else {
        PackKeepsOrder(a[1..], b[1..], width - 1);
      }
    }
  }

  lemma {:induction false} LexIsTotal(a: seq<byte>, b: seq<byte>)
    ensures Lex(a, b) || Lex(b, a) || a == b
    ensures !(Lex(a, b) && Lex(b, a)) && (Lex(a, b) ==> a != b)
  {
    if a != [] && b != [] {
      LexIsTotal(a[1..], b[1..]);
      assert a == [a[0]] + a[1..] && b == [b[0]] + b[1..];
    }
  }

  /** Packing is an order isomorphism on strings that fit and do not end in NUL, hence injective. */
  lemma PackIsOrderIso(a: seq<byte>, b: seq<byte>, width: nat)
    requires |a| <= width && |b| <= width && Clean(a) && Clean(b)
    ensures Lex(a, b) <==> Pack(a, width) < Pack(b, width)
    ensures a == b <==> Pack(a, width) == Pack(b, width)
  {
    LexIsTotal(a, b);
    if Lex(a, b) { PackKeepsOrder(a, b, width); }
    if Lex(b, a) { PackKeepsOrder(b, a, width); }
  }

  // ----- Trailing NULs -----

  lemma {:induction false} ZerosPackToZero(n: nat, width: nat)
    requires n <= width
    ensures Pack(Zeros(n), width) == 0
  {
    if n > 0 {
      ZerosPackToZero(n - 1, width - 1);
      assert Zeros(n)[1..] == Zeros(n - 1);
    }
  }

  lemma PaddingIsInvisible(s: seq<byte>, n: nat, width: nat)
    requires |s| + n <= width
    ensures Pack(s + Zeros(n), width) == Pack(s, width)
  {
    PackSplit(s + Zeros(n), |s|, width);
    assert (s + Zeros(n))[..|s|] == s && (s + Zeros(n))[|s|..] == Zeros(n);
    ZerosPackToZero(n, width - |s|);
  }

  lemma {:induction false} StrippedPacksAlike(s: seq<byte>, width: nat)
    requires |s| <= width
    ensures |Stripped(s)| <= width && Pack(Stripped(s), width) == Pack(s, width)
  {
    if !Clean(s) {
      StrippedPacksAlike(s[..|s| - 1], width);
      PaddingIsInvisible(s[..|s| - 1], 1, width);
      assert s == s[..|s| - 1] + Zeros(1);
    }
  }

  /** Two strings that fit have one key exactly when they differ in trailing NULs only. */
  lemma AliasesIff(a: seq<byte>, b: seq<byte>, width: nat)
    requires |a| <= width && |b| <= width
    ensures Pack(a, width) == Pack(b, width) <==> Stripped(a) == Stripped(b)
  {
    StrippedPacksAlike(a, width);
    StrippedPacksAlike(b, width);
    StrippedIsClean(a);
    StrippedIsClean(b);
    PackIsOrderIso(Stripped(a), Stripped(b), width);
  }

  /** As "a" and "a\0" do. */
  lemma TrailingNulAliases()
    ensures Pack([0x61], 4) == Pack([0x61, 0], 4)
  {
    PaddingIsInvisible([0x61], 1, 4);
    assert [0x61] + Zeros(1) == [0x61, 0];
  }

  lemma {:induction false} EqualLengthsInjective(a: seq<byte>, b: seq<byte>, width: nat)
    requires |a| == |b| <= width && Pack(a, width) == Pack(b, width)
    ensures a == b
  {
    if a != [] {
      PackBound(a[1..], width - 1);
      PackBound(b[1..], width - 1);
      DivModUnique(a[0], Pack(a[1..], width - 1), Power256(width - 1));
      DivModUnique(b[0], Pack(b[1..], width - 1), Power256(width - 1));
      EqualLengthsInjective(a[1..], b[1..], width - 1);
      assert a == [a[0]] + a[1..] && b == [b[0]] + b[1..];
    }
  }

  // ----- Multiples of a power of 256 -----

  function Multiple(q: nat, p: nat): nat {
    q * p
  }

  /** The packed string, without the zero bytes below it. */
  lemma {:induction false} PackIsMultiple(s: seq<byte>, width: nat) returns (q: nat)
    requires |s| <= width
    ensures Pack(s, width) == Multiple(q, Power256(width - |s|))
    ensures q == Pack(s, |s|)
  {
    if s == [] {
      q := 0;
    } else {
      var r := PackIsMultiple(s[1..], width - 1);
      PowerSplit(|s| - 1, width - |s|);
      var p := Power256(width - |s|);
      q := s[0] * Power256(|s| - 1) + r;
      calc {
        Pack(s, width);
        s[0] * (Power256(|s| - 1) * p) + r * p;
        { MulAssoc(s[0], Power256(|s| - 1), p); }
        (s[0] * Power256(|s| - 1)) * p + r * p;
        { MulAdd(s[0] * Power256(|s| - 1), r, p); }
        q * p;
      }
    }
  }

  lemma {:induction false} PowerSplit(a: nat, b: nat)
    ensures Power256(a + b) == Power256(a) * Power256(b)
  {
    if a > 0 {
      PowerSplit(a - 1, b);
      MulAssoc(256, Power256(a - 1), Power256(b));
    }
  }

  // ----- Masking off the bytes after the first n -----

  /** `x & (!0 << shift)` where 2^shift = p. */
  function Masked(x: nat, p: nat): (r: nat)
    requires p > 0
    ensures r <= x < r + p
  {
    x - x % p
  }

  lemma MaskedMultiple(q: nat, rest: nat, p: nat)
    requires rest < p
    ensures Masked(Multiple(q, p) + rest, p) == Multiple(q, p)
  {
    DivModUnique(q, rest, p);
  }

  lemma MaskIsMonotone(x: nat, y: nat, p: nat)
    requires p > 0 && x <= y
    ensures Masked(x, p) <= Masked(y, p)
  {
    var a, b := x / p, y / p;
    assert x == a * p + x % p && y == b * p + y % p;
    LessByOne(b, a, p);
    MulLe(a, b, p);
  }

  /** Masking a packed key to n bytes gives the packed first n bytes of the key. */
  lemma MaskKeepsPrefix(k: seq<byte>, n: nat, width: nat)
    requires |k| <= width && n <= width
    ensures Masked(Pack(k, width), Power256(width - n)) == Pack(if n <= |k| then k[..n] else k, width)
  {
    var p := Power256(width - n);
    if n <= |k| {
      PackSplit(k, n, width);
      PackBound(k[n..], width - n);
      var q := PackIsMultiple(k[..n], width);
      MaskedMultiple(q, Pack(k[n..], width - n), p);
    } else {
      var q := PackIsMultiple(k, width);
      PowerSplit(n - |k|, width - n);
      MulAssoc(q, Power256(n - |k|), p);
      MaskedMultiple(q * Power256(n - |k|), 0, p);
    }
  }

  /** q is a prefix of k when k is padded with NULs. */
  predicate PaddedPrefix(q: seq<byte>, k: seq<byte>) {
    forall i :: 0 <= i < |q| ==> q[i] == if i < |k| then k[i] else 0
  }

  /** So comparing masked integers is comparing prefixes of the padded strings. */
  lemma MaskTestsPrefix(k: seq<byte>, q: seq<byte>, width: nat)
    requires |k| <= width && |q| <= width
    ensures Masked(Pack(q, width), Power256(width - |q|)) == Pack(q, width)
    ensures Masked(Pack(k, width), Power256(width - |q|)) == Pack(q, width) <==> PaddedPrefix(q, k)
  {
    MaskKeepsPrefix(q, |q|, width);
    assert q[..|q|] == q;
    MaskKeepsPrefix(k, |q|, width);
    var head := if |q| <= |k| then k[..|q|] else k;
    var padded := head + Zeros(|q| - |head|);
    PaddingIsInvisible(head, |q| - |head|, width);
    if Pack(padded, width) == Pack(q, width) { EqualLengthsInjective(padded, q, width); }
    assert PaddedPrefix(q, k) <==> padded == q;
  }

  /** Between strings without NULs these are prefixes and equality. */
  lemma NulFreePrefixes(k: seq<byte>, q: seq<byte>)
    requires NulFree(k) && NulFree(q)
    ensures PaddedPrefix(q, k) <==> q <= k
    ensures Stripped(k) == Stripped(q) <==> k == q
  {
    StrippedIsClean(k);
    StrippedIsClean(q);
    if |q| > |k| { assert q[|k|] != 0; }
  }

  /** The mask `!0 << shift` on words of `width` bytes. */
  lemma MaskIsBitwise(x: nat, n: nat, width: nat)
    requires n <= width && x < Power256(width)
    ensures Power256(n) <= Power256(width)
    ensures BitAnd(x, Power256(width) - Power256(n)) == Masked(x, Power256(n))
  {
    PowersGrow(n, width);
    Power256IsPower(n);
    Power256IsPower(width);
    MaskClearsLowBits(x, Power256(n), Power256(width));
  }

  lemma PowersGrow(n: nat, width: nat)
    requires n <= width
    ensures Power256(n) <= Power256(width)
  {
    PowerSplit(width - n, n);
    MulLe(1, Power256(width - n), Power256(n));
  }

  /** `b << ((T_BYTES - 1 - i) * 8)` */
  function ByteAt(b: byte, i: nat, width: nat): nat
    requires i < width
  {
    b * Power256(width - 1 - i)
  }

  /** One round of the packing loop: the next byte falls on bits that are still zero. */
  lemma OrPacksByte(s: seq<byte>, i: nat, width: nat)
    requires i < |s| <= width
    ensures BitOr(Pack(s[..i], width), ByteAt(s[i], i, width)) == Pack(s[..i + 1], width)
  {
    var head, rest := s[..i], width - i;
    PackSplit(s[..i + 1], i, width);
    assert s[..i + 1][..i] == head && s[..i + 1][i..] == [s[i]];
    assert Pack([s[i]], rest) == s[i] * Power256(rest - 1) + Pack([s[i]][1..], rest - 1);
    PackBound([s[i]], rest);
    var q := PackIsMultiple(head, width);
    DivModUnique(q, 0, Power256(rest));
    Power256IsPower(rest);
    OrAdds(Pack(head, width), s[i] * Power256(rest - 1), Power256(rest));
  }

  // ----- Getting the string back -----

  /** The low `n` bytes of x, most significant first (`to_be_bytes`). */
  function Unpack(x: nat, n: nat): (r: seq<byte>)
    ensures |r| == n
  {
    if n == 0 then [] else Unpack(x / 256, n - 1) + [x % 256]
  }

  /** The last byte of a string is the lowest byte of the integer. */
  lemma LastByte(s: seq<byte>)
    requires s != []
    ensures Pack(s, |s|) == Pack(s[..|s| - 1], |s| - 1) * 256 + s[|s| - 1]
  {
    var n := |s| - 1;
    PackSplit(s, n, |s|);
    var q := PackIsMultiple(s[..n], |s|);
    assert Power256(1) == 256 && s[n..] == [s[n]];
    assert Pack([s[n]], 1) == s[n] * Power256(0) + Pack([s[n]][1..], 0);
  }

  lemma {:induction false} UnpackInverts(s: seq<byte>)
    ensures Unpack(Pack(s, |s|), |s|) == s
  {
    if s != [] {
      LastByte(s);
      UnpackInverts(s[..|s| - 1]);
    }
  }

  function TrailingZeros(x: nat): nat {
    if x == 0 || x % 2 != 0 then 0 else TrailingZeros(x / 2) + 1
  }

  /** `packed_len`: the bytes down to the last set bit. */
  function PackedLen(x: nat, width: nat): nat {
    if x == 0 then 0
    else if TrailingZeros(x) > width * 8 then 0
    else (width * 8 - TrailingZeros(x) + 7) / 8
  }

  lemma {:induction false} ZerosOfShifted(q: nat, m: nat)
    requires q > 0
    ensures Multiple(q, Power256(m)) > 0
    ensures TrailingZeros(Multiple(q, Power256(m))) == TrailingZeros(q) + 8 * m
  {
    if m > 0 {
      ZerosOfShifted(q, m - 1);
      var x := Multiple(q, Power256(m - 1));
      assert Multiple(q, Power256(m)) == 256 * x by {
        MulAssoc(q, 256, Power256(m - 1));
        MulAssoc(256, q, Power256(m - 1));
      }
      ByteAddsEight(x);
    }
  }

  lemma ByteAddsEight(x: nat)
    requires x > 0
    ensures TrailingZeros(256 * x) == TrailingZeros(x) + 8
  {
    DoubleAddsZero(x); DoubleAddsZero(2 * x); DoubleAddsZero(4 * x); DoubleAddsZero(8 * x);
    DoubleAddsZero(16 * x); DoubleAddsZero(32 * x); DoubleAddsZero(64 * x); DoubleAddsZero(128 * x);
  }

  lemma DoubleAddsZero(x: nat)
    requires x > 0
    ensures TrailingZeros(2 * x) == TrailingZeros(x) + 1
  {
    assert 2 * x % 2 == 0 && 2 * x / 2 == x;
  }

  lemma {:induction false} FewZeros(x: nat, n: nat, p: nat)
    requires x > 0 && p == Power2(n) && x % p != 0
    ensures TrailingZeros(x) < n
  {
    if n > 0 && x % 2 == 0 {
      HalfDivides(x, Power2(n - 1));
      FewZeros(x / 2, n - 1, Power2(n - 1));
    }
  }

  lemma HalfDivides(x: nat, h: nat)
    requires h > 0 && x % 2 == 0
    ensures (x / 2) % h == 0 ==> x % (2 * h) == 0
  {
    if (x / 2) % h == 0 {
      var k := (x / 2) / h;
      assert x / 2 == k * h;
      MulAssoc(2, k, h);
      MulAssoc(k, 2, h);
      DivModUnique(k, 0, 2 * h);
    }
  }

  function Power2(n: nat): (r: nat)
    ensures r > 0
  {
    if n == 0 then 1 else 2 * Power2(n - 1)
  }

  lemma NonZeroByteEnds(r: nat, b: nat)
    requires 0 < b < 256
    ensures r * 256 + b > 0 && TrailingZeros(r * 256 + b) < 8
  {
    assert Power2(8) == 256 by { assert Power2(4) == 16; }
    FewZeros(r * 256 + b, 8, 256);
  }

  lemma LengthFromZeros(n: nat, width: nat, zeros: nat)
    requires 0 < n <= width && zeros < 8
    ensures zeros + 8 * (width - n) <= width * 8
    ensures (width * 8 - (zeros + 8 * (width - n)) + 7) / 8 == n
  {
  }

  lemma LengthRecovered(s: seq<byte>, width: nat)
    requires s != [] && Clean(s) && |s| <= width
    ensures PackedLen(Pack(s, width), width) == |s|
    ensures Pack(s, width) / Power256(width - |s|) == Pack(s, |s|)
  {
    var q := PackIsMultiple(s, width);
    LastByte(s);
    NonZeroByteEnds(Pack(s[..|s| - 1], |s| - 1), s[|s| - 1]);
    ZerosOfShifted(q, width - |s|);
    LengthFromZeros(|s|, width, TrailingZeros(q));
    DivModUnique(q, 0, Power256(width - |s|));
  }
}
