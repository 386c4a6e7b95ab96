// Integers to decimal, llib/src/intstr.rs: a buffer that is filled from its end.

module IntStrs {
  import opened Bytes

  function MaxStrLenForBits(bits: nat): nat {
    bits * 30103 / 100000 + 3
  }

  predicate Width(bits: nat) {
    bits == 8 || bits == 16 || bits == 32 || bits == 64
  }

  /** How many values a width has. */
  function Values(bits: nat): int
    requires Width(bits)
  {
    if bits == 8 then 0x100 else if bits == 16 then 0x1_0000
    else if bits == 32 then 0x1_0000_0000 else 0x1_0000_0000_0000_0000
  }

  predicate FitsUnsigned(v: int, bits: nat)
    requires Width(bits)
  {
    0 <= v < Values(bits)
  }

  predicate FitsSigned(v: int, bits: nat)
    requires Width(bits)
  {
    -Values(bits) <= 2 * v < Values(bits)
  }

  /** `buf` and the place of its first used byte. */
  datatype IntStr = IntStr(buf: seq<byte>, start: nat)

  /** IntStr::as_bytes, which leaves out the terminator. */
  function AsBytes(s: IntStr): seq<byte>
    requires s.start < |s.buf|
  {
    s.buf[s.start..|s.buf| - 1]
  }

  // ----- Decimal numerals -----

  const MINUS: byte := 45
  const ZERO: byte := 48

  predicate IsDigit(b: byte) {
    ZERO <= b <= ZERO + 9
  }

  predicate AllDigits(s: seq<byte>) {
    forall i :: 0 <= i < |s| ==> IsDigit(s[i])
  }

  /** No leading zero, and no minus zero. */
  predicate Canonical(s: seq<byte>) {
    if |s| > 0 && s[0] == MINUS then CanonicalDigits(s[1..]) && s[1] != ZERO else CanonicalDigits(s)
  }

  predicate CanonicalDigits(s: seq<byte>) {
    |s| > 0 && AllDigits(s) && (s[0] == ZERO ==> |s| == 1)
  }

  /** The value of the first k digits. */
  function ValueOfFirst(s: seq<byte>, k: nat): int
    requires k <= |s|
  {
    if k == 0 then 0 else 10 * ValueOfFirst(s, k - 1) + (s[k - 1] - ZERO)
  }

  function DigitsValue(s: seq<byte>): int {
    ValueOfFirst(s, |s|)
  }

  lemma {:induction false} SameFirstDigits(s: seq<byte>, t: seq<byte>, k: nat)
    requires k <= |s| && k <= |t| && forall i :: 0 <= i < k ==> s[i] == t[i]
    ensures ValueOfFirst(s, k) == ValueOfFirst(t, k)
  {
    if k > 0 { SameFirstDigits(s, t, k - 1); }
  }

  /** The integer that a numeral denotes. */
  function Parsed(s: seq<byte>): int {
    if |s| > 0 && s[0] == MINUS then -DigitsValue(s[1..]) else DigitsValue(s)
  }

  function Digits(n: nat): (r: seq<byte>)
    ensures |r| > 0
  {
    (if n < 10 then [] else Digits(n / 10)) + [(ZERO + n % 10) as byte]
  }

  function Abs(v: int): nat {
    if v < 0 then -v else v
  }

  function Decimal(v: int): seq<byte> {
    if v < 0 then [MINUS] + Digits(-v) else Digits(v)
  }

  /** One more digit, after a numeral that is not 0. */
  lemma DigitAppended(s: seq<byte>, b: byte)
    requires CanonicalDigits(s) && s[0] != ZERO && IsDigit(b)
    ensures var more := s + [b];
            && CanonicalDigits(more) && more[0] == s[0]
            && DigitsValue(more) == 10 * DigitsValue(s) + (b - ZERO)
  {
    var more := s + [b];
    SameFirstDigits(more, s, |s|);
    forall i | 0 <= i < |more| ensures IsDigit(more[i]) {
      if i < |s| { assert more[i] == s[i]; }
    }
  }

  lemma OneDigit(n: nat)
    requires n < 10
    ensures var s := [(ZERO + n) as byte];
            CanonicalDigits(s) && DigitsValue(s) == n && Digits(n) == s
  {
    var s := [(ZERO + n) as byte];
    assert ValueOfFirst(s, 0) == 0;
  }

  lemma {:induction false} DigitsMean(n: nat)
    ensures CanonicalDigits(Digits(n)) && DigitsValue(Digits(n)) == n && (Digits(n)[0] == ZERO <==> n == 0)
  {
    if n < 10 {
      OneDigit(n);
    } else {
      DigitsMean(n / 10);
      DigitAppended(Digits(n / 10), (ZERO + n % 10) as byte);
    }
  }

  /** The decimal form is canonical and denotes the integer. */
  lemma DecimalMeans(v: int)
    ensures Canonical(Decimal(v)) && Parsed(Decimal(v)) == v
  {
    DigitsMean(Abs(v));
    if v < 0 {
      assert Decimal(v)[1..] == Digits(-v);
    }
  }

  lemma DigitsAppend(n: nat, digit: nat)
    requires n > 0 && digit < 10
    ensures Digits(10 * n + digit) == Digits(n) + [(ZERO + digit) as byte]
  {
    assert (10 * n + digit) / 10 == n;
  }

  /** The digits before the last make a numeral that is not 0. */
  lemma DigitRemoved(s: seq<byte>)
    requires CanonicalDigits(s) && |s| > 1
    ensures CanonicalDigits(s[..|s| - 1]) && s[..|s| - 1][0] == s[0] != ZERO && IsDigit(s[|s| - 1])
    ensures s == s[..|s| - 1] + [s[|s| - 1]]
  {
  }

  /** Every canonical digit string is the one that Digits makes of its value. */
  lemma {:induction false} DigitsComplete(s: seq<byte>)
    requires CanonicalDigits(s)
    ensures DigitsValue(s) >= 0 && Digits(DigitsValue(s)) == s
    ensures DigitsValue(s) == 0 <==> s[0] == ZERO
  {
    if |s| == 1 {
      OneDigit(s[0] - ZERO);
      assert s == [s[0]];
    } else {
      var front, last := s[..|s| - 1], s[|s| - 1];
      DigitRemoved(s);
      DigitsComplete(front);
      DigitAppended(front, last);
      DigitsAppend(DigitsValue(front), last - ZERO);
    }
  }

  /** So it is the only canonical numeral of the integer. */
  lemma DecimalIsUnique(s: seq<byte>, v: int)
    requires Canonical(s)
    ensures Parsed(s) == v <==> s == Decimal(v)
  {
    DecimalMeans(v);
    if Parsed(s) == v {
      if s[0] == MINUS {
        DigitsComplete(s[1..]);
        assert s == [MINUS] + s[1..];
      } else {
        DigitsComplete(s);
      }
    }
  }

  // ----- Room -----

  function Power10(k: nat): nat {
    if k == 0 then 1 else 10 * Power10(k - 1)
  }

  /** All digits, a sign and the terminator fit, and with one byte less some value would not. */
  lemma RoomForDigits(bits: nat)
    requires Width(bits)
    ensures MaxStrLenForBits(bits) >= 3
    ensures Power10(MaxStrLenForBits(bits) - 3) < Values(bits) <= Power10(MaxStrLenForBits(bits) - 2)
  {
    assert Power10(3) == 1000;
    assert Power10(5) == 100_000;
    assert Power10(10) == 100_000 * Power10(5);
    assert Power10(15) == 100_000 * Power10(10);
    assert Power10(20) == 100_000 * Power10(15);
  }

  /** The digits of the part of a number that is not yet written. */
  function Pending(n: nat): seq<byte> {
    if n == 0 then [] else Pending(n / 10) + [(ZERO + n % 10) as byte]
  }

  lemma {:induction false} PendingIsDigits(n: nat)
    requires n > 0
    ensures Pending(n) == Digits(n)
  {
    if n < 10 {
      assert Pending(n / 10) == [];
    } else {
      PendingIsDigits(n / 10);
    }
  }

  /** The tail of the buffer holds the last of all digits, and val is what is left, with room to spare. */
  ghost predicate Printing(all: seq<byte>, val: nat, buf: seq<byte>, i: nat) {
    && 1 <= i < |buf| && val < Power10(i - 1)
    && buf[|buf| - 1] == 0
    && all == Pending(val) + buf[i..|buf| - 1]
  }

  lemma StartsPrinting(m: nat, buf: seq<byte>)
    requires |buf| >= 2 && m < Power10(|buf| - 2) && buf[|buf| - 1] == 0
    ensures Printing(Pending(m), m, buf, |buf| - 1)
  {
  }

  lemma DigitPrinted(all: seq<byte>, val: nat, buf: seq<byte>, i: nat, after: seq<byte>)
    requires val > 0 && Printing(all, val, buf, i)
    requires i >= 1 && after == buf[i - 1 := ZERO + val % 10]
    ensures i >= 2 && Printing(all, val / 10, after, i - 1)
  {
    assert after[i - 1..|buf| - 1] == [ZERO + val % 10] + buf[i..|buf| - 1];
  }

  /** The loop ends because the value has reached 0. */
  lemma AllPrinted(m: nat, buf: seq<byte>, i: nat)
    requires m > 0 && Printing(Pending(m), 0, buf, i)
    ensures 1 <= i < |buf| && buf[i..|buf| - 1] == Digits(m) && buf[|buf| - 1] == 0
  {
    PendingIsDigits(m);
  }

  /** What is left to do once all digits are in the buffer. */
  lemma SignPrinted(v: int, buf: seq<byte>, i: nat)
    requires 1 <= i < |buf| && buf[|buf| - 1] == 0 && buf[i..|buf| - 1] == Digits(Abs(v))
    ensures var done := if v < 0 then IntStr(buf[i - 1 := MINUS], i - 1) else IntStr(buf, i);
            AsBytes(done) == Decimal(v) && done.buf[|buf| - 1] == 0
  {
    if v < 0 {
      assert buf[i - 1 := MINUS][i - 1..|buf| - 1] == [MINUS] + buf[i..|buf| - 1];
    }
  }

  // ----- The printers -----

  /** Rust's `/` and `%`, which truncate toward zero. */
  function TruncDiv(a: int, b: nat): int
    requires b > 0
  {
    if a < 0 then -(-a / b) else a / b
  }

  function TruncMod(a: int, b: nat): int
    requires b > 0
  {
    if a < 0 then -(-a % b) else a % b
  }

  lemma TruncatingDigit(val: int)
    ensures Abs(TruncDiv(val, 10)) == Abs(val) / 10 && Abs(TruncMod(val, 10)) == Abs(val) % 10
    ensures TruncDiv(val, 10) < 0 ==> val < 0
  {
  }

  method SignedToIntStr(v: int, bits: nat) returns (r: IntStr)
    requires Width(bits) && FitsSigned(v, bits)
    ensures |r.buf| == MaxStrLenForBits(bits) && r.start < |r.buf|
    ensures AsBytes(r) == Decimal(v) && r.buf[|r.buf| - 1] == 0
  {
    RoomForDigits(bits);
    r := PrintSigned(v, MaxStrLenForBits(bits));
  }

  method PrintSigned(v: int, n: nat) returns (r: IntStr)
    requires n >= 3 && Abs(v) < Power10(n - 2)
    ensures |r.buf| == n && r.start < n
    ensures AsBytes(r) == Decimal(v) && r.buf[n - 1] == 0
  {
    var buf := new byte[n](_ => 0);
    buf[n - 1] := 0;
    var i := PrintMagnitude(v, buf);
    ghost var digits := buf[..];
    SignPrinted(v, digits, i);
    if v < 0 && i > 0 {
      i := i - 1;
      buf[i] := MINUS;
      assert buf[..] == digits[i := MINUS];
    }
    r := IntStr(buf[..], i);
  }

  /** Whenever the digits and a sign fit, the loop ends because the value reaches 0. */
  method PrintMagnitude(v: int, buf: array<byte>) returns (i: nat)
    requires buf.Length >= 3 && Abs(v) < Power10(buf.Length - 2) && buf[buf.Length - 1] == 0
    modifies buf
    ensures 1 <= i < buf.Length && buf[..][i..buf.Length - 1] == Digits(Abs(v)) && buf[buf.Length - 1] == 0
  {
    if v == 0 {
      i := buf.Length - 2;
      buf[i] := ZERO;
      assert buf[..][i..buf.Length - 1] == [ZERO];
    } else {
      i := PrintDigits(v, buf);
    }
  }

  method PrintDigits(v: int, buf: array<byte>) returns (i: nat)
    requires v != 0 && buf.Length >= 3 && Abs(v) < Power10(buf.Length - 2) && buf[buf.Length - 1] == 0
    modifies buf
    ensures 1 <= i < buf.Length && buf[..][i..buf.Length - 1] == Digits(Abs(v)) && buf[buf.Length - 1] == 0
  {
    i := buf.Length - 1;
    var val := v;
    ghost var all := Pending(Abs(v));
    StartsPrinting(Abs(v), buf[..]);
    while val != 0 && i > 0
      invariant Printing(all, Abs(val), buf[..], i)
      decreases Abs(val)
    {
      ghost var before, left := buf[..], Abs(val);
      TruncatingDigit(val);
      i := i - 1;
      var rem := Abs(TruncMod(val, 10));
      buf[i] := ZERO + rem;
      val := TruncDiv(val, 10);
      DigitPrinted(all, left, before, i + 1, buf[..]);
    }
    AllPrinted(Abs(v), buf[..], i);
  }

  method UnsignedToIntStr(v: nat, bits: nat) returns (r: IntStr)
    requires Width(bits) && FitsUnsigned(v, bits)
    ensures |r.buf| == MaxStrLenForBits(bits) && r.start < |r.buf|
    ensures AsBytes(r) == Decimal(v) && r.buf[|r.buf| - 1] == 0
  {
    RoomForDigits(bits);
    r := PrintUnsigned(v, MaxStrLenForBits(bits));
  }

  method PrintUnsigned(v: nat, n: nat) returns (r: IntStr)
    requires n >= 3 && v < Power10(n - 2)
    ensures |r.buf| == n && r.start < n
    ensures AsBytes(r) == Decimal(v) && r.buf[n - 1] == 0
  {
    var buf := new byte[n](_ => 0);
    buf[n - 1] := 0;
    var i := n - 2;
    if v == 0 {
      buf[i] := ZERO;
      assert buf[..][i..n - 1] == [ZERO];
    } else {
      i := PrintUnsignedDigits(v, buf);
    }
    r := IntStr(buf[..], i);
  }

  method PrintUnsignedDigits(v: nat, buf: array<byte>) returns (i: nat)
    requires v > 0 && buf.Length >= 2 && v < Power10(buf.Length - 2) && buf[buf.Length - 1] == 0
    modifies buf
    ensures 1 <= i < buf.Length && buf[..][i..buf.Length - 1] == Digits(v) && buf[buf.Length - 1] == 0
  {
    i := buf.Length - 1;
    var val := v;
    ghost var all := Pending(v);
    StartsPrinting(v, buf[..]);
    while val > 0 && i > 0
      invariant val >= 0 && Printing(all, val, buf[..], i)
      decreases val
    {
      ghost var before, left := buf[..], val;
      i := i - 1;
      buf[i] := ZERO + val % 10;
      val := val / 10;
      DigitPrinted(all, left, before, i + 1, buf[..]);
    }
    AllPrinted(v, buf[..], i);
  }
}
