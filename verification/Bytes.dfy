// Byte strings, and what the file and memory primitives of the store do to them.

module Bytes {

  type byte = x: int | 0 <= x < 256

  datatype Option<+T> = None | Some(value: T)

  function Zeros(n: nat): (r: seq<byte>)
    ensures |r| == n
    ensures forall i :: 0 <= i < n ==> r[i] == 0
  {
    seq(n, _ => 0 as byte)
  }

  /** `ftruncate`: cut, or extend with zero bytes. */
  function SetLen(file: seq<byte>, n: nat): (r: seq<byte>)
    ensures |r| == n
    ensures forall i :: 0 <= i < n ==> r[i] == if i < |file| then file[i] else 0
  {
    if n <= |file| then file[..n] else file + Zeros(n - |file|)
  }

  /** `pwrite` of a whole chunk: a hole before `offset` reads as zero bytes. */
  function WriteAt(file: seq<byte>, offset: nat, chunk: seq<byte>): (r: seq<byte>)
    ensures |r| == if chunk == [] || offset + |chunk| <= |file| then |file| else offset + |chunk|
    ensures forall i :: 0 <= i < |r| ==>
      r[i] == if offset <= i < offset + |chunk| then chunk[i - offset]
              else if i < |file| then file[i] else 0
  {
    if chunk == [] then file
    else
      var wide := if |file| < offset + |chunk| then SetLen(file, offset + |chunk|) else file;
      wide[..offset] + chunk + wide[offset + |chunk|..]
  }

  /** Writing two adjacent chunks one after the other writes their concatenation. */
  lemma WriteAtTwice(file: seq<byte>, offset: nat, a: seq<byte>, b: seq<byte>)
    ensures WriteAt(WriteAt(file, offset, a), offset + |a|, b) == WriteAt(file, offset, a + b)
  {
    var once := WriteAt(file, offset, a);
    var twice, whole := WriteAt(once, offset + |a|, b), WriteAt(file, offset, a + b);
    assert |twice| == |whole|;
    forall i | 0 <= i < |whole| ensures twice[i] == whole[i] {}
  }

  lemma Regroup(a: seq<byte>, b: seq<byte>, c: seq<byte>, d: seq<byte>)
    ensures a + b + c + d == a + (b + (c + d))
    ensures a + b + c + d == a + (b + c) + d
  {
  }

  /** A string around one of its parts. */
  lemma AroundPart(s: seq<byte>, at: nat, part: seq<byte>)
    requires at + |part| <= |s| && s[at..at + |part|] == part
    ensures s[..at] + part + s[at + |part|..] == s
  {
  }

  // ----- Unsigned integers, least significant byte first -----

  const U64_LIMIT := 0x1_0000_0000_0000_0000

  function ToBytes(n: nat, width: nat): (r: seq<byte>)
    ensures |r| == width
  {
    if width == 0 then [] else [n % 256] + ToBytes(n / 256, width - 1)
  }

  function FromBytes(s: seq<byte>): nat {
    if s == [] then 0 else s[0] + 256 * FromBytes(s[1..])
  }

  function Power256(k: nat): (r: nat)
    ensures r > 0
  {
    if k == 0 then 1 else 256 * Power256(k - 1)
  }

  lemma {:induction false} LengthRoundTrip(n: nat, width: nat)
    requires n < Power256(width)
    ensures FromBytes(ToBytes(n, width)) == n
  {
    if width > 0 {
      assert ToBytes(n, width)[1..] == ToBytes(n / 256, width - 1);
      LengthRoundTrip(n / 256, width - 1);
    }
  }

  lemma Power8()
    ensures Power256(8) == U64_LIMIT
  {
    assert Power256(4) == 0x1_0000_0000;
    assert Power256(8) == 256 * (256 * (256 * (256 * Power256(4))));
  }
}
