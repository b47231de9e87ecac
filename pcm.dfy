/** The browser-side frame encoder: floatTo16BitPCM turns one block of
    Float32 samples in [-1, 1] into signed 16-bit PCM and hands the
    underlying little-endian byte buffer to the socket. */
module Pcm {
  import opened Common

  const MinInt16: int := -32768
  const MaxInt16: int := 32767

  /** `Math.max(-1, Math.min(1, x))`. */
  function Clamp(x: real): real
  {
    if x > 1.0 then 1.0 else if x < -1.0 then -1.0 else x
  }

  /** ECMAScript's truncation of a number toward zero, on exact reals. */
  function TruncateTowardZero(x: real): int
  {
    if x >= 0.0 then x.Floor else -((-x).Floor)
  }

  /** ECMAScript ToInt16: the integer modulo 2^16, read as two's complement. */
  function ToInt16(n: int): (r: int)
    ensures MinInt16 <= r <= MaxInt16
    ensures MinInt16 <= n <= MaxInt16 ==> r == n
  {
    var m := n % 65536;
    if m >= 32768 then m - 65536 else m
  }

  /** One sample as stored into the Int16Array: clamp, then scale the negative
      side by 0x8000 and the positive side by 0x7FFF, then convert. */
  function EncodeSample(x: real): int
  {
    var s := Clamp(x);
    ToInt16(TruncateTowardZero(if s < 0.0 then s * 32768.0 else s * 32767.0))
  }

  /** The encoding of a whole block, sample by sample. */
  function EncodeBlock(input: seq<real>): (r: seq<int>)
    ensures |r| == |input|
  {
    seq(|input|, i requires 0 <= i < |input| => EncodeSample(input[i]))
  }

  lemma TruncateBounds(x: real, lo: int, hi: int)
    requires lo as real <= x <= hi as real
    ensures lo <= TruncateTowardZero(x) <= hi
  {
  }

  /** The scaled value always fits in 16 bits, so the store never wraps around:
      the stored sample is the truncated scaled value itself. */
  lemma EncodeSampleNoWrap(x: real)
    ensures var s := Clamp(x);
            EncodeSample(x) == TruncateTowardZero(if s < 0.0 then s * 32768.0 else s * 32767.0)
    ensures MinInt16 <= EncodeSample(x) <= MaxInt16
  {
    var s := Clamp(x);
    if s < 0.0 {
      TruncateBounds(s * 32768.0, -32768, 0);
    } else {
      TruncateBounds(s * 32767.0, 0, 32767);
    }
  }

  /** Full scale maps onto the ends of the 16-bit range, and silence onto 0;
      anything beyond full scale saturates. */
  lemma EncodeSampleBoundaries(x: real)
    ensures EncodeSample(1.0) == MaxInt16
    ensures EncodeSample(-1.0) == MinInt16
    ensures EncodeSample(0.0) == 0
    ensures x >= 1.0 ==> EncodeSample(x) == MaxInt16
    ensures x <= -1.0 ==> EncodeSample(x) == MinInt16
  {
    assert (32767.0).Floor == 32767;
    assert (32768.0).Floor == 32768;
  }

  /** The asymmetric scaling: half scale is -16384 below zero but 16383 above. */
  lemma EncodeSampleHalfScale()
    ensures EncodeSample(-0.5) == -16384
    ensures EncodeSample(0.5) == 16383
  {
    assert (16384.0).Floor == 16384;
    assert (16383.5).Floor == 16383;
  }

  /** The encoding keeps the sign of the sample and is monotone. */
  lemma EncodeSampleMonotone(x: real, y: real)
    requires x <= y
    ensures EncodeSample(x) <= EncodeSample(y)
    ensures x > 0.0 ==> EncodeSample(x) >= 0
    ensures x < 0.0 ==> EncodeSample(x) <= 0
  {
    EncodeSampleNoWrap(x);
    EncodeSampleNoWrap(y);
    var sx, sy := Clamp(x), Clamp(y);
    assert sx <= sy;
    if sx < 0.0 {
      TruncateBounds(sx * 32768.0, -32768, 0);
    }
    if sy >= 0.0 {
      TruncateBounds(sy * 32767.0, 0, 32767);
    }
    if sx < 0.0 && sy < 0.0 {
      assert sx * 32768.0 <= sy * 32768.0;
      assert (-(sy * 32768.0)).Floor <= (-(sx * 32768.0)).Floor;
    } else if sx >= 0.0 && sy >= 0.0 {
      assert sx * 32767.0 <= sy * 32767.0;
    }
  }

  // ---------------------------------------------------------------------
  // The byte layout of an Int16Array's buffer (little-endian)
  // ---------------------------------------------------------------------

  /** The two bytes of one 16-bit sample, low byte first. */
  function Int16LE(v: int): (r: seq<byte>)
    ensures |r| == 2
  {
    var u := v % 65536;
    [(u % 256) as byte, (u / 256) as byte]
  }

  /** Reads one little-endian signed 16-bit sample. */
  function DecodeInt16LE(lo: byte, hi: byte): int
  {
    var u := lo as int + 256 * hi as int;
    if u >= 32768 then u - 65536 else u
  }

  /** The buffer of a whole Int16Array. */
  function Int16Bytes(samples: seq<int>): (r: seq<byte>)
    ensures |r| == 2 * |samples|
  {
    if samples == [] then [] else Int16LE(samples[0]) + Int16Bytes(samples[1..])
  }

  /** Reading a sample back from its two bytes gives the sample. */
  lemma Int16RoundTrip(v: int)
    requires MinInt16 <= v <= MaxInt16
    ensures DecodeInt16LE(Int16LE(v)[0], Int16LE(v)[1]) == v
  {
    var u := v % 65536;
    assert u == (u % 256) + 256 * (u / 256);
  }

  /** Bytes 2i and 2i+1 of the buffer hold sample i. */
  lemma {:induction false} Int16BytesAt(samples: seq<int>, i: nat)
    requires i < |samples|
    ensures Int16Bytes(samples)[2 * i] == Int16LE(samples[i])[0]
    ensures Int16Bytes(samples)[2 * i + 1] == Int16LE(samples[i])[1]
  {
    if i > 0 {
      Int16BytesAt(samples[1..], i - 1);
    }
  }

  /** `floatTo16BitPCM`: fills a fresh Int16Array of the block's length, one
      encoded sample per input sample, and returns its byte buffer. */
  method FloatTo16BitPCM(input: seq<real>) returns (buffer: seq<byte>)
    ensures buffer == Int16Bytes(EncodeBlock(input))
    ensures |buffer| == 2 * |input|
    ensures forall i :: 0 <= i < |input| ==> DecodeInt16LE(buffer[2 * i], buffer[2 * i + 1]) == EncodeSample(input[i])
  {
    var output := new int[|input|];
    for i := 0 to |input|
      invariant forall k :: 0 <= k < i ==> output[k] == EncodeSample(input[k])
    {
      output[i] := EncodeSample(input[i]);
    }
    assert output[..] == EncodeBlock(input);
    buffer := Int16Bytes(output[..]);
    forall i | 0 <= i < |input|
      ensures DecodeInt16LE(buffer[2 * i], buffer[2 * i + 1]) == EncodeSample(input[i])
    {
      Int16BytesAt(output[..], i);
      EncodeSampleNoWrap(input[i]);
      Int16RoundTrip(EncodeSample(input[i]));
    }
  }
}
