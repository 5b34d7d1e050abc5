/** Where the samples and frames of a PCM data chunk come from, byte by byte. */
module PcmLayout {
  import opened Common
  import opened Products
  import opened PcmAnalysis

  // ----- One sample -----

  /** Byte i of a number, counted from the least significant one. */
  function ByteOf(x: nat, i: nat): nat { x / Power(i) % 256 }

  function Power(n: nat): nat {
    match n case 0 => 1 case 1 => 256 case 2 => 65_536 case 3 => 16_777_216 case _ => 4_294_967_296
  }

  lemma Quotients(v: nat, unit: nat, q: nat, r: nat)
    requires unit in {1, 256, 65_536, 16_777_216} && r < unit && v == unit * q + r
    ensures v / unit == q
  {}

  lemma LowByte(b: Byte, rest: nat)
    ensures (256 * rest + b) % 256 == b
  {}

  /** Dropping the first byte of the text drops the last byte of the number. */
  lemma {:induction false} UnsignedBytes(bytes: seq<Byte>, i: nat)
    requires i < |bytes| <= 4
    ensures ByteOf(LittleEndian(bytes), i) == bytes[i]
  {
    var v, rest := LittleEndian(bytes), LittleEndian(bytes[1..]);
    LowByte(bytes[0], rest);
    if i > 0 {
      UnsignedBytes(bytes[1..], i - 1);
      var q, r := rest / Power(i - 1), rest % Power(i - 1);
      assert rest == Power(i - 1) * q + r;
      Quotients(v, Power(i), q, 256 * r + bytes[0]);
    }
  }

  /** Decoding is the inverse of writing a number down: one byte holds it offset by 128, and more bytes hold
      it in two's complement, the least significant first. */
  lemma DecodeInvertsWriting(bytes: seq<Byte>, i: nat)
    requires |bytes| in {1, 2, 3, 4} && i < |bytes|
    ensures |bytes| == 1 ==> bytes[0] == Decode(bytes) + 128
    ensures |bytes| > 1 ==> bytes[i] == ByteOf(Decode(bytes) % Power(|bytes|), i)
    ensures -(Power(|bytes|) / 2) <= Decode(bytes) < Power(|bytes|) / 2
  {
    if |bytes| > 1 {
      DecodeInRange(bytes);
      LittleEndianBound(bytes);
      UnsignedBytes(bytes, i);
      assert Power256(2) == 65_536 && Power256(3) == 256 * Power256(2) && Power256(4) == 256 * Power256(3);
      var v := LittleEndian(bytes);
      assert Decode(bytes) == v || Decode(bytes) == v - Power(|bytes|);
      assert Decode(bytes) % Power(|bytes|) == v;
    }
  }

  // ----- All samples -----

  /** Sample k is decoded from the k-th group of bytes, and there is one for every whole group. */
  lemma {:induction false} SampleAt(data: seq<Byte>, width: nat, k: nat)
    requires width in {1, 2, 3, 4} && k < |Samples(data, width)|
    ensures Repeat(k, width) + width <= |data|
    ensures Samples(data, width)[k] == Decode(data[Repeat(k, width)..Repeat(k, width) + width])
  {
    if k > 0 {
      SampleAt(data[width..], width, k - 1);
      var start := Repeat(k - 1, width);
      assert data[width..][start..start + width] == data[start + width..start + width + width];
    }
  }

  lemma {:induction false} SampleTotal(data: seq<Byte>, width: nat)
    requires width in {1, 2, 3, 4}
    ensures Repeat(|Samples(data, width)|, width) <= |data| < Repeat(|Samples(data, width)|, width) + width
  {
    if |data| >= width {
      SampleTotal(data[width..], width);
    }
  }

  // ----- Frames -----

  lemma {:induction false} NormalizedAt(samples: seq<int>, full: nat, c: nat)
    requires full > 0 && c < |samples|
    ensures Normalize(samples, full)[c] == samples[c] as real / full as real
  {
    if c < |samples| - 1 {
      NormalizedAt(samples[..|samples| - 1], full, c);
    }
  }

  /** Channel c of frame j is sample j * channels + c, scaled to full scale. */
  lemma {:induction false} FrameAt(samples: seq<int>, channels: nat, full: nat, j: nat, c: nat)
    requires channels > 0 && full > 0 && j < |Frames(samples, channels, full)| && c < channels
    ensures Repeat(j, channels) + channels <= |samples| && |Frames(samples, channels, full)[j]| == channels
    ensures Frames(samples, channels, full)[j][c] == samples[Repeat(j, channels) + c] as real / full as real
  {
    if j == 0 {
      NormalizedAt(samples[..channels], full, c);
    } else {
      FrameAt(samples[channels..], channels, full, j - 1, c);
      assert samples[channels..][Repeat(j - 1, channels) + c] == samples[Repeat(j, channels) + c];
    }
  }

  lemma {:induction false} FrameTotal(samples: seq<int>, channels: nat, full: nat)
    requires channels > 0 && full > 0
    ensures var n := |Frames(samples, channels, full)|;
            Repeat(n, channels) <= |samples| < Repeat(n, channels) + channels
  {
    if |samples| >= channels {
      FrameTotal(samples[channels..], channels, full);
    }
  }
}
