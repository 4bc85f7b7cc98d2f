/** The variable-length gNB identifier, 22 to 32 bits (section 9.3.1.6 of 3GPP TS 38.413):
    src/util/conversions.c, cp_gnb_id_to_bit_string and cp_bit_string_to_gnb_id.

    The source's 32-bit words are `bv32` and its bytes `bv8`, with its own shifts and masks. */
module GnbIds {
  /** An identifier that leaves the `unused` highest of its 32 bits clear. */
  datatype GnbId = GnbId(nbId: bv32, unused: bv32)

  /** The last byte carries `bitsUnused` padding bits at its low end. */
  datatype BitString = BitString(buf: seq<bv8>, bitsUnused: bv32)

  /** What the encoder asserts of its argument, computed in 64 bits as the source does. */
  predicate Encodable(g: GnbId) {
    g.unused < 11 && (g.nbId as bv64) >> (32 - g.unused) == 0
  }

  /** What the decoder asserts of its argument. */
  predicate Decodable(b: BitString) {
    (|b.buf| == 3 && b.bitsUnused < 3) || (|b.buf| == 4 && b.bitsUnused < 8)
  }

  function LowByte(x: bv32): bv8 {
    (x & 0xFF) as bv8
  }

  function LastByte(nbId: bv32, pad: bv32): bv8
    requires pad < 8
  {
    LowByte((nbId & ((0xFF as bv32) >> pad)) << pad)
  }

  function Bytes3(n: bv32, pad: bv32): seq<bv8>
    requires pad < 8
  {
    [LowByte(n >> (16 - pad)), LowByte(n >> (8 - pad)), LastByte(n, pad)]
  }

  function Bytes4(n: bv32, pad: bv32): seq<bv8>
    requires pad < 8
  {
    [LowByte(n >> (24 - pad)), LowByte(n >> (16 - pad)), LowByte(n >> (8 - pad)), LastByte(n, pad)]
  }

  function Encode(g: GnbId): BitString
    requires Encodable(g)
  {
    BitString(if g.unused > 7 then Bytes3(g.nbId, g.unused - 8) else Bytes4(g.nbId, g.unused), g.unused % 8)
  }

  function Join3(b0: bv8, b1: bv8, b2: bv8, pad: bv32): bv32
    requires pad < 8
  {
    ((b0 as bv32) << (16 - pad)) | ((b1 as bv32) << (8 - pad)) | ((b2 as bv32) >> pad)
  }

  function Join4(b0: bv8, b1: bv8, b2: bv8, b3: bv8, pad: bv32): bv32
    requires pad < 8
  {
    ((b0 as bv32) << (24 - pad)) | ((b1 as bv32) << (16 - pad)) | ((b2 as bv32) << (8 - pad)) | ((b3 as bv32) >> pad)
  }

  function Decode(b: BitString): GnbId
    requires Decodable(b)
  {
    if |b.buf| == 3 then GnbId(Join3(b.buf[0], b.buf[1], b.buf[2], b.bitsUnused), b.bitsUnused + 8)
    else GnbId(Join4(b.buf[0], b.buf[1], b.buf[2], b.buf[3], b.bitsUnused), b.bitsUnused)
  }

  /** The low `pad` bits of the last byte are clear. */
  predicate PaddingClear(last: bv8, pad: bv32)
    requires pad < 8
  {
    (last as bv32) & ((1 << pad) - 1) == 0
  }

  lemma {:induction false} Split3(n: bv32, pad: bv32)
    requires pad < 3 && (n as bv64) >> (24 - pad) == 0
    ensures Join3(LowByte(n >> (16 - pad)), LowByte(n >> (8 - pad)), LastByte(n, pad), pad) == n
    ensures PaddingClear(LastByte(n, pad), pad)
  {
    if pad == 0 {} else if pad == 1 {} else { assert pad == 2; }
  }

  lemma {:induction false} Split4(n: bv32, pad: bv32)
    requires pad < 8 && (n as bv64) >> (32 - pad) == 0
    ensures Join4(LowByte(n >> (24 - pad)), LowByte(n >> (16 - pad)), LowByte(n >> (8 - pad)),
                  LastByte(n, pad), pad) == n
    ensures PaddingClear(LastByte(n, pad), pad)
  {
    if pad == 0 {} else if pad == 1 {} else if pad == 2 {} else if pad == 3 {}
    else if pad == 4 {} else if pad == 5 {} else if pad == 6 {} else { assert pad == 7; }
  }

  lemma {:induction false} Unsplit3(b0: bv8, b1: bv8, b2: bv8, pad: bv32)
    requires pad < 3
    ensures var n := Join3(b0, b1, b2, pad);
            && (n as bv64) >> (24 - pad) == 0
            && LowByte(n >> (16 - pad)) == b0 && LowByte(n >> (8 - pad)) == b1
            && (LastByte(n, pad) == b2 <==> PaddingClear(b2, pad))
  {
    if pad == 0 {} else if pad == 1 {} else { assert pad == 2; }
  }

  lemma {:induction false} Unsplit4(b0: bv8, b1: bv8, b2: bv8, b3: bv8, pad: bv32)
    requires pad < 8
    ensures var n := Join4(b0, b1, b2, b3, pad);
            && (n as bv64) >> (32 - pad) == 0
            && LowByte(n >> (24 - pad)) == b0 && LowByte(n >> (16 - pad)) == b1 && LowByte(n >> (8 - pad)) == b2
            && (LastByte(n, pad) == b3 <==> PaddingClear(b3, pad))
  {
    if pad == 0 {} else if pad == 1 {} else if pad == 2 {} else if pad == 3 {}
    else if pad == 4 {} else if pad == 5 {} else if pad == 6 {} else { assert pad == 7; }
  }

  lemma {:induction false} Pads(unused: bv32)
    requires unused < 11
    ensures unused > 7 ==> unused % 8 == unused - 8 < 3 && unused - 8 + 8 == unused && 24 - (unused - 8) == 32 - unused
    ensures unused <= 7 ==> unused % 8 == unused
  {
    if unused == 8 {} else if unused == 9 {} else if unused == 10 {} else { assert unused <= 7; }
  }

  lemma ShortRoundTrip(n: bv32, pad: bv32)
    requires pad < 3 && (n as bv64) >> (24 - pad) == 0
    ensures Decode(BitString(Bytes3(n, pad), pad)) == GnbId(n, pad + 8)
    ensures PaddingClear(Bytes3(n, pad)[2], pad)
  {
    Split3(n, pad);
  }

  lemma LongRoundTrip(n: bv32, pad: bv32)
    requires pad < 8 && (n as bv64) >> (32 - pad) == 0
    ensures Decode(BitString(Bytes4(n, pad), pad)) == GnbId(n, pad)
    ensures PaddingClear(Bytes4(n, pad)[3], pad)
  {
    Split4(n, pad);
  }

  /** Every identifier the encoder accepts comes back; its string has the length for its number of
      bits, 3 bytes up to 24 bits and 4 above, and clear padding. */
  lemma DecodeEncode(g: GnbId)
    requires Encodable(g)
    ensures Decodable(Encode(g)) && Decode(Encode(g)) == g
    ensures |Encode(g).buf| == if g.unused > 7 then 3 else 4
    ensures PaddingClear(Encode(g).buf[|Encode(g).buf| - 1], Encode(g).bitsUnused)
  {
    Pads(g.unused);
    if g.unused > 7 {
      ShortRoundTrip(g.nbId, g.unused - 8);
    } else {
      LongRoundTrip(g.nbId, g.unused);
    }
  }

  lemma ShortStringRoundTrip(b: BitString)
    requires Decodable(b) && |b.buf| == 3
    ensures Encodable(Decode(b))
    ensures Encode(Decode(b)) == b <==> PaddingClear(b.buf[2], b.bitsUnused)
  {
    Unsplit3(b.buf[0], b.buf[1], b.buf[2], b.bitsUnused);
  }

  lemma LongStringRoundTrip(b: BitString)
    requires Decodable(b) && |b.buf| == 4
    ensures Encodable(Decode(b))
    ensures Encode(Decode(b)) == b <==> PaddingClear(b.buf[3], b.bitsUnused)
  {
    Unsplit4(b.buf[0], b.buf[1], b.buf[2], b.buf[3], b.bitsUnused);
  }

  /** Conversely, a string of 22 to 32 bits comes back exactly when its padding is clear. */
  lemma EncodeDecode(b: BitString)
    requires Decodable(b)
    ensures Encodable(Decode(b))
    ensures Encode(Decode(b)) == b <==> PaddingClear(b.buf[|b.buf| - 1], b.bitsUnused)
  {
    if |b.buf| == 3 {
      ShortStringRoundTrip(b);
    } else {
      LongStringRoundTrip(b);
    }
  }

  // ---- The bytes as a number ----

  /** Big-endian: the first byte is the most significant. */
  function Number3(b0: bv8, b1: bv8, b2: bv8): bv32 {
    ((b0 as bv32) << 16) | ((b1 as bv32) << 8) | (b2 as bv32)
  }

  function Number4(b0: bv8, b1: bv8, b2: bv8, b3: bv8): bv32 {
    ((b0 as bv32) << 24) | ((b1 as bv32) << 16) | ((b2 as bv32) << 8) | (b3 as bv32)
  }

  /** These are the sums of the bytes with their weights 256^k, in 64 bits, where none overflows. */
  lemma NumbersAreSums(b0: bv8, b1: bv8, b2: bv8, b3: bv8)
    ensures (Number3(b0, b1, b2) as bv64) == (b0 as bv64) * 0x1_0000 + (b1 as bv64) * 0x100 + (b2 as bv64)
    ensures (Number4(b0, b1, b2, b3) as bv64)
            == (b0 as bv64) * 0x100_0000 + (b1 as bv64) * 0x1_0000 + (b2 as bv64) * 0x100 + (b3 as bv64)
  {
  }

  /** Shifting up by one more bit is shifting once more, and shifting once is doubling: so shifting up
      by the padding multiplies by 2^pad, as long as no bit is lost. */
  lemma ShiftComposes(n: bv32, pad: bv32)
    requires pad < 8
    ensures n << (pad + 1) == (n << pad) << 1 && n << 0 == n
  {
  }

  lemma ShiftDoubles(n: bv32)
    ensures n < 0x8000_0000 <==> ((n << 1) as bv64) == (n as bv64) * 2
  {
  }

  lemma {:induction false} EncodedNumber3(n: bv32, pad: bv32)
    requires pad < 3 && (n as bv64) >> (24 - pad) == 0
    ensures Number3(LowByte(n >> (16 - pad)), LowByte(n >> (8 - pad)), LastByte(n, pad)) == n << pad
  {
    if pad == 0 {} else if pad == 1 {} else { assert pad == 2; }
  }

  lemma {:induction false} EncodedNumber4(n: bv32, pad: bv32)
    requires pad < 8 && (n as bv64) >> (32 - pad) == 0
    ensures Number4(LowByte(n >> (24 - pad)), LowByte(n >> (16 - pad)), LowByte(n >> (8 - pad)), LastByte(n, pad))
            == n << pad
  {
    if pad == 0 {} else if pad == 1 {} else if pad == 2 {} else if pad == 3 {}
    else if pad == 4 {} else if pad == 5 {} else if pad == 6 {} else { assert pad == 7; }
  }

  lemma {:induction false} DecodedNumber3(b0: bv8, b1: bv8, b2: bv8, pad: bv32)
    requires pad < 3
    ensures Join3(b0, b1, b2, pad) == Number3(b0, b1, b2) >> pad
  {
    if pad == 0 {} else if pad == 1 {} else { assert pad == 2; }
  }

  lemma {:induction false} DecodedNumber4(b0: bv8, b1: bv8, b2: bv8, b3: bv8, pad: bv32)
    requires pad < 8
    ensures Join4(b0, b1, b2, b3, pad) == Number4(b0, b1, b2, b3) >> pad
  {
    if pad == 0 {} else if pad == 1 {} else if pad == 2 {} else if pad == 3 {}
    else if pad == 4 {} else if pad == 5 {} else if pad == 6 {} else { assert pad == 7; }
  }

  /** The string of an identifier of at most 24 bits is the big-endian number nbId * 2^bitsUnused. */
  lemma EncodedShortNumber(g: GnbId)
    requires Encodable(g) && g.unused > 7
    ensures |Encode(g).buf| == 3 && Encode(g).bitsUnused == g.unused - 8
    ensures Number3(Encode(g).buf[0], Encode(g).buf[1], Encode(g).buf[2]) == g.nbId << (g.unused - 8)
  {
    Pads(g.unused);
    EncodedNumber3(g.nbId, g.unused - 8);
  }

  /** So is that of an identifier of 25 to 32 bits. */
  lemma EncodedLongNumber(g: GnbId)
    requires Encodable(g) && g.unused <= 7
    ensures |Encode(g).buf| == 4 && Encode(g).bitsUnused == g.unused
    ensures Number4(Encode(g).buf[0], Encode(g).buf[1], Encode(g).buf[2], Encode(g).buf[3]) == g.nbId << g.unused
  {
    Pads(g.unused);
    EncodedNumber4(g.nbId, g.unused);
  }

  /** A decoded identifier is the string's number divided by 2^bitsUnused. */
  lemma DecodedShortNumber(b: BitString)
    requires Decodable(b) && |b.buf| == 3
    ensures Decode(b).unused == b.bitsUnused + 8
    ensures Decode(b).nbId == Number3(b.buf[0], b.buf[1], b.buf[2]) >> b.bitsUnused
  {
    DecodedNumber3(b.buf[0], b.buf[1], b.buf[2], b.bitsUnused);
  }

  lemma DecodedLongNumber(b: BitString)
    requires Decodable(b) && |b.buf| == 4
    ensures Decode(b).unused == b.bitsUnused
    ensures Decode(b).nbId == Number4(b.buf[0], b.buf[1], b.buf[2], b.buf[3]) >> b.bitsUnused
  {
    DecodedNumber4(b.buf[0], b.buf[1], b.buf[2], b.buf[3], b.bitsUnused);
  }

  /** The encoder takes the identifiers of 22 to 32 bits that fit, the decoder strings of 22 to 32 bits. */
  lemma DomainsAreExact(g: GnbId, b: BitString)
    ensures Encodable(g) <==> g.unused <= 10 && (g.nbId as bv64) < (1 << (32 - g.unused))
    ensures Decodable(b) <==> && (|b.buf| == 3 || |b.buf| == 4) && b.bitsUnused < 8
                              && 22 <= 8 * |b.buf| - (b.bitsUnused as int) <= 32
  {
    if g.unused <= 10 {
      FitsBelow(g.nbId, 32 - g.unused);
    }
  }

  lemma {:induction false} FitsBelow(n: bv32, bits: bv32)
    requires 22 <= bits <= 32
    ensures (n as bv64) >> bits == 0 <==> (n as bv64) < (1 << bits)
  {
    if bits == 22 {} else if bits == 23 {} else if bits == 24 {} else if bits == 25 {} else if bits == 26 {}
    else if bits == 27 {} else if bits == 28 {} else if bits == 29 {} else if bits == 30 {}
    else if bits == 31 {} else { assert bits == 32; }
  }

  method FillShort(nbId: bv32, pad: bv32) returns (buf: array<bv8>)
    requires pad < 3
    ensures fresh(buf) && buf[..] == Bytes3(nbId, pad)
  {
    buf := new bv8[3];
    buf[0] := LowByte(nbId >> (16 - pad));
    buf[1] := LowByte(nbId >> (8 - pad));
    buf[2] := LastByte(nbId, pad);
  }

  method FillLong(nbId: bv32, pad: bv32) returns (buf: array<bv8>)
    requires pad < 8
    ensures fresh(buf) && buf[..] == Bytes4(nbId, pad)
  {
    buf := new bv8[4];
    buf[0] := LowByte(nbId >> (24 - pad));
    buf[1] := LowByte(nbId >> (16 - pad));
    buf[2] := LowByte(nbId >> (8 - pad));
    buf[3] := LastByte(nbId, pad);
  }

  /** The encoder allocates the buffer and writes its bytes one by one. */
  method CpGnbIdToBitString(g: GnbId) returns (buf: array<bv8>, bitsUnused: bv32)
    requires Encodable(g)
    ensures fresh(buf) && BitString(buf[..], bitsUnused) == Encode(g)
    ensures g.unused > 7 ==> buf.Length == 3 && bitsUnused == g.unused - 8
                             && Number3(buf[0], buf[1], buf[2]) == g.nbId << (g.unused - 8)
    ensures g.unused <= 7 ==> buf.Length == 4 && bitsUnused == g.unused
                              && Number4(buf[0], buf[1], buf[2], buf[3]) == g.nbId << g.unused
  {
    Pads(g.unused);
    bitsUnused := g.unused % 8;
    if g.unused > 7 {
      EncodedShortNumber(g);
      buf := FillShort(g.nbId, g.unused - 8);
    } else {
      EncodedLongNumber(g);
      buf := FillLong(g.nbId, g.unused);
    }
  }
}
