/** The fixed-width identifier codecs of src/util/conversions.c.

    They put the low bytes first and the remaining high bits, shifted up by the padding, last. The
    functions of the source that differ in width only share one definition here:
    three bytes   padding 4  macro eNB id, macro ng-eNB id          20 bits
                  padding 3  long macro eNB id, long ng-eNB id      21 bits
                  padding 6  short macro eNB id, short ng-eNB id    18 bits
    four bytes    padding 4  E-UTRA cell id, home eNB id            28 bits
    five bytes    padding 4  NR cell id                             36 bits
    and the AMF set id (10 bits) and AMF pointer (6 bits) put the high bits first. */
module FixedWidthIds {
  function Byte(x: bv64): bv8 {
    (x & 0xFF) as bv8
  }

  /** The low `pad` bits of the last byte. */
  predicate PaddingClear(last: bv8, pad: bv8)
    requires pad < 8
  {
    last & ((1 << pad) - 1) == 0
  }

  predicate ValidPad3(pad: bv64) {
    pad == 3 || pad == 4 || pad == 6
  }

  // ---- Three bytes ----

  function Encode3(v: bv64, pad: bv64): seq<bv8>
    requires ValidPad3(pad) && v < (1 << (24 - pad))
  {
    [Byte(v), Byte(v >> 8), Byte((v >> 16) << pad)]
  }

  function Decode3(b: seq<bv8>, pad: bv64): bv64
    requires ValidPad3(pad) && |b| == 3
  {
    (((b[2] as bv64) >> pad) << 16) | ((b[1] as bv64) << 8) | (b[0] as bv64)
  }

  lemma DecodeEncode3(v: bv64, pad: bv64)
    requires ValidPad3(pad) && v < (1 << (24 - pad))
    ensures |Encode3(v, pad)| == 3 && Decode3(Encode3(v, pad), pad) == v
    ensures PaddingClear(Encode3(v, pad)[2], pad as bv8)
  {
    Scalar3(v, pad);
  }

  lemma {:induction false} Scalar3(v: bv64, pad: bv64)
    requires ValidPad3(pad) && v < (1 << (24 - pad))
    ensures (((Byte((v >> 16) << pad) as bv64) >> pad) << 16) | ((Byte(v >> 8) as bv64) << 8) | (Byte(v) as bv64) == v
    ensures PaddingClear(Byte((v >> 16) << pad), pad as bv8)
  {
    if pad == 3 {} else if pad == 4 {} else { assert pad == 6; }
  }

  lemma EncodeDecode3(b: seq<bv8>, pad: bv64)
    requires ValidPad3(pad) && |b| == 3
    ensures Decode3(b, pad) < (1 << (24 - pad))
    ensures Encode3(Decode3(b, pad), pad) == b <==> PaddingClear(b[2], pad as bv8)
  {
    Unscalar3(b[0], b[1], b[2], pad);
  }

  lemma {:induction false} Unscalar3(b0: bv8, b1: bv8, b2: bv8, pad: bv64)
    requires ValidPad3(pad)
    ensures var v := (((b2 as bv64) >> pad) << 16) | ((b1 as bv64) << 8) | (b0 as bv64);
            && v < (1 << (24 - pad)) && Byte(v) == b0 && Byte(v >> 8) == b1
            && (Byte((v >> 16) << pad) == b2 <==> PaddingClear(b2, pad as bv8))
  {
    if pad == 3 {} else if pad == 4 {} else { assert pad == 6; }
  }

  // ---- Four bytes ----

  function Encode4(v: bv64): seq<bv8>
    requires v < 0x1000_0000
  {
    [Byte(v), Byte(v >> 8), Byte(v >> 16), Byte((v >> 24) << 4)]
  }

  function Decode4(b: seq<bv8>): bv64
    requires |b| == 4
  {
    (((b[3] as bv64) >> 4) << 24) | ((b[2] as bv64) << 16) | ((b[1] as bv64) << 8) | (b[0] as bv64)
  }

  lemma DecodeEncode4(v: bv64)
    requires v < 0x1000_0000
    ensures |Encode4(v)| == 4 && Decode4(Encode4(v)) == v && PaddingClear(Encode4(v)[3], 4)
  {
    Scalar4(v);
  }

  lemma Scalar4(v: bv64)
    requires v < 0x1000_0000
    ensures (((Byte((v >> 24) << 4) as bv64) >> 4) << 24) | ((Byte(v >> 16) as bv64) << 16)
            | ((Byte(v >> 8) as bv64) << 8) | (Byte(v) as bv64) == v
    ensures PaddingClear(Byte((v >> 24) << 4), 4)
  {
  }

  lemma EncodeDecode4(b: seq<bv8>)
    requires |b| == 4
    ensures Decode4(b) < 0x1000_0000
    ensures Encode4(Decode4(b)) == b <==> PaddingClear(b[3], 4)
  {
    Unscalar4(b[0], b[1], b[2], b[3]);
  }

  lemma Unscalar4(b0: bv8, b1: bv8, b2: bv8, b3: bv8)
    ensures var v := (((b3 as bv64) >> 4) << 24) | ((b2 as bv64) << 16) | ((b1 as bv64) << 8) | (b0 as bv64);
            && v < 0x1000_0000 && Byte(v) == b0 && Byte(v >> 8) == b1 && Byte(v >> 16) == b2
            && (Byte((v >> 24) << 4) == b3 <==> PaddingClear(b3, 4))
  {
  }

  // ---- Five bytes: the NR cell id ----

  const NR_LIMIT: bv64 := 0x10_0000_0000

  /** `buf[3] << 24` has type int: widened to 64 bits it copies its sign bit upwards. */
  function Widen(x: bv32): bv64 {
    if x & 0x8000_0000 == 0 then x as bv64 else (x as bv64) | 0xFFFF_FFFF_0000_0000
  }

  function EncodeNr(v: bv64): seq<bv8>
    requires v < NR_LIMIT
  {
    [Byte(v), Byte(v >> 8), Byte(v >> 16), Byte(v >> 24), Byte((v >> 32) << 4)]
  }

  function JoinNr(b0: bv8, b1: bv8, b2: bv8, b3: bv8, b4: bv8): bv64 {
    (((b4 as bv64) >> 4) << 32) | Widen((b3 as bv32) << 24) | ((b2 as bv64) << 16) | ((b1 as bv64) << 8) | (b0 as bv64)
  }

  function DecodeNr(b: seq<bv8>): bv64
    requires |b| == 5
  {
    JoinNr(b[0], b[1], b[2], b[3], b[4])
  }

  function WithHighBits(v: bv64): bv64 {
    v | 0xFFFF_FFFF_0000_0000
  }

  lemma ClearScalarNr(v: bv64)
    requires v < NR_LIMIT && v & 0x8000_0000 == 0
    ensures JoinNr(Byte(v), Byte(v >> 8), Byte(v >> 16), Byte(v >> 24), Byte((v >> 32) << 4)) == v
  {
  }

  lemma SetScalarNr(v: bv64)
    requires v < NR_LIMIT && v & 0x8000_0000 != 0
    ensures JoinNr(Byte(v), Byte(v >> 8), Byte(v >> 16), Byte(v >> 24), Byte((v >> 32) << 4)) == WithHighBits(v)
  {
  }

  lemma WithHighBitsDiffers(v: bv64)
    requires v < NR_LIMIT
    ensures WithHighBits(v) != v
  {
  }

  lemma EncodedNrPadding(v: bv64)
    requires v < NR_LIMIT
    ensures PaddingClear(EncodeNr(v)[4], 4)
  {
    var shifted := (v >> 32) << 4;
    assert PaddingClear(Byte(shifted), 4);
  }

  /** The round trip of the NR cell id holds exactly for the values with bit 31 clear; with the bit
      set the decoder also sets the 32 high bits. */
  lemma DecodeEncodeNr(v: bv64)
    requires v < NR_LIMIT
    ensures |EncodeNr(v)| == 5
    ensures DecodeNr(EncodeNr(v)) == if v & 0x8000_0000 == 0 then v else WithHighBits(v)
    ensures DecodeNr(EncodeNr(v)) == v <==> v & 0x8000_0000 == 0
    ensures PaddingClear(EncodeNr(v)[4], 4)
  {
    EncodedNrPadding(v);
    WithHighBitsDiffers(v);
    if v & 0x8000_0000 == 0 { ClearScalarNr(v); } else { SetScalarNr(v); }
  }

  /** Conversely: the encoder accepts a decoded value exactly when the top bit of the fourth byte is
      clear, and then gives the string back exactly when its padding is clear. */
  lemma DecodedNrIsEncodable(b: seq<bv8>)
    requires |b| == 5
    ensures DecodeNr(b) < NR_LIMIT <==> b[3] < 128
  {
    JoinedNrRange(b[0], b[1], b[2], b[3], b[4]);
  }

  lemma EncodeDecodeNr(b: seq<bv8>)
    requires |b| == 5 && DecodeNr(b) < NR_LIMIT
    ensures EncodeNr(DecodeNr(b)) == b <==> PaddingClear(b[4], 4)
  {
    var v := DecodeNr(b);
    JoinedNrRange(b[0], b[1], b[2], b[3], b[4]);
    JoinedNrBytes(b[0], b[1], b[2], b[3], b[4]);
    SameButLast(EncodeNr(v), b);
  }

  lemma SameButLast(a: seq<bv8>, b: seq<bv8>)
    requires |a| == |b| == 5 && forall i :: 0 <= i < 4 ==> a[i] == b[i]
    ensures a == b <==> a[4] == b[4]
  {
  }

  lemma JoinedNrRange(b0: bv8, b1: bv8, b2: bv8, b3: bv8, b4: bv8)
    ensures JoinNr(b0, b1, b2, b3, b4) < NR_LIMIT <==> b3 < 128
  {
  }

  lemma JoinedNrBytes(b0: bv8, b1: bv8, b2: bv8, b3: bv8, b4: bv8)
    requires b3 < 128
    ensures var v := JoinNr(b0, b1, b2, b3, b4);
            && Byte(v) == b0 && Byte(v >> 8) == b1 && Byte(v >> 16) == b2 && Byte(v >> 24) == b3
            && (Byte((v >> 32) << 4) == b4 <==> PaddingClear(b4, 4))
  {
  }

  // ---- AMF identifiers ----

  function EncodeAmfSetId(v: bv32): seq<bv8>
    requires v < 1024
  {
    [(((v << 6) >> 8) & 0xFF) as bv8, ((v << 6) & 0xFF) as bv8]
  }

  function DecodeAmfSetId(b: seq<bv8>): bv32
    requires |b| == 2
  {
    (((b[0] as bv32) << 8) >> 6) | ((b[1] as bv32) >> 6)
  }

  function EncodeAmfPtr(v: bv8): bv8
    requires v < 64
  {
    v << 2
  }

  function DecodeAmfPtr(b: bv8): bv8 {
    b >> 2
  }

  lemma AmfRoundTrips(v: bv32, b: seq<bv8>, p: bv8, c: bv8)
    requires v < 1024 && |b| == 2 && p < 64
    ensures DecodeAmfSetId(EncodeAmfSetId(v)) == v && PaddingClear(EncodeAmfSetId(v)[1], 6)
    ensures DecodeAmfSetId(b) < 1024
    ensures EncodeAmfSetId(DecodeAmfSetId(b)) == b <==> PaddingClear(b[1], 6)
    ensures DecodeAmfPtr(EncodeAmfPtr(p)) == p && PaddingClear(EncodeAmfPtr(p), 2)
    ensures DecodeAmfPtr(c) < 64
    ensures EncodeAmfPtr(DecodeAmfPtr(c)) == c <==> PaddingClear(c, 2)
  {
    AmfScalars(v, b[0], b[1]);
  }

  lemma AmfScalars(v: bv32, b0: bv8, b1: bv8)
    requires v < 1024
    ensures ((((((v << 6) >> 8) & 0xFF) << 8) >> 6) | (((v << 6) & 0xFF) >> 6)) == v
    ensures PaddingClear(((v << 6) & 0xFF) as bv8, 6)
    ensures var w := (((b0 as bv32) << 8) >> 6) | ((b1 as bv32) >> 6);
            && w < 1024 && (((w << 6) >> 8) & 0xFF) as bv8 == b0
            && (((w << 6) & 0xFF) as bv8 == b1 <==> PaddingClear(b1, 6))
  {
  }

  // ---- Where each bit stands ----

  /** Bits 0 to 7 of the identifier are the first byte, bits 8 to 15 the second, and the others the high
      bits of the last byte; both ways. */
  lemma BitsOfThree(v: bv64, b: seq<bv8>, pad: bv64)
    requires ValidPad3(pad) && v < (1 << (24 - pad)) && |b| == 3
    ensures |Encode3(v, pad)| == 3
    ensures (Encode3(v, pad)[0] as bv64) == v & 0xFF && (Encode3(v, pad)[1] as bv64) == (v >> 8) & 0xFF
    ensures (Encode3(v, pad)[2] as bv64) >> pad == v >> 16
    ensures Decode3(b, pad) & 0xFF == (b[0] as bv64) && (Decode3(b, pad) >> 8) & 0xFF == (b[1] as bv64)
    ensures Decode3(b, pad) >> 16 == (b[2] as bv64) >> pad
  {
    HighBitsOfThree(v, pad);
    LowBitsOfThree(b[0], b[1], b[2], pad);
  }

  lemma {:induction false} HighBitsOfThree(v: bv64, pad: bv64)
    requires ValidPad3(pad) && v < (1 << (24 - pad))
    ensures (Byte((v >> 16) << pad) as bv64) >> pad == v >> 16
  {
    if pad == 3 {} else if pad == 4 {} else { assert pad == 6; }
  }

  lemma {:induction false} LowBitsOfThree(b0: bv8, b1: bv8, b2: bv8, pad: bv64)
    requires ValidPad3(pad)
    ensures var v := (((b2 as bv64) >> pad) << 16) | ((b1 as bv64) << 8) | (b0 as bv64);
            && v & 0xFF == (b0 as bv64) && (v >> 8) & 0xFF == (b1 as bv64) && v >> 16 == (b2 as bv64) >> pad
  {
    if pad == 3 {} else if pad == 4 {} else { assert pad == 6; }
  }

  lemma BitsOfFour(v: bv64, b: seq<bv8>)
    requires v < 0x1000_0000 && |b| == 4
    ensures |Encode4(v)| == 4
    ensures (Encode4(v)[0] as bv64) == v & 0xFF && (Encode4(v)[1] as bv64) == (v >> 8) & 0xFF
    ensures (Encode4(v)[2] as bv64) == (v >> 16) & 0xFF && (Encode4(v)[3] as bv64) >> 4 == v >> 24
    ensures Decode4(b) & 0xFF == (b[0] as bv64) && (Decode4(b) >> 8) & 0xFF == (b[1] as bv64)
    ensures (Decode4(b) >> 16) & 0xFF == (b[2] as bv64) && Decode4(b) >> 24 == (b[3] as bv64) >> 4
  {
  }

  /** The fourth byte of an NR cell id also fills the bits from 32 on when its top bit is set; they are
      the last byte's otherwise. */
  lemma BitsOfNr(v: bv64, b: seq<bv8>)
    requires v < NR_LIMIT && |b| == 5
    ensures |EncodeNr(v)| == 5
    ensures (EncodeNr(v)[0] as bv64) == v & 0xFF && (EncodeNr(v)[1] as bv64) == (v >> 8) & 0xFF
    ensures (EncodeNr(v)[2] as bv64) == (v >> 16) & 0xFF && (EncodeNr(v)[3] as bv64) == (v >> 24) & 0xFF
    ensures (EncodeNr(v)[4] as bv64) >> 4 == v >> 32
    ensures DecodeNr(b) & 0xFF == (b[0] as bv64) && (DecodeNr(b) >> 8) & 0xFF == (b[1] as bv64)
    ensures (DecodeNr(b) >> 16) & 0xFF == (b[2] as bv64) && (DecodeNr(b) >> 24) & 0xFF == (b[3] as bv64)
    ensures DecodeNr(b) >> 32 == if b[3] < 128 then (b[4] as bv64) >> 4 else 0xFFFF_FFFF
  {
    JoinedNrLowBits(b[0], b[1], b[2], b[3], b[4]);
    JoinedNrHighBits(b[0], b[1], b[2], b[3], b[4]);
  }

  lemma JoinedNrLowBits(b0: bv8, b1: bv8, b2: bv8, b3: bv8, b4: bv8)
    ensures var v := JoinNr(b0, b1, b2, b3, b4);
            && v & 0xFF == (b0 as bv64) && (v >> 8) & 0xFF == (b1 as bv64) && (v >> 16) & 0xFF == (b2 as bv64)
            && (v >> 24) & 0xFF == (b3 as bv64)
  {
  }

  lemma JoinedNrHighBits(b0: bv8, b1: bv8, b2: bv8, b3: bv8, b4: bv8)
    ensures JoinNr(b0, b1, b2, b3, b4) >> 32 == if b3 < 128 then (b4 as bv64) >> 4 else 0xFFFF_FFFF
  {
  }

  /** The AMF set id puts its high 8 bits first. */
  lemma BitsOfAmf(v: bv32, b: seq<bv8>)
    requires v < 1024 && |b| == 2
    ensures |EncodeAmfSetId(v)| == 2
    ensures (EncodeAmfSetId(v)[0] as bv32) == v >> 2 && (EncodeAmfSetId(v)[1] as bv32) >> 6 == v & 3
    ensures DecodeAmfSetId(b) >> 2 == (b[0] as bv32) && DecodeAmfSetId(b) & 3 == (b[1] as bv32) >> 6
  {
  }

  // ---- The encoders as they run: allocate, then write byte by byte ----

  method CpToBitString3(v: bv64, pad: bv64) returns (buf: array<bv8>)
    requires ValidPad3(pad) && v < (1 << (24 - pad))
    ensures fresh(buf) && buf[..] == Encode3(v, pad)
    ensures buf.Length == 3 && (buf[0] as bv64) == v & 0xFF && (buf[1] as bv64) == (v >> 8) & 0xFF
  {
    buf := new bv8[3];
    buf[0] := Byte(v);
    buf[1] := Byte(v >> 8);
    buf[2] := Byte((v >> 16) << pad);
  }

  method CpToBitString4(v: bv64) returns (buf: array<bv8>)
    requires v < 0x1000_0000
    ensures fresh(buf) && buf[..] == Encode4(v)
    ensures buf.Length == 4 && (buf[0] as bv64) == v & 0xFF && (buf[1] as bv64) == (v >> 8) & 0xFF
    ensures (buf[2] as bv64) == (v >> 16) & 0xFF
  {
    buf := new bv8[4];
    buf[0] := Byte(v);
    buf[1] := Byte(v >> 8);
    buf[2] := Byte(v >> 16);
    buf[3] := Byte((v >> 24) << 4);
  }

  method CpNrCellIdToBitString(v: bv64) returns (buf: array<bv8>)
    requires v < NR_LIMIT
    ensures fresh(buf) && buf[..] == EncodeNr(v)
    ensures buf.Length == 5 && (buf[0] as bv64) == v & 0xFF && (buf[1] as bv64) == (v >> 8) & 0xFF
    ensures (buf[2] as bv64) == (v >> 16) & 0xFF && (buf[3] as bv64) == (v >> 24) & 0xFF
  {
    buf := new bv8[5];
    buf[0] := Byte(v);
    buf[1] := Byte(v >> 8);
    buf[2] := Byte(v >> 16);
    buf[3] := Byte(v >> 24);
    buf[4] := Byte((v >> 32) << 4);
  }
}
