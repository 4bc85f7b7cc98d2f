/** Strings and byte arrays: src/util/byte_array.c.

    A `char` is signed, -128 to 127, and a byte unsigned; comparing them promotes both to int. A C
    string is its characters before the terminating zero. */
module ByteArrays {
  type Byte = b: int | 0 <= b < 256
  type CChar = c: int | -128 <= c < 128
  type NonZero = c: CChar | c != 0 witness 1

  /** memcpy from characters to bytes reinterprets the bit pattern, and back. */
  function ToByte(c: CChar): Byte {
    if c < 0 then c + 256 else c
  }

  function ToChar(b: Byte): CChar {
    if b < 128 then b else b - 256
  }

  /** The copy keeps the 8-bit pattern: byte and character agree modulo 256, and each copy undoes the
      other. */
  lemma PatternIsKept(c: CChar, b: Byte)
    ensures (ToByte(c) - c) % 256 == 0 && (ToChar(b) - b) % 256 == 0
    ensures ToChar(ToByte(c)) == c && ToByte(ToChar(b)) == b
    ensures c >= 0 ==> ToByte(c) == c
  {
  }

  function StrToBa(str: seq<NonZero>): (ba: seq<Byte>)
    ensures |ba| == |str| && forall i :: 0 <= i < |str| ==> ba[i] == ToByte(str[i])
  {
    seq(|str|, i requires 0 <= i < |str| => ToByte(str[i]))
  }

  /** The characters before the first zero. */
  function CString(s: seq<CChar>): (r: seq<NonZero>)
    ensures |r| <= |s| && (forall i :: 0 <= i < |r| ==> r[i] == s[i]) && (|r| < |s| ==> s[|r|] == 0)
  {
    if s == [] || s[0] == 0 then [] else [s[0]] + CString(s[1..])
  }

  // ---- Orders ----

  /** Lexicographic order of integer sequences: -1, 0 or 1; a proper prefix is smaller. */
  function Lex(a: seq<int>, b: seq<int>): int {
    if a == [] && b == [] then 0
    else if a == [] then -1
    else if b == [] then 1
    else if a[0] < b[0] then -1
    else if a[0] > b[0] then 1
    else Lex(a[1..], b[1..])
  }

  lemma {:induction false} LexIsZeroForEqual(a: seq<int>, b: seq<int>)
    ensures Lex(a, b) == 0 <==> a == b
  {
    if a != [] && b != [] {
      LexIsZeroForEqual(a[1..], b[1..]);
      assert a == [a[0]] + a[1..] && b == [b[0]] + b[1..];
    }
  }

  /** The order is decided at the first difference, or by which sequence ends first. */
  lemma {:induction false} LexDecides(a: seq<int>, b: seq<int>, d: nat)
    requires d <= |a| && d <= |b| && a[..d] == b[..d]
    requires (d < |a| && d < |b| ==> a[d] != b[d])
    ensures Lex(a, b) == if d == |a| == |b| then 0
                         else if d == |a| then -1
                         else if d == |b| then 1
                         else if a[d] < b[d] then -1 else 1
  {
    if d > 0 {
      assert a[0] == a[..d][0] && b[0] == b[..d][0];
      assert a[1..][..d - 1] == a[..d][1..] && b[1..][..d - 1] == b[..d][1..];
      LexDecides(a[1..], b[1..], d - 1);
    }
  }

  predicate SevenBit(str: seq<NonZero>) {
    forall i :: 0 <= i < |str| ==> str[i] > 0
  }

  // ---- eq_byte_array ----

  /** memcmp over equal lengths. */
  method EqByteArray(a: array<Byte>, b: array<Byte>) returns (eq: bool)
    ensures eq <==> a[..] == b[..]
  {
    if a == b {
      return true;
    }
    if a.Length != b.Length {
      return false;
    }
    for i := 0 to a.Length
      invariant a[..i] == b[..i]
    {
      if a[i] != b[i] {
        assert a[..][i] != b[..][i];
        return false;
      }
    }
    eq := true;
  }

  // ---- cp_str_to_ba and cp_ba_to_str ----

  method CpStrToBa(str: seq<NonZero>) returns (dst: array<Byte>)
    ensures fresh(dst) && dst[..] == StrToBa(str)
  {
    dst := new Byte[|str|](_ => 0);
    for i := 0 to |str|
      invariant forall j :: 0 <= j < i ==> dst[j] == ToByte(str[j])
    {
      dst[i] := ToByte(str[i]);
    }
  }

  function Chars(ba: seq<Byte>): seq<CChar> {
    seq(|ba|, i requires 0 <= i < |ba| => ToChar(ba[i]))
  }

  /** What a byte array reads as when it is taken for a string: a zero byte ends it early. */
  function BaToStr(ba: seq<Byte>): seq<NonZero> {
    CString(Chars(ba))
  }

  method CpBaToStr(ba: array<Byte>) returns (str: array<CChar>)
    requires ba.Length > 0
    ensures fresh(str) && str.Length == ba.Length + 1 && str[ba.Length] == 0
    ensures CString(str[..]) == BaToStr(ba[..])
  {
    str := new CChar[ba.Length + 1](_ => 0);
    for i := 0 to ba.Length
      invariant forall j :: 0 <= j < i ==> str[j] == ToChar(ba[j])
      invariant str[ba.Length] == 0
    {
      str[i] := ToChar(ba[i]);
    }
    assert str[..] == Chars(ba[..]) + [0];
    ZeroEndsString(Chars(ba[..]));
  }

  lemma {:induction false} ZeroEndsString(s: seq<CChar>)
    ensures CString(s + [0]) == CString(s)
  {
    if s != [] && s[0] != 0 {
      assert (s + [0])[1..] == s[1..] + [0];
      ZeroEndsString(s[1..]);
    }
  }

  /** Copying a string to bytes and back gives the string. */
  lemma StringRoundTrip(str: seq<NonZero>)
    ensures BaToStr(StrToBa(str)) == str
  {
    var back := Chars(StrToBa(str));
    forall i | 0 <= i < |str| ensures back[i] == str[i] != 0 {}
  }

  /** Conversely a byte array comes back exactly when it holds no zero byte. */
  lemma ByteRoundTrip(ba: seq<Byte>)
    ensures StrToBa(BaToStr(ba)) == ba <==> 0 !in ba
  {
    var s := BaToStr(ba);
    if |s| < |ba| {
      assert ba[|s|] == 0;
      assert |StrToBa(s)| != |ba|;
    } else {
      forall i | 0 <= i < |ba| ensures ba[i] != 0 && StrToBa(s)[i] == ba[i] {
        var c: NonZero := s[i];
        assert c == ToChar(ba[i]);
      }
    }
  }

  // ---- cmp_str_ba ----

  /** The comparison of the source: characters keep their sign. */
  function Cmp(str: seq<NonZero>, ba: seq<Byte>): int {
    Lex(str, ba)
  }

  method CmpStrBa(str: seq<NonZero>, ba: array<Byte>) returns (r: int)
    requires ba.Length > 0
    ensures r == Cmp(str, ba[..])
  {
    var pos := 0;
    while pos < |str| && pos < ba.Length
      invariant pos <= |str| && pos <= ba.Length
      invariant forall j :: 0 <= j < pos ==> str[j] == ba[j]
    {
      if str[pos] < ba[pos] {
        LexDecides(str, ba[..], pos);
        return -1;
      } else if str[pos] > ba[pos] {
        LexDecides(str, ba[..], pos);
        return 1;
      }
      pos := pos + 1;
    }
    LexDecides(str, ba[..], pos);
    if pos != ba.Length {
      return -1;
    } else if pos < |str| {
      return 1;
    }
    return 0;
  }

  /** 0 means equal under eq_byte_array, and only for 7-bit strings. */
  lemma CmpIsZero(str: seq<NonZero>, ba: seq<Byte>)
    ensures Cmp(str, ba) == 0 <==> ba == StrToBa(str) && SevenBit(str)
  {
    LexIsZeroForEqual(str, ba);
    if ba == StrToBa(str) && SevenBit(str) {
      assert forall i :: 0 <= i < |str| ==> ba[i] == ToByte(str[i]) == str[i];
    }
  }

  /** The number of leading characters the comparison finds equal. */
  function Agree(str: seq<NonZero>, ba: seq<Byte>): (d: nat)
    ensures d <= |str| && d <= |ba|
    ensures forall i :: 0 <= i < d ==> ToByte(str[i]) == ba[i]
    ensures d < |str| && d < |ba| ==> ToByte(str[d]) != ba[d]
  {
    if str == [] || ba == [] || ToByte(str[0]) != ba[0] then 0 else 1 + Agree(str[1..], ba[1..])
  }

  /** The characters that decide the byte order: the common ones and the first different one. */
  function Decisive(str: seq<NonZero>, ba: seq<Byte>): seq<NonZero> {
    var d := Agree(str, ba);
    if d < |str| && d < |ba| then str[..d + 1] else str[..d]
  }

  lemma {:induction false} SignedCompare(str: seq<NonZero>, ba: seq<Byte>)
    ensures Lex(StrToBa(str), ba) == -1 ==> Cmp(str, ba) == -1
    ensures Lex(StrToBa(str), ba) >= 0 ==> (Cmp(str, ba) == Lex(StrToBa(str), ba) <==> SevenBit(Decisive(str, ba)))
    ensures -1 <= Lex(StrToBa(str), ba) <= 1
  {
    if str != [] && ba != [] {
      assert StrToBa(str)[1..] == StrToBa(str[1..]);
      if ToByte(str[0]) == ba[0] {
        SignedCompare(str[1..], ba[1..]);
        var rest := Decisive(str[1..], ba[1..]);
        assert Decisive(str, ba) == [str[0]] + rest;
        SevenBitCons(str[0], rest);
      } else {
        assert Decisive(str, ba) == [str[0]];
      }
    }
  }

  lemma SevenBitCons(c: NonZero, rest: seq<NonZero>)
    ensures SevenBit([c] + rest) <==> c > 0 && SevenBit(rest)
  {
    if c > 0 && SevenBit(rest) {
    } else if SevenBit([c] + rest) {
      assert ([c] + rest)[0] == c;
      assert forall i :: 0 <= i < |rest| ==> ([c] + rest)[i + 1] == rest[i];
    }
  }

  /** The comparison agrees with the order of the bytes exactly when the byte order says "smaller" or
      the characters that decide it are 7-bit; for 7-bit strings it always agrees. */
  lemma CmpAgreesWithByteOrder(str: seq<NonZero>, ba: seq<Byte>)
    ensures Cmp(str, ba) == Lex(StrToBa(str), ba) <==> Lex(StrToBa(str), ba) < 0 || SevenBit(Decisive(str, ba))
    ensures SevenBit(str) ==> Cmp(str, ba) == Lex(StrToBa(str), ba)
  {
    SignedCompare(str, ba);
  }

  /** What a caller can check before the call: a string compares in byte order with every non-empty
      array exactly when it is 7-bit. */
  lemma SevenBitIsExact(str: seq<NonZero>)
    ensures (forall ba: seq<Byte> :: ba != [] ==> Cmp(str, ba) == Lex(StrToBa(str), ba)) <==> SevenBit(str)
  {
    if SevenBit(str) {
      forall ba: seq<Byte> | ba != [] ensures Cmp(str, ba) == Lex(StrToBa(str), ba) {
        CmpAgreesWithByteOrder(str, ba);
      }
    } else {
      var own := StrToBa(str);
      CmpIsZero(str, own);
      LexIsZeroForEqual(own, own);
      assert own != [] && Cmp(str, own) != Lex(StrToBa(str), own);
    }
  }

  /** The failing family is not empty: a high character sorts below every byte. */
  lemma HighCharacterSortsLow()
    ensures Cmp([-1], [255]) == -1 && Lex(StrToBa([-1]), [255]) == 0
  {
    LexIsZeroForEqual(StrToBa([-1]), [255]);
    assert StrToBa([-1]) == [255];
  }
}
