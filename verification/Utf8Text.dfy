/** UTF-8: the decision that `dump` makes in its strict mode, byte by byte, and the
    encoding of section 3 of RFC 3629 that it decides. */
module Utf8Text {
  newtype byte = x: int | 0 <= x < 256

  type Bytes = seq<byte>

  // ---- the decision -------------------------------------------------------

  predicate Tail(bytes: Bytes, i: nat)
  {
    i < |bytes| && 0x80 <= bytes[i] <= 0xBF
  }

  /** The length of the well-formed character at the front, or 0: the syntax in
      section 4 of RFC 3629. */
  function FirstChar(bytes: Bytes): (n: nat)
    ensures n <= |bytes|
  {
    if bytes == [] then 0
    else
      var a := bytes[0];
      if a <= 0x7F then 1
      else if 0xC2 <= a <= 0xDF then if Tail(bytes, 1) then 2 else 0
      else if 0xE0 <= a <= 0xEF then
        if && Tail(bytes, 1) && Tail(bytes, 2)
           && (a == 0xE0 ==> 0xA0 <= bytes[1]) && (a == 0xED ==> bytes[1] <= 0x9F)
        then 3 else 0
      else if 0xF0 <= a <= 0xF4 then
        if && Tail(bytes, 1) && Tail(bytes, 2) && Tail(bytes, 3)
           && (a == 0xF0 ==> 0x90 <= bytes[1]) && (a == 0xF4 ==> bytes[1] <= 0x8F)
        then 4 else 0
      else 0
  }

  predicate Utf8(bytes: Bytes)
  {
    bytes == [] || (FirstChar(bytes) != 0 && Utf8(bytes[FirstChar(bytes)..]))
  }

  // ---- the encoding -------------------------------------------------------

  /** A Unicode scalar value: any code point but the surrogates. */
  predicate Scalar(c: int)
  {
    0 <= c <= 0x10FFFF && !(0xD800 <= c <= 0xDFFF)
  }

  predicate Scalars(text: seq<int>)
  {
    forall i :: 0 <= i < |text| ==> Scalar(text[i])
  }

  /** One scalar value in one to four bytes, six bits to each byte after the first. */
  function Encoded(c: int): Bytes
    requires Scalar(c)
  {
    if c < 0x80 then [c as byte]
    else if c < 0x800 then [(0xC0 + c / 0x40) as byte, (0x80 + c % 0x40) as byte]
    else if c < 0x1_0000 then
      [(0xE0 + c / 0x1000) as byte, (0x80 + c / 0x40 % 0x40) as byte, (0x80 + c % 0x40) as byte]
    else
      [(0xF0 + c / 0x4_0000) as byte, (0x80 + c / 0x1000 % 0x40) as byte, (0x80 + c / 0x40 % 0x40) as byte,
       (0x80 + c % 0x40) as byte]
  }

  function EncodedText(text: seq<int>): Bytes
    requires Scalars(text)
  {
    if text == [] then [] else Encoded(text[0]) + EncodedText(text[1..])
  }

  // ---- they are the same --------------------------------------------------

  lemma EncodedAlone(c: int)
    requires Scalar(c)
    ensures FirstChar(Encoded(c)) == |Encoded(c)|
  {
  }

  /** What is one character stays the first, whatever comes after it. */
  lemma FirstStays(one: Bytes, rest: Bytes)
    requires one != [] && FirstChar(one) == |one|
    ensures FirstChar(one + rest) == |one| && (one + rest)[|one|..] == rest
  {
    assert forall i :: 0 <= i < |one| ==> (one + rest)[i] == one[i];
  }

  /** An encoded scalar is recognised. */
  lemma EncodedIsRecognised(c: int, rest: Bytes)
    requires Scalar(c)
    ensures FirstChar(Encoded(c) + rest) == |Encoded(c)|
    ensures (Encoded(c) + rest)[|Encoded(c)|..] == rest
  {
    EncodedAlone(c);
    FirstStays(Encoded(c), rest);
  }

  /** Six bits taken off and put back. */
  lemma SixBits(high: int, low: int)
    requires 0 <= low < 0x40
    ensures (high * 0x40 + low) / 0x40 == high && (high * 0x40 + low) % 0x40 == low
  {
  }

  lemma TwoBytes(a: int, b: int) returns (c: int)
    requires 0xC2 <= a <= 0xDF && 0x80 <= b <= 0xBF
    ensures Scalar(c) && Encoded(c) == [a as byte, b as byte]
  {
    c := (a - 0xC0) * 0x40 + (b - 0x80);
    SixBits(a - 0xC0, b - 0x80);
  }

  lemma ThreeBytes(a: int, b: int, d: int) returns (c: int)
    requires 0xE0 <= a <= 0xEF && 0x80 <= b <= 0xBF && 0x80 <= d <= 0xBF
    requires (a == 0xE0 ==> 0xA0 <= b) && (a == 0xED ==> b <= 0x9F)
    ensures Scalar(c) && Encoded(c) == [a as byte, b as byte, d as byte]
  {
    var high := (a - 0xE0) * 0x40 + (b - 0x80);
    c := high * 0x40 + (d - 0x80);
    SixBits(a - 0xE0, b - 0x80);
    SixBits(high, d - 0x80);
    assert c / 0x1000 == a - 0xE0;
  }

  lemma FourBytes(a: int, b: int, d: int, e: int) returns (c: int)
    requires 0xF0 <= a <= 0xF4 && 0x80 <= b <= 0xBF && 0x80 <= d <= 0xBF && 0x80 <= e <= 0xBF
    requires (a == 0xF0 ==> 0x90 <= b) && (a == 0xF4 ==> b <= 0x8F)
    ensures Scalar(c) && Encoded(c) == [a as byte, b as byte, d as byte, e as byte]
  {
    var top := (a - 0xF0) * 0x40 + (b - 0x80);
    var high := top * 0x40 + (d - 0x80);
    c := high * 0x40 + (e - 0x80);
    SixBits(a - 0xF0, b - 0x80);
    SixBits(top, d - 0x80);
    SixBits(high, e - 0x80);
    assert c / 0x1000 == top && c / 0x4_0000 == a - 0xF0;
  }

  /** Where a scalar is recognised, one was encoded. */
  lemma RecognisedIsEncoded(bytes: Bytes) returns (c: int)
    requires FirstChar(bytes) != 0
    ensures Scalar(c) && bytes[..FirstChar(bytes)] == Encoded(c)
  {
    var n := FirstChar(bytes);
    var a := bytes[0] as int;
    if n == 1 {
      c := a;
    } else if n == 2 {
      c := TwoBytes(a, bytes[1] as int);
    } else if n == 3 {
      c := ThreeBytes(a, bytes[1] as int, bytes[2] as int);
    } else {
      c := FourBytes(a, bytes[1] as int, bytes[2] as int, bytes[3] as int);
    }
  }

  lemma {:induction false} EncodedIsUtf8(text: seq<int>)
    requires Scalars(text)
    ensures Utf8(EncodedText(text))
  {
    if text != [] {
      EncodedIsRecognised(text[0], EncodedText(text[1..]));
      EncodedIsUtf8(text[1..]);
    }
  }

  lemma {:induction false} Utf8IsEncoded(bytes: Bytes) returns (text: seq<int>)
    requires Utf8(bytes)
    ensures Scalars(text) && EncodedText(text) == bytes
    decreases |bytes|
  {
    if bytes == [] {
      text := [];
    } else {
      var n := FirstChar(bytes);
      var c := RecognisedIsEncoded(bytes);
      var rest := Utf8IsEncoded(bytes[n..]);
      text := [c] + rest;
      assert text[1..] == rest && bytes == bytes[..n] + bytes[n..];
    }
  }

  /** `dump` takes exactly the encodings of sequences of Unicode scalar values. */
  lemma Utf8Exactly(bytes: Bytes)
    ensures Utf8(bytes) <==> exists text: seq<int> :: Scalars(text) && EncodedText(text) == bytes
  {
    if Utf8(bytes) {
      var text := Utf8IsEncoded(bytes);
    }
    forall text: seq<int> | Scalars(text) && EncodedText(text) == bytes
      ensures Utf8(bytes)
    {
      EncodedIsUtf8(text);
    }
  }
}
