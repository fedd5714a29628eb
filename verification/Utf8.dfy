/** UTF-8 as RFC 3629 has it: the encoder of section 3 and the byte grammar of section 4. */
module Utf8 {

  type Byte = b: int | 0 <= b < 256

  /** A Unicode scalar value: any code point but a surrogate. */
  type Scalar = c: int | 0 <= c < 0xD800 || 0xE000 <= c < 0x11_0000

  predicate Tail(b: Byte) {
    0x80 <= b <= 0xBF
  }

  /** The bit test the program uses for a continuation byte. */
  lemma TailIsMask(b: bv8)
    ensures b & 0xC0 == 0x80 <==> 0x80 <= b <= 0xBF
  {
  }

  // ----- Section 3: encoding -----

  function Encode(c: Scalar): seq<Byte> {
    if c < 0x80 then [c]
    else if c < 0x800 then [0xC0 + c / 64, 0x80 + c % 64]
    else if c < 0x1_0000 then [0xE0 + c / 4096, 0x80 + c / 64 % 64, 0x80 + c % 64]
    else [0xF0 + c / 262144, 0x80 + c / 4096 % 64, 0x80 + c / 64 % 64, 0x80 + c % 64]
  }

  function EncodeAll(text: seq<Scalar>): seq<Byte> {
    if text == [] then [] else Encode(text[0]) + EncodeAll(text[1..])
  }

  // ----- Section 4: the grammar -----

  /** The length of the well-formed character the bytes start with, or 0. */
  function CharLength(s: seq<Byte>): (n: nat)
    ensures n <= 4 && n <= |s|
    ensures n > 0 ==> !Tail(s[0]) && forall i | 1 <= i < n :: Tail(s[i])
  {
    if s == [] then 0
    else if s[0] <= 0x7F then 1
    else if |s| >= 2 && 0xC2 <= s[0] <= 0xDF && Tail(s[1]) then 2
    else if |s| >= 3 && SecondOfThree(s[0], s[1]) && Tail(s[2]) then 3
    else if |s| >= 4 && SecondOfFour(s[0], s[1]) && Tail(s[2]) && Tail(s[3]) then 4
    else 0
  }

  predicate SecondOfThree(first: Byte, second: Byte) {
    || (first == 0xE0 && 0xA0 <= second <= 0xBF)
    || (0xE1 <= first <= 0xEC && Tail(second))
    || (first == 0xED && 0x80 <= second <= 0x9F)
    || (0xEE <= first <= 0xEF && Tail(second))
  }

  predicate SecondOfFour(first: Byte, second: Byte) {
    || (first == 0xF0 && 0x90 <= second <= 0xBF)
    || (0xF1 <= first <= 0xF3 && Tail(second))
    || (first == 0xF4 && 0x80 <= second <= 0x8F)
  }

  predicate WellFormed(s: seq<Byte>)
    decreases |s|
  {
    s == [] || (CharLength(s) > 0 && WellFormed(s[CharLength(s)..]))
  }

  // ----- The encoder meets the grammar -----

  lemma EncodedCharacter(c: Scalar, rest: seq<Byte>)
    ensures CharLength(Encode(c) + rest) == |Encode(c)| > 0
  {
    var s := Encode(c) + rest;
    if c >= 0x1_0000 {
      FourBytes(c, rest);
    } else if c >= 0x800 {
      ThreeBytes(c, rest);
    } else if c >= 0x80 {
      assert s[0] == 0xC0 + c / 64 && s[1] == 0x80 + c % 64;
    }
  }

  lemma ThreeBytes(c: Scalar, rest: seq<Byte>)
    requires 0x800 <= c < 0x1_0000
    ensures CharLength(Encode(c) + rest) == |Encode(c)| == 3
  {
    var s := Encode(c) + rest;
    assert s[0] == 0xE0 + c / 4096 && s[1] == 0x80 + c / 64 % 64 && s[2] == 0x80 + c % 64;
    assert SecondOfThree(s[0], s[1]);
  }

  lemma FourBytes(c: Scalar, rest: seq<Byte>)
    requires 0x1_0000 <= c
    ensures CharLength(Encode(c) + rest) == |Encode(c)| == 4
  {
    var s := Encode(c) + rest;
    assert s[0] == 0xF0 + c / 262144 && s[1] == 0x80 + c / 4096 % 64;
    assert s[2] == 0x80 + c / 64 % 64 && s[3] == 0x80 + c % 64;
    assert SecondOfFour(s[0], s[1]);
  }

  lemma {:induction false} EncodingIsWellFormed(text: seq<Scalar>)
    ensures WellFormed(EncodeAll(text))
  {
    hide Encode, CharLength;
    if text != [] {
      var rest := EncodeAll(text[1..]);
      EncodingIsWellFormed(text[1..]);
      EncodedCharacter(text[0], rest);
      assert (Encode(text[0]) + rest)[|Encode(text[0])|..] == rest;
    }
  }

  // ----- Decoding, as the grammar has it -----

  /** The character that well-formed text starts with. */
  function Decode(s: seq<Byte>): Scalar
    requires CharLength(s) > 0
  {
    var n, first: int := CharLength(s), s[0];
    if n == 1 then first
    else if n == 2 then (first - 0xC0) * 64 + Bits(s[1])
    else if n == 3 then (first - 0xE0) * 4096 + Bits(s[1]) * 64 + Bits(s[2])
    else (first - 0xF0) * 262144 + Bits(s[1]) * 4096 + Bits(s[2]) * 64 + Bits(s[3])
  }

  /** The six bits of a continuation byte. */
  function Bits(b: Byte): int {
    b as int - 0x80
  }

  function DecodeAll(s: seq<Byte>): seq<Scalar>
    requires WellFormed(s)
    decreases |s|
  {
    if s == [] then [] else [Decode(s)] + DecodeAll(s[CharLength(s)..])
  }

  lemma DecodesBack(c: Scalar, rest: seq<Byte>)
    ensures CharLength(Encode(c) + rest) > 0 && Decode(Encode(c) + rest) == c
  {
    var s := Encode(c) + rest;
    EncodedCharacter(c, rest);
    if c < 0x80 {
      assert s[0] == c;
    } else if c < 0x800 {
      assert s[0] == 0xC0 + c / 64 && s[1] == 0x80 + c % 64;
    } else if c < 0x1_0000 {
      ThreeDecode(c, rest);
    } else {
      FourDecode(c, rest);
    }
  }

  lemma ThreeDecode(c: Scalar, rest: seq<Byte>)
    requires 0x800 <= c < 0x1_0000 && CharLength(Encode(c) + rest) == 3
    ensures Decode(Encode(c) + rest) == c
  {
    var s := Encode(c) + rest;
    assert s[0] == 0xE0 + c / 4096 && s[1] == 0x80 + c / 64 % 64 && s[2] == 0x80 + c % 64;
    assert c / 4096 == c / 64 / 64;
  }

  lemma FourDecode(c: Scalar, rest: seq<Byte>)
    requires 0x1_0000 <= c && CharLength(Encode(c) + rest) == 4
    ensures Decode(Encode(c) + rest) == c
  {
    var s := Encode(c) + rest;
    assert s[0] == 0xF0 + c / 262144 && s[1] == 0x80 + c / 4096 % 64;
    assert s[2] == 0x80 + c / 64 % 64 && s[3] == 0x80 + c % 64;
    assert c / 4096 == c / 64 / 64 && c / 262144 == c / 4096 / 64;
  }

  /** What is written reads back as the text. */
  lemma {:induction false} DecodeUndoesEncode(text: seq<Scalar>)
    ensures WellFormed(EncodeAll(text)) && DecodeAll(EncodeAll(text)) == text
  {
    hide Encode, CharLength, Decode;
    EncodingIsWellFormed(text);
    if text != [] {
      var rest := EncodeAll(text[1..]);
      DecodesBack(text[0], rest);
      EncodedCharacter(text[0], rest);
      assert (Encode(text[0]) + rest)[|Encode(text[0])|..] == rest;
      DecodeUndoesEncode(text[1..]);
    }
  }

  // ----- Boundaries -----

  /** A place where no character is cut: the end, or in front of a byte that starts one. */
  predicate Boundary(s: seq<Byte>, p: nat)
    requires p <= |s|
  {
    p < |s| ==> !Tail(s[p])
  }

  lemma SamePrefixSameLength(s: seq<Byte>, p: nat)
    requires CharLength(s) > 0 && CharLength(s) <= p <= |s|
    ensures CharLength(s[..p]) == CharLength(s)
  {
  }

  /** Cutting well-formed text at a boundary leaves two well-formed parts. */
  lemma {:induction false} CutAtBoundary(s: seq<Byte>, p: nat)
    requires WellFormed(s) && p <= |s| && Boundary(s, p)
    ensures WellFormed(s[..p]) && WellFormed(s[p..])
    decreases |s|
  {
    hide CharLength;
    var n := CharLength(s);
    if p == 0 {
      assert s[0..] == s;
    } else {
      assert n <= p;
      assert Boundary(s[n..], p - n);
      CutAtBoundary(s[n..], p - n);
      SamePrefixSameLength(s, p);
      assert s[..p][n..] == s[n..][..p - n];
      assert s[n..][p - n..] == s[p..];
    }
  }

  lemma SameStartSameLength(s: seq<Byte>, t: seq<Byte>)
    requires CharLength(s) > 0
    ensures CharLength(s + t) == CharLength(s)
  {
    assert forall i | 0 <= i < |s| :: (s + t)[i] == s[i];
  }

  lemma {:induction false} JoinWellFormed(s: seq<Byte>, t: seq<Byte>)
    requires WellFormed(s) && WellFormed(t)
    ensures WellFormed(s + t)
    decreases |s|
  {
    hide CharLength;
    if s == [] {
      assert s + t == t;
    } else {
      var n := CharLength(s);
      JoinWellFormed(s[n..], t);
      SameStartSameLength(s, t);
      assert (s + t)[n..] == s[n..] + t;
    }
  }

  /** Four bytes in a row are never all continuation bytes. */
  lemma {:induction false} BoundaryWithinFour(s: seq<Byte>, k: nat)
    requires WellFormed(s) && k + 4 <= |s|
    ensures exists j :: k <= j < k + 4 && !Tail(s[j])
    decreases |s|
  {
    hide CharLength;
    var n := CharLength(s);
    if k == 0 {
      assert !Tail(s[0]);
    } else if n <= k {
      BoundaryWithinFour(s[n..], k - n);
      var j :| k - n <= j < k - n + 4 && !Tail(s[n..][j]);
      assert !Tail(s[j + n]);
    } else {
      assert s[n..][0] == s[n] && !Tail(s[n]);
    }
  }
}
