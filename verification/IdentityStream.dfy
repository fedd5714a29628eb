/** The byte stream a projection digest is fed: each identity as its ASCII bytes behind an eight-byte
    big-endian length. Without the lengths different lists could feed the same bytes; with them the
    stream determines the list. */
module IdentityStream {
  import opened Utf8

  /** Identities the encoder accepts; it raises on any other. */
  predicate Encodable(id: string) {
    |id| < Capacity(8) && forall i | 0 <= i < |id| :: id[i] < 128 as char
  }

  function Capacity(width: nat): nat {
    if width == 0 then 1 else 256 * Capacity(width - 1)
  }

  function Ascii(id: string): (bytes: seq<Byte>)
    requires Encodable(id)
    ensures |bytes| == |id|
  {
    seq(|id|, i requires 0 <= i < |id| => id[i] as int)
  }

  function BigEndian(n: nat, width: nat): (bytes: seq<Byte>)
    ensures |bytes| == width
  {
    if width == 0 then [] else BigEndian(n / 256, width - 1) + [n % 256]
  }

  function FromBigEndian(bytes: seq<Byte>): nat {
    if bytes == [] then 0 else 256 * FromBigEndian(bytes[..|bytes| - 1]) + bytes[|bytes| - 1]
  }

  /** One update of the digest. */
  function Frame(id: string): (bytes: seq<Byte>)
    requires Encodable(id)
    ensures |bytes| == 8 + |id|
  {
    BigEndian(|id|, 8) + Ascii(id)
  }

  ghost predicate AllEncodable(ids: seq<string>) {
    forall i | 0 <= i < |ids| :: Encodable(ids[i])
  }

  /** Everything the digest of a list of identities is fed. */
  ghost function Stream(ids: seq<string>): seq<Byte>
    requires AllEncodable(ids)
  {
    if ids == [] then [] else Stream(ids[..|ids| - 1]) + Frame(ids[|ids| - 1])
  }

  lemma {:induction false} LengthReadsBack(n: nat, width: nat)
    requires n < Capacity(width)
    ensures FromBigEndian(BigEndian(n, width)) == n
  {
    if width > 0 {
      LengthReadsBack(n / 256, width - 1);
      assert BigEndian(n, width)[..width - 1] == BigEndian(n / 256, width - 1);
    }
  }

  lemma OneDigitMore(b: seq<Byte>, k: nat)
    requires k < |b|
    ensures FromBigEndian(b[..k + 1]) == 256 * FromBigEndian(b[..k]) + b[k]
  {
    assert b[..k + 1][..k] == b[..k];
  }

  /** A frame is the length in eight bytes, the most significant first, and then one byte a
      character. */
  lemma FrameBytes(id: string)
    requires Encodable(id)
    ensures var f := Frame(id);
      && |id| == ((((((f[0] as int * 256 + f[1]) * 256 + f[2]) * 256 + f[3]) * 256 + f[4]) * 256 + f[5]) * 256 + f[6]) * 256 + f[7]
      && forall i | 0 <= i < |id| :: f[8 + i] == id[i] as int
  {
    hide Encodable, FromBigEndian, BigEndian;
    var b := BigEndian(|id|, 8);
    LengthOf(id);
    Eight(b);
  }

  lemma Eight(b: seq<Byte>)
    requires |b| == 8
    ensures FromBigEndian(b) ==
      ((((((b[0] as int * 256 + b[1]) * 256 + b[2]) * 256 + b[3]) * 256 + b[4]) * 256 + b[5]) * 256 + b[6]) * 256 + b[7]
  {
    assert FromBigEndian(b[..0]) == 0 && b[..8] == b;
    hide FromBigEndian;
    OneDigitMore(b, 0);
    OneDigitMore(b, 1);
    OneDigitMore(b, 2);
    OneDigitMore(b, 3);
    OneDigitMore(b, 4);
    OneDigitMore(b, 5);
    OneDigitMore(b, 6);
    OneDigitMore(b, 7);
  }

  /** The first identity of two equal streams is the same. */
  lemma FrameIsPrefixFree(a: string, b: string, s: seq<Byte>, t: seq<Byte>)
    requires Encodable(a) && Encodable(b) && Frame(a) + s == Frame(b) + t
    ensures a == b && s == t
  {
    hide BigEndian, FromBigEndian, Ascii, Encodable;
    var left, right := Frame(a) + s, Frame(b) + t;
    assert left[..8] == BigEndian(|a|, 8) && right[..8] == BigEndian(|b|, 8);
    LengthOf(a);
    LengthOf(b);
    var end := 8 + |a|;
    assert left[8..end] == Ascii(a) && right[8..end] == Ascii(b);
    AsciiInjective(a, b);
    assert left[end..] == s && right[end..] == t;
  }

  lemma LengthOf(id: string)
    requires Encodable(id)
    ensures FromBigEndian(BigEndian(|id|, 8)) == |id|
  {
    hide FromBigEndian, BigEndian, Capacity;
    LengthReadsBack(|id|, 8);
  }

  lemma AsciiInjective(a: string, b: string)
    requires Encodable(a) && Encodable(b) && Ascii(a) == Ascii(b)
    ensures a == b
  {
    assert |a| == |b|;
    forall i | 0 <= i < |a| ensures a[i] == b[i] {
      assert Ascii(a)[i] == a[i] as int && Ascii(b)[i] == b[i] as int;
    }
  }

  lemma StreamExtends(ids: seq<string>)
    requires AllEncodable(ids) && ids != []
    ensures Stream(ids) == Stream(ids[..|ids| - 1]) + Frame(ids[|ids| - 1])
  {
  }

  lemma EmptyStream()
    ensures Stream([]) == []
  {
  }

  lemma {:induction false} StreamFromFront(ids: seq<string>)
    requires AllEncodable(ids) && ids != []
    ensures AllEncodable(ids[1..]) && Stream(ids) == Frame(ids[0]) + Stream(ids[1..])
  {
    hide Frame, Encodable, Stream;
    var n := |ids| - 1;
    StreamExtends(ids);
    if n == 0 {
      assert ids[1..] == ids[..0] == [];
      EmptyStream();
    } else {
      StreamFromFront(ids[..n]);
      StreamExtends(ids[1..]);
      assert ids[..n][1..] == ids[1..][..n - 1] && ids[1..][n - 1] == ids[n];
    }
  }

  /** Main result: the stream determines the list of identities. */
  lemma {:induction false} StreamIsInjective(a: seq<string>, b: seq<string>)
    requires AllEncodable(a) && AllEncodable(b) && Stream(a) == Stream(b)
    ensures a == b
  {
    hide Encodable;
    if a != [] {
      StreamFromFront(a);
    }
    if b != [] {
      StreamFromFront(b);
    }
    if a != [] && b != [] {
      FrameIsPrefixFree(a[0], b[0], Stream(a[1..]), Stream(b[1..]));
      StreamIsInjective(a[1..], b[1..]);
      assert a == [a[0]] + a[1..] && b == [b[0]] + b[1..];
    }
  }

  // ----- Digests -----

  type Digest = string

  /** The hash behaves as if it had no collisions. */
  ghost predicate CollisionFree(sha: seq<Byte> -> Digest) {
    forall x, y :: sha(x) == sha(y) ==> x == y
  }

  /** Equal digests of encodable lists mean equal lists. */
  lemma DigestDetermines(sha: seq<Byte> -> Digest, a: seq<string>, b: seq<string>)
    requires CollisionFree(sha) && AllEncodable(a) && AllEncodable(b) && sha(Stream(a)) == sha(Stream(b))
    ensures a == b
  {
    hide Stream, Encodable;
    StreamIsInjective(a, b);
  }
}
