/** Python's int.from_bytes: unsigned and two's-complement integers of any
    width, in either byte order, together with the inverse encoding used to
    state round trips. */
module Bytes {
  import opened Common

  type byte = x: int | 0 <= x < 256

  datatype ByteOrder = Little | Big

  function Pow256(n: nat): (r: nat)
    ensures r >= 1
  {
    if n == 0 then 1 else 256 * Pow256(n - 1)
  }

  /** Unsigned value with the most significant byte first. */
  function BigEndian(bs: seq<byte>): (r: nat)
    ensures r < Pow256(|bs|)
  {
    if |bs| == 0 then 0 else BigEndian(bs[..|bs| - 1]) * 256 + bs[|bs| - 1]
  }

  /** Unsigned value with the least significant byte first. */
  function LittleEndian(bs: seq<byte>): (r: nat)
    ensures r < Pow256(|bs|)
  {
    if |bs| == 0 then 0 else bs[0] + 256 * LittleEndian(bs[1..])
  }

  function Reverse<T>(s: seq<T>): (r: seq<T>)
    ensures |r| == |s|
    ensures forall i :: 0 <= i < |s| ==> r[i] == s[|s| - 1 - i]
  {
    if |s| == 0 then [] else Reverse(s[1..]) + [s[0]]
  }

  lemma ReverseReverse<T>(s: seq<T>)
    ensures Reverse(Reverse(s)) == s
  {
  }

  /** Little-endian is big-endian read over the reversed bytes. */
  lemma {:induction false} LittleIsReversedBig(bs: seq<byte>)
    ensures LittleEndian(bs) == BigEndian(Reverse(bs))
  {
    if |bs| > 0 {
      var rv := Reverse(bs);
      assert rv == Reverse(bs[1..]) + [bs[0]];
      assert rv[..|rv| - 1] == Reverse(bs[1..]);
      LittleIsReversedBig(bs[1..]);
    }
  }

  /** The unsigned value of bs in the given byte order. */
  function Unsigned(bs: seq<byte>, order: ByteOrder): (r: nat)
    ensures r < Pow256(|bs|)
  {
    match order
    case Big => BigEndian(bs)
    case Little => LittleEndian(bs)
  }

  /** The values a width-n field can hold. */
  predicate InRange(v: int, n: nat, signed: bool)
  {
    if !signed then 0 <= v < Pow256(n)
    else if n == 0 then v == 0
    else -(Pow256(n) / 2) <= v < Pow256(n) / 2
  }

  /** int.from_bytes(bs, byteorder=order, signed=signed); empty input is 0. */
  function FromBytes(bs: seq<byte>, order: ByteOrder, signed: bool): (r: int)
    ensures InRange(r, |bs|, signed)
    ensures |bs| == 0 ==> r == 0
    ensures !signed ==> r == Unsigned(bs, order)
    ensures signed ==> (r < 0 <==> Unsigned(bs, order) >= Pow256(|bs|) / 2 && |bs| > 0)
  {
    var u := Unsigned(bs, order);
    HalfPow(|bs|);
    if signed && |bs| > 0 && u >= Pow256(|bs|) / 2 then u - Pow256(|bs|) else u
  }

  /** Pow256(n) is even for n >= 1, so halving it is exact. */
  lemma HalfPow(n: nat)
    ensures n >= 1 ==> Pow256(n) / 2 * 2 == Pow256(n) && Pow256(n) / 2 >= 1
  {
    if n >= 1 {
      assert Pow256(n) == 256 * Pow256(n - 1);
    }
  }

  /** n bytes holding u, most significant first. */
  function EncodeBig(u: nat, n: nat): (bs: seq<byte>)
    requires u < Pow256(n)
    ensures |bs| == n
  {
    if n == 0 then [] else EncodeBig(u / 256, n - 1) + [u % 256]
  }

  /** v.to_bytes(n, byteorder=order, signed=signed). */
  function ToBytes(v: int, n: nat, order: ByteOrder, signed: bool): (bs: seq<byte>)
    requires InRange(v, n, signed)
    ensures |bs| == n
  {
    var u := if v < 0 then v + Pow256(n) else v;
    Reorder(EncodeBig(u, n), order)
  }

  /** Most significant byte first, or reversed for little-endian. */
  function Reorder(big: seq<byte>, order: ByteOrder): (bs: seq<byte>)
    ensures |bs| == |big|
  {
    match order
    case Big => big
    case Little => Reverse(big)
  }

  lemma ReorderTwice(bs: seq<byte>, order: ByteOrder)
    ensures Reorder(Reorder(bs, order), order) == bs
  {
    if order == Little {
      ReverseReverse(bs);
    }
  }

  /** The unsigned value in either order is the big-endian value of the
      reordered bytes. */
  lemma UnsignedIsBig(bs: seq<byte>, order: ByteOrder)
    ensures Unsigned(bs, order) == BigEndian(Reorder(bs, order))
  {
    if order == Little {
      LittleIsReversedBig(bs);
    }
  }

  lemma {:induction false} BigEndianOfEncode(u: nat, n: nat)
    requires u < Pow256(n)
    ensures BigEndian(EncodeBig(u, n)) == u
  {
    if n > 0 {
      var bs := EncodeBig(u, n);
      assert bs[..n - 1] == EncodeBig(u / 256, n - 1);
      BigEndianOfEncode(u / 256, n - 1);
    }
  }

  lemma {:induction false} EncodeOfBigEndian(bs: seq<byte>)
    ensures EncodeBig(BigEndian(bs), |bs|) == bs
  {
    if |bs| > 0 {
      var p := bs[..|bs| - 1];
      var u := BigEndian(bs);
      assert u == BigEndian(p) * 256 + bs[|bs| - 1];
      assert u / 256 == BigEndian(p);
      assert u % 256 == bs[|bs| - 1];
      EncodeOfBigEndian(p);
      assert bs == p + [bs[|bs| - 1]];
    }
  }

  lemma UnsignedOfReorder(big: seq<byte>, order: ByteOrder)
    ensures Unsigned(Reorder(big, order), order) == BigEndian(big)
  {
    UnsignedIsBig(Reorder(big, order), order);
    ReorderTwice(big, order);
  }

  /** Decoding what was encoded gives the value back. */
  lemma FromBytesOfToBytes(v: int, n: nat, order: ByteOrder, signed: bool)
    requires InRange(v, n, signed)
    ensures FromBytes(ToBytes(v, n, order, signed), order, signed) == v
  {
    var u := if v < 0 then v + Pow256(n) else v;
    BigEndianOfEncode(u, n);
    UnsignedOfReorder(EncodeBig(u, n), order);
  }

  /** Encoding what was decoded gives the bytes back: the two are inverse. */
  lemma ToBytesOfFromBytes(bs: seq<byte>, order: ByteOrder, signed: bool)
    ensures ToBytes(FromBytes(bs, order, signed), |bs|, order, signed) == bs
  {
    var big := Reorder(bs, order);
    UnsignedOfDecoded(bs, order, signed);
    UnsignedIsBig(bs, order);
    EncodeOfBigEndian(big);
    ReorderTwice(bs, order);
  }

  /** The two's-complement adjustment of a decoded value undoes itself. */
  lemma UnsignedOfDecoded(bs: seq<byte>, order: ByteOrder, signed: bool)
    ensures var v := FromBytes(bs, order, signed);
      (if v < 0 then v + Pow256(|bs|) else v) == Unsigned(bs, order)
  {
    HalfPow(|bs|);
  }
}
