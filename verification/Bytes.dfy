/** Bytes of a raster bitmap and of the printer stream.

  Bitmaps are read bit by bit and stream bytes carry counts, so a byte is a bit
  vector and its numeric value is counted out by `NatOf` and `ByteOf`. */
module Bytes {
  type byte = bv8

  function NatOf(b: byte): (n: nat)
    decreases b as nat
  {
    if b == 0 then 0 else 1 + NatOf(b - 1)
  }

  /** The narrowing cast, used only on values that fit. */
  function ByteOf(n: nat): byte {
    if n == 0 then 0 else ByteOf(n - 1) + 1
  }

  lemma {:induction false} NatOfIsValue(b: byte)
    ensures NatOf(b) == b as nat < 256
    decreases b as nat
  {
    if b != 0 {
      NatOfIsValue(b - 1);
    }
  }

  lemma {:induction false} NatOfByteOf(n: nat)
    requires n < 256
    ensures NatOf(ByteOf(n)) == n
  {
    if n > 0 {
      NatOfByteOf(n - 1);
      NatOfIsValue(ByteOf(n - 1));
      assert ByteOf(n - 1) != 0xFF;
    }
  }

  // ---------------------------------------------------------------------------
  // dots
  // ---------------------------------------------------------------------------

  /** Dot `k` of a byte, counted from its most significant bit. */
  predicate Dot(b: byte, k: nat)
    requires k < 8
  {
    b & (0x80 >> k) != 0
  }

  /** Dot `x` of a packed row. */
  predicate DotAt(row: seq<byte>, x: nat)
    requires x / 8 < |row|
  {
    Dot(row[x / 8], x % 8)
  }

  lemma MaskSetsDot(b: byte, k: nat, j: nat)
    requires k < 8 && j < 8
    ensures Dot(b | (0x80 >> k), j) <==> j == k || Dot(b, j)
  {
    var bit: byte := 0x80 >> k;
    assert bit & (0x80 >> j) != 0 <==> j == k;
  }

  lemma DotsDetermineByte(a: byte, b: byte)
    requires forall k :: 0 <= k < 8 ==> (Dot(a, k) <==> Dot(b, k))
    ensures a == b
  {
    assert Dot(a, 0) == Dot(b, 0) && Dot(a, 1) == Dot(b, 1) && Dot(a, 2) == Dot(b, 2) && Dot(a, 3) == Dot(b, 3);
    assert Dot(a, 4) == Dot(b, 4) && Dot(a, 5) == Dot(b, 5) && Dot(a, 6) == Dot(b, 6) && Dot(a, 7) == Dot(b, 7);
  }

  /** A packed row is determined by its dots. */
  lemma DotsDetermineRow(a: seq<byte>, b: seq<byte>)
    requires |a| == |b|
    requires forall x :: 0 <= x < 8 * |a| ==> (DotAt(a, x) <==> DotAt(b, x))
    ensures a == b
  {
    forall i | 0 <= i < |a| ensures a[i] == b[i] {
      forall k | 0 <= k < 8 ensures Dot(a[i], k) <==> Dot(b[i], k) {
        var x := 8 * i + k;
        assert DotAt(a, x) <==> DotAt(b, x);
      }
      DotsDetermineByte(a[i], b[i]);
    }
  }
}
