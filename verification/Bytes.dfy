/**
 Bytes, fixed-width integers and the big-endian encoding used by every wire
 format of eIPC.  `ToBE`/`FromBE` are the reference definition; the Go code's
 `binary.BigEndian` calls and the C code's shift-and-mask sequences are both
 expressed through it.
 */
module Bytes {

  type byte = x: int | 0 <= x < 256
  type u16 = x: int | 0 <= x < 0x1_0000
  type u32 = x: int | 0 <= x < 0x1_0000_0000
  type u64 = x: int | 0 <= x < 0x1_0000_0000_0000_0000
  type i64 = x: int | -0x8000_0000_0000_0000 <= x < 0x8000_0000_0000_0000

  const TWO_63: int := 0x8000_0000_0000_0000
  const TWO_64: int := 0x1_0000_0000_0000_0000

  datatype Option<+T> = None | Some(value: T)
  datatype Result<+T, +E> = Ok(value: T) | Err(error: E)

  /** 256 to the power `n`: how many values fit in `n` bytes. */
  function Pow256(n: nat): (r: nat)
    ensures r > 0
  {
    if n == 0 then 1 else 256 * Pow256(n - 1)
  }

  /** The low `n` bytes of `v`, most significant first. */
  function ToBE(v: nat, n: nat): (bs: seq<byte>)
    ensures |bs| == n
  {
    if n == 0 then [] else ToBE(v / 256, n - 1) + [v % 256]
  }

  /** The number a big-endian byte string denotes. */
  function FromBE(bs: seq<byte>): nat {
    if |bs| == 0 then 0 else FromBE(bs[..|bs| - 1]) * 256 + bs[|bs| - 1]
  }

  lemma {:induction false} FromBEBound(bs: seq<byte>)
    ensures FromBE(bs) < Pow256(|bs|)
  {
    if |bs| > 0 {
      FromBEBound(bs[..|bs| - 1]);
    }
  }

  /** Decoding an encoding gives the value back whenever it fits. */
  lemma {:induction false} BEDecodesEncoding(v: nat, n: nat)
    requires v < Pow256(n)
    ensures FromBE(ToBE(v, n)) == v
  {
    if n > 0 {
      BEDecodesEncoding(v / 256, n - 1);
      assert ToBE(v, n)[..n - 1] == ToBE(v / 256, n - 1);
    }
  }

  /** Every byte string is the encoding of the number it denotes. */
  lemma {:induction false} BEEncodesDecoding(bs: seq<byte>)
    ensures ToBE(FromBE(bs), |bs|) == bs
  {
    if |bs| > 0 {
      var init := bs[..|bs| - 1];
      BEEncodesDecoding(init);
      assert FromBE(bs) / 256 == FromBE(init) && FromBE(bs) % 256 == bs[|bs| - 1];
      assert bs == init + [bs[|bs| - 1]];
    }
  }

  lemma PowersOf256()
    ensures Pow256(1) == 256
    ensures Pow256(2) == 0x1_0000
    ensures Pow256(4) == 0x1_0000_0000
    ensures Pow256(8) == TWO_64
  {
    assert Pow256(3) == 256 * Pow256(2);
    assert Pow256(5) == 256 * Pow256(4);
    assert Pow256(6) == 256 * Pow256(5);
    assert Pow256(7) == 256 * Pow256(6);
  }

  /** Widths of one and two bytes, written out. */
  lemma BE16Bytes(v: nat)
    ensures ToBE(v, 2) == [v / 0x100 % 256, v % 256]
  {
    assert ToBE(v / 256, 1) == ToBE(v / 256 / 256, 0) + [v / 256 % 256];
  }

  /** The shift-and-mask form the C code writes a 32-bit value with. */
  lemma BE32Bytes(v: nat)
    ensures ToBE(v, 4) == [v / 0x100_0000 % 256, v / 0x1_0000 % 256, v / 0x100 % 256, v % 256]
  {
    hide ToBE;
    ToBEStep(v, 3);
    ToBEStep(v / 0x100, 2);
    DivTwice(v);
    BE16Bytes(v / 0x1_0000);
    assert v / 0x1_0000 / 0x100 == v / 0x100_0000;
  }

  /** ... and a 64-bit value. */
  lemma BE64Bytes(v: nat)
    ensures ToBE(v, 8) == [v / 0x100_0000_0000_0000 % 256, v / 0x1_0000_0000_0000 % 256,
                           v / 0x100_0000_0000 % 256, v / 0x1_0000_0000 % 256,
                           v / 0x100_0000 % 256, v / 0x1_0000 % 256, v / 0x100 % 256, v % 256]
  {
    hide ToBE;
    ToBEStep(v, 7);
    ToBEStep(v / 0x100, 6);
    ToBEStep(v / 0x1_0000, 5);
    ToBEStep(v / 0x100_0000, 4);
    DivTwice(v);
    BE32Bytes(v / 0x1_0000_0000);
    DivFar(v);
  }

  lemma ToBEStep(v: nat, n: nat)
    ensures ToBE(v, n + 1) == ToBE(v / 256, n) + [v % 256]
  {
  }

  lemma DivTwice(v: nat)
    ensures v / 0x100 / 256 == v / 0x1_0000
    ensures v / 0x1_0000 / 256 == v / 0x100_0000
    ensures v / 0x100_0000 / 256 == v / 0x1_0000_0000
  {
  }

  lemma DivFar(v: nat)
    ensures v / 0x1_0000_0000 / 0x100_0000 == v / 0x100_0000_0000_0000
    ensures v / 0x1_0000_0000 / 0x1_0000 == v / 0x1_0000_0000_0000
    ensures v / 0x1_0000_0000 / 0x100 == v / 0x100_0000_0000
  {
  }

  lemma DivUnique(v: nat, d: nat, q: nat, r: nat)
    requires d > 0 && v == d * q + r && r < d
    ensures v / d == q && v % d == r
  {
    var q' := v / d;
    if q > q' {
      MulAtLeast(d, q - q');
    } else if q < q' {
      MulAtLeast(d, q' - q);
    }
  }

  lemma MulAtLeast(d: nat, k: nat)
    requires k >= 1
    ensures d * k >= d
  {
  }

  /** Only the low `n` bytes of a value are encoded. */
  lemma {:induction false} ToBEMod(v: nat, w: nat, n: nat)
    requires v % Pow256(n) == w % Pow256(n)
    ensures ToBE(v, n) == ToBE(w, n)
  {
    if n > 0 {
      var p := Pow256(n - 1);
      ModParts(v, p);
      ModParts(w, p);
      ToBEMod(v / 256, w / 256, n - 1);
    }
  }

  lemma ModParts(v: nat, p: nat)
    requires p > 0
    ensures v % (256 * p) / 256 == v / 256 % p && v % (256 * p) % 256 == v % 256
  {
    var q, r := v / 256 / p, v / 256 % p;
    assert v / 256 == p * q + r;
    assert v == (256 * p) * q + (256 * r + v % 256);
    DivUnique(v, 256 * p, q, 256 * r + v % 256);
  }

  /** The shift-and-or form the C code and the ring buffer read values with. */
  lemma BEReads(bs: seq<byte>)
    ensures |bs| == 2 ==> FromBE(bs) == (bs[0] as int) * 0x100 + bs[1]
    ensures |bs| == 4 ==>
              FromBE(bs) == (bs[0] as int) * 0x100_0000 + (bs[1] as int) * 0x1_0000 + (bs[2] as int) * 0x100 + bs[3]
  {
    if |bs| == 2 {
      assert bs[..1][..0] == [];
      assert FromBE(bs[..1]) == bs[0];
    }
    if |bs| == 4 {
      assert bs[..3][..2] == bs[..2] && bs[..2][..1] == bs[..1] && bs[..1][..0] == [];
      assert FromBE(bs[..1]) == bs[0];
      assert FromBE(bs[..2]) == (bs[0] as int) * 0x100 + bs[1];
      assert FromBE(bs[..3]) == FromBE(bs[..2]) * 256 + bs[2];
    }
  }

  /** int64 value with the two's-complement bit pattern `u`, and back. */
  function AsI64(u: u64): i64 { if u < TWO_63 then u else u - TWO_64 }
  function AsU64(i: i64): u64 { if i >= 0 then i else i + TWO_64 }

  /** int64 arithmetic: the representative of `x` modulo 2^64. */
  function Wrap64(x: int): i64 { (x + TWO_63) % TWO_64 - TWO_63 }

  lemma {:induction false} SubsetSize<T>(a: set<T>, b: set<T>)
    requires a <= b
    ensures |a| <= |b|
  {
    if a != {} {
      var x :| x in a;
      SubsetSize(a - {x}, b - {x});
    }
  }
}
