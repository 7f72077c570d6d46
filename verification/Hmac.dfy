/**
 HMAC-SHA256: the construction of section 2 of RFC 2104, and
 sdk/c/src/eipc_hmac.c proved equal to it.
 */
module Hmac {
  import opened Bytes
  import opened CMemory
  import opened Sha256

  // ---------------------------------------------------------------- RFC 2104

  function Xor(a: byte, b: byte): byte { (Bits(a) ^ Bits(b)) as int }

  lemma Halve(x: bv8)
    ensures (x >> 1) as int == (x as int) / 2
    ensures (x & 1) as int == (x as int) % 2
  {
  }

  lemma Double(x: bv8)
    requires x < 128
    ensures (x << 1) as int == 2 * (x as int)
    ensures ((x << 1) | 1) as int == 2 * (x as int) + 1
  {
  }

  lemma XorSplit(x: bv8, y: bv8)
    ensures (x >> 1) ^ (y >> 1) < 128
    ensures x ^ y == if x & 1 == y & 1 then ((x >> 1) ^ (y >> 1)) << 1 else (((x >> 1) ^ (y >> 1)) << 1) | 1
  {
  }

  lemma BitsOf(x: bv8, n: byte)
    requires x as int == n
    ensures Bits(n) == x
  {
    BitsValue(n);
  }

  lemma LowBit(a: byte)
    ensures Bits(a) & 1 == if a % 2 == 0 then 0 else 1
  {
    BitsValue(a);
    Halve(Bits(a));
  }

  lemma Parity(a: byte, b: byte)
    ensures (a as int + b) % 2 == if Bits(a) & 1 == Bits(b) & 1 then 0 else 1
  {
    hide Bits;
    LowBit(a);
    LowBit(b);
  }

  lemma XorValue(x: bv8, y: bv8)
    ensures (x ^ y) as int == 2 * (((x >> 1) ^ (y >> 1)) as int) + if x & 1 == y & 1 then 0 else 1
  {
    XorSplit(x, y);
    Double((x >> 1) ^ (y >> 1));
  }

  lemma HalfBits(a: byte)
    ensures Bits(a / 2) == Bits(a) >> 1
  {
    BitsValue(a);
    Halve(Bits(a));
    BitsOf(Bits(a) >> 1, a / 2);
  }

  lemma XorOfHalves(a: byte, b: byte)
    ensures Xor(a, b) == (Bits(a) ^ Bits(b)) as int && Xor(a / 2, b / 2) == ((Bits(a) >> 1) ^ (Bits(b) >> 1)) as int
  {
    hide Bits;
    HalfBits(a);
    HalfBits(b);
  }

  /** What XOR is, bit by bit: whether the lowest bits differ, below the XOR of the halves. */
  lemma XorHalves(a: byte, b: byte)
    ensures Xor(a, b) == 2 * Xor(a / 2, b / 2) + (a as int + b) % 2
  {
    hide Bits, Xor;
    XorOfHalves(a, b);
    XorValue(Bits(a), Bits(b));
    Parity(a, b);
  }

  /** K padded with zeros to the block length, or H(K) when K is longer. */
  function KeyBlock(key: seq<byte>): (k: seq<byte>)
    ensures |k| == 64
  {
    var k0 := if |key| > 64 then Hash(key) else key;
    k0 + Zeros(64 - |k0|)
  }

  function XorPad(k: seq<byte>, c: byte): (r: seq<byte>)
    ensures |r| == |k|
  {
    seq(|k|, i requires 0 <= i < |k| => Xor(k[i], c))
  }

  /** H(K XOR opad, H(K XOR ipad, data)). */
  function Mac(key: seq<byte>, data: seq<byte>): (m: seq<byte>)
    ensures |m| == 32
  {
    var k := KeyBlock(key);
    Hash(XorPad(k, 0x5c) + Hash(XorPad(k, 0x36) + data))
  }

  // ---------------------------------------------------------- the implementation

  const STACK_DATA := 65536

  /**
   What eipc_hmac_sign leaves in `mac`: the HMAC, except that a failed
   allocation for oversized data leaves all zeros.
   */
  function SignResult(key: seq<byte>, data: seq<byte>, mallocOk: bool): (m: seq<byte>)
    ensures |m| == 32
  {
    if |data| <= STACK_DATA || mallocOk then Mac(key, data) else Zeros(32)
  }

  /** The padded key, as the memset and the two branches on key_len build it. */
  method LoadKey(key: seq<byte>) returns (k: array<byte>)
    ensures fresh(k) && k[..] == KeyBlock(key)
  {
    hide Hash;
    k := new byte[64](_ => 0);
    assert k[..] == Zeros(64);
    if |key| > 64 {
      Sum256(key, k);
      assert k[..] == k[..32] + k[32..];
    } else {
      Memcpy(k, 0, key);
    }
  }

  /** The pad loop: both pads are filled in one pass. */
  method FillPads(k: array<byte>) returns (ipad: array<byte>, opad: array<byte>)
    requires k.Length == 64
    ensures fresh(ipad) && fresh(opad) && ipad != opad
    ensures ipad[..] == XorPad(k[..], 0x36) && opad[..] == XorPad(k[..], 0x5c)
  {
    hide Xor;
    ipad, opad := new byte[64], new byte[64];
    var i := 0;
    while i < 64
      invariant 0 <= i <= 64
      invariant forall j :: 0 <= j < i ==> ipad[j] == Xor(k[j], 0x36) && opad[j] == Xor(k[j], 0x5c)
    {
      ipad[i] := Xor(k[i], 0x36);
      opad[i] := Xor(k[i], 0x5c);
      i := i + 1;
    }
  }

  /** Copy a block and its continuation into `buf` and hash exactly those bytes. */
  method HashJoined(buf: array<byte>, first: seq<byte>, second: seq<byte>, out: array<byte>)
    requires |first| + |second| <= buf.Length && out.Length == 32 && buf != out
    modifies buf, out
    ensures out[..] == Hash(first + second)
  {
    hide Hash;
    Memcpy(buf, 0, first);
    assert buf[..|first|] == first;
    Memcpy(buf, |first|, second);
    Sum256(buf[..|first| + |second|], out);
    assert out[..] == out[..32];
  }

  /** eipc_hmac_sign; `mallocOk` is whether the allocation for oversized data succeeds. */
  method Sign(key: seq<byte>, data: seq<byte>, mac: array<byte>, mallocOk: bool)
    requires mac.Length == 32
    modifies mac
    ensures mac[..] == SignResult(key, data, mallocOk)
  {
    hide Hash, KeyBlock, XorPad;
    var k := LoadKey(key);
    var ipad, opad := FillPads(k);
    var inner := new byte[32];
    if |data| <= STACK_DATA {
      var innerBuf := new byte[64 + STACK_DATA];
      HashJoined(innerBuf, ipad[..], data, inner);
    } else if mallocOk {
      var buf := new byte[64 + |data|];
      HashJoined(buf, ipad[..], data, inner);
    } else {
      forall i | 0 <= i < 32 { mac[i] := 0; }
      return;
    }
    var outerBuf := new byte[64 + 32];
    HashJoined(outerBuf, opad[..], inner[..], mac);
  }

  lemma XorIsZero(x: bv8, y: bv8, d: bv8)
    ensures d | (x ^ y) == 0 <==> d == 0 && x == y
  {
  }

  lemma SameBits(a: byte, b: byte)
    ensures Bits(a) == Bits(b) <==> a == b
  {
    hide Bits;
    BitsValue(a);
    BitsValue(b);
  }

  /** What eipc_hmac_verify accepts. */
  predicate Accepts(key: seq<byte>, data: seq<byte>, mac: seq<byte>, mallocOk: bool) {
    mac == SignResult(key, data, mallocOk)
  }

  /**
   Verification is that of RFC 2104 exactly when the data is within the stack
   buffer or the allocation succeeds, unless the HMAC happens to be all zeros;
   otherwise the one MAC accepted, whatever key and data, is 32 zero bytes.
   */
  lemma AcceptsHmacIff(key: seq<byte>, data: seq<byte>, mallocOk: bool)
    ensures (forall mac :: Accepts(key, data, mac, mallocOk) <==> mac == Mac(key, data))
            <==> |data| <= 65536 || mallocOk || Mac(key, data) == Zeros(32)
    ensures |data| > 65536 && !mallocOk ==> forall mac :: Accepts(key, data, mac, mallocOk) <==> mac == Zeros(32)
  {
    hide Mac;
    assert Accepts(key, data, SignResult(key, data, mallocOk), mallocOk);
  }

  /** eipc_hmac_verify: the OR of byte differences is zero exactly on the signed value. */
  method Verify(key: seq<byte>, data: seq<byte>, mac: seq<byte>, mallocOk: bool) returns (ok: bool)
    requires |mac| == 32
    ensures ok <==> Accepts(key, data, mac, mallocOk)
  {
    hide SignResult, Bits;
    var computed := new byte[32];
    Sign(key, data, computed, mallocOk);
    ghost var c := computed[..];
    var diff: bv8 := 0;
    var i := 0;
    while i < 32
      invariant 0 <= i <= 32
      invariant computed[..] == c
      invariant diff == 0 <==> c[..i] == mac[..i]
    {
      SameBits(computed[i], mac[i]);
      XorIsZero(Bits(computed[i]), Bits(mac[i]), diff);
      diff := diff | (Bits(computed[i]) ^ Bits(mac[i]));
      assert c[..i + 1] == c[..i] + [computed[i]];
      assert mac[..i + 1] == mac[..i] + [mac[i]];
      i := i + 1;
    }
    ok := diff == 0;
    assert c[..i] == c && mac[..i] == mac;
  }
}
