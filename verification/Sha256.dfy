/**
 SHA-256: the hash of FIPS 180-4 for byte strings, and the buffered streaming
 implementation of sdk/c/src/eipc_sha256.c proved equal to it.
 */
module Sha256 {
  import opened Bytes
  import opened CMemory

  // ---------------------------------------------------------------- FIPS 180-4

  /** The constants of section 4.2.2. */
  function K(t: nat): bv32
    requires t < 64
  {
    if t < 8 then
      [0x428a_2f98, 0x7137_4491, 0xb5c0_fbcf, 0xe9b5_dba5, 0x3956_c25b, 0x59f1_11f1, 0x923f_82a4, 0xab1c_5ed5][t]
    else if t < 16 then
      [0xd807_aa98, 0x1283_5b01, 0x2431_85be, 0x550c_7dc3, 0x72be_5d74, 0x80de_b1fe, 0x9bdc_06a7, 0xc19b_f174][t - 8]
    else if t < 24 then
      [0xe49b_69c1, 0xefbe_4786, 0x0fc1_9dc6, 0x240c_a1cc, 0x2de9_2c6f, 0x4a74_84aa, 0x5cb0_a9dc, 0x76f9_88da][t - 16]
    else if t < 32 then
      [0x983e_5152, 0xa831_c66d, 0xb003_27c8, 0xbf59_7fc7, 0xc6e0_0bf3, 0xd5a7_9147, 0x06ca_6351, 0x1429_2967][t - 24]
    else if t < 40 then
      [0x27b7_0a85, 0x2e1b_2138, 0x4d2c_6dfc, 0x5338_0d13, 0x650a_7354, 0x766a_0abb, 0x81c2_c92e, 0x9272_2c85][t - 32]
    else if t < 48 then
      [0xa2bf_e8a1, 0xa81a_664b, 0xc24b_8b70, 0xc76c_51a3, 0xd192_e819, 0xd699_0624, 0xf40e_3585, 0x106a_a070][t - 40]
    else if t < 56 then
      [0x19a4_c116, 0x1e37_6c08, 0x2748_774c, 0x34b0_bcb5, 0x391c_0cb3, 0x4ed8_aa4a, 0x5b9c_ca4f, 0x682e_6ff3][t - 48]
    else
      [0x748f_82ee, 0x78a5_636f, 0x84c8_7814, 0x8cc7_0208, 0x90be_fffa, 0xa450_6ceb, 0xbef9_a3f7, 0xc671_78f2][t - 56]
  }

  /** The initial hash value of section 5.3.3. */
  function IV(): (h: seq<bv32>)
    ensures |h| == 8
  {
    [0x6a09_e667, 0xbb67_ae85, 0x3c6e_f372, 0xa54f_f53a,
    0x510e_527f, 0x9b05_688c, 0x1f83_d9ab, 0x5be0_cd19]
  }

  /** Addition modulo 2^32, the standard's + on words. */
  function Add(x: bv32, y: bv32): bv32 { x + y }

  // The functions of section 4.1.2, with the standard's circular shift.
  function Ch(x: bv32, y: bv32, z: bv32): bv32 { (x & y) ^ (!x & z) }
  function Maj(x: bv32, y: bv32, z: bv32): bv32 { (x & y) ^ (x & z) ^ (y & z) }
  function BigSigma0(x: bv32): bv32 { x.RotateRight(2) ^ x.RotateRight(13) ^ x.RotateRight(22) }
  function BigSigma1(x: bv32): bv32 { x.RotateRight(6) ^ x.RotateRight(11) ^ x.RotateRight(25) }
  function SmallSigma0(x: bv32): bv32 { x.RotateRight(7) ^ x.RotateRight(18) ^ (x >> 3) }
  function SmallSigma1(x: bv32): bv32 { x.RotateRight(17) ^ x.RotateRight(19) ^ (x >> 10) }

  /** A block of 64 bytes; the standard's M(i). */
  type Block = b: seq<byte> | |b| == 64 witness seq(64, _ => 0)

  /** The bit pattern of a byte. */
  function Bits(x: byte): bv8 { if x == 0 then 0 else Bits(x - 1) + 1 }

  lemma {:induction false} BitsValue(x: byte)
    ensures Bits(x) as int == x
  {
    if x > 0 { BitsValue(x - 1); }
  }

  /** Four octets assembled into a word with shifts, as `(uint32_t)b << n` does. */
  function Word(b0: bv8, b1: bv8, b2: bv8, b3: bv8): bv32 {
    ((b0 as bv32) << 24) | ((b1 as bv32) << 16) | ((b2 as bv32) << 8) | (b3 as bv32)
  }

  /** Shifting in one more octet is exact arithmetic on the values. */
  lemma JoinValue(x: bv32, b: bv8)
    requires x < 0x100_0000
    ensures ((x << 8) | (b as bv32)) as int == (x as int) * 256 + (b as int)
  {
  }

  lemma WordByJoins(b0: bv8, b1: bv8, b2: bv8, b3: bv8) returns (h: bv32, t: bv32)
    ensures h == ((b0 as bv32) << 8) | (b1 as bv32) && h < 0x1_0000
    ensures t == (h << 8) | (b2 as bv32) && t < 0x100_0000
    ensures Word(b0, b1, b2, b3) == (t << 8) | (b3 as bv32)
  {
    h := ((b0 as bv32) << 8) | (b1 as bv32);
    t := (h << 8) | (b2 as bv32);
  }

  lemma OctetValue(b: bv8)
    ensures (b as bv32) as int == b as int && (b as bv32) < 0x100
  {
  }

  lemma WordValue(b0: bv8, b1: bv8, b2: bv8, b3: bv8)
    ensures Word(b0, b1, b2, b3) as int
            == (((b0 as int) * 256 + (b1 as int)) * 256 + (b2 as int)) * 256 + (b3 as int)
  {
    hide Word;
    var h, t := WordByJoins(b0, b1, b2, b3);
    OctetValue(b0);
    JoinValue(b0 as bv32, b1);
    JoinValue(h, b2);
    JoinValue(t, b3);
  }

  /** Word `t` of a block is the big-endian number its four bytes denote (section 3.1). */
  lemma WordIsBigEndian(block: Block, t: nat)
    requires t < 16
    ensures WordAt(block, t) as int == FromBE(block[4 * t..4 * t + 4])
  {
    var bs := block[4 * t..4 * t + 4];
    BitsValue(bs[0]); BitsValue(bs[1]); BitsValue(bs[2]); BitsValue(bs[3]);
    WordValue(Bits(bs[0]), Bits(bs[1]), Bits(bs[2]), Bits(bs[3]));
    BEReads(bs);
  }

  /** Word `t` of a block. */
  function WordAt(block: Block, t: nat): bv32
    requires t < 16
  {
    Word(Bits(block[4 * t]), Bits(block[4 * t + 1]), Bits(block[4 * t + 2]), Bits(block[4 * t + 3]))
  }

  function ScheduleWord(w2: bv32, w7: bv32, w15: bv32, w16: bv32): bv32 {
    Add(Add(Add(SmallSigma1(w2), w7), SmallSigma0(w15)), w16)
  }

  /** The message schedule of section 6.2.2, step 1. */
  function W(block: Block, t: nat): bv32
    requires t < 64
  {
    if t < 16 then WordAt(block, t)
    else ScheduleWord(W(block, t - 2), W(block, t - 7), W(block, t - 15), W(block, t - 16))
  }

  datatype Vars = Vars(a: bv32, b: bv32, c: bv32, d: bv32, e: bv32, f: bv32, g: bv32, h: bv32)

  /** One iteration of section 6.2.2, step 3. */
  function Round(v: Vars, k: bv32, w: bv32): Vars {
    var t1 := Add(Add(Add(Add(v.h, BigSigma1(v.e)), Ch(v.e, v.f, v.g)), k), w);
    var t2 := Add(BigSigma0(v.a), Maj(v.a, v.b, v.c));
    Vars(Add(t1, t2), v.a, v.b, v.c, Add(v.d, t1), v.e, v.f, v.g)
  }

  function Rounds(v: Vars, block: Block, t: nat): Vars
    requires t <= 64
  {
    if t == 0 then v else Round(Rounds(v, block, t - 1), K(t - 1), W(block, t - 1))
  }

  type HashValue = h: seq<bv32> | |h| == 8 witness IV()

  function Load(h: HashValue): Vars { Vars(h[0], h[1], h[2], h[3], h[4], h[5], h[6], h[7]) }

  /** Section 6.2.2, steps 2 to 4: the compression of one block. */
  function Compress(h: HashValue, block: Block): HashValue {
    AddVarsTo(h, Rounds(Load(h), block, 64))
  }

  /** The working variables a..h, by number. */
  function Lane(v: Vars, i: nat): bv32
    requires i < 8
  {
    if i == 0 then v.a else if i == 1 then v.b else if i == 2 then v.c else if i == 3 then v.d
    else if i == 4 then v.e else if i == 5 then v.f else if i == 6 then v.g else v.h
  }

  function AddVarsTo(h: HashValue, v: Vars): HashValue {
    seq(8, i requires 0 <= i < 8 => Add(h[i], Lane(v, i)))
  }

  /** Section 6.2.2 over the parsed message: H(N) for the whole blocks of `m`. */
  function HashBlocks(h: HashValue, m: seq<byte>): HashValue
    decreases |m|
  {
    if |m| < 64 then h else HashBlocks(Compress(h, m[..64]), m[64..])
  }

  /** The hash value after the whole blocks of `m`, from the initial one. */
  function Hashed(m: seq<byte>): HashValue {
    HashBlocks(IV(), m)
  }

  function Zeros(n: nat): (z: seq<byte>)
    ensures |z| == n
  {
    seq(n, _ => 0)
  }

  /**
   Section 5.1.1, byte-aligned: a one bit, the least number of zero bits that
   brings the length to 448 modulo 512, and the length in bits as a 64-bit word.
   */
  function Pad(msg: seq<byte>): seq<byte> {
    msg + [0x80] + Zeros((55 - |msg|) % 64) + ToBE(8 * |msg|, 8)
  }

  /** The digest: the words of H(N), each written big-endian. */
  function Digest(h: seq<bv32>): (d: seq<byte>)
    ensures |d| == 4 * |h|
  {
    if |h| == 0 then [] else Digest(h[..|h| - 1]) + ToBE(h[|h| - 1] as int, 4)
  }

  /** SHA-256 of a byte string. */
  function Hash(msg: seq<byte>): (d: seq<byte>)
    ensures |d| == 32
  {
    Digest(Hashed(Pad(msg)))
  }

  /** The padding is what section 5.1.1 asks for: whole blocks, least k, recoverable length. */
  lemma PadIsStandard(msg: seq<byte>)
    ensures |Pad(msg)| % 64 == 0
    ensures |Pad(msg)| - |msg| < 9 + 64
    ensures msg <= Pad(msg) && Pad(msg)[|msg|] == 0x80
    ensures |msg| < 0x2000_0000_0000_0000 ==> FromBE(Pad(msg)[|Pad(msg)| - 8..]) == 8 * |msg|
  {
    hide ToBE, FromBE, Pow256;
    var p := Pad(msg);
    assert p[|p| - 8..] == ToBE(8 * |msg|, 8);
    if |msg| < 0x2000_0000_0000_0000 {
      PowersOf256();
      BEDecodesEncoding(8 * |msg|, 8);
    }
  }

  /** Hashing is associative over a split at a block boundary. */
  lemma {:induction false} HashBlocksSplit(h: HashValue, a: seq<byte>, b: seq<byte>)
    requires |a| % 64 == 0
    ensures HashBlocks(h, a + b) == HashBlocks(HashBlocks(h, a), b)
    decreases |a|
  {
    hide Compress;
    if |a| == 0 {
      assert a + b == b;
    } else {
      assert (a + b)[..64] == a[..64] && (a + b)[64..] == a[64..] + b;
      HashBlocksSplit(Compress(h, a[..64]), a[64..], b);
    }
  }

  lemma HashOneMore(a: seq<byte>, block: Block)
    requires |a| % 64 == 0
    ensures Hashed(a + block) == Compress(Hashed(a), block)
  {
    hide Compress, IV;
    HashBlocksSplit(IV(), a, block);
    assert block[..64] == block && block[64..] == [];
  }

  // ---------------------------------------------------------- the implementation

  // The macros of eipc_sha256.c, lines 32-38, with ROTR's two shifts written out.
  function EP0(x: bv32): bv32 { ((x >> 2) | (x << 30)) ^ ((x >> 13) | (x << 19)) ^ ((x >> 22) | (x << 10)) }
  function EP1(x: bv32): bv32 { ((x >> 6) | (x << 26)) ^ ((x >> 11) | (x << 21)) ^ ((x >> 25) | (x << 7)) }
  function SIG0(x: bv32): bv32 { ((x >> 7) | (x << 25)) ^ ((x >> 18) | (x << 14)) ^ (x >> 3) }
  function SIG1(x: bv32): bv32 { ((x >> 17) | (x << 15)) ^ ((x >> 19) | (x << 13)) ^ (x >> 10) }

  /** Bit by bit, Ch takes y where x is set and z elsewhere. */
  lemma Chooses(x: bv32, y: bv32, z: bv32)
    ensures Ch(x, y, z) == (x & y) | (!x & z)
    ensures Ch(0xFFFF_FFFF, y, z) == y && Ch(0, y, z) == z
  {
  }

  /** Maj is set where at least two of the three are. */
  lemma IsMajority(x: bv32, y: bv32, z: bv32)
    ensures Maj(x, y, z) == (x & y) | (x & z) | (y & z)
  {
  }

  /** The shift-and-or macros are the standard's circular shifts. */
  lemma MacrosAreFips(x: bv32)
    ensures EP0(x) == BigSigma0(x) && EP1(x) == BigSigma1(x)
    ensures SIG0(x) == SmallSigma0(x) && SIG1(x) == SmallSigma1(x)
  {
  }

  /** The first loop of sha256_transform: the words of the block. */
  method LoadWords(block: array<byte>, w: array<bv32>)
    requires block.Length == 64 && w.Length == 64 && w as object != block
    modifies w
    ensures forall t :: 0 <= t < 16 ==> w[t] == W(block[..], t)
  {
    hide Word, Bits, W;
    ghost var blk := block[..];
    var i := 0;
    while i < 16
      invariant 0 <= i <= 16
      invariant forall t :: 0 <= t < i ==> w[t] == W(blk, t)
    {
      ScheduleStart(blk, i);
      w[i] := Word(Bits(block[i * 4]), Bits(block[i * 4 + 1]), Bits(block[i * 4 + 2]), Bits(block[i * 4 + 3]));
      i := i + 1;
    }
  }

  /** The first two loops of sha256_transform: the message schedule. */
  method Schedule(block: array<byte>) returns (w: array<bv32>)
    requires block.Length == 64
    ensures fresh(w) && w.Length == 64
    ensures forall t :: 0 <= t < 64 ==> w[t] == W(block[..], t)
  {
    hide ScheduleWord, W;
    ghost var blk := block[..];
    w := new bv32[64];
    LoadWords(block, w);
    var i := 16;
    while i < 64
      invariant 16 <= i <= 64
      invariant forall t :: 0 <= t < i ==> w[t] == W(blk, t)
    {
      var next := ScheduleStep(w[i - 2], w[i - 7], w[i - 15], w[i - 16]);
      ScheduleRecurrence(blk, i);
      w[i] := next;
      i := i + 1;
    }
  }

  lemma ScheduleStart(block: Block, t: nat)
    requires t < 16
    ensures W(block, t) == WordAt(block, t)
  {
    hide WordAt;
  }

  lemma ScheduleRecurrence(block: Block, t: nat)
    requires 16 <= t < 64
    ensures W(block, t) == ScheduleWord(W(block, t - 2), W(block, t - 7), W(block, t - 15), W(block, t - 16))
  {
    hide ScheduleWord;
  }

  /** The recurrence of the schedule, with the macros of the C code. */
  method ScheduleStep(w2: bv32, w7: bv32, w15: bv32, w16: bv32) returns (w: bv32)
    ensures w == ScheduleWord(w2, w7, w15, w16)
  {
    hide Add, SIG0, SIG1, SmallSigma0, SmallSigma1;
    MacrosAreFips(w2);
    MacrosAreFips(w15);
    w := Add(Add(Add(SIG1(w2), w7), SIG0(w15)), w16);
  }

  /** The round loop of sha256_transform, on the working variables a..h. */
  method Mix(v0: Vars, w: array<bv32>, ghost block: Block) returns (v: Vars)
    requires w.Length == 64
    requires forall t :: 0 <= t < 64 ==> w[t] == W(block, t)
    ensures v == Rounds(v0, block, 64)
  {
    hide Round, W, K;
    v := v0;
    var i := 0;
    while i < 64
      invariant 0 <= i <= 64
      invariant v == Rounds(v0, block, i)
    {
      v := MixStep(v, K(i), w[i]);
      i := i + 1;
    }
  }

  /** The loop body of the rounds, in the order of the C assignments. */
  method MixStep(v: Vars, k: bv32, w: bv32) returns (r: Vars)
    ensures r == Round(v, k, w)
  {
    hide Add, EP0, EP1, BigSigma0, BigSigma1, Ch, Maj;
    var Vars(a, b, c, d, e, f, g, h) := v;
    MacrosAreFips(e);
    MacrosAreFips(a);
    var t1 := Add(Add(Add(Add(h, EP1(e)), Ch(e, f, g)), k), w);
    var t2 := Add(EP0(a), Maj(a, b, c));
    h := g; g := f; f := e; e := Add(d, t1);
    d := c; c := b; b := a; a := Add(t1, t2);
    r := Vars(a, b, c, d, e, f, g, h);
  }

  /** The 64-bit count of the bits in `n` bytes. */
  function BitCount(n: nat): u64 { 8 * n % TWO_64 }

  lemma NothingHashed()
    ensures Hashed([]) == IV() && BitCount(0) == 0
  {
    hide IV;
  }

  lemma BitCountAdd(m: nat, n: nat)
    ensures (BitCount(m) + 8 * n) % TWO_64 == BitCount(m + n)
  {
  }

  lemma BitCountBE(n: nat)
    ensures ToBE(BitCount(n), 8) == ToBE(8 * n, 8)
  {
    PowersOf256();
    ToBEMod(BitCount(n), 8 * n, 8);
  }

  lemma ZerosAdd(m: nat, n: nat)
    ensures Zeros(m) + Zeros(n) == Zeros(m + n)
  {
  }

  class Context {
    const state: array<bv32>
    const block: array<byte>
    var totalBits: u64
    var blockLen: nat

    ghost predicate Valid()
      reads this
    {
      state.Length == 8 && block.Length == 64 && blockLen < 64
    }

    /** The context after absorbing `msg`: whole blocks hashed, the rest buffered. */
    ghost predicate Absorbed(msg: seq<byte>)
      reads this, state, block
    {
      && Valid()
      && blockLen <= |msg| && (|msg| - blockLen) % 64 == 0
      && state[..] == Hashed(msg[..|msg| - blockLen])
      && block[..blockLen] == msg[|msg| - blockLen..]
      && totalBits == BitCount(|msg| - blockLen)
    }

    constructor ()
      ensures Absorbed([]) && fresh(state) && fresh(block)
    {
      hide Hashed, IV, BitCount;
      state := new bv32[8](i requires 0 <= i < 8 => IV()[i]);
      block := new byte[64](_ => 0);
      totalBits := 0;
      blockLen := 0;
      new;
      NothingHashed();
      assert state[..] == IV();
    }

    /** sha256_transform: compress the buffered block into the state. */
    method Transform()
      requires state.Length == 8 && block.Length == 64
      modifies state
      ensures state[..] == Compress(old(state[..]), block[..])
    {
      hide Rounds, W, Add;
      var w := Schedule(block);
      var v := Mix(Load(state[..]), w, block[..]);
      AddVars(v);
    }

    /** The last assignments of sha256_transform. */
    method AddVars(v: Vars)
      requires state.Length == 8
      modifies state
      ensures state[..] == AddVarsTo(old(state[..]), v)
    {
      hide Add, Lane;
      forall i | 0 <= i < 8 {
        state[i] := Add(state[i], Lane(v, i));
      }
    }

    /** The full-block branch of sha256_update. */
    method Flush(ghost whole: seq<byte>)
      requires state.Length == 8 && block.Length == 64 && blockLen == 64 && |whole| % 64 == 0
      requires state[..] == Hashed(whole) && totalBits == BitCount(|whole|)
      modifies this, state
      ensures Absorbed(whole + block[..])
    {
      hide Hashed, Compress, BitCount;
      HashOneMore(whole, block[..]);
      BitCountAdd(|whole|, 64);
      ghost var msg := whole + block[..];
      assert msg[..|msg|] == msg;
      Transform();
      totalBits := (totalBits + 512) % TWO_64;
      blockLen := 0;
    }

    /** One iteration of the loop of sha256_update. */
    method Push(b: byte, ghost msg: seq<byte>)
      requires Absorbed(msg)
      modifies this, state, block
      ensures Absorbed(msg + [b])
    {
      hide Hashed, BitCount;
      ghost var whole := msg[..|msg| - blockLen];
      block[blockLen] := b;
      blockLen := blockLen + 1;
      assert whole + block[..blockLen] == msg + [b];
      assert (msg + [b])[..|whole|] == whole && (msg + [b])[|whole|..] == block[..blockLen];
      if blockLen == 64 {
        assert block[..64] == block[..];
        Flush(whole);
      }
    }

    /** sha256_update. */
    method Update(data: seq<byte>, ghost msg: seq<byte>)
      requires Absorbed(msg)
      modifies this, state, block
      ensures Absorbed(msg + data)
    {
      hide Hashed, BitCount;
      var i := 0;
      assert msg + data[..0] == msg;
      while i < |data|
        invariant 0 <= i <= |data|
        invariant Absorbed(msg + data[..i])
      {
        Push(data[i], msg + data[..i]);
        assert msg + data[..i] + [data[i]] == msg + data[..i + 1];
        i := i + 1;
      }
      assert data[..i] == data;
    }

    /** Fill the buffered block with zeros from `blockLen` up to `upTo`. */
    method ZeroFill(upTo: nat)
      requires block.Length == 64 && blockLen <= upTo <= 64
      modifies this`blockLen, block
      ensures blockLen == upTo
      ensures block[..upTo] == old(block[..blockLen]) + Zeros(upTo - old(blockLen))
    {
      while blockLen < upTo
        invariant old(blockLen) <= blockLen <= upTo
        invariant block[..blockLen] == old(block[..blockLen]) + Zeros(blockLen - old(blockLen))
      {
        block[blockLen] := 0;
        blockLen := blockLen + 1;
        assert block[..blockLen] == block[..blockLen - 1] + [0];
        assert Zeros(blockLen - old(blockLen)) == Zeros(blockLen - 1 - old(blockLen)) + [0];
      }
    }

    /** Write the message length into the last eight bytes of the block. */
    method PutLength(bits: u64)
      requires block.Length == 64
      modifies block
      ensures block[..] == old(block[..56]) + ToBE(bits, 8)
    {
      BE64Bytes(bits);
      block[56] := bits / 0x100_0000_0000_0000 % 256;
      block[57] := bits / 0x1_0000_0000_0000 % 256;
      block[58] := bits / 0x100_0000_0000 % 256;
      block[59] := bits / 0x1_0000_0000 % 256;
      block[60] := bits / 0x100_0000 % 256;
      block[61] := bits / 0x1_0000 % 256;
      block[62] := bits / 0x100 % 256;
      block[63] := bits % 256;
    }

    /** The last loop of sha256_final: the state words, written big-endian. */
    method PutDigest(hash: array<byte>)
      requires state.Length == 8 && hash.Length >= 32
      modifies hash
      ensures hash[..32] == Digest(state[..]) && hash[32..] == old(hash[32..])
    {
      hide Digest, ToBE;
      ghost var h := state[..];
      DigestEmpty();
      var i := 0;
      while i < 8
        invariant 0 <= i <= 8
        invariant hash[..4 * i] == Digest(h[..i]) && hash[32..] == old(hash[32..])
      {
        DigestStep(h, i);
        PutBE32(hash, i * 4, state[i] as int);
        i := i + 1;
      }
      assert h[..8] == h;
    }

    /** The padding of sha256_final, all but the length field. */
    method PadBlock(ghost msg: seq<byte>) returns (ghost hashed: seq<byte>)
      requires Absorbed(msg)
      modifies this, state, block
      ensures |hashed| % 64 == 0 && state[..] == Hashed(hashed)
      ensures hashed + block[..56] == msg + [0x80] + Zeros((55 - |msg|) % 64)
    {
      hide Hashed, BitCount, Zeros;
      hashed := msg[..|msg| - blockLen];
      var origLen := blockLen;
      block[blockLen] := 0x80;
      blockLen := blockLen + 1;
      assert hashed + block[..blockLen] == msg + [0x80];
      if origLen < 56 {
        ZeroFill(56);
        assert hashed + block[..56] == msg + [0x80] + Zeros(55 - origLen);
        assert (55 - |msg|) % 64 == 55 - origLen;
      } else {
        hashed := Overflow(hashed, msg);
        ZerosAdd(63 - origLen, 56);
        assert (55 - |msg|) % 64 == 63 - origLen + 56;
      }
    }

    /** The second padding branch: no room for the length, so one more block. */
    method Overflow(ghost whole: seq<byte>, ghost msg: seq<byte>) returns (ghost hashed: seq<byte>)
      requires state.Length == 8 && block.Length == 64 && 56 < blockLen <= 64
      requires |whole| % 64 == 0 && state[..] == Hashed(whole)
      requires whole + block[..blockLen] == msg + [0x80]
      modifies this, state, block
      ensures |hashed| % 64 == 0 && state[..] == Hashed(hashed)
      ensures hashed + block[..56] == msg + [0x80] + (Zeros(64 - old(blockLen)) + Zeros(56))
    {
      hide Hashed, Compress, BitCount;
      ZeroFill(64);
      HashOneMore(whole, block[..]);
      hashed := whole + block[..];
      Transform();
      blockLen := 0;
      ZeroFill(56);
      assert block[..56] == Zeros(56);
    }

    /** sha256_final. */
    method Final(hash: array<byte>, ghost msg: seq<byte>)
      requires Absorbed(msg)
      requires hash.Length >= 32 && hash != block
      modifies this, state, block, hash
      ensures hash[..32] == Hash(msg) && hash[32..] == old(hash[32..])
    {
      hide Hashed, Compress, ToBE, Digest, BitCount, Zeros;
      var bits := (totalBits + blockLen * 8) % TWO_64;
      BitCountAdd(|msg| - blockLen, blockLen);
      BitCountBE(|msg|);
      ghost var hashed := PadBlock(msg);
      PutLength(bits);
      assert hashed + block[..] == Pad(msg);
      HashOneMore(hashed, block[..]);
      Transform();
      PutDigest(hash);
    }
  }

  lemma DigestEmpty()
    ensures Digest([]) == []
  {
  }

  lemma DigestStep(h: seq<bv32>, i: nat)
    requires i < |h|
    ensures Digest(h[..i + 1]) == Digest(h[..i]) + ToBE(h[i] as int, 4)
  {
    assert h[..i + 1][..i] == h[..i];
  }

  /** eipc_sha256: init, one update, final. */
  method Sum256(data: seq<byte>, hash: array<byte>)
    requires hash.Length >= 32
    modifies hash
    ensures hash[..32] == Hash(data) && hash[32..] == old(hash[32..])
  {
    hide *;
    var ctx := new Context();
    ctx.Update(data, []);
    assert [] + data == data;
    assert hash[32..] == old(hash[32..]);
    ctx.Final(hash, data);
  }
}
