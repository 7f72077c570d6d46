/** The C memory operations the SDK's codecs are written with. */
module CMemory {
  import opened Bytes

  /** memcpy(dst + pos, src, |src|). */
  method Memcpy(dst: array<byte>, pos: nat, src: seq<byte>)
    requires pos + |src| <= dst.Length
    modifies dst
    ensures dst[..pos + |src|] == old(dst[..pos]) + src
    ensures dst[pos + |src|..] == old(dst[pos + |src|..])
  {
    forall i | 0 <= i < |src| {
      dst[pos + i] := src[i];
    }
  }

  /** Two bytes stored big-endian, one assignment each. */
  method PutBE16(dst: array<byte>, pos: nat, v: u16)
    requires pos + 2 <= dst.Length
    modifies dst
    ensures dst[..pos + 2] == old(dst[..pos]) + ToBE(v, 2)
    ensures dst[pos + 2..] == old(dst[pos + 2..])
  {
    hide ToBE;
    BE16Bytes(v);
    dst[pos] := v / 0x100 % 256;
    dst[pos + 1] := v % 256;
  }

  /** Four bytes stored big-endian, one assignment each. */
  method PutBE32(dst: array<byte>, pos: nat, v: u32)
    requires pos + 4 <= dst.Length
    modifies dst
    ensures dst[..pos + 4] == old(dst[..pos]) + ToBE(v, 4)
    ensures dst[pos + 4..] == old(dst[pos + 4..])
  {
    hide ToBE;
    BE32Bytes(v);
    dst[pos] := v / 0x100_0000 % 256;
    dst[pos + 1] := v / 0x1_0000 % 256;
    dst[pos + 2] := v / 0x100 % 256;
    dst[pos + 3] := v % 256;
  }
}
