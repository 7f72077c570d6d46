/**
 Tensor descriptors (protocol/tensor.go): Validate, with its guarded int64
 stride arithmetic, and what acceptance means for the elements of the tensor.
 */
module Tensors {
  import opened Bytes

  const MAX_DIMS := 8
  const MAX_SHM_NAME := 256
  const MAX_CAPS := 32
  const MAX_CAP_LEN := 128
  const MAX_DIGEST := 128
  const TWO_62: int := 0x4000_0000_0000_0000

  type bytes = seq<byte>

  datatype Descriptor = Descriptor(dtype: byte, shape: seq<i64>, strides: seq<i64>, shmName: bytes,
                                   offset: u64, size: u64, capabilities: seq<bytes>, modelDigest: bytes)

  datatype TensorError = ErrDtype | ErrDims | ErrStrides | ErrAlign | ErrShmName | ErrCaps | ErrDigest
                       | ErrTooLarge | ErrRead | ErrOverlap | ErrNoCapability | ErrCapabilityMismatch

  const F32: byte := 0
  const F16: byte := 1
  const BF16: byte := 2
  const INT8: byte := 3
  const INT4: byte := 4
  const Q4_0: byte := 5
  const Q8_0: byte := 7

  /** dtypeBytes: the element size of a dtype, zero for an unknown one. */
  function DtypeBytes(t: byte): (n: nat)
    ensures n in {0, 1, 2, 4}
  {
    if t == F32 then 4
    else if t == F16 || t == BF16 then 2
    else if t == INT8 || t == INT4 || t == Q4_0 || t == Q8_0 then 1
    else 0
  }

  /** What an element takes in memory, by eAI's dtype numbers: floats of 32 and 16 bits, a byte for the packed ones. */
  ghost function Width(t: byte): nat { if t < 8 then [32 / 8, 16 / 8, 16 / 8, 1, 1, 1, 0, 1][t] else 0 }

  lemma DtypeBytesIsWidth(t: byte)
    ensures DtypeBytes(t) == Width(t) && Width(t) in {0, 1, 2, 4}
  {
  }

  predicate HexDigit(c: byte) {
    '0' as int <= c <= '9' as int || 'a' as int <= c <= 'f' as int || 'A' as int <= c <= 'F' as int
  }

  predicate IsSha256Hex(s: bytes) { |s| == 64 && forall i :: 0 <= i < |s| ==> HexDigit(s[i]) }

  /** "sha256:" */
  function Sha256Prefix(): bytes { [115, 104, 97, 50, 53, 54, 58] }

  predicate IsSha256Prefixed(s: bytes) { |s| == 71 && s[..7] == Sha256Prefix() && IsSha256Hex(s[7..]) }

  predicate DigestOk(s: bytes) { s == [] || IsSha256Hex(s) || IsSha256Prefixed(s) }

  /** The byte of one of the hexadecimal digits, of either case. */
  ghost predicate Hex(b: byte) { exists k :: 0 <= k < 22 && b == "0123456789abcdefABCDEF"[k] as int }

  /** A digest: nothing, or 64 hexadecimal digits, after "sha256:" if after anything. */
  ghost predicate DigestForm(s: bytes) {
    |s| > 0 ==>
      && (|s| == 64 || (|s| == 71 && forall i :: 0 <= i < 7 ==> s[i] == "sha256:"[i] as int))
      && forall i :: |s| - 64 <= i < |s| ==> Hex(s[i])
  }

  lemma HexDigitIff(b: byte)
    ensures HexDigit(b) <==> Hex(b)
  {
    var digits := "0123456789abcdefABCDEF";
    if HexDigit(b) {
      var k := if b <= '9' as int then b - '0' as int
               else if b >= 'a' as int then 10 + (b - 'a' as int) else 16 + (b - 'A' as int);
      assert digits[k] as int == b;
    }
  }

  lemma DigestOkIff(s: bytes)
    ensures DigestOk(s) <==> DigestForm(s)
  {
    hide HexDigit, Hex;
    forall i | 0 <= i < |s| ensures HexDigit(s[i]) <==> Hex(s[i]) {
      HexDigitIff(s[i]);
    }
    if |s| == 71 {
      PrefixIff(s);
      assert forall i :: 0 <= i < 64 ==> s[7..][i] == s[7 + i];
      assert forall i :: 7 <= i < 71 ==> s[i] == s[7..][i - 7];
    }
  }

  lemma PrefixIff(s: bytes)
    requires |s| >= 7
    ensures s[..7] == Sha256Prefix() <==> forall i :: 0 <= i < 7 ==> s[i] == "sha256:"[i] as int
  {
    var p := Sha256Prefix();
    assert p[0] == 's' as int && p[1] == 'h' as int && p[2] == 'a' as int && p[3] == '2' as int;
    assert p[4] == '5' as int && p[5] == '6' as int && p[6] == ':' as int;
    assert forall i :: 0 <= i < 7 ==> p[i] == "sha256:"[i] as int;
    assert forall i :: 0 <= i < 7 ==> s[..7][i] == s[i];
  }

  predicate CapOk(c: bytes) { c != [] && |c| <= MAX_CAP_LEN }

  predicate DimsOk(shape: seq<i64>) { 0 < |shape| <= MAX_DIMS && forall i :: 0 <= i < |shape| ==> shape[i] > 0 }

  // ----------------------------------------------------------------- the extent

  /** Shape and strides that reach the extent loop. */
  predicate Shaped(d: Descriptor) { DimsOk(d.shape) && |d.strides| == |d.shape| && DtypeBytes(d.dtype) > 0 }

  /** What one dimension adds to the highest element index, in exact arithmetic. */
  function Term(d: Descriptor, i: nat): int
    requires Shaped(d) && i < |d.shape|
  {
    (d.shape[i] as int - 1) * d.strides[i]
  }

  /** The guards of one iteration before the addition. */
  predicate GuardPasses(dim: i64, s: i64) { s >= 0 && (dim as int - 1 > 0 ==> s <= TWO_62 / (dim as int - 1)) }

  /** `extent` after `n` iterations, in int64 arithmetic; None once a check has failed. */
  function Running(d: Descriptor, n: nat): Option<i64>
    requires Shaped(d) && n <= |d.shape|
  {
    if n == 0 then Some(1)
    else
      match Running(d, n - 1)
      case None => None
      case Some(extent) =>
        if !GuardPasses(d.shape[n - 1], d.strides[n - 1]) then None
        else
          var extent' := Wrap64(extent as int + Wrap64(Term(d, n - 1)));
          if extent' as int > TWO_62 / DtypeBytes(d.dtype) then None else Some(extent')
  }

  /** uint64(extent) * uint64(elem). */
  function Footprint(extent: i64, elem: nat): u64 { AsU64(extent) * elem % TWO_64 }

  /** Validate, check by check. */
  function Check(d: Descriptor): Result<(), TensorError> {
    var elem := DtypeBytes(d.dtype);
    if elem == 0 then Err(ErrDtype)
    else if !DimsOk(d.shape) then Err(ErrDims)
    else if |d.strides| != |d.shape| then Err(ErrStrides)
    else
      match Running(d, |d.shape|)
      case None => Err(ErrStrides)
      case Some(extent) =>
        if d.offset % elem != 0 then Err(ErrAlign)
        else if d.offset > TWO_64 - 1 - d.size then Err(ErrStrides)
        else if d.size < Footprint(extent, elem) then Err(ErrStrides)
        else if (d.size > 0 && d.shmName == []) || |d.shmName| > MAX_SHM_NAME then Err(ErrShmName)
        else if |d.capabilities| > MAX_CAPS then Err(ErrCaps)
        else if exists i :: 0 <= i < |d.capabilities| && !CapOk(d.capabilities[i]) then Err(ErrCaps)
        else if !DigestOk(d.modelDigest) then Err(ErrDigest)
        else Ok(())
  }

  predicate Accepted(d: Descriptor): (ok: bool)
    ensures ok ==> Shaped(d)
  {
    Check(d).Ok?
  }

  /** Validate. */
  method Validate(d: Descriptor) returns (r: Result<(), TensorError>)
    ensures r == Check(d)
    ensures Width(d.dtype) == 0 ==> r == Err(ErrDtype)
  {
    hide Footprint, GuardPasses, DigestOk, Wrap64, DtypeBytes, Width;
    DtypeBytesIsWidth(d.dtype);
    if DtypeBytes(d.dtype) == 0 {
      return Err(ErrDtype);
    }
    var ndim := |d.shape|;
    if ndim == 0 || ndim > MAX_DIMS {
      return Err(ErrDims);
    }
    var i := 0;
    while i < ndim
      invariant 0 <= i <= ndim
      invariant forall j :: 0 <= j < i ==> d.shape[j] > 0
    {
      if d.shape[i] <= 0 {
        return Err(ErrDims);
      }
      i := i + 1;
    }
    if |d.strides| != ndim {
      return Err(ErrStrides);
    }
    var extent := ComputeExtent(d);
    if extent.None? {
      return Err(ErrStrides);
    }
    var elem := DtypeBytes(d.dtype);
    if d.offset % elem != 0 {
      return Err(ErrAlign);
    }
    if d.offset > TWO_64 - 1 - d.size || d.size < Footprint(extent.value, elem) {
      return Err(ErrStrides);
    }
    if d.size > 0 && d.shmName == [] {
      return Err(ErrShmName);
    }
    if |d.shmName| > MAX_SHM_NAME {
      return Err(ErrShmName);
    }
    if |d.capabilities| > MAX_CAPS {
      return Err(ErrCaps);
    }
    i := 0;
    while i < |d.capabilities|
      invariant 0 <= i <= |d.capabilities|
      invariant forall j :: 0 <= j < i ==> CapOk(d.capabilities[j])
    {
      if d.capabilities[i] == [] || |d.capabilities[i]| > MAX_CAP_LEN {
        return Err(ErrCaps);
      }
      i := i + 1;
    }
    if !DigestOk(d.modelDigest) {
      return Err(ErrDigest);
    }
    return Ok(());
  }

  /** The extent loop of Validate, with the guards in the order of the source. */
  method ComputeExtent(d: Descriptor) returns (r: Option<i64>)
    requires Shaped(d)
    ensures r == Running(d, |d.shape|)
  {
    hide Wrap64;
    var extent: i64 := 1;
    var i := 0;
    while i < |d.shape|
      invariant 0 <= i <= |d.shape|
      invariant Running(d, i) == Some(extent)
    {
      var s := d.strides[i];
      var reach := d.shape[i] as int - 1;
      if s < 0 || (reach > 0 && s > TWO_62 / reach) {
        NoRecovery(d, i + 1, |d.shape|);
        return None;
      }
      extent := Wrap64(extent as int + Wrap64(reach * s));
      if extent as int > TWO_62 / DtypeBytes(d.dtype) {
        NoRecovery(d, i + 1, |d.shape|);
        return None;
      }
      i := i + 1;
    }
    return Some(extent);
  }

  lemma {:induction false} NoRecovery(d: Descriptor, m: nat, n: nat)
    requires Shaped(d) && m <= n <= |d.shape|
    requires Running(d, m).None?
    ensures Running(d, n).None?
    decreases n - m
  {
    if m < n {
      NoRecovery(d, m + 1, n);
    }
  }

  // ------------------------------------------------------------------- lemmas

  /** 1 plus the sum of (shape[i]-1)*strides[i] over the first `n` dimensions, exactly. */
  function Extent(d: Descriptor, n: nat): int
    requires Shaped(d) && n <= |d.shape|
  {
    if n == 0 then 1 else Extent(d, n - 1) + Term(d, n - 1)
  }

  function TrueExtent(d: Descriptor): int
    requires Shaped(d)
  {
    Extent(d, |d.shape|)
  }

  lemma TermBound(dim: i64, s: i64)
    requires dim > 0 && GuardPasses(dim, s)
    ensures 0 <= (dim as int - 1) * s <= TWO_62
  {
    var m: nat := dim as int - 1;
    if m > 0 {
      MulBound(m, s, TWO_62 / m);
      assert m * (TWO_62 / m) <= TWO_62;
    }
  }

  lemma MulBound(m: nat, s: int, q: int)
    requires 0 <= s <= q
    ensures 0 <= m * s <= m * q
  {
  }

  lemma WrapAdds(a: int, b: int)
    ensures Wrap64(Wrap64(a) as int + b) == Wrap64(a + b)
    ensures -TWO_63 <= a < TWO_63 ==> Wrap64(a) == a
  {
  }

  lemma {:induction false} EarlierRunning(d: Descriptor, m: nat, n: nat)
    requires Shaped(d) && m <= n <= |d.shape| && Running(d, n).Some?
    ensures Running(d, m).Some?
  {
    if Running(d, m).None? {
      NoRecovery(d, m, n);
    }
  }

  lemma StepFacts(d: Descriptor, i: nat)
    requires Shaped(d) && i < |d.shape| && Running(d, i + 1).Some?
    ensures Running(d, i).Some? && 0 <= Term(d, i) <= TWO_62
    ensures Running(d, i + 1).value == Wrap64(Running(d, i).value as int + Term(d, i))
    ensures Running(d, i + 1).value as int <= TWO_62 / DtypeBytes(d.dtype)
  {
    TermBound(d.shape[i], d.strides[i]);
    WrapAdds(Term(d, i), 0);
  }

  /** The loop computes the exact extent modulo 2^64. */
  lemma {:induction false} RunningModulo(d: Descriptor, n: nat)
    requires Shaped(d) && n <= |d.shape| && Running(d, n).Some?
    ensures Running(d, n).value == Wrap64(Extent(d, n))
    ensures 1 <= Extent(d, n) <= 1 + n * TWO_62
  {
    hide Wrap64, Running, Term;
    if n > 0 {
      StepFacts(d, n - 1);
      RunningModulo(d, n - 1);
      WrapAdds(Extent(d, n - 1), Term(d, n - 1));
    } else {
      ExtentStart(d);
    }
  }

  lemma ExtentStart(d: Descriptor)
    requires Shaped(d)
    ensures Extent(d, 0) == 1 && Running(d, 0) == Some(Wrap64(1)) && Wrap64(1) == 1
  {
  }

  /** A running extent of exactly 2^62 about to be given a term of exactly 2^62. */
  predicate Meets(d: Descriptor, i: nat)
    requires Shaped(d) && i < |d.shape|
  {
    Running(d, i) == Some(TWO_62) && Term(d, i) == TWO_62
  }

  lemma {:induction false} ExactUpTo(d: Descriptor, n: nat)
    requires Shaped(d) && n <= |d.shape| && Running(d, n).Some?
    requires forall i :: 0 <= i < n ==> !Meets(d, i)
    ensures Running(d, n).value == Extent(d, n)
    ensures Extent(d, n) <= if n == 0 then 1 else TWO_62 / DtypeBytes(d.dtype)
  {
    hide Wrap64, Running, Term;
    if n > 0 {
      StepFacts(d, n - 1);
      ExactUpTo(d, n - 1);
      RunningModulo(d, n - 1);
      assert !Meets(d, n - 1);
      WrapAdds(Extent(d, n), 0);
    } else {
      ExtentStart(d);
    }
  }

  /**
   Exactly when int64 is enough: over an accepted descriptor no step of the
   extent loop wraps if and only if 2^62 never meets 2^62.
   */
  lemma NoWrapIff(d: Descriptor)
    requires Accepted(d)
    ensures (forall i :: 0 <= i <= |d.shape| ==> Running(d, i) == Some(Extent(d, i)))
            <==> (forall i :: 0 <= i < |d.shape| ==> !Meets(d, i))
  {
    var n := |d.shape|;
    forall i | 0 <= i <= n ensures Running(d, i).Some? {
      EarlierRunning(d, i, n);
    }
    if forall i :: 0 <= i < n ==> !Meets(d, i) {
      forall i | 0 <= i <= n ensures Running(d, i) == Some(Extent(d, i)) {
        ExactUpTo(d, i);
      }
    }
    if i :| 0 <= i < n && Meets(d, i) {
      StepFacts(d, i);
      assert Running(d, i + 1).value == Wrap64(TWO_62 + TWO_62) == -TWO_63;
      RunningModulo(d, i + 1);
    }
  }

  /** Two- and four-byte elements leave room for one more term, so they never wrap. */
  lemma {:induction false} WideNeverMeets(d: Descriptor, i: nat)
    requires Accepted(d) && DtypeBytes(d.dtype) >= 2 && i < |d.shape|
    ensures !Meets(d, i)
  {
    hide Wrap64, Term;
    EarlierRunning(d, i, |d.shape|);
    if i > 0 {
      StepFacts(d, i - 1);
      assert TWO_62 / DtypeBytes(d.dtype) < TWO_62;
    }
  }

  lemma GuardHolds(dim: i64, s: i64)
    requires dim > 0 && s >= 0 && (dim as int - 1) * s <= TWO_62
    ensures GuardPasses(dim, s)
  {
    var m: nat := dim as int - 1;
    if m > 0 && s > TWO_62 / m {
      MulBound(m, TWO_62 / m + 1, s);
    }
  }

  /** Strides whose exact footprint is at most 2^62 bytes pass every guard, with nothing lost. */
  lemma {:induction false} ExactPasses(d: Descriptor, n: nat)
    requires Shaped(d) && n <= |d.shape| && forall i :: 0 <= i < n ==> d.strides[i] >= 0
    requires Extent(d, n) <= TWO_62 / DtypeBytes(d.dtype)
    ensures Running(d, n) == Some(Extent(d, n)) && Extent(d, n) >= 1
  {
    if n > 0 {
      var i := n - 1;
      MulBound(d.shape[i] as int - 1, d.strides[i], d.strides[i]);
      assert Extent(d, n) == Extent(d, i) + Term(d, i);
      ExactPasses(d, i);
      GuardHolds(d.shape[i], d.strides[i]);
      WrapAdds(Term(d, i), 0);
      WrapAdds(Extent(d, n), 0);
    }
  }

  /** What a well-formed descriptor is, in exact arithmetic. */
  ghost predicate WellFormed(d: Descriptor) {
    && Width(d.dtype) > 0
    && 1 <= |d.shape| <= 8 && |d.strides| == |d.shape|
    && (forall i :: 0 <= i < |d.shape| ==> d.shape[i] > 0) && (forall i :: 0 <= i < |d.strides| ==> d.strides[i] >= 0)
    && Shaped(d) && Width(d.dtype) * TrueExtent(d) <= 0x4000_0000_0000_0000
    && d.offset % Width(d.dtype) == 0
    && Width(d.dtype) * TrueExtent(d) <= d.size && d.offset + d.size <= 0xFFFF_FFFF_FFFF_FFFF
    && 1 <= |d.shmName| <= 256
    && |d.capabilities| <= 32 && (forall i :: 0 <= i < |d.capabilities| ==> 1 <= |d.capabilities[i]| <= 128)
    && DigestForm(d.modelDigest)
  }

  lemma BoundByElem(x: int, elem: nat)
    requires elem in {1, 2, 4}
    ensures elem * x <= TWO_62 <==> x <= TWO_62 / elem
  {
  }

  /**
   Validate accepts exactly the well-formed descriptors, but for the one-byte
   ones where 2^62 meets 2^62.
   */
  lemma AcceptedIff(d: Descriptor)
    ensures (Accepted(d) && forall i :: 0 <= i < |d.shape| ==> !Meets(d, i)) <==> WellFormed(d)
  {
    hide Check, WellFormed, Running;
    if Accepted(d) && forall i :: 0 <= i < |d.shape| ==> !Meets(d, i) {
      AcceptedIsWellFormed(d);
    }
    if WellFormed(d) {
      WellFormedIsAccepted(d);
    }
  }

  lemma AcceptedIsWellFormed(d: Descriptor)
    requires Accepted(d) && forall i :: 0 <= i < |d.shape| ==> !Meets(d, i)
    ensures WellFormed(d)
  {
    hide Running, Extent, DigestOk, DigestForm, DtypeBytes, Width;
    DtypeBytesIsWidth(d.dtype);
    DigestOkIff(d.modelDigest);
    ExactUpTo(d, |d.shape|);
    BoundByElem(TrueExtent(d), DtypeBytes(d.dtype));
    forall i | 0 <= i < |d.strides| ensures d.strides[i] >= 0 { StrideNonNegative(d, i); }
    FootprintExact(d);
  }

  lemma WellFormedIsAccepted(d: Descriptor)
    requires WellFormed(d)
    ensures Accepted(d) && forall i :: 0 <= i < |d.shape| ==> !Meets(d, i)
  {
    hide Running, Extent, DigestOk, DigestForm, Wrap64, DtypeBytes, Width;
    DtypeBytesIsWidth(d.dtype);
    DigestOkIff(d.modelDigest);
    BoundByElem(TrueExtent(d), DtypeBytes(d.dtype));
    ExactPasses(d, |d.shape|);
    assert Footprint(TrueExtent(d), DtypeBytes(d.dtype)) == DtypeBytes(d.dtype) * TrueExtent(d);
    assert Accepted(d);
    NeverMeets(d);
  }

  lemma NeverMeets(d: Descriptor)
    requires Accepted(d) && Running(d, |d.shape|) == Some(TrueExtent(d)) && 1 <= TrueExtent(d) <= TWO_62
    requires forall i :: 0 <= i < |d.shape| ==> d.strides[i] >= 0
    ensures forall i :: 0 <= i < |d.shape| ==> !Meets(d, i)
  {
    forall i | 0 <= i < |d.shape| ensures !Meets(d, i) {
      EarlierRunning(d, i, |d.shape|);
      RunningModulo(d, i);
      ExtentGrows(d, i, |d.shape|);
      ExtentGrows(d, i + 1, |d.shape|);
      WrapAdds(Extent(d, i), 0);
    }
  }

  lemma {:induction false} ExtentGrows(d: Descriptor, m: nat, n: nat)
    requires Shaped(d) && m <= n <= |d.shape| && forall i :: 0 <= i < n ==> d.strides[i] >= 0
    ensures Extent(d, m) <= Extent(d, n)
    decreases n
  {
    if m < n {
      ExtentGrows(d, m, n - 1);
      MulBound(d.shape[n - 1] as int - 1, d.strides[n - 1], d.strides[n - 1]);
    }
  }

  /** The footprint Validate compares with Size is the exact one modulo 2^64, and exact when it fits. */
  lemma FootprintExact(d: Descriptor)
    requires Accepted(d)
    ensures var elem := DtypeBytes(d.dtype);
            && Running(d, |d.shape|).Some?
            && Footprint(Running(d, |d.shape|).value, elem) == elem * TrueExtent(d) % TWO_64
            && (TrueExtent(d) < TWO_64 <==> elem * TrueExtent(d) < TWO_64)
            && TrueExtent(d) >= 1
  {
    hide Running, Extent;
    var n, elem := |d.shape|, DtypeBytes(d.dtype);
    RunningModulo(d, n);
    if elem >= 2 {
      forall i | 0 <= i < n ensures !Meets(d, i) {
        WideNeverMeets(d, i);
      }
      ExactUpTo(d, n);
      assert elem * (TWO_62 / elem) <= TWO_62;
    } else {
      AsU64OfWrap(TrueExtent(d));
    }
  }

  lemma AsU64OfWrap(x: int)
    ensures AsU64(Wrap64(x)) == x % TWO_64
  {
  }

  // ------------------------------------------------------- elements and their bytes

  /** The element offset of an index vector. */
  function Dot(ix: seq<int>, strides: seq<i64>, n: nat): int
    requires n <= |ix| && n <= |strides|
  {
    if n == 0 then 0 else Dot(ix, strides, n - 1) + ix[n - 1] * strides[n - 1]
  }

  predicate InShape(d: Descriptor, ix: seq<int>) {
    |ix| == |d.shape| == |d.strides| && forall i :: 0 <= i < |ix| ==> 0 <= ix[i] < d.shape[i]
  }

  /** Where the element at `ix` is read: the mapping is indexed as typed elements from Offset. */
  ghost function Address(d: Descriptor, ix: seq<int>): int
    requires InShape(d, ix)
  {
    d.offset + Width(d.dtype) * Dot(ix, d.strides, |ix|)
  }

  /** All bytes of the element at `ix` are aligned and inside [Offset, Offset+Size). */
  ghost predicate ElementInside(d: Descriptor, ix: seq<int>)
    requires InShape(d, ix) && Width(d.dtype) > 0
  {
    var elem := Width(d.dtype);
    && Address(d, ix) % elem == 0
    && d.offset <= Address(d, ix) && Address(d, ix) + elem <= d.offset + d.size < TWO_64
  }

  lemma StrideNonNegative(d: Descriptor, i: nat)
    requires Accepted(d) && i < |d.shape|
    ensures d.strides[i] >= 0
  {
    EarlierRunning(d, i + 1, |d.shape|);
  }

  lemma {:induction false} DotBound(d: Descriptor, ix: seq<int>, n: nat)
    requires Accepted(d) && InShape(d, ix) && n <= |ix|
    ensures 0 <= Dot(ix, d.strides, n) <= Extent(d, n) - 1
  {
    hide Running, Check;
    if n > 0 {
      DotBound(d, ix, n - 1);
      StrideNonNegative(d, n - 1);
      MulBound(d.strides[n - 1], ix[n - 1], d.shape[n - 1] as int - 1);
    }
  }

  function LastIndex(d: Descriptor): seq<int> { seq(|d.shape|, i requires 0 <= i < |d.shape| => d.shape[i] as int - 1) }

  lemma {:induction false} LastDot(d: Descriptor, n: nat)
    requires Shaped(d) && n <= |d.shape|
    ensures Dot(LastIndex(d), d.strides, n) == Extent(d, n) - 1
  {
    if n > 0 {
      LastDot(d, n - 1);
    }
  }

  /** Below 2^64 every element of an accepted descriptor is inside its span. */
  lemma ElementsInside(d: Descriptor, ix: seq<int>)
    requires Accepted(d) && TrueExtent(d) < TWO_64 && InShape(d, ix)
    ensures Width(d.dtype) > 0 && ElementInside(d, ix)
  {
    hide Running, Extent, Dot, Footprint, DtypeBytes, Width;
    DtypeBytesIsWidth(d.dtype);
    var elem, x := DtypeBytes(d.dtype), Dot(ix, d.strides, |ix|);
    FootprintExact(d);
    DotBound(d, ix, |ix|);
    MulBound(elem, x, TrueExtent(d) - 1);
    assert elem * (TrueExtent(d) - 1) == elem * TrueExtent(d) - elem;
    AddMultiple(d.offset, elem, x);
  }

  lemma AddMultiple(a: int, m: nat, k: int)
    requires m in {1, 2, 4} && a % m == 0
    ensures (a + m * k) % m == 0
  {
    if m == 2 {
      assert (a + 2 * k) % 2 == 0;
    } else if m == 4 {
      assert (a + 4 * k) % 4 == 0;
    }
  }

  /**
   Exactly which accepted descriptors are safe to read: every in-shape element
   lies inside the claimed span if and only if the exact extent is below 2^64.
   */
  lemma AcceptedMeansInside(d: Descriptor)
    requires Accepted(d)
    ensures Width(d.dtype) > 0
    ensures (forall ix :: InShape(d, ix) ==> ElementInside(d, ix)) <==> TrueExtent(d) < TWO_64
  {
    hide Running, Extent, Dot, Check, LastIndex, Width;
    DtypeBytesIsWidth(d.dtype);
    if TrueExtent(d) < TWO_64 {
      forall ix | InShape(d, ix) ensures ElementInside(d, ix) {
        ElementsInside(d, ix);
      }
    } else {
      LastEscapes(d);
    }
  }

  lemma LastEscapes(d: Descriptor)
    requires Accepted(d) && TrueExtent(d) >= TWO_64
    ensures Width(d.dtype) > 0 && InShape(d, LastIndex(d)) && !ElementInside(d, LastIndex(d))
  {
    hide Running, Extent, Dot, Width;
    DtypeBytesIsWidth(d.dtype);
    LastDot(d, |d.shape|);
    FootprintExact(d);
    var elem := DtypeBytes(d.dtype);
    assert elem * (TrueExtent(d) - 1) == elem * TrueExtent(d) - elem;
  }

  /** Accepted descriptors of two- and four-byte dtypes are always safe. */
  lemma WideAlwaysInside(d: Descriptor, ix: seq<int>)
    requires Accepted(d) && Width(d.dtype) >= 2 && InShape(d, ix)
    ensures ElementInside(d, ix)
  {
    hide Running, Extent, Check, Width;
    DtypeBytesIsWidth(d.dtype);
    forall i | 0 <= i < |d.shape| ensures !Meets(d, i) {
      WideNeverMeets(d, i);
    }
    NoMeetIsSafe(d);
    ElementsInside(d, ix);
  }

  /** ... and so is any descriptor whose extent loop never has 2^62 meet 2^62. */
  lemma NoMeetIsSafe(d: Descriptor)
    requires Accepted(d) && forall i :: 0 <= i < |d.shape| ==> !Meets(d, i)
    ensures TrueExtent(d) < TWO_64
  {
    ExactUpTo(d, |d.shape|);
  }

  /** The guards are tight by one for one-byte dtypes: this descriptor passes with footprint 0. */
  function WrappingDescriptor(): Descriptor {
    Descriptor(3, [2, 2, 2, 2], [TWO_62 - 1, TWO_62, TWO_62, TWO_62], [], 0, 0, [], [])
  }

  lemma WrappingRuns()
    ensures var d := WrappingDescriptor(); Shaped(d) && Running(d, 4) == Some(0)
  {
    hide Running;
    var d := WrappingDescriptor();
    RunningStart(d);
    RunningNext(d, 0, 1, TWO_62);
    RunningNext(d, 1, TWO_62, -TWO_63);
    RunningNext(d, 2, -TWO_63, -TWO_62);
    RunningNext(d, 3, -TWO_62, 0);
  }

  lemma RunningStart(d: Descriptor)
    requires Shaped(d)
    ensures Running(d, 0) == Some(1)
  {
  }

  lemma RunningNext(d: Descriptor, n: nat, extent: i64, next: i64)
    requires Shaped(d) && n < |d.shape| && Running(d, n) == Some(extent) && GuardPasses(d.shape[n], d.strides[n])
    requires Wrap64(extent as int + Wrap64(Term(d, n))) == next && next as int <= TWO_62 / DtypeBytes(d.dtype)
    ensures Running(d, n + 1) == Some(next)
  {
    hide Wrap64, Term, GuardPasses;
  }

  lemma WrappingExtent()
    ensures var d := WrappingDescriptor(); Shaped(d) && Extent(d, 4) == TWO_64
  {
    assert Extent(WrappingDescriptor(), 2) == TWO_63;
  }

  lemma WrappingDescriptorAccepted()
    ensures Accepted(WrappingDescriptor()) && TrueExtent(WrappingDescriptor()) == TWO_64
    ensures exists ix :: InShape(WrappingDescriptor(), ix) && !ElementInside(WrappingDescriptor(), ix)
  {
    hide Running, Extent, ElementInside, InShape;
    WrappingRuns();
    WrappingExtent();
    LastEscapes(WrappingDescriptor());
  }
}
