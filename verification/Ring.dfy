/**
 The shared-memory ring buffer (transport/shm/shm.go): a flat byte array cut
 into slots, with 64-bit head and tail counters that only grow.
 */
module Ring {
  import opened Bytes
  import opened Frames

  const DEFAULT_BUFFER_SIZE := 64 * 1024
  const DEFAULT_SLOT_COUNT := 256
  const MAX_SLOT_SIZE := 8192

  datatype WriteError = ErrTooLarge | ErrFull
  datatype ReadError = ErrInvalidLength(len: nat) | ErrTooShort(len: nat)

  type WriteResult = Result<(), WriteError>
  /** Ok(None) is Read's nil frame on an empty ring. */
  type ReadResult = Result<Option<Frame>, ReadError>

  // ------------------------------------------------------------ slot geometry

  /** Where slot `k % slots` starts. */
  function Start(k: nat, slots: nat, slotSize: nat): nat
    requires slots > 0
  {
    k % slots * slotSize
  }

  lemma StartInBounds(k: nat, slots: nat, slotSize: nat)
    requires slots > 0
    ensures Start(k, slots, slotSize) + slotSize <= slots * slotSize
  {
    MulMonotone(k % slots + 1, slots, slotSize);
  }

  lemma MulMonotone(a: nat, b: nat, c: nat)
    requires a <= b
    ensures a * c <= b * c
  {
  }

  /** Counters less than `slots` apart use different slots, which do not overlap. */
  lemma SlotsApart(j: nat, k: nat, slots: nat, slotSize: nat)
    requires slots > 0 && j < k < j + slots
    ensures var a, b := Start(j, slots, slotSize), Start(k, slots, slotSize);
            a + slotSize <= b || b + slotSize <= a
  {
    var x, y := j % slots, k % slots;
    SameSlot(j, k, slots);
    if x < y {
      MulMonotone(x + 1, y, slotSize);
    } else {
      MulMonotone(y + 1, x, slotSize);
    }
  }

  lemma SameSlot(j: nat, k: nat, slots: nat)
    requires slots > 0 && j < k < j + slots
    ensures j % slots != k % slots
  {
    var d := k / slots - j / slots;
    assert k - j == slots * d + (k % slots - j % slots);
    if k % slots == j % slots {
      if d >= 1 {
        MulAtLeast(slots, d);
      } else {
        MulMonotone(0, -d, slots);
      }
    }
  }

  function Slot(mem: seq<byte>, k: nat, slots: nat, slotSize: nat): (s: seq<byte>)
    requires slots > 0 && |mem| == slots * slotSize
    ensures |s| == slotSize
  {
    StartInBounds(k, slots, slotSize);
    mem[Start(k, slots, slotSize)..Start(k, slots, slotSize) + slotSize]
  }

  function SlotLength(slot: seq<byte>): nat
    requires |slot| >= 2
  {
    (slot[0] as int) * 0x100 + slot[1]
  }

  predicate WellFormedSlot(slot: seq<byte>) { |slot| >= 2 && SlotLength(slot) <= |slot| - 2 }

  function Record(slot: seq<byte>): seq<byte>
    requires WellFormedSlot(slot)
  {
    slot[2..2 + SlotLength(slot)]
  }

  /** Every pending slot holds a record that fits it. */
  ghost predicate AllWellFormed(mem: seq<byte>, tail: nat, head: nat, slots: nat, slotSize: nat)
    requires slots > 0 && |mem| == slots * slotSize
  {
    forall k :: tail <= k < head ==> WellFormedSlot(Slot(mem, k, slots, slotSize))
  }

  /** The pending records, oldest first. */
  ghost function Pending(mem: seq<byte>, tail: nat, head: nat, slots: nat, slotSize: nat): (r: seq<seq<byte>>)
    requires slots > 0 && |mem| == slots * slotSize && tail <= head
    requires AllWellFormed(mem, tail, head, slots, slotSize)
    ensures |r| == head - tail
  {
    seq(head - tail, i requires 0 <= i < head - tail => Record(Slot(mem, tail + i, slots, slotSize)))
  }

  /** The frame Read builds from a record; the lengths inside it are only used when they fit. */
  function ParseRecord(data: seq<byte>): Result<Frame, ReadError> {
    if |data| < FIXED_SIZE then Err(ErrTooShort(|data|))
    else
      var headerLen, payloadLen := FromBE(data[8..12]), FromBE(data[12..16]);
      var hasHeader := headerLen > 0 && FIXED_SIZE + headerLen <= |data|;
      var header := if hasHeader then data[FIXED_SIZE..FIXED_SIZE + headerLen] else [];
      var pos := FIXED_SIZE + |header|;
      var payload := if payloadLen > 0 && pos + payloadLen <= |data| then data[pos..pos + payloadLen] else [];
      Ok(Frame(FromBE2(data[4..6]), data[6], data[7], header, payload, []))
  }

  function FromBE2(bs: seq<byte>): u16
    requires |bs| == 2
  {
    PowersOf256();
    FromBEBound(bs);
    FromBE(bs)
  }

  // ------------------------------------------------------------ the queue it is

  /** The ring as a bounded queue of records. */
  datatype Queue = Queue(records: seq<seq<byte>>, slots: nat, slotSize: nat)

  function WriteStep(q: Queue, f: Frame): (Queue, WriteResult) {
    if |Signable(f)| > q.slotSize - 2 then (q, Err(ErrTooLarge))
    else if |q.records| >= q.slots then (q, Err(ErrFull))
    else (q.(records := q.records + [Signable(f)]), Ok(()))
  }

  function ReadStep(q: Queue): (Queue, ReadResult) {
    if |q.records| == 0 then (q, Ok(None))
    else
      (q.(records := q.records[1..]),
       match ParseRecord(q.records[0])
       case Ok(f) => Ok(Some(f))
       case Err(e) => Err(e))
  }

  /** A record as it sits in its slot. */
  function Framed(data: seq<byte>): (r: seq<byte>)
    ensures |r| == 2 + |data|
  {
    [|data| / 0x100 % 256, |data| % 256] + data
  }

  lemma FramedRecord(data: seq<byte>, rest: seq<byte>)
    requires |data| < 0x1_0000
    ensures WellFormedSlot(Framed(data) + rest) && Record(Framed(data) + rest) == data
  {
    var slot := Framed(data) + rest;
    assert SlotLength(slot) == |data|;
  }

  /** Memory after a record is stored at `at`: two length bytes, then the data. */
  function Stored(mem: seq<byte>, at: nat, data: seq<byte>): (r: seq<byte>)
    requires at + 2 + |data| <= |mem|
    ensures |r| == |mem|
  {
    mem[..at] + Framed(data) + mem[at + 2 + |data|..]
  }

  /** The configured number of slots, or the default. */
  function SlotCount(slotCount: int): (n: nat)
    ensures n > 0 && (slotCount < TWO_63 ==> n < TWO_63)
  {
    if slotCount <= 0 then DEFAULT_SLOT_COUNT else slotCount
  }

  /** The share of the buffer each slot gets, capped. */
  function SlotSize(bufferSize: int, slotCount: int): (n: nat)
    ensures n <= MAX_SLOT_SIZE
  {
    var size := if bufferSize <= 0 then DEFAULT_BUFFER_SIZE else bufferSize;
    var per := Share(size, SlotCount(slotCount));
    if per > MAX_SLOT_SIZE then MAX_SLOT_SIZE else per
  }

  /** An equal share. */
  function Share(size: nat, count: nat): (per: nat)
    requires count > 0
    ensures per * count <= size < (per + 1) * count
  {
    var per := size / count;
    assert size == per * count + size % count;
    assert (per + 1) * count == per * count + count;
    per
  }

  /** The slots share the configured buffer as evenly as the cap on slot size allows. */
  lemma SlotSizeIsShare(bufferSize: int, slotCount: int)
    ensures var size, count := if bufferSize <= 0 then 65536 else bufferSize, if slotCount <= 0 then 256 else slotCount;
            var n := SlotSize(bufferSize, slotCount);
            && SlotCount(slotCount) == count
            && n <= 8192 && n * count <= size && (n < 8192 ==> size < (n + 1) * count)
  {
    hide Share;
    var size := if bufferSize <= 0 then DEFAULT_BUFFER_SIZE else bufferSize;
    var count := SlotCount(slotCount);
    MulMonotone(SlotSize(bufferSize, slotCount), Share(size, count), count);
  }

  class RingBuffer {
    const buf: array<byte>
    const slots: nat
    const slotSize: nat
    var head: u64
    var tail: u64

    /** `slots` is a Go int. */
    ghost predicate Geometry() { 0 < slots < TWO_63 && buf.Length == slots * slotSize && slotSize <= MAX_SLOT_SIZE }

    /** Geometry and counters, whatever the slots hold. */
    ghost predicate Shape()
      reads this
    {
      && Geometry()
      && tail <= head <= tail + slots
      && (tail < head ==> slotSize >= 2)
    }

    /** The head counter has wrapped past the tail: records are pending, but Read compares the counters as they are. */
    ghost predicate Wedged()
      reads this
    {
      Geometry() && head < tail && head + TWO_64 - tail <= slots
    }

    ghost predicate Valid()
      reads this, buf
    {
      && Shape()
      && AllWellFormed(buf[..], tail, head, slots, slotSize)
    }

    /** The pending records, oldest first. */
    ghost function Contents(): Queue
      requires Valid()
      reads this, buf
    {
      Queue(Pending(buf[..], tail, head, slots, slotSize), slots, slotSize)
    }

    /** NewRingBuffer. */
    constructor (bufferSize: i64, slotCount: i64)
      ensures Valid() && fresh(buf) && head == 0 && tail == 0
      ensures Contents() == Queue([], SlotCount(slotCount), SlotSize(bufferSize, slotCount))
    {
      hide AllWellFormed, Pending, SlotCount, SlotSize;
      var count, per := SlotCount(slotCount), SlotSize(bufferSize, slotCount);
      NothingPending(seq(count * per, _ => 0), count, per);
      buf := new byte[count * per](_ => 0);
      slots, slotSize := count, per;
      head, tail := 0, 0;
      new;
      assert buf[..] == seq(count * per, _ => 0);
    }

    /** Len. */
    method Len() returns (n: nat)
      requires Valid() || Wedged()
      ensures Valid() ==> n == |Contents().records|
      ensures Wedged() ==> n == head + TWO_64 - tail
    {
      n := U64Sub(head, tail);
    }

    /** The two length bytes and the copy of Write. */
    method Store(offset: nat, data: seq<byte>)
      requires offset + 2 + |data| <= buf.Length && |data| < 0x1_0000
      modifies buf
      ensures buf[..] == Stored(old(buf[..]), offset, data)
    {
      buf[offset] := |data| / 0x100 % 256;
      buf[offset + 1] := |data| % 256;
      forall i | 0 <= i < |data| {
        buf[offset + 2 + i] := data[i];
      }
    }

    /**
     Write.  Below the last value of the head counter it is an append to the
     queue; the write that wraps the counter leaves the ring wedged.
     */
    method Write(f: Frame) returns (r: WriteResult)
      requires Valid() || Wedged()
      modifies this`head, buf
      ensures old(Valid()) ==> r == WriteStep(old(Contents()), f).1
      ensures old(Valid()) && (old(head) < TWO_64 - 1 || r.Err?) ==>
                Valid() && Contents() == WriteStep(old(Contents()), f).0
      ensures old(Valid()) && old(head) == TWO_64 - 1 && r.Ok? ==> Wedged()
      ensures old(Wedged()) ==> Wedged()
      ensures head == if r.Ok? then U64Next(old(head)) else old(head)
    {
      hide Signable, Start, Pending, AllWellFormed, Stored, U64Sub, U64Next;
      var data := SignableBytes(f);
      if |data| > slotSize - 2 {
        return Err(ErrTooLarge);
      }
      if U64Sub(head, tail) >= slots {
        return Err(ErrFull);
      }
      var offset := Start(head, slots, slotSize);
      StartInBounds(head, slots, slotSize);
      if tail <= head {
        StoreAppends(buf[..], tail, head, slots, slotSize, data);
      }
      Store(offset, data);
      head := U64Next(head);
      r := Ok(());
    }

    /** The length check and the copy of Read. */
    method Load(offset: nat) returns (r: Result<seq<byte>, ReadError>)
      requires offset + slotSize <= buf.Length && slotSize >= 2
      ensures r == LoadSlot(buf[offset..offset + slotSize])
    {
      var slot := buf[offset..offset + slotSize];
      var length := SlotLength(slot);
      if length > slotSize - 2 {
        return Err(ErrInvalidLength(length));
      }
      return Ok(slot[2..2 + length]);
    }

    /** Read. */
    method Read() returns (r: ReadResult)
      requires Shape() || Wedged()
      modifies this`tail
      ensures old(Shape()) ==> Shape()
      ensures old(Wedged()) ==> Wedged() && r == Ok(None) && tail == old(tail)
      ensures old(Valid()) ==> Valid() && (Contents(), r) == ReadStep(old(Contents()))
      ensures old(Valid()) ==> !(r.Err? && r.error.ErrInvalidLength?)
    {
      hide Start, ParseRecord, Pending, AllWellFormed, LoadSlot, Slot;
      if tail >= head {
        return Ok(None);
      }
      var offset := Start(tail, slots, slotSize);
      StartInBounds(tail, slots, slotSize);
      if AllWellFormed(buf[..], tail, head, slots, slotSize) {
        OldestRecord(buf[..], tail, head, slots, slotSize);
      }
      SlotIsWindow(buf[..], tail, slots, slotSize);
      assert buf[..][offset..offset + slotSize] == buf[offset..offset + slotSize];
      var data := Load(offset);
      if data.Err? {
        return Err(data.error);
      }
      tail := tail + 1;
      ParseRecordErrors(data.value);
      match ParseRecord(data.value)
      case Ok(f) => return Ok(Some(f));
      case Err(e) => return Err(e);
    }
  }

  /** uint64 subtraction. */
  function U64Sub(a: u64, b: u64): (r: u64)
    ensures r == a - b + if a < b then TWO_64 else 0
  {
    (a - b) % TWO_64
  }

  /** atomic.Uint64.Add(1). */
  function U64Next(a: u64): (r: u64)
    ensures r == if a == TWO_64 - 1 then 0 else a + 1
  {
    (a + 1) % TWO_64
  }

  function LoadSlot(slot: seq<byte>): Result<seq<byte>, ReadError>
    requires |slot| >= 2
  {
    if WellFormedSlot(slot) then Ok(Record(slot)) else Err(ErrInvalidLength(SlotLength(slot)))
  }

  lemma SlotIsWindow(mem: seq<byte>, k: nat, slots: nat, slotSize: nat)
    requires slots > 0 && |mem| == slots * slotSize && Start(k, slots, slotSize) + slotSize <= |mem|
    ensures Slot(mem, k, slots, slotSize) == mem[Start(k, slots, slotSize)..Start(k, slots, slotSize) + slotSize]
  {
  }

  lemma ParseRecordErrors(data: seq<byte>)
    ensures ParseRecord(data).Err? ==> ParseRecord(data).error.ErrTooShort?
  {
  }

  lemma NothingPending(mem: seq<byte>, slots: nat, slotSize: nat)
    requires slots > 0 && |mem| == slots * slotSize
    ensures AllWellFormed(mem, 0, 0, slots, slotSize) && Pending(mem, 0, 0, slots, slotSize) == []
  {
  }

  lemma OldestRecord(mem: seq<byte>, tail: nat, head: nat, slots: nat, slotSize: nat)
    requires slots > 0 && |mem| == slots * slotSize && tail < head
    requires AllWellFormed(mem, tail, head, slots, slotSize)
    requires slotSize >= 2
    ensures AllWellFormed(mem, tail + 1, head, slots, slotSize)
    ensures var q := Pending(mem, tail, head, slots, slotSize);
            && LoadSlot(Slot(mem, tail, slots, slotSize)) == Ok(q[0])
            && q[1..] == Pending(mem, tail + 1, head, slots, slotSize)
  {
    hide Slot, WellFormedSlot;
  }

  /** A slot just written holds exactly the record. */
  lemma WrittenSlot(mem: seq<byte>, k: nat, slots: nat, slotSize: nat, data: seq<byte>)
    requires slots > 0 && |mem| == slots * slotSize && 2 + |data| <= slotSize <= MAX_SLOT_SIZE
    requires Start(k, slots, slotSize) + slotSize <= |mem|
    ensures var slot := Slot(Stored(mem, Start(k, slots, slotSize), data), k, slots, slotSize);
            WellFormedSlot(slot) && Record(slot) == data
  {
    hide Start, Framed, Record, WellFormedSlot;
    var at := Start(k, slots, slotSize);
    FramedRecord(data, mem[at + 2 + |data|..at + slotSize]);
    assert Slot(Stored(mem, at, data), k, slots, slotSize) == Framed(data) + mem[at + 2 + |data|..at + slotSize];
  }

  /** A write does not disturb another pending slot. */
  lemma OtherSlot(mem: seq<byte>, j: nat, k: nat, slots: nat, slotSize: nat, data: seq<byte>)
    requires slots > 0 && |mem| == slots * slotSize && 2 + |data| <= slotSize
    requires j < k < j + slots && Start(k, slots, slotSize) + slotSize <= |mem|
    ensures Slot(Stored(mem, Start(k, slots, slotSize), data), j, slots, slotSize) == Slot(mem, j, slots, slotSize)
  {
    hide Start;
    SlotsApart(j, k, slots, slotSize);
    StartInBounds(j, slots, slotSize);
  }

  /** In terms of the pending records, a write appends. */
  lemma StoreAppends(mem: seq<byte>, tail: nat, head: nat, slots: nat, slotSize: nat, data: seq<byte>)
    requires slots > 0 && |mem| == slots * slotSize && tail <= head < tail + slots
    requires 2 + |data| <= slotSize <= MAX_SLOT_SIZE && Start(head, slots, slotSize) + slotSize <= |mem|
    requires AllWellFormed(mem, tail, head, slots, slotSize)
    ensures var mem' := Stored(mem, Start(head, slots, slotSize), data);
            && AllWellFormed(mem', tail, head + 1, slots, slotSize)
            && Pending(mem', tail, head + 1, slots, slotSize) == Pending(mem, tail, head, slots, slotSize) + [data]
  {
    hide Slot, WellFormedSlot, Stored, Start;
    var mem' := Stored(mem, Start(head, slots, slotSize), data);
    WrittenSlot(mem, head, slots, slotSize, data);
    forall k | tail <= k < head ensures Slot(mem', k, slots, slotSize) == Slot(mem, k, slots, slotSize) {
      OtherSlot(mem, k, head, slots, slotSize, data);
    }
  }

  // ------------------------------------------------------------------- lemmas

  /** Read gives back the frame that was written, without its MAC, exactly when it was within MaxFrameSize. */
  lemma RecordRoundTrip(f: Frame)
    ensures ParseRecord(Signable(f)) == if Fits(f) then Ok(f.(mac := [])) else Err(ErrTooShort(0))
  {
    hide Preamble, FromBE;
    if Fits(f) {
      var s := Signable(f);
      PreambleFields(f.version, f.msgType, f.flags, |f.header|, |f.payload|);
      var p := PreambleOf(f);
      assert s[4..6] == p[4..6] && s[8..12] == p[8..12] && s[12..16] == p[12..16];
      assert s[FIXED_SIZE..FIXED_SIZE + |f.header|] == f.header;
      assert s[FIXED_SIZE + |f.header|..FIXED_SIZE + |f.header| + |f.payload|] == f.payload;
    }
  }

  /** A bounded FIFO of frames: what the ring is meant to be. */
  datatype Op = WriteOp(frame: Frame) | ReadOp
  datatype Outcome = Wrote(w: WriteResult) | Got(r: ReadResult)

  function RingStep(q: Queue, op: Op): (Queue, Outcome) {
    match op
    case WriteOp(f) => var (q', w) := WriteStep(q, f); (q', Wrote(w))
    case ReadOp => var (q', r) := ReadStep(q); (q', Got(r))
  }

  function RingRun(q: Queue, ops: seq<Op>): (r: (Queue, seq<Outcome>))
    ensures |r.1| == |ops|
    decreases |ops|
  {
    if |ops| == 0 then (q, [])
    else
      var (q1, o) := RingStep(q, ops[0]);
      var (q2, os) := RingRun(q1, ops[1..]);
      (q2, [o] + os)
  }

  lemma {:induction false} RingRunNext(q: Queue, ops: seq<Op>, op: Op)
    ensures var (q1, os) := RingRun(q, ops);
            var (q2, o) := RingStep(q1, op);
            RingRun(q, ops + [op]) == (q2, os + [o])
    decreases |ops|
  {
    hide RingStep;
    if |ops| == 0 {
      assert ops + [op] == [op] && [op][1..] == [];
      var o := RingStep(q, op).1;
      assert [o] + [] == RingRun(q, ops).1 + [o];
    } else {
      var (q1, o1) := RingStep(q, ops[0]);
      var (q2, os) := RingRun(q1, ops[1..]);
      RingRunNext(q1, ops[1..], op);
      assert (ops + [op])[1..] == ops[1..] + [op];
      assert [o1] + (os + [RingStep(q2, op).1]) == [o1] + os + [RingStep(q2, op).1];
    }
  }

  /** A successful Write, which moves the head counter. */
  predicate Moves(o: Outcome) { o.Wrote? && o.w.Ok? }

  /** How far the head counter moved. */
  function Writes(os: seq<Outcome>): nat {
    if |os| == 0 then 0 else Writes(os[..|os| - 1]) + if Moves(os[|os| - 1]) then 1 else 0
  }

  lemma WritesNext(os: seq<Outcome>, o: Outcome)
    ensures Writes(os + [o]) == Writes(os) + if Moves(o) then 1 else 0
  {
    assert (os + [o])[..|os|] == os;
  }

  lemma {:induction false} WritesGrow(q: Queue, ops: seq<Op>, i: nat)
    requires i <= |ops|
    ensures Writes(RingRun(q, ops[..i]).1) <= Writes(RingRun(q, ops).1)
    decreases |ops| - i
  {
    hide RingStep, RingRun, Writes;
    if i < |ops| {
      var os := RingRun(q, ops[..i]).1;
      RingRunNext(q, ops[..i], ops[i]);
      assert ops[..i + 1] == ops[..i] + [ops[i]];
      WritesNext(os, RingStep(RingRun(q, ops[..i]).0, ops[i]).1);
      WritesGrow(q, ops, i + 1);
    } else {
      assert ops[..i] == ops;
    }
  }

  /** The ring, started at `head` with contents `q`, has followed the queue through `ops`. */
  ghost predicate Follows(ring: RingBuffer, head: u64, q: Queue, ops: seq<Op>, outcomes: seq<Outcome>)
    reads ring, ring.buf
  {
    ring.Valid() && ring.head == head + Writes(outcomes) && (ring.Contents(), outcomes) == RingRun(q, ops)
  }

  /** One call, whichever it is. */
  method Call(ring: RingBuffer, op: Op) returns (o: Outcome)
    requires ring.Valid() || ring.Wedged()
    modifies ring, ring.buf
    ensures old(ring.Valid()) ==>
              && o == RingStep(old(ring.Contents()), op).1
              && (var head := old(ring.head) + if Moves(o) then 1 else 0;
                  if head < TWO_64
                  then ring.Valid() && ring.head == head && ring.Contents() == RingStep(old(ring.Contents()), op).0
                  else ring.Wedged())
    ensures old(ring.Wedged()) ==> ring.Wedged() && (op.ReadOp? ==> o == Got(Ok(None)))
  {
    hide AllWellFormed, Pending, WriteStep, ReadStep;
    match op {
      case WriteOp(f) =>
        var w := ring.Write(f);
        o := Wrote(w);
      case ReadOp =>
        var r := ring.Read();
        o := Got(r);
    }
  }

  /**
   Any sequence of calls on one ring.  It is a run of the queue exactly as long as
   the accepted writes do not wrap the head counter.  If they do, the ring ends
   wedged, and on a wedged ring no Read ever returns a frame.
   */
  method Perform(ring: RingBuffer, ops: seq<Op>) returns (outcomes: seq<Outcome>)
    requires ring.Valid() || ring.Wedged()
    modifies ring, ring.buf
    ensures |outcomes| == |ops|
    ensures old(ring.Valid()) ==>
              if old(ring.head) + Writes(RingRun(old(ring.Contents()), ops).1) < TWO_64
              then ring.Valid() && (ring.Contents(), outcomes) == RingRun(old(ring.Contents()), ops)
              else ring.Wedged()
    ensures old(ring.Wedged()) ==>
              ring.Wedged() && forall i :: 0 <= i < |ops| && ops[i].ReadOp? ==> outcomes[i] == Got(Ok(None))
  {
    hide AllWellFormed, Pending, RingStep, RingRun, Writes;
    outcomes := [];
    ghost var wedged, head := ring.Wedged(), ring.head;
    ghost var q := if ring.Valid() then ring.Contents() else Queue([], 0, 0);
    RunNothing(q);
    var i := 0;
    while i < |ops|
      invariant 0 <= i <= |ops| && |outcomes| == i
      invariant ring.Wedged() || (!wedged && Follows(ring, head, q, ops[..i], outcomes))
      invariant ring.Wedged() && !wedged ==> head + Writes(RingRun(q, ops).1) >= TWO_64
      invariant wedged ==> ring.Wedged() && forall k :: 0 <= k < i && ops[k].ReadOp? ==> outcomes[k] == Got(Ok(None))
    {
      RingRunNext(q, ops[..i], ops[i]);
      assert ops[..i + 1] == ops[..i] + [ops[i]];
      WritesGrow(q, ops, i + 1);
      WritesNext(outcomes, RingStep(RingRun(q, ops[..i]).0, ops[i]).1);
      var o := Call(ring, ops[i]);
      outcomes := outcomes + [o];
      i := i + 1;
    }
    assert ops[..i] == ops;
  }

  /**
   The wrap does happen: write and read the same frame 2^64 - 1 times on a new
   ring, and the next Write reports success, Len reports one frame, and Read
   finds none.
   */
  method WrapLosesFrames(f: Frame) returns (w: WriteResult, n: nat, r: ReadResult)
    requires Fits(f) && FIXED_SIZE + |f.header| + |f.payload| <= 254
    ensures w == Ok(()) && n == 1 && r == Ok(None)
  {
    hide AllWellFormed, Pending, ParseRecord, Preamble;
    var ring := new RingBuffer(0, 0);
    var i := 0;
    while i < TWO_64 - 1
      invariant 0 <= i <= TWO_64 - 1 && fresh(ring) && fresh(ring.buf)
      invariant ring.Valid() && ring.Contents() == Queue([], 256, 256) && ring.head == i
    {
      var ok := ring.Write(f);
      var got := ring.Read();
      i := i + 1;
    }
    assert |ring.Contents().records| == 0;
    w := ring.Write(f);
    n := ring.Len();
    r := ring.Read();
  }

  lemma RunNothing(q: Queue)
    ensures RingRun(q, []) == (q, []) && Writes([]) == 0
  {
  }

  /** The specification: frames in, the same frames out without MAC, no read errors. */
  function FifoStep(pending: seq<Frame>, slots: nat, slotSize: nat, op: Op): (seq<Frame>, Outcome) {
    match op
    case WriteOp(f) =>
      if FIXED_SIZE + |f.header| + |f.payload| > slotSize - 2 then (pending, Wrote(Err(ErrTooLarge)))
      else if |pending| >= slots then (pending, Wrote(Err(ErrFull)))
      else (pending + [f], Wrote(Ok(())))
    case ReadOp =>
      if |pending| == 0 then (pending, Got(Ok(None)))
      else (pending[1..], Got(Ok(Some(pending[0].(mac := [])))))
  }

  function FifoRun(pending: seq<Frame>, slots: nat, slotSize: nat, ops: seq<Op>): (r: (seq<Frame>, seq<Outcome>))
    ensures |r.1| == |ops|
    decreases |ops|
  {
    if |ops| == 0 then (pending, [])
    else
      var (p1, o) := FifoStep(pending, slots, slotSize, ops[0]);
      var (p2, os) := FifoRun(p1, slots, slotSize, ops[1..]);
      (p2, [o] + os)
  }

  predicate WritesFit(ops: seq<Op>) { forall op :: op in ops && op.WriteOp? ==> Fits(op.frame) }

  function Records(fs: seq<Frame>): seq<seq<byte>> { seq(|fs|, i requires 0 <= i < |fs| => Signable(fs[i])) }

  lemma StepRefines(pending: seq<Frame>, slots: nat, slotSize: nat, op: Op)
    requires forall f :: f in pending ==> Fits(f)
    requires op.WriteOp? ==> Fits(op.frame)
    ensures var (p, o) := FifoStep(pending, slots, slotSize, op);
            && RingStep(Queue(Records(pending), slots, slotSize), op) == (Queue(Records(p), slots, slotSize), o)
            && forall f :: f in p ==> Fits(f)
  {
    hide ParseRecord, Preamble;
    match op
    case WriteOp(f) =>
      assert Records(pending + [f]) == Records(pending) + [Signable(f)];
    case ReadOp =>
      if |pending| > 0 {
        RecordRoundTrip(pending[0]);
        assert Records(pending[1..]) == Records(pending)[1..];
      }
  }

  /** Every run of Write and Read calls has the outcomes of the bounded FIFO. */
  lemma {:induction false} RingRefinesFifo(pending: seq<Frame>, slots: nat, slotSize: nat, ops: seq<Op>)
    requires forall f :: f in pending ==> Fits(f)
    requires WritesFit(ops)
    ensures var (p, os) := FifoRun(pending, slots, slotSize, ops);
            RingRun(Queue(Records(pending), slots, slotSize), ops) == (Queue(Records(p), slots, slotSize), os)
    decreases |ops|
  {
    hide RingStep, FifoStep;
    if |ops| > 0 {
      StepRefines(pending, slots, slotSize, ops[0]);
      var p1 := FifoStep(pending, slots, slotSize, ops[0]).0;
      RingRefinesFifo(p1, slots, slotSize, ops[1..]);
    }
  }

  /** The frames whose Write succeeded, and those Read returned, over a run. */
  function Accepted(ops: seq<Op>, os: seq<Outcome>): seq<Frame>
    requires |ops| == |os|
  {
    if |ops| == 0 then []
    else
      (if ops[0].WriteOp? && os[0] == Wrote(Ok(())) then [ops[0].frame.(mac := [])] else [])
      + Accepted(ops[1..], os[1..])
  }

  function Delivered(os: seq<Outcome>): seq<Frame> {
    if |os| == 0 then []
    else (if os[0].Got? && os[0].r.Ok? && os[0].r.value.Some? then [os[0].r.value.value] else []) + Delivered(os[1..])
  }

  function Stripped(fs: seq<Frame>): seq<Frame> { seq(|fs|, i requires 0 <= i < |fs| => fs[i].(mac := [])) }

  /** Over every run nothing is lost, duplicated or reordered: accepted = delivered + pending. */
  lemma {:induction false} FifoConserves(pending: seq<Frame>, slots: nat, slotSize: nat, ops: seq<Op>)
    requires |pending| <= slots
    ensures var (p, os) := FifoRun(pending, slots, slotSize, ops);
            && Stripped(pending) + Accepted(ops, os) == Delivered(os) + Stripped(p)
            && |p| <= slots
            && forall i :: 0 <= i < |os| && os[i].Got? ==> os[i].r.Ok?
    decreases |ops|
  {
    hide FifoStep, Accepted, Delivered, Stripped;
    if |ops| > 0 {
      var (p1, o) := FifoStep(pending, slots, slotSize, ops[0]);
      var (p2, os) := FifoRun(p1, slots, slotSize, ops[1..]);
      FifoStepConserves(pending, slots, slotSize, ops[0]);
      FifoConserves(p1, slots, slotSize, ops[1..]);
      FirstOutcome(ops, o, os);
      var a, d := Accepted([ops[0]], [o]), Delivered([o]);
      var acc, del := Accepted(ops[1..], os), Delivered(os);
      assert Stripped(pending) + (a + acc) == (Stripped(pending) + a) + acc;
      assert (d + Stripped(p1)) + acc == d + (Stripped(p1) + acc);
      assert d + (del + Stripped(p2)) == (d + del) + Stripped(p2);
    } else {
      NoOutcome(pending);
    }
  }

  lemma NoOutcome(pending: seq<Frame>)
    ensures Stripped(pending) + Accepted([], []) == Delivered([]) + Stripped(pending)
  {
  }

  lemma FirstOutcome(ops: seq<Op>, o: Outcome, os: seq<Outcome>)
    requires |ops| == 1 + |os|
    ensures Accepted(ops, [o] + os) == Accepted([ops[0]], [o]) + Accepted(ops[1..], os)
    ensures Delivered([o] + os) == Delivered([o]) + Delivered(os)
  {
    assert ([o] + os)[1..] == os && [ops[0]][1..] == [] && [o][1..] == [];
  }

  lemma FifoStepConserves(pending: seq<Frame>, slots: nat, slotSize: nat, op: Op)
    requires |pending| <= slots
    ensures var (p, o) := FifoStep(pending, slots, slotSize, op);
            && Stripped(pending) + Accepted([op], [o]) == Delivered([o]) + Stripped(p)
            && |p| <= slots && (o.Got? ==> o.r.Ok?)
  {
    var (p, o) := FifoStep(pending, slots, slotSize, op);
    if o == Wrote(Ok(())) {
      assert Stripped(p) == Stripped(pending) + [op.frame.(mac := [])];
    } else if op.ReadOp? && |pending| > 0 {
      assert Stripped(pending) == [pending[0].(mac := [])] + Stripped(p);
    }
  }
}
