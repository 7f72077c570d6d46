/**
 The registry of live tensor spans (protocol/tensor_registry.go).
 */
module TensorRegistry {
  import opened Bytes
  import opened Tensors

  datatype Span = Span(offset: u64, size: u64, desc: Descriptor)

  /** Live spans by segment name, in order of registration. */
  type State = map<bytes, seq<Span>>

  function Live(st: State, name: bytes): seq<Span> { if name in st then st[name] else [] }

  function U64Add(a: u64, b: u64): u64 { (a + b) % TWO_64 }

  /** The intersection test of Register, in uint64 arithmetic. */
  predicate Overlaps(d: Descriptor, s: Span) {
    d.offset < U64Add(s.offset, s.size) && s.offset < U64Add(d.offset, d.size)
  }

  function RegisterStep(st: State, d: Descriptor): (State, Result<(), TensorError>) {
    if Check(d).Err? then (st, Check(d))
    else if d.size == 0 then (st, Err(ErrDims))
    else if exists i :: 0 <= i < |Live(st, d.shmName)| && Overlaps(d, Live(st, d.shmName)[i]) then (st, Err(ErrOverlap))
    else (st[d.shmName := Live(st, d.shmName) + [Span(d.offset, d.size, d)]], Ok(()))
  }

  /** The first span at `offset`, or the length of the list. */
  function FirstAt(spans: seq<Span>, offset: u64): (i: nat)
    ensures i <= |spans| && (i < |spans| ==> spans[i].offset == offset)
    ensures forall j :: 0 <= j < i ==> spans[j].offset != offset
  {
    if |spans| == 0 || spans[0].offset == offset then 0
    else
      var i := FirstAt(spans[1..], offset);
      assert forall j :: 0 < j < i + 1 ==> spans[j] == spans[1..][j - 1];
      i + 1
  }

  function DeregisterStep(st: State, name: bytes, offset: u64): (State, bool) {
    var live := Live(st, name);
    var i := FirstAt(live, offset);
    if i < |live| then (st[name := live[..i] + live[i + 1..]], true) else (st, false)
  }

  class Registry {
    var spans: State

    constructor ()
      ensures spans == map[] && Inv(spans)
    {
      spans := map[];
    }

    /** Register. */
    method Register(d: Descriptor) returns (r: Result<(), TensorError>)
      modifies this
      ensures (spans, r) == RegisterStep(old(spans), d)
    {
      hide Check, Overlaps;
      r := Validate(d);
      if r.Err? {
        return;
      }
      if d.size == 0 {
        return Err(ErrDims);
      }
      var live := Live(spans, d.shmName);
      var i := 0;
      while i < |live|
        invariant 0 <= i <= |live|
        invariant forall j :: 0 <= j < i ==> !Overlaps(d, live[j])
      {
        if Overlaps(d, live[i]) {
          return Err(ErrOverlap);
        }
        i := i + 1;
      }
      spans := spans[d.shmName := live + [Span(d.offset, d.size, d)]];
      return Ok(());
    }

    /** Deregister. */
    method Deregister(name: bytes, offset: u64) returns (found: bool)
      modifies this
      ensures (spans, found) == DeregisterStep(old(spans), name, offset)
    {
      var live := Live(spans, name);
      var i := 0;
      while i < |live|
        invariant 0 <= i <= |live|
        invariant forall j :: 0 <= j < i ==> live[j].offset != offset
      {
        if live[i].offset == offset {
          assert FirstAt(live, offset) == i;
          spans := spans[name := live[..i] + live[i + 1..]];
          return true;
        }
        i := i + 1;
      }
      return false;
    }

    /** Spans: the live descriptors of a segment, sorted by offset. */
    method Spans(name: bytes) returns (out: seq<Descriptor>)
      requires Inv(spans)
      ensures Increasing(out)
      ensures Elements(out) == Elements(Descs(Live(spans, name)))
    {
      hide Accepted;
      var live := Live(spans, name);
      SegmentOf(spans, name);
      out := [];
      var i := 0;
      while i < |live|
        invariant 0 <= i <= |live|
        invariant Increasing(out)
        invariant Elements(out) == Elements(Descs(live[..i]))
      {
        DistinctOffsets(live, name, i, out);
        out := InsertByOffset(out, live[i].desc);
        assert Descs(live[..i + 1]) == Descs(live[..i]) + [live[i].desc];
        i := i + 1;
      }
      assert live[..i] == live;
    }
  }

  /** Place one descriptor among those already ordered: the step of a sort by offset. */
  function InsertByOffset(xs: seq<Descriptor>, d: Descriptor): (r: seq<Descriptor>)
    requires Increasing(xs) && forall k :: 0 <= k < |xs| ==> xs[k].offset != d.offset
    ensures Increasing(r) && Elements(r) == Elements(xs) + {d}
    ensures forall k :: 0 <= k < |r| ==> r[k] == d || r[k] in xs
  {
    if |xs| == 0 then [d]
    else if d.offset < xs[0].offset then [d] + xs
    else
      var r := InsertByOffset(xs[1..], d);
      assert Elements(xs) == {xs[0]} + Elements(xs[1..]);
      [xs[0]] + r
  }

  // ------------------------------------------------------------------ invariant

  ghost predicate Disjoint(a: Span, b: Span) {
    a.offset + a.size <= b.offset || b.offset + b.size <= a.offset
  }

  /** A live span: accepted, non-empty, not wrapping, and the one its descriptor names. */
  ghost predicate LiveSpan(s: Span, name: bytes) {
    && Accepted(s.desc) && s.desc.shmName == name && s.desc.offset == s.offset && s.desc.size == s.size
    && s.size > 0 && s.offset + s.size < TWO_64
  }

  ghost predicate Segment(spans: seq<Span>, name: bytes) {
    && (forall i :: 0 <= i < |spans| ==> LiveSpan(spans[i], name))
    && forall i, j :: 0 <= i < j < |spans| ==> Disjoint(spans[i], spans[j])
  }

  ghost predicate Inv(st: State) { forall name :: name in st ==> Segment(st[name], name) }

  lemma SegmentOf(st: State, name: bytes)
    requires Inv(st)
    ensures Segment(Live(st, name), name)
  {
  }

  lemma AcceptedSpan(d: Descriptor)
    requires Accepted(d)
    ensures d.offset + d.size < TWO_64
  {
  }

  /** On spans that do not wrap, the uint64 test is the mathematical one. */
  lemma OverlapTestExact(d: Descriptor, s: Span, name: bytes)
    requires Accepted(d) && d.size > 0 && LiveSpan(s, name)
    ensures Overlaps(d, s) <==> !Disjoint(Span(d.offset, d.size, d), s)
  {
    hide Accepted;
    AcceptedSpan(d);
    assert U64Add(s.offset, s.size) == s.offset + s.size && U64Add(d.offset, d.size) == d.offset + d.size;
  }

  /** Register succeeds exactly on valid, non-empty descriptors disjoint from every live span of their segment. */
  lemma RegisterIff(st: State, d: Descriptor)
    requires Inv(st)
    ensures RegisterStep(st, d).1.Ok? <==>
              && Accepted(d) && d.size > 0
              && forall i :: 0 <= i < |Live(st, d.shmName)| ==>
                  Disjoint(Span(d.offset, d.size, d), Live(st, d.shmName)[i])
  {
    hide Check, Overlaps, Disjoint;
    SegmentOf(st, d.shmName);
    var live := Live(st, d.shmName);
    if Accepted(d) && d.size > 0 {
      forall i | 0 <= i < |live| ensures Overlaps(d, live[i]) <==> !Disjoint(Span(d.offset, d.size, d), live[i]) {
        OverlapTestExact(d, live[i], d.shmName);
      }
    }
  }

  lemma RegisterKeeps(st: State, d: Descriptor)
    requires Inv(st)
    ensures Inv(RegisterStep(st, d).0)
    ensures forall name :: name != d.shmName ==> Live(RegisterStep(st, d).0, name) == Live(st, name)
    ensures RegisterStep(st, d).1.Err? ==> RegisterStep(st, d).0 == st
  {
    hide Check, Overlaps;
    if RegisterStep(st, d).1.Ok? {
      SegmentOf(st, d.shmName);
      RegisterIff(st, d);
      AcceptedSpan(d);
      assert Segment(Live(st, d.shmName) + [Span(d.offset, d.size, d)], d.shmName);
    }
  }

  lemma {:induction false} RemovalKeeps(spans: seq<Span>, name: bytes, i: nat)
    requires Segment(spans, name) && i < |spans|
    ensures Segment(spans[..i] + spans[i + 1..], name)
  {
    hide LiveSpan, Disjoint;
    var r := spans[..i] + spans[i + 1..];
    assert forall k :: 0 <= k < |r| ==> r[k] == spans[if k < i then k else k + 1];
  }

  ghost function Elems(spans: seq<Span>): set<Span> { set s | s in spans }

  /** Deregister reports whether a span starts there, removes exactly that one and touches nothing else. */
  lemma DeregisterExact(st: State, name: bytes, offset: u64)
    requires Inv(st)
    ensures var (st', found) := DeregisterStep(st, name, offset);
            && Inv(st')
            && (found <==> exists s :: s in Live(st, name) && s.offset == offset)
            && Elems(Live(st', name)) == set s | s in Live(st, name) && s.offset != offset
            && |Live(st', name)| == |Live(st, name)| - (if found then 1 else 0)
            && forall other :: other != name ==> Live(st', other) == Live(st, other)
  {
    hide Segment, FirstAt;
    SegmentOf(st, name);
    var live := Live(st, name);
    var i := FirstAt(live, offset);
    FoundIff(live, offset);
    if i < |live| {
      RemovalKeeps(live, name, i);
      RemovedElems(live, name, i);
    }
  }

  /** The search finds a span exactly when one starts at the offset, and otherwise filtering removes nothing. */
  lemma FoundIff(live: seq<Span>, offset: u64)
    ensures FirstAt(live, offset) < |live| <==> exists s :: s in live && s.offset == offset
    ensures FirstAt(live, offset) < |live| ==> live[FirstAt(live, offset)].offset == offset
    ensures FirstAt(live, offset) == |live| ==> Elems(live) == set s | s in live && s.offset != offset
  {
    var i := FirstAt(live, offset);
    if i < |live| {
      assert live[i] in live;
    }
  }

  lemma RemovedElems(live: seq<Span>, name: bytes, i: nat)
    requires Segment(live, name) && i < |live|
    ensures Elems(live[..i] + live[i + 1..]) == set s | s in live && s.offset != live[i].offset
  {
    hide LiveSpan, Disjoint;
    forall j | 0 <= j < |live| && j != i ensures live[j].offset != live[i].offset {
      OffsetsDiffer(live, name, i, j);
    }
    var r := live[..i] + live[i + 1..];
    assert forall k :: 0 <= k < |r| ==> r[k] == live[if k < i then k else k + 1];
    forall s | s in live && s.offset != live[i].offset ensures s in r {
      var j :| 0 <= j < |live| && live[j] == s;
      assert s == if j < i then r[j] else r[j - 1];
    }
  }

  lemma OffsetsDiffer(spans: seq<Span>, name: bytes, i: nat, j: nat)
    requires Segment(spans, name) && i < |spans| && j < |spans| && i != j
    ensures spans[i].offset != spans[j].offset
  {
    assert LiveSpan(spans[i], name) && LiveSpan(spans[j], name);
    if i < j {
      assert Disjoint(spans[i], spans[j]);
    } else {
      assert Disjoint(spans[j], spans[i]);
    }
  }

  // ----------------------------------------------------------------------- runs

  datatype Op = RegisterOp(desc: Descriptor) | DeregisterOp(name: bytes, offset: u64)

  function Step(st: State, op: Op): State {
    match op
    case RegisterOp(d) => RegisterStep(st, d).0
    case DeregisterOp(name, offset) => DeregisterStep(st, name, offset).0
  }

  function Run(st: State, ops: seq<Op>): State
    decreases |ops|
  {
    if |ops| == 0 then st else Run(Step(st, ops[0]), ops[1..])
  }

  /** Every sequence of Register and Deregister calls keeps the invariant. */
  lemma {:induction false} RunKeeps(st: State, ops: seq<Op>)
    requires Inv(st)
    ensures Inv(Run(st, ops))
    decreases |ops|
  {
    if |ops| > 0 {
      match ops[0]
      case RegisterOp(d) =>
        RegisterKeeps(st, d);
        RunKeeps(Step(st, ops[0]), ops[1..]);
      case DeregisterOp(name, offset) =>
        DeregisterExact(st, name, offset);
        RunKeeps(Step(st, ops[0]), ops[1..]);
    }
  }

  lemma {:induction false} RunSnoc(st: State, ops: seq<Op>, op: Op)
    ensures Run(st, ops + [op]) == Step(Run(st, ops), op)
    decreases |ops|
  {
    hide Step;
    if |ops| == 0 {
      assert ops + [op] == [op] && [op][1..] == [];
    } else {
      RunSnoc(Step(st, ops[0]), ops[1..], op);
      assert (ops + [op])[1..] == ops[1..] + [op];
    }
  }

  /** Call `k` registered `d` under `name`, and nothing deregistered it since. */
  ghost predicate Stands(ops: seq<Op>, k: nat, d: Descriptor, name: bytes) {
    && k < |ops| && ops[k] == RegisterOp(d) && d.shmName == name && RegisterStep(Run(map[], ops[..k]), d).1.Ok?
    && forall m :: k < m < |ops| ==> ops[m] != DeregisterOp(name, d.offset)
  }

  /** What `op` does to the standing of earlier calls and of itself. */
  lemma StandsNext(ops: seq<Op>, op: Op, k: nat, d: Descriptor, name: bytes)
    ensures Stands(ops + [op], k, d, name) <==>
              || (k < |ops| && Stands(ops, k, d, name) && op != DeregisterOp(name, d.offset))
              || (k == |ops| && op == RegisterOp(d) && d.shmName == name
                  && RegisterStep(Run(map[], ops), d).1.Ok?)
  {
    hide RegisterStep, Run;
    var all := ops + [op];
    assert forall m :: 0 <= m < |ops| ==> all[m] == ops[m];
    if k <= |ops| {
      assert all[..k] == ops[..k];
    }
    assert ops[..|ops|] == ops;
    if k < |ops| && Stands(ops, k, d, name) && op != DeregisterOp(name, d.offset) {
      assert forall m :: k < m < |all| ==> all[m] == if m < |ops| then ops[m] else op;
    }
    if k < |ops| && Stands(all, k, d, name) {
      assert all[|ops|] == op;
    }
  }

  /** One call: what is live after it. */
  lemma LiveNext(st: State, op: Op, name: bytes, s: Span)
    requires Inv(st)
    ensures s in Live(Step(st, op), name) <==>
              || (s in Live(st, name) && op != DeregisterOp(name, s.offset))
              || (&& op.RegisterOp? && op.desc.shmName == name && RegisterStep(st, op.desc).1.Ok?
                  && s == Span(op.desc.offset, op.desc.size, op.desc))
  {
    hide Check, Overlaps, Inv;
    match op
    case RegisterOp(d) =>
      RegisterKeeps(st, d);
    case DeregisterOp(n, offset) =>
      DeregisterExact(st, n, offset);
      assert s in Elems(Live(Step(st, op), n)) <==> s in Live(Step(st, op), n);
  }

  /**
   After any run from the empty registry, a span is live exactly if some call
   registered it and no later call deregistered its segment and offset.
   */
  lemma {:induction false} LiveIff(ops: seq<Op>, name: bytes, s: Span)
    ensures s in Live(Run(map[], ops), name) <==>
              s == Span(s.desc.offset, s.desc.size, s.desc) && exists k: nat :: Stands(ops, k, s.desc, name)
    decreases |ops|
  {
    if |ops| > 0 {
      var init, op := ops[..|ops| - 1], ops[|ops| - 1];
      assert ops == init + [op];
      var st := Run(map[], init);
      RunSnoc(map[], init, op);
      RunKeeps(map[], init);
      LiveIff(init, name, s);
      LiveNext(st, op, name, s);
      hide Stands, Run, Step, RegisterStep, Inv, Live;
      forall k: nat ensures Stands(ops, k, s.desc, name) <==>
              || (k < |init| && Stands(init, k, s.desc, name) && op != DeregisterOp(name, s.desc.offset))
              || (k == |init| && op == RegisterOp(s.desc) && s.desc.shmName == name
                  && RegisterStep(st, s.desc).1.Ok?)
      {
        StandsNext(init, op, k, s.desc, name);
      }
      StandingInside(init, s.desc, name);
      if exists k: nat :: Stands(init, k, s.desc, name) {
        var k: nat :| Stands(init, k, s.desc, name);
        assert Stands(ops, k, s.desc, name) <==> op != DeregisterOp(name, s.desc.offset);
      }
      assert Stands(ops, |init|, s.desc, name)
             <==> op == RegisterOp(s.desc) && s.desc.shmName == name && RegisterStep(st, s.desc).1.Ok?;
    }
  }

  lemma StandingInside(ops: seq<Op>, d: Descriptor, name: bytes)
    ensures forall k: nat :: Stands(ops, k, d, name) ==> k < |ops|
  {
  }

  /** After any run from the empty registry, no byte of a segment is claimed by two live spans. */
  lemma NoByteTwice(ops: seq<Op>, name: bytes, i: nat, j: nat, address: nat)
    requires var live := Live(Run(map[], ops), name);
             && i < |live| && j < |live|
             && live[i].offset <= address < live[i].offset + live[i].size
             && live[j].offset <= address < live[j].offset + live[j].size
    ensures i == j
  {
    RunKeeps(map[], ops);
    SegmentOf(Run(map[], ops), name);
  }

  /** Removing a span frees its bytes: the same descriptor can be registered again at once. */
  lemma DeregisterFrees(st: State, name: bytes, i: nat)
    requires Inv(st) && i < |Live(st, name)|
    ensures var s := Live(st, name)[i];
            RegisterStep(DeregisterStep(st, name, s.offset).0, s.desc).1.Ok?
  {
    hide Accepted;
    SegmentOf(st, name);
    var live, s := Live(st, name), Live(st, name)[i];
    assert LiveSpan(s, name);
    var st' := DeregisterStep(st, name, s.offset).0;
    DeregisterExact(st, name, s.offset);
    RegisterIff(st', s.desc);
    forall k | 0 <= k < |Live(st', name)|
      ensures Disjoint(Span(s.desc.offset, s.desc.size, s.desc), Live(st', name)[k])
    {
      var t := Live(st', name)[k];
      assert t in Elems(Live(st', name));
      var j :| 0 <= j < |live| && live[j] == t;
      if i < j {
        assert Disjoint(live[i], live[j]);
      } else {
        assert Disjoint(live[j], live[i]);
      }
    }
  }

  // ---------------------------------------------------------------------- Spans

  ghost predicate Increasing(ds: seq<Descriptor>) {
    forall i, j :: 0 <= i < j < |ds| ==> ds[i].offset < ds[j].offset
  }

  ghost function Elements(ds: seq<Descriptor>): set<Descriptor> { set d | d in ds }

  function Descs(spans: seq<Span>): seq<Descriptor> { seq(|spans|, i requires 0 <= i < |spans| => spans[i].desc) }

  lemma DistinctOffsets(live: seq<Span>, name: bytes, i: nat, out: seq<Descriptor>)
    requires Segment(live, name) && i < |live|
    requires Elements(out) == Elements(Descs(live[..i]))
    ensures forall k :: 0 <= k < |out| ==> out[k].offset != live[i].desc.offset
  {
    forall k | 0 <= k < |out| ensures out[k].offset != live[i].desc.offset {
      assert out[k] in Elements(Descs(live[..i]));
      var j :| 0 <= j < i && Descs(live[..i])[j] == out[k];
      assert LiveSpan(live[j], name) && LiveSpan(live[i], name);
      OffsetsDiffer(live, name, i, j);
    }
  }

  lemma NoElements(ds: seq<Descriptor>)
    ensures Elements(ds) == {} <==> ds == []
  {
    if |ds| > 0 {
      assert ds[0] in Elements(ds);
    }
  }

  /** The strictly increasing enumeration of a set is unique, so any sort yields the result of Spans. */
  lemma {:induction false} IncreasingUnique(a: seq<Descriptor>, b: seq<Descriptor>)
    requires Increasing(a) && Increasing(b) && Elements(a) == Elements(b)
    ensures a == b
    decreases |a|
  {
    if |a| == 0 {
      NoElements(b);
    } else if |b| == 0 {
      NoElements(a);
    } else {
      assert a[0] in Elements(b) && b[0] in Elements(a);
      assert a[0] == b[0];
      assert Elements(a[1..]) == Elements(a) - {a[0]};
      assert Elements(b[1..]) == Elements(b) - {b[0]};
      IncreasingUnique(a[1..], b[1..]);
    }
  }
}
