/**
 The replay tracker (security/replay/tracker.go): a sliding window that forgets
 old sequence numbers, proved to give the verdicts of a tracker that forgets nothing.
 */
module Replay {
  import opened Bytes

  const DEFAULT_WINDOW: u64 := 128

  datatype Window = Window(maxSeen: u64, size: u64, seen: set<u64>)

  /** uint64(windowSize), with zero replaced by the default. */
  function WindowSize(windowSize: i64): u64 {
    if windowSize == 0 then DEFAULT_WINDOW else AsU64(windowSize)
  }

  function Fresh(size: u64): Window { Window(0, size, {}) }

  /** The oldest number a window with this maximum still remembers. */
  function Cutoff(maxSeen: u64, size: u64): u64 { if maxSeen > size then maxSeen - size else 0 }

  /** Check: the new window and whether the number is accepted. */
  function CheckStep(t: Window, n: u64): (Window, bool) {
    if n == 0 then (t, false)
    else if n > t.maxSeen then
      (Window(n, t.size, (set s | s in t.seen && s >= Cutoff(n, t.size)) + {n}), true)
    else if t.maxSeen - n > t.size || n in t.seen then (t, false)
    else (t.(seen := t.seen + {n}), true)
  }

  class Tracker {
    var maxSeen: u64
    const windowSize: u64
    var seen: set<u64>

    ghost function Value(): Window
      reads this
    {
      Window(maxSeen, windowSize, seen)
    }

    /** NewTracker. */
    constructor (size: i64)
      ensures Value() == Fresh(WindowSize(size))
      ensures size == 0 ==> windowSize == 128
      ensures size != 0 ==> (windowSize - size) % 0x1_0000_0000_0000_0000 == 0
    {
      maxSeen := 0;
      windowSize := WindowSize(size);
      seen := {};
    }

    /** Check. */
    method Check(n: u64) returns (ok: bool)
      modifies this
      ensures (Value(), ok) == CheckStep(old(Value()), n)
    {
      if n == 0 {
        return false;
      }
      if n > maxSeen {
        maxSeen := n;
        Cleanup();
        seen := seen + {n};
        return true;
      }
      if maxSeen - n > windowSize {
        return false;
      }
      if n in seen {
        return false;
      }
      seen := seen + {n};
      return true;
    }

    /** cleanup: visit every remembered number and delete those below the cutoff. */
    method Cleanup()
      modifies this`seen
      ensures seen == set s | s in old(seen) && s >= Cutoff(maxSeen, windowSize)
    {
      var cutoff := Cutoff(maxSeen, windowSize);
      var todo := seen;
      while todo != {}
        invariant todo <= seen <= old(seen)
        invariant forall s :: s in old(seen) && s >= cutoff ==> s in seen
        invariant forall s :: s in seen && s !in todo ==> s >= cutoff
        decreases todo
      {
        var s :| s in todo;
        todo := todo - {s};
        if s < cutoff {
          seen := seen - {s};
        }
      }
    }

    /** Reset. */
    method Reset()
      modifies this
      ensures Value() == Fresh(windowSize)
    {
      maxSeen := 0;
      seen := {};
    }
  }

  // ------------------------------------------------ the tracker that keeps everything

  /** Accept what is non-zero, new, and not more than the window below any accepted number. */
  ghost predicate Acceptable(accepted: set<u64>, size: u64, n: u64) {
    n != 0 && n !in accepted && forall a :: a in accepted ==> a <= n + size
  }

  /** What the window remembers of the whole accepted history. */
  ghost predicate Remembers(t: Window, accepted: set<u64>) {
    && (accepted == {} ==> t.maxSeen == 0)
    && (accepted != {} ==> t.maxSeen in accepted)
    && (forall a :: a in accepted ==> 1 <= a <= t.maxSeen)
    && t.seen == set a | a in accepted && t.maxSeen <= a + t.size
  }

  /** One call: the same verdict, and still exactly the accepted numbers in the window. */
  lemma CheckAgrees(t: Window, accepted: set<u64>, n: u64)
    requires Remembers(t, accepted)
    ensures var (t', ok) := CheckStep(t, n);
            && (ok <==> Acceptable(accepted, t.size, n))
            && Remembers(t', if ok then accepted + {n} else accepted)
            && t'.size == t.size
  {
    var (t', ok) := CheckStep(t, n);
    if ok {
      if n <= t.maxSeen {
        assert t.maxSeen in accepted;
      }
    } else if n != 0 && n !in t.seen {
      assert t.maxSeen in accepted && t.maxSeen > n + t.size;
    }
  }

  function Run(t: Window, seqs: seq<u64>): (r: (Window, seq<bool>))
    ensures |r.1| == |seqs|
    decreases |seqs|
  {
    if |seqs| == 0 then (t, [])
    else
      var (t1, ok) := CheckStep(t, seqs[0]);
      var (t2, oks) := Run(t1, seqs[1..]);
      (t2, [ok] + oks)
  }

  /** The numbers accepted among the first calls of a run. */
  ghost function AcceptedIn(seqs: seq<u64>, oks: seq<bool>): set<u64>
    requires |seqs| == |oks|
  {
    set i | 0 <= i < |seqs| && oks[i] :: seqs[i]
  }

  lemma {:induction false} RunAgrees(t: Window, accepted: set<u64>, seqs: seq<u64>, i: nat)
    requires Remembers(t, accepted) && i <= |seqs|
    ensures var (t', oks) := Run(t, seqs[..i]);
            && Remembers(t', accepted + AcceptedIn(seqs[..i], oks)) && t'.size == t.size
            && (i < |seqs| ==>
                  (Run(t, seqs).1[i] <==> Acceptable(accepted + AcceptedIn(seqs[..i], oks), t.size, seqs[i])))
    decreases |seqs|
  {
    hide CheckStep, Remembers;
    if i == 0 {
      assert accepted + AcceptedIn([], []) == accepted;
      if |seqs| > 0 {
        CheckAgrees(t, accepted, seqs[0]);
      }
    } else {
      var (t1, ok) := CheckStep(t, seqs[0]);
      CheckAgrees(t, accepted, seqs[0]);
      var accepted1 := if ok then accepted + {seqs[0]} else accepted;
      RunAgrees(t1, accepted1, seqs[1..], i - 1);
      assert seqs[..i][1..] == seqs[1..][..i - 1];
      FirstAccepted(seqs[..i], ok, Run(t1, seqs[1..][..i - 1]).1, accepted);
    }
  }

  lemma FirstAccepted(seqs: seq<u64>, ok: bool, oks: seq<bool>, accepted: set<u64>)
    requires |seqs| == 1 + |oks|
    ensures accepted + AcceptedIn(seqs, [ok] + oks)
         == (if ok then accepted + {seqs[0]} else accepted) + AcceptedIn(seqs[1..], oks)
  {
    var all := [ok] + oks;
    forall s | s in AcceptedIn(seqs, all) ensures (ok && s == seqs[0]) || s in AcceptedIn(seqs[1..], oks) {
      var i :| 0 <= i < |seqs| && all[i] && seqs[i] == s;
      if i > 0 {
        assert seqs[1..][i - 1] == s && oks[i - 1];
      }
    }
    forall s | s in AcceptedIn(seqs[1..], oks) ensures s in AcceptedIn(seqs, all) {
      var i :| 0 <= i < |oks| && oks[i] && seqs[1..][i] == s;
      assert seqs[i + 1] == s && all[i + 1];
    }
    if ok {
      assert all[0] && seqs[0] in AcceptedIn(seqs, all);
    }
  }

  /**
   From a new or reset tracker, whatever numbers arrive, the i-th verdict is the
   one a tracker with full history gives.
   */
  lemma PrunedWindowIsFullHistory(size: u64, seqs: seq<u64>, i: nat)
    requires i < |seqs|
    ensures var oks := Run(Fresh(size), seqs).1;
            oks[i] <==> Acceptable(AcceptedIn(seqs[..i], oks[..i]), size, seqs[i])
  {
    assert Remembers(Fresh(size), {});
    RunAgrees(Fresh(size), {}, seqs, i);
    RunPrefix(Fresh(size), seqs, i);
    var oks := Run(Fresh(size), seqs[..i]).1;
    assert {} + AcceptedIn(seqs[..i], oks) == AcceptedIn(seqs[..i], oks);
  }

  lemma {:induction false} RunPrefix(t: Window, seqs: seq<u64>, i: nat)
    requires i <= |seqs|
    ensures Run(t, seqs[..i]).1 == Run(t, seqs).1[..i]
    decreases |seqs|
  {
    if i > 0 {
      var t1 := CheckStep(t, seqs[0]).0;
      assert seqs[..i][1..] == seqs[1..][..i - 1];
      RunPrefix(t1, seqs[1..], i - 1);
    }
  }

  /** No number is accepted twice in a run. */
  lemma AcceptedOnce(size: u64, seqs: seq<u64>, i: nat, j: nat)
    requires i < j < |seqs|
    requires Run(Fresh(size), seqs).1[i] && Run(Fresh(size), seqs).1[j]
    ensures seqs[i] != seqs[j]
  {
    var oks := Run(Fresh(size), seqs).1;
    PrunedWindowIsFullHistory(size, seqs, j);
    assert seqs[..j][i] == seqs[i] && oks[..j][i];
  }

  /** After any run the window keeps exactly the accepted numbers it still needs, at most size+1 of them. */
  lemma WindowIsSmall(size: u64, seqs: seq<u64>)
    ensures var (t, oks) := Run(Fresh(size), seqs);
            && t.seen == (set a | a in AcceptedIn(seqs, oks) && t.maxSeen <= a + size)
            && |t.seen| <= size + 1
  {
    assert Remembers(Fresh(size), {});
    RunAgrees(Fresh(size), {}, seqs, |seqs|);
    assert seqs[..|seqs|] == seqs;
    var (t, oks) := Run(Fresh(size), seqs);
    assert {} + AcceptedIn(seqs, oks) == AcceptedIn(seqs, oks);
    IntervalSize(t.seen, t.maxSeen - size, t.maxSeen + 1);
  }

  lemma {:induction false} IntervalSize(s: set<u64>, lo: int, hi: int)
    requires lo <= hi && forall x :: x in s ==> lo <= x < hi
    ensures |s| <= hi - lo
    decreases hi - lo
  {
    if lo == hi {
      assert s == {};
    } else {
      var s' := set x | x in s && x < hi - 1;
      IntervalSize(s', lo, hi - 1);
      assert s <= s' + {hi - 1};
      SubsetSize(s, s' + {hi - 1});
    }
  }
}
