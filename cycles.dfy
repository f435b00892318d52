/** The per-cycle Zeno check of one component (zeno_checker.py,
    `Component.verify_cycle`). A cycle is a sequence of location ids; every
    location is joined to the next one and the last to the first, and the cycle
    is judged safe when the transitions joining those pairs reset the clock `x`
    and require time to pass. */
module Cycles {
  import opened Wrappers
  import opened Transitions

  /** Transition `t` leads from location `cycle[i]` to the next location of the
      cycle, the last location being followed by the first. */
  predicate Joins(t: Transition, cycle: seq<LocationId>, i: nat)
    requires i < |cycle|
  {
    t.sourceId == cycle[i] && t.targetId == cycle[(i + 1) % |cycle|]
  }

  /** `t` joins some consecutive pair of the cycle. */
  ghost predicate OnCycle(t: Transition, cycle: seq<LocationId>)
  {
    exists i :: 0 <= i < |cycle| && Joins(t, cycle, i)
  }

  /** Some transition of the component that lies on the cycle resets `x`. */
  ghost predicate CycleResets(cycle: seq<LocationId>, transitions: seq<Transition>)
  {
    exists k :: 0 <= k < |transitions| && OnCycle(transitions[k], cycle) && transitions[k].reset
  }

  /** Some transition of the component that lies on the cycle requires time to pass. */
  ghost predicate CycleRequiresTime(cycle: seq<LocationId>, transitions: seq<Transition>)
  {
    exists k :: 0 <= k < |transitions| && OnCycle(transitions[k], cycle) && transitions[k].timeReq
  }

  /** The verdict the check computes: a reset and a time requirement on the
      cycle, possibly on two different transitions (parallel edges included). */
  ghost predicate SafeCycle(cycle: seq<LocationId>, transitions: seq<Transition>)
  {
    CycleResets(cycle, transitions) && CycleRequiresTime(cycle, transitions)
  }

  /** Transition number `k` joins pair number `p` and resets `x`. */
  ghost predicate ResetAt(cycle: seq<LocationId>, transitions: seq<Transition>, p: int, k: int)
  {
    0 <= p < |cycle| && 0 <= k < |transitions| && Joins(transitions[k], cycle, p) && transitions[k].reset
  }

  /** Transition number `k` joins pair number `p` and requires time. */
  ghost predicate TimeReqAt(cycle: seq<LocationId>, transitions: seq<Transition>, p: int, k: int)
  {
    0 <= p < |cycle| && 0 <= k < |transitions| && Joins(transitions[k], cycle, p) && transitions[k].timeReq
  }

  /** A resetting (pair, transition) combination comes before position (i, j)
      of the nested scan: an earlier pair, or pair i and an earlier transition. */
  ghost predicate ResetBefore(cycle: seq<LocationId>, transitions: seq<Transition>, i: int, j: int)
  {
    exists p, k :: ResetAt(cycle, transitions, p, k) && (p < i || (p == i && k < j))
  }

  ghost predicate TimeReqBefore(cycle: seq<LocationId>, transitions: seq<Transition>, i: int, j: int)
  {
    exists p, k :: TimeReqAt(cycle, transitions, p, k) && (p < i || (p == i && k < j))
  }

  /** Once the scan has passed every pair, what it has seen is the whole verdict. */
  lemma ScanComplete(cycle: seq<LocationId>, transitions: seq<Transition>)
    ensures ResetBefore(cycle, transitions, |cycle|, 0) <==> CycleResets(cycle, transitions)
    ensures TimeReqBefore(cycle, transitions, |cycle|, 0) <==> CycleRequiresTime(cycle, transitions)
  {
    if CycleResets(cycle, transitions) {
      var k :| 0 <= k < |transitions| && OnCycle(transitions[k], cycle) && transitions[k].reset;
      var p :| 0 <= p < |cycle| && Joins(transitions[k], cycle, p);
      assert ResetAt(cycle, transitions, p, k);
    }
    if ResetBefore(cycle, transitions, |cycle|, 0) {
      var p, k :| ResetAt(cycle, transitions, p, k) && p < |cycle|;
      assert OnCycle(transitions[k], cycle);
    }
    if CycleRequiresTime(cycle, transitions) {
      var k :| 0 <= k < |transitions| && OnCycle(transitions[k], cycle) && transitions[k].timeReq;
      var p :| 0 <= p < |cycle| && Joins(transitions[k], cycle, p);
      assert TimeReqAt(cycle, transitions, p, k);
    }
    if TimeReqBefore(cycle, transitions, |cycle|, 0) {
      var p, k :| TimeReqAt(cycle, transitions, p, k) && p < |cycle|;
      assert OnCycle(transitions[k], cycle);
    }
  }

  /** `verify_cycle`: for every consecutive pair, scan all transitions joining
      it, OR-accumulate the two flags and leave the inner scan as soon as both
      are set. The early exit does not change the verdict, which is the OR over
      every transition on the cycle. */
  method VerifyCycle(transitions: seq<Transition>, cycle: seq<LocationId>) returns (safe: bool)
    ensures safe <==> SafeCycle(cycle, transitions)
    ensures cycle == [] ==> !safe
  {
    var reset, timeReq := false, false;
    var i := 0;
    while i < |cycle|
      invariant 0 <= i <= |cycle|
      invariant reset == ResetBefore(cycle, transitions, i, 0)
      invariant timeReq == TimeReqBefore(cycle, transitions, i, 0)
    {
      var j := 0;
      while j < |transitions|
        invariant 0 <= j <= |transitions|
        invariant reset == ResetBefore(cycle, transitions, i, j)
        invariant timeReq == TimeReqBefore(cycle, transitions, i, j)
      {
        var t := transitions[j];
        if Joins(t, cycle, i) {
          if t.reset {
            assert ResetAt(cycle, transitions, i, j);
          }
          if t.timeReq {
            assert TimeReqAt(cycle, transitions, i, j);
          }
          reset := reset || t.reset;
          timeReq := timeReq || t.timeReq;
          if reset && timeReq {
            assert ResetBefore(cycle, transitions, i + 1, 0);
            assert TimeReqBefore(cycle, transitions, i + 1, 0);
            break;
          }
        }
        j := j + 1;
      }
      i := i + 1;
    }
    ScanComplete(cycle, transitions);
    safe := reset && timeReq;
  }

  /** No location, no pair: the empty cycle is never safe. */
  lemma EmptyCycleUnsafe(transitions: seq<Transition>)
    ensures !SafeCycle([], transitions)
  {
  }

  /** A one-location cycle `[a]` pairs `a` with itself, so only the self-loops
      `a -> a` are examined. */
  lemma SingletonCycle(a: LocationId, transitions: seq<Transition>)
    ensures SafeCycle([a], transitions) <==>
      (exists k :: 0 <= k < |transitions| && transitions[k].sourceId == a && transitions[k].targetId == a && transitions[k].reset) &&
      (exists k :: 0 <= k < |transitions| && transitions[k].sourceId == a && transitions[k].targetId == a && transitions[k].timeReq)
  {
    forall t: Transition
      ensures OnCycle(t, [a]) <==> t.sourceId == a && t.targetId == a
    {
      if t.sourceId == a && t.targetId == a {
        assert Joins(t, [a], 0);
      }
    }
  }

  /** Only the transitions on the cycle matter: two transition lists with the
      same transitions on the cycle (in any order, with any repetitions and any
      other transitions around them) give the same verdict. */
  lemma OnlyCycleTransitionsMatter(cycle: seq<LocationId>, ts: seq<Transition>, us: seq<Transition>)
    requires forall t :: t in ts && OnCycle(t, cycle) <==> t in us && OnCycle(t, cycle)
    ensures SafeCycle(cycle, ts) <==> SafeCycle(cycle, us)
  {
  }

  /** Adding transitions that join no consecutive pair of the cycle never
      changes its verdict. */
  lemma OffCycleTransitionsIgnored(cycle: seq<LocationId>, ts: seq<Transition>, extra: seq<Transition>)
    requires forall e :: e in extra ==> !OnCycle(e, cycle)
    ensures SafeCycle(cycle, ts + extra) <==> SafeCycle(cycle, ts)
  {
    OnlyCycleTransitionsMatter(cycle, ts + extra, ts);
  }

  /** Adding transitions never turns a safe cycle unsafe: the flags are only
      ever OR-ed. */
  lemma MoreTransitionsStaySafe(cycle: seq<LocationId>, ts: seq<Transition>, extra: seq<Transition>)
    requires SafeCycle(cycle, ts)
    ensures SafeCycle(cycle, ts + extra)
  {
    assert forall k :: 0 <= k < |ts| ==> (ts + extra)[k] == ts[k];
  }

  /** The cycle read from position `r` onwards. */
  function Rotate(cycle: seq<LocationId>, r: nat): (rotated: seq<LocationId>)
    requires r <= |cycle|
    ensures |rotated| == |cycle|
    ensures forall i :: 0 <= i < |cycle| - r ==> rotated[i] == cycle[i + r]
    ensures forall i :: |cycle| - r <= i < |cycle| ==> rotated[i] == cycle[i + r - |cycle|]
  {
    cycle[r..] + cycle[..r]
  }

  /** `(i + 1) % n` for an index `i` of a sequence of length `n`. */
  lemma SuccessorIndex(i: int, n: int)
    requires 0 <= i < n
    ensures (i + 1) % n == if i + 1 < n then i + 1 else 0
  {
  }

  /** Pair number `i` of the rotated cycle is pair number `(i + r) mod n` of the
      original cycle. */
  lemma RotatedPair(t: Transition, cycle: seq<LocationId>, r: nat, i: nat)
    requires r < |cycle| && i < |cycle|
    ensures Joins(t, Rotate(cycle, r), i) <==> Joins(t, cycle, if i + r < |cycle| then i + r else i + r - |cycle|)
  {
    var n := |cycle|;
    var j := if i + r < n then i + r else i + r - n;
    SuccessorIndex(i, n);
    SuccessorIndex(j, n);
  }

  /** The cycle `[a, b, c]` is the same cycle as `[b, c, a]`: rotating the
      sequence does not change its set of consecutive pairs. */
  lemma RotationKeepsPairs(t: Transition, cycle: seq<LocationId>, r: nat)
    requires r < |cycle|
    ensures OnCycle(t, Rotate(cycle, r)) <==> OnCycle(t, cycle)
  {
    var n := |cycle|;
    if OnCycle(t, Rotate(cycle, r)) {
      var i :| 0 <= i < n && Joins(t, Rotate(cycle, r), i);
      RotatedPair(t, cycle, r, i);
    }
    if OnCycle(t, cycle) {
      var j :| 0 <= j < n && Joins(t, cycle, j);
      var i := if j >= r then j - r else j + n - r;
      RotatedPair(t, cycle, r, i);
    }
  }

  /** The verdict does not depend on which location of the cycle is listed first. */
  lemma RotationInvariant(cycle: seq<LocationId>, ts: seq<Transition>, r: nat)
    requires r <= |cycle|
    ensures SafeCycle(Rotate(cycle, r), ts) <==> SafeCycle(cycle, ts)
  {
    if r == |cycle| {
      assert Rotate(cycle, r) == cycle;
    } else {
      forall t | t in ts
        ensures OnCycle(t, Rotate(cycle, r)) <==> OnCycle(t, cycle)
      {
        RotationKeepsPairs(t, cycle, r);
      }
      SameFlagsOnSamePairs(cycle, Rotate(cycle, r), ts);
    }
  }

  /** Two cycles that agree on which transitions lie on them get the same verdict. */
  lemma SameFlagsOnSamePairs(c1: seq<LocationId>, c2: seq<LocationId>, ts: seq<Transition>)
    requires forall t :: t in ts ==> (OnCycle(t, c1) <==> OnCycle(t, c2))
    ensures SafeCycle(c1, ts) <==> SafeCycle(c2, ts)
  {
  }

  /** `L0 --[x > 0]--> L1 --[x = 0]--> L0`: a guard with a lower bound and a
      reset on the same cycle make it safe. */
  lemma GuardAndResetExample()
    ensures NewTransition("L0", "L1", [Label(GuardKind, Some("x > 0"))]).Success?
    ensures NewTransition("L1", "L0", [Label(AssignmentKind, Some("x = 0"))]).Success?
    ensures SafeCycle(["L0", "L1"],
                      [NewTransition("L0", "L1", [Label(GuardKind, Some("x > 0"))]).value,
                       NewTransition("L1", "L0", [Label(AssignmentKind, Some("x = 0"))]).value])
  {
    ResetExample();
    var ts := [Transition("L0", "L1", false, true), Transition("L1", "L0", true, false)];
    assert Joins(ts[0], ["L0", "L1"], 0);
    assert Joins(ts[1], ["L0", "L1"], 1);
  }

  /** The same cycle with `x = 1` instead of `x = 0` resets nothing and is unsafe. */
  lemma NoResetExample()
    ensures NewTransition("L0", "L1", [Label(GuardKind, Some("x > 0"))]).Success?
    ensures NewTransition("L1", "L0", [Label(AssignmentKind, Some("x = 1"))]).Success?
    ensures !SafeCycle(["L0", "L1"],
                       [NewTransition("L0", "L1", [Label(GuardKind, Some("x > 0"))]).value,
                        NewTransition("L1", "L0", [Label(AssignmentKind, Some("x = 1"))]).value])
  {
    NonZeroAssignmentExample();
  }

  /** Parallel transitions are OR-ed together: a reset on one transition from
      L0 to L1 and a time requirement on another make the cycle safe, although
      no single path around it carries both. */
  lemma ParallelTransitionsCombine()
    ensures SafeCycle(["L0", "L1"], [Transition("L0", "L1", true, false),
                                     Transition("L0", "L1", false, true),
                                     Transition("L1", "L0", false, false)])
  {
    var ts := [Transition("L0", "L1", true, false), Transition("L0", "L1", false, true), Transition("L1", "L0", false, false)];
    assert Joins(ts[0], ["L0", "L1"], 0);
    assert Joins(ts[1], ["L0", "L1"], 0);
  }

  /** A transition running against the direction of the cycle is not on it. */
  lemma ReversedTransitionIgnored()
    ensures !SafeCycle(["A", "B", "C"], [Transition("B", "A", true, true)])
  {
  }

  /** A self-loop `L0 --[x >= 0]--> L0` with no reset is unsafe, although its
      guard counts as a time requirement. */
  lemma SelfLoopWithoutResetExample()
    ensures NewTransition("L0", "L0", [Label(GuardKind, Some("x >= 0"))]) == Success(Transition("L0", "L0", false, true))
    ensures !SafeCycle(["L0"], [Transition("L0", "L0", false, true)])
  {
  }
}
