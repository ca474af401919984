/** Hybrid logical clock: HLCTimestamp and the clock steps of SyncEngine in services/sync/engine.py. */
module SyncClock {
  import opened Common

  type NodeId = string

  datatype Hlc = Hlc(physical: int, logical: int, node: NodeId) {
    function Increment(): (r: Hlc) {
      this.(logical := logical + 1)
    }

    function Merge(other: Hlc): (r: Hlc) {
      Hlc(Max(physical, other.physical), Max(logical, other.logical) + 1, node)
    }

    predicate IsAfter(other: Hlc) {
      if physical > other.physical then true
      else if physical < other.physical then false
      else logical > other.logical
    }
  }

  function Max(a: int, b: int): int {
    if a >= b then a else b
  }

  // ---------------------------------------------------------------- the order

  ghost predicate Tied(a: Hlc, b: Hlc) {
    !a.IsAfter(b) && !b.IsAfter(a)
  }

  /** `is_after` is a strict weak order; two stamps tie exactly when they agree on both counters, whatever their
      nodes, so it is a total order only on stamps that differ in a counter. */
  lemma IsAfterIsStrictWeakOrder(a: Hlc, b: Hlc, c: Hlc)
    ensures !a.IsAfter(a)
    ensures a.IsAfter(b) ==> !b.IsAfter(a)
    ensures a.IsAfter(b) && b.IsAfter(c) ==> a.IsAfter(c)
    ensures Tied(a, b) && Tied(b, c) ==> Tied(a, c)
    ensures a.IsAfter(b) && Tied(b, c) ==> a.IsAfter(c)
    ensures Tied(a, b) <==> a.physical == b.physical && a.logical == b.logical
    ensures a.physical > b.physical ==> a.IsAfter(b)
    ensures a.physical == b.physical && a.logical > b.logical ==> a.IsAfter(b)
  {
  }

  /** The documented total order fails: stamps of two nodes can tie without being equal. */
  lemma DistinctStampsCanTie() returns (a: Hlc, b: Hlc)
    ensures a != b && Tied(a, b)
  {
    a, b := Hlc(7, 1, "edge"), Hlc(7, 1, "cloud");
  }

  // ---------------------------------------------------------------- the engine

  class SyncEngine {
    const nodeId: NodeId
    var hlc: Hlc
    var connected: bool
    var pendingUploads: seq<string>

    constructor (nodeId: NodeId, now: int)
      ensures hlc == Hlc(now, 0, nodeId) && !connected && pendingUploads == []
      ensures this.nodeId == nodeId
    {
      this.nodeId := nodeId;
      hlc := Hlc(now, 0, nodeId);
      connected := false;
      pendingUploads := [];
    }

    /** `upload_telemetry`: points are queued without a clock step while disconnected. */
    method UploadTelemetry(points: seq<string>) returns (accepted: nat, queued: nat)
      modifies this`hlc, this`pendingUploads
      ensures accepted + queued == |points|
      ensures connected ==> queued == 0 && hlc == old(hlc).Increment() && pendingUploads == old(pendingUploads)
      ensures !connected ==> accepted == 0 && hlc == old(hlc) && pendingUploads == old(pendingUploads) + points
    {
      if !connected {
        pendingUploads := pendingUploads + points;
        return 0, |points|;
      }
      hlc := hlc.Increment();
      return |points|, 0;
    }

    /** `heartbeat` answers with the new stamp. */
    method Heartbeat() returns (stamp: Hlc)
      modifies this`hlc
      ensures hlc == old(hlc).Increment() && stamp == hlc
    {
      hlc := hlc.Increment();
      return hlc;
    }
  }

  // ---------------------------------------------------------------- runs of many nodes

  /** What happens at one node: a local step (heartbeat, connected upload) or the receipt of the stamp that an
      earlier event of the run carried. */
  datatype Event = Local(at: NodeId) | Receive(at: NodeId, from: nat)

  type Clocks = map<NodeId, Hlc>

  ghost predicate WellFormed(start: Clocks, run: seq<Event>) {
    forall i :: 0 <= i < |run| ==> run[i].at in start && (run[i].Receive? ==> run[i].from < i)
  }

  /** The clocks after the run and the stamp of each event. */
  ghost function Play(start: Clocks, run: seq<Event>): (r: (Clocks, seq<Hlc>))
    requires WellFormed(start, run)
    ensures r.0.Keys == start.Keys && |r.1| == |run|
  {
    if run == [] then (start, [])
    else
      var (clocks, stamps) := Play(start, run[..|run| - 1]);
      var e := run[|run| - 1];
      var next := if e.Local? then clocks[e.at].Increment() else clocks[e.at].Merge(stamps[e.from]);
      (clocks[e.at := next], stamps + [next])
  }

  ghost function Stamp(start: Clocks, run: seq<Event>, i: nat): Hlc
    requires WellFormed(start, run) && i < |run|
  {
    Play(start, run).1[i]
  }

  /** e directly precedes f: earlier on the same node, or e's stamp was received by f. */
  ghost predicate Directly(run: seq<Event>, e: nat, f: nat) {
    e < f < |run| && (run[e].at == run[f].at || run[f] == Receive(run[f].at, e))
  }

  /** The transitive closure of Directly. */
  ghost predicate HappensBefore(run: seq<Event>, e: nat, f: nat)
    decreases f
  {
    Directly(run, e, f) || exists g :: e < g < f && HappensBefore(run, e, g) && Directly(run, g, f)
  }

  lemma {:induction false} PlayPrefix(start: Clocks, run: seq<Event>, n: nat)
    requires WellFormed(start, run) && n <= |run|
    ensures WellFormed(start, run[..n])
    ensures Play(start, run[..n]).1 == Play(start, run).1[..n]
  {
    if n < |run| {
      var front := run[..|run| - 1];
      PlayPrefix(start, front, n);
      assert front[..n] == run[..n];
      assert Play(start, run).1[..|front|] == Play(start, front).1;
    } else {
      assert run[..n] == run;
    }
  }

  ghost predicate AtLeast(a: Hlc, b: Hlc) {
    !b.IsAfter(a)
  }

  /** A node's clock is at least the stamp of each of its events. */
  lemma {:induction false} ClockDominates(start: Clocks, run: seq<Event>, e: nat)
    requires WellFormed(start, run) && e < |run|
    ensures AtLeast(Play(start, run).0[run[e].at], Stamp(start, run, e))
  {
    var front := run[..|run| - 1];
    if e < |front| {
      ClockDominates(start, front, e);
    }
  }

  /** Any stamp of any node advances strictly along one direct step. */
  lemma DirectStepAdvances(start: Clocks, run: seq<Event>, e: nat, f: nat)
    requires WellFormed(start, run) && Directly(run, e, f)
    ensures Stamp(start, run, f).IsAfter(Stamp(start, run, e))
  {
    DirectlyRaises(start, run, e, f);
  }

  /** Causal consistency: in every run of any nodes, an event that happens after another one is stamped after it. */
  lemma {:induction false} CausalityIsRespected(start: Clocks, run: seq<Event>, e: nat, f: nat)
    requires WellFormed(start, run) && HappensBefore(run, e, f) && f < |run|
    ensures Stamp(start, run, f).IsAfter(Stamp(start, run, e))
    decreases f
  {
    if Directly(run, e, f) {
      DirectStepAdvances(start, run, e, f);
    } else {
      var g :| e < g < f && HappensBefore(run, e, g) && Directly(run, g, f);
      CausalityIsRespected(start, run, e, g);
      DirectStepAdvances(start, run, g, f);
    }
  }

  // ---------------------------------------------------------------- what a stamp is, exactly

  ghost predicate LinkedAt(run: seq<Event>, c: seq<nat>, i: int) {
    1 <= i < |c| && Directly(run, c[i - 1], c[i])
  }

  /** Events of the run, each directly after the one before it, that end in f. */
  ghost predicate LeadsTo(run: seq<Event>, c: seq<nat>, f: nat) {
    && c != [] && c[|c| - 1] == f && (forall i :: 0 <= i < |c| ==> c[i] < |run|)
    && forall i {:trigger LinkedAt(run, c, i)} :: 1 <= i < |c| ==> LinkedAt(run, c, i)
  }

  /** The clock that the chain's first node started with. */
  ghost function Origin(start: Clocks, run: seq<Event>, c: seq<nat>): Hlc
    requires WellFormed(start, run) && c != [] && c[0] < |run|
  {
    start[run[c[0]].at]
  }

  lemma {:induction false} ClockAboveStart(start: Clocks, run: seq<Event>, a: NodeId)
    requires WellFormed(start, run) && a in start
    ensures Play(start, run).0[a].physical >= start[a].physical && Play(start, run).0[a].logical >= start[a].logical
    ensures Play(start, run).0[a].node == start[a].node
  {
    if run != [] {
      ClockAboveStart(start, run[..|run| - 1], a);
    }
  }

  lemma {:induction false} ClockAboveStamp(start: Clocks, run: seq<Event>, e: nat)
    requires WellFormed(start, run) && e < |run|
    ensures Play(start, run).0[run[e].at].physical >= Stamp(start, run, e).physical
    ensures Play(start, run).0[run[e].at].logical >= Stamp(start, run, e).logical
  {
    var front := run[..|run| - 1];
    if e < |front| {
      ClockAboveStamp(start, front, e);
    }
  }

  /** A node's clock is the one it started with or the stamp of one of its events. */
  lemma {:induction false} ClockIsStamp(start: Clocks, run: seq<Event>, a: NodeId) returns (e: Option<nat>)
    requires WellFormed(start, run) && a in start
    ensures e.None? ==> Play(start, run).0[a] == start[a]
    ensures e.Some? ==> e.value < |run| && run[e.value].at == a && Play(start, run).0[a] == Stamp(start, run, e.value)
  {
    if run == [] {
      e := None;
    } else if run[|run| - 1].at == a {
      e := Some(|run| - 1);
    } else {
      e := ClockIsStamp(start, run[..|run| - 1], a);
    }
  }

  /** The clock of its node just before the f-th event. */
  ghost function ClockBefore(start: Clocks, run: seq<Event>, f: nat): Hlc
    requires WellFormed(start, run) && f < |run|
  {
    Play(start, run[..f]).0[run[f].at]
  }

  lemma StampSteps(start: Clocks, run: seq<Event>, f: nat)
    requires WellFormed(start, run) && f < |run|
    ensures var clock, stamp := ClockBefore(start, run, f), Stamp(start, run, f);
            && stamp.node == clock.node
            && (run[f].Local? ==> stamp.physical == clock.physical && stamp.logical == clock.logical + 1)
            && (run[f].Receive? ==>
                  var received := Stamp(start, run, run[f].from);
                  && stamp.physical == Max(clock.physical, received.physical)
                  && stamp.logical == Max(clock.logical, received.logical) + 1)
  {
    var upTo := run[..f + 1];
    PlayPrefix(start, run, f);
    PlayPrefix(start, run, f + 1);
    assert upTo[..f] == run[..f] && upTo[f] == run[f];
    assert Stamp(start, run, f) == Play(start, upTo).1[f];
  }

  lemma StampOfPrefix(start: Clocks, run: seq<Event>, n: nat, e: nat)
    requires WellFormed(start, run) && e < n <= |run|
    ensures WellFormed(start, run[..n]) && Stamp(start, run[..n], e) == Stamp(start, run, e)
  {
    PlayPrefix(start, run, n);
  }

  lemma DirectlyRaises(start: Clocks, run: seq<Event>, e: nat, f: nat)
    requires WellFormed(start, run) && Directly(run, e, f)
    ensures Stamp(start, run, f).logical >= Stamp(start, run, e).logical + 1
    ensures Stamp(start, run, f).physical >= Stamp(start, run, e).physical
  {
    StampSteps(start, run, f);
    if run[e].at == run[f].at {
      StampOfPrefix(start, run, f, e);
      ClockAboveStamp(start, run[..f], e);
    }
  }

  /** Every chain of events bounds the stamp it leads to from below. */
  lemma {:induction false} ChainBounds(start: Clocks, run: seq<Event>, c: seq<nat>, f: nat)
    requires WellFormed(start, run) && LeadsTo(run, c, f)
    ensures Origin(start, run, c).logical + |c| <= Stamp(start, run, f).logical
    ensures Origin(start, run, c).physical <= Stamp(start, run, f).physical
    decreases |c|
  {
    if |c| == 1 {
      StampSteps(start, run, f);
      PlayPrefix(start, run, f);
      ClockAboveStart(start, run[..f], run[f].at);
    } else {
      assert LinkedAt(run, c, |c| - 1);
      var front := c[..|c| - 1];
      forall i | 1 <= i < |front|
        ensures LinkedAt(run, front, i)
      {
        assert LinkedAt(run, c, i);
      }
      ChainBounds(start, run, front, c[|c| - 2]);
      DirectlyRaises(start, run, c[|c| - 2], f);
    }
  }

  lemma ChainGrows(run: seq<Event>, c: seq<nat>, e: nat, f: nat)
    requires LeadsTo(run, c, e) && Directly(run, e, f)
    ensures LeadsTo(run, c + [f], f)
  {
    var longer := c + [f];
    forall i | 1 <= i < |longer|
      ensures LinkedAt(run, longer, i)
    {
      assert i < |c| ==> LinkedAt(run, c, i);
    }
  }

  /** The direct predecessor from which the logical (or else the physical) part of a stamp comes, if any. */
  lemma Source(start: Clocks, run: seq<Event>, f: nat, logical: bool) returns (e: Option<nat>)
    requires WellFormed(start, run) && f < |run|
    ensures e.Some? ==> Directly(run, e.value, f)
    ensures var from := if e.Some? then Stamp(start, run, e.value) else start[run[f].at];
            && (logical ==> Stamp(start, run, f).logical == from.logical + 1)
            && (!logical ==> Stamp(start, run, f).physical == from.physical)
  {
    StampSteps(start, run, f);
    PlayPrefix(start, run, f);
    e := ClockIsStamp(start, run[..f], run[f].at);
    if e.Some? {
      StampOfPrefix(start, run, f, e.value);
    }
    if run[f].Receive? {
      var clock, received := ClockBefore(start, run, f), Stamp(start, run, run[f].from);
      if (if logical then received.logical > clock.logical else received.physical > clock.physical) {
        e := Some(run[f].from);
      }
    }
  }

  lemma {:induction false} ChainAttains(start: Clocks, run: seq<Event>, f: nat, logical: bool) returns (c: seq<nat>)
    requires WellFormed(start, run) && f < |run|
    ensures LeadsTo(run, c, f)
    ensures logical ==> Origin(start, run, c).logical + |c| == Stamp(start, run, f).logical
    ensures !logical ==> Origin(start, run, c).physical == Stamp(start, run, f).physical
    decreases f
  {
    var e := Source(start, run, f, logical);
    if e.None? {
      c := [f];
    } else {
      c := ChainAttains(start, run, e.value, logical);
      ChainGrows(run, c, e.value, f);
      c := c + [f];
    }
  }

  /** In every run a stamp carries its own node, the greatest physical time that any chain of events leading to it
      started from, and a counter that is the greatest sum of a chain's length and the counter it started from. So if
      all counters start at zero, it is the length of the longest causal chain. */
  lemma StampIsLongestChain(start: Clocks, run: seq<Event>, f: nat) returns (c: seq<nat>, d: seq<nat>)
    requires WellFormed(start, run) && f < |run|
    ensures Stamp(start, run, f).node == start[run[f].at].node
    ensures LeadsTo(run, c, f) && Stamp(start, run, f).logical == Origin(start, run, c).logical + |c|
    ensures LeadsTo(run, d, f) && Stamp(start, run, f).physical == Origin(start, run, d).physical
    ensures forall other :: LeadsTo(run, other, f) ==>
              && Origin(start, run, other).logical + |other| <= Stamp(start, run, f).logical
              && Origin(start, run, other).physical <= Stamp(start, run, f).physical
  {
    c := ChainAttains(start, run, f, true);
    d := ChainAttains(start, run, f, false);
    forall other | LeadsTo(run, other, f)
      ensures Origin(start, run, other).logical + |other| <= Stamp(start, run, f).logical
      ensures Origin(start, run, other).physical <= Stamp(start, run, f).physical
    {
      ChainBounds(start, run, other, f);
    }
    StampSteps(start, run, f);
    PlayPrefix(start, run, f);
    ClockAboveStart(start, run[..f], run[f].at);
  }
}
