/** Last-writer-wins registers and the "lww" conflict rule of services/sync/engine.py. */
module LwwRegister {
  import opened Common
  import opened SyncClock

  /** What a register or a key holds: a set, or anything else. */
  datatype Value = Scalar(text: string) | Set(members: set<string>)

  /** A register's state, which is also the write it last accepted. */
  datatype Write = Write(value: Value, timestamp: Hlc)

  function Merged(self: Write, other: Write): Write {
    if other.timestamp.IsAfter(self.timestamp) then other else self
  }

  class Register {
    var value: Value
    var timestamp: Hlc

    ghost function State(): Write
      reads this
    {
      Write(value, timestamp)
    }

    constructor (value: Value, timestamp: Hlc)
      ensures State() == Write(value, timestamp)
    {
      this.value := value;
      this.timestamp := timestamp;
    }

    method Update(value: Value, timestamp: Hlc)
      modifies this
      ensures State() == Merged(old(State()), Write(value, timestamp))
    {
      if timestamp.IsAfter(this.timestamp) {
        this.value := value;
        this.timestamp := timestamp;
      }
    }

    /** `merge` answers with this very object when the other register is not newer. */
    method Merge(other: Register) returns (r: Register)
      ensures r.State() == Merged(State(), other.State())
      ensures r == this || fresh(r)
    {
      if other.timestamp.IsAfter(timestamp) {
        r := new Register(other.value, other.timestamp);
        return r;
      }
      return this;
    }
  }

  // ---------------------------------------------------------------- replicated histories

  /** How a register state came about: created with a first write, updated with a write, or merged with the
      state of another replica. */
  datatype History =
    | Created(w: Write)
    | Updated(before: History, w: Write)
    | MergedWith(self: History, other: History)
  {
    function State(): Write {
      match this
      case Created(w) => w
      case Updated(before, w) => Merged(before.State(), w)
      case MergedWith(self, other) => Merged(self.State(), other.State())
    }

    /** The writes absorbed, directly or through merges. */
    ghost function Writes(): (r: set<Write>)
      ensures r != {}
    {
      match this
      case Created(w) => {w}
      case Updated(before, w) => before.Writes() + {w}
      case MergedWith(self, other) => self.Writes() + other.Writes()
    }
  }

  ghost predicate IsGreatest(w: Write, writes: set<Write>) {
    w in writes && forall x :: x in writes ==> !x.timestamp.IsAfter(w.timestamp)
  }

  /** A register always holds one of the absorbed writes of greatest stamp. */
  lemma {:induction false} HoldsGreatest(h: History)
    ensures IsGreatest(h.State(), h.Writes())
  {
    match h
    case Created(w) =>
    case Updated(before, w) =>
      HoldsGreatest(before);
    case MergedWith(self, other) =>
      HoldsGreatest(self);
      HoldsGreatest(other);
  }

  /** Greatest stamps tie only between equal values. */
  ghost predicate GreatestAgree(writes: set<Write>) {
    forall a, b :: IsGreatest(a, writes) && IsGreatest(b, writes) ==> a.value == b.value
  }

  ghost predicate Converges(writes: set<Write>) {
    forall g: History, h: History {:trigger g.Writes(), h.Writes()} ::
      g.Writes() == writes && h.Writes() == writes ==> g.State().value == h.State().value
  }

  /** A history that starts from `w` and then absorbs all of `rest` in some order. */
  lemma {:induction false} HistoryFrom(w: Write, rest: set<Write>) returns (h: History)
    ensures h.Writes() == {w} + rest
    ensures (forall x :: x in rest ==> !x.timestamp.IsAfter(w.timestamp)) ==> h.State() == w
    decreases rest
  {
    if rest == {} {
      h := Created(w);
    } else {
      var x :| x in rest;
      var before := HistoryFrom(w, rest - {x});
      h := Updated(before, x);
    }
  }

  /** Replicas that absorbed the same writes, in any order, with any merges and any duplication, agree on the value
      exactly when the writes of greatest stamp carry one value. */
  lemma ConvergenceIsAgreement(writes: set<Write>)
    ensures Converges(writes) <==> GreatestAgree(writes)
  {
    if GreatestAgree(writes) {
      forall g: History, h: History | g.Writes() == writes && h.Writes() == writes
        ensures g.State().value == h.State().value
      {
        HoldsGreatest(g);
        HoldsGreatest(h);
      }
    }
    if Converges(writes) {
      forall a, b | IsGreatest(a, writes) && IsGreatest(b, writes)
        ensures a.value == b.value
      {
        var g := HistoryFrom(a, writes);
        var h := HistoryFrom(b, writes);
        assert g.Writes() == writes && h.Writes() == writes;
      }
    }
  }

  /** The hypothesis a caller can check write by write. */
  lemma UniqueStampsConverge(g: History, h: History)
    requires g.Writes() == h.Writes()
    requires forall a, b :: a in g.Writes() && b in g.Writes() && Tied(a.timestamp, b.timestamp) ==> a.value == b.value
    ensures g.State().value == h.State().value
    ensures Tied(g.State().timestamp, h.State().timestamp)
  {
    HoldsGreatest(g);
    HoldsGreatest(h);
  }

  /** Two replicas that write different values under tied stamps stay apart after exchanging states. */
  lemma TiedWritesDiverge() returns (g: History, h: History)
    ensures g.Writes() == h.Writes()
    ensures g.State().value != h.State().value
  {
    var edge := Created(Write(Scalar("on"), Hlc(7, 1, "edge")));
    var cloud := Created(Write(Scalar("off"), Hlc(7, 1, "cloud")));
    g, h := MergedWith(edge, cloud), MergedWith(cloud, edge);
  }

  // ---------------------------------------------------------------- conflicts

  datatype Conflict =
    Conflict(cloudValue: Value, edgeValue: Value, cloudHlc: Hlc, edgeHlc: Hlc, strategy: string)

  /** `detect_conflict`: none between equal values, otherwise a conflict with the default strategy. */
  function DetectConflict(cloud: Write, edge: Write): Option<Conflict> {
    if cloud.value == edge.value then None
    else Some(Conflict(cloud.value, edge.value, cloud.timestamp, edge.timestamp, "lww"))
  }

  function ResolveConflict(c: Conflict): Value {
    if c.strategy == "lww" then
      if c.edgeHlc.IsAfter(c.cloudHlc) then c.edgeValue else c.cloudValue
    else if c.strategy == "merge" then
      if c.cloudValue.Set? && c.edgeValue.Set? then Set(c.cloudValue.members + c.edgeValue.members) else c.edgeValue
    else c.edgeValue
  }

  /** Detecting and then resolving agrees with merging the edge register into the cloud register. */
  lemma ResolutionIsMerge(cloud: Write, edge: Write)
    ensures var conflict := DetectConflict(cloud, edge);
            (if conflict.None? then cloud.value else ResolveConflict(conflict.value))
              == MergedWith(Created(cloud), Created(edge)).State().value
  {
  }

  function Swapped(c: Conflict): Conflict {
    Conflict(c.edgeValue, c.cloudValue, c.edgeHlc, c.cloudHlc, c.strategy)
  }

  /** On sets the "merge" strategy does not depend on which side is called cloud; "lww" does exactly on ties. */
  lemma ResolutionIsSymmetric(c: Conflict)
    ensures c.strategy == "merge" && c.cloudValue.Set? && c.edgeValue.Set? ==>
              ResolveConflict(c) == ResolveConflict(Swapped(c))
    ensures c.strategy == "lww" && c.cloudValue != c.edgeValue ==>
              (ResolveConflict(c) == ResolveConflict(Swapped(c)) <==> !Tied(c.cloudHlc, c.edgeHlc))
  {
    if c.cloudValue.Set? && c.edgeValue.Set? {
      assert c.cloudValue.members + c.edgeValue.members == c.edgeValue.members + c.cloudValue.members;
    }
  }

  /** There is a conflict exactly between different values; it carries both writes and asks for the later one. */
  lemma DifferencesConflict(cloud: Write, edge: Write)
    ensures DetectConflict(cloud, edge).Some? <==> cloud.value != edge.value
    ensures cloud.value != edge.value ==>
              var c := DetectConflict(cloud, edge).value;
              && c.cloudValue == cloud.value && c.cloudHlc == cloud.timestamp
              && c.edgeValue == edge.value && c.edgeHlc == edge.timestamp
              && (ResolveConflict(c) == edge.value <==> edge.timestamp.IsAfter(cloud.timestamp))
              && (ResolveConflict(c) == cloud.value <==> !edge.timestamp.IsAfter(cloud.timestamp))
  {
  }

  /** The "merge" strategy keeps on two sets exactly what either holds; otherwise, and under any strategy but "lww",
      the edge wins. */
  lemma MergeKeepsBoth(c: Conflict)
    requires c.strategy != "lww"
    ensures c.strategy == "merge" && c.cloudValue.Set? && c.edgeValue.Set? ==>
              && ResolveConflict(c).Set?
              && forall x :: x in ResolveConflict(c).members <==> x in c.cloudValue.members || x in c.edgeValue.members
    ensures c.strategy != "merge" || !c.cloudValue.Set? || !c.edgeValue.Set? ==> ResolveConflict(c) == c.edgeValue
  {
  }
}
