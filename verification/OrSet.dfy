/** The observed-remove set of services/sync/engine.py. */
module OrSet {
  import opened Common

  type Element = string
  type Tag = string

  /** The two fields of an ORSet. */
  datatype State = State(elements: map<Element, set<Tag>>, tags: set<Tag>) {
    function TagsOf(e: Element): set<Tag> {
      if e in elements then elements[e] else {}
    }

    function Visible(): set<Element> {
      elements.Keys
    }

    function Add(e: Element, tag: Tag): State {
      State(elements[e := TagsOf(e) + {tag}], tags + {tag})
    }

    /** Without tags the element disappears; with tags it disappears once none of its own is left. */
    function Remove(e: Element, only: Option<set<Tag>>): State {
      if e !in elements then this
      else if only.None? || elements[e] <= only.value then
        State(elements - {e}, tags - if only.None? then elements[e] else only.value)
      else
        State(elements[e := elements[e] - only.value], tags - only.value)
    }

    /** Every element has a tag, no two elements share one, and `tags` is the union of their tags. */
    ghost predicate Exact() {
      && (forall e :: e in elements ==> elements[e] != {})
      && (forall e, f :: e in elements && f in elements && e != f ==> elements[e] !! elements[f])
      && (forall t :: t in tags <==> exists e :: e in elements && t in elements[e])
    }
  }

  const EMPTY := State(map[], {})

  ghost predicate HasTag(a: State, b: State, e: Element) {
    a.TagsOf(e) + b.TagsOf(e) != {}
  }

  /** `merge` puts every element that has a tag on either side into a new set, under one of those tags. */
  ghost predicate IsMerge(a: State, b: State, m: State, pick: map<Element, Tag>) {
    IsMergeExcept(a, b, m, pick, {})
  }

  ghost predicate IsMergeExcept(a: State, b: State, m: State, pick: map<Element, Tag>, todo: set<Element>) {
    && (forall e {:trigger HasTag(a, b, e)} :: e in pick <==> e !in todo && HasTag(a, b, e))
    && (forall e {:trigger pick[e]} :: e in pick ==> pick[e] in a.TagsOf(e) + b.TagsOf(e))
    && m.elements.Keys == pick.Keys
    && (forall e {:trigger m.elements[e]} :: e in pick ==> m.elements[e] == {pick[e]})
    && m.tags == pick.Values
  }

  // ---------------------------------------------------------------- the class

  class ORSet {
    var elements: map<Element, set<Tag>>
    var tags: set<Tag>

    ghost function Abs(): State
      reads this
    {
      State(elements, tags)
    }

    constructor ()
      ensures Abs() == EMPTY
    {
      elements, tags := map[], {};
    }

    /** An absent or empty tag is replaced by a new UUID. */
    method Add(element: Element, tag: Option<Tag>, uuid: Tag)
      modifies this
      ensures Abs() == old(Abs()).Add(element, if tag.None? || tag.value == "" then uuid else tag.value)
    {
      var t := if tag.None? || tag.value == "" then uuid else tag.value;
      if element !in elements {
        elements := elements[element := {}];
      }
      elements := elements[element := elements[element] + {t}];
      tags := tags + {t};
    }

    method Remove(element: Element, only: Option<set<Tag>>)
      modifies this
      ensures Abs() == old(Abs()).Remove(element, only)
    {
      if element in elements {
        if only.None? {
          tags := tags - elements[element];
          elements := elements - {element};
        } else {
          ghost var before := elements;
          elements := elements[element := elements[element] - only.value];
          tags := tags - only.value;
          EmptyDifference(before[element], only.value);
          if elements[element] == {} {
            elements := elements - {element};
            assert elements == before - {element};
          }
        }
      }
    }

    method Get() returns (r: set<Element>)
      ensures r == Abs().Visible()
    {
      r := elements.Keys;
    }

    /** The order over the elements and the tag taken from each are arbitrary. No tag is empty, since `add` replaces
        an empty tag (see RunsStayExact). */
    method Merge(other: ORSet) returns (merged: ORSet, ghost pick: map<Element, Tag>)
      requires forall e :: "" !in Abs().TagsOf(e) && "" !in other.Abs().TagsOf(e)
      ensures fresh(merged) && IsMerge(Abs(), other.Abs(), merged.Abs(), pick)
    {
      ghost var a, b := Abs(), other.Abs();
      merged := new ORSet();
      pick := map[];
      var todo := elements.Keys + other.elements.Keys;
      while todo != {}
        invariant fresh(merged)
        invariant IsMergeExcept(a, b, merged.Abs(), pick, todo)
        decreases todo
      {
        var elem :| elem in todo;
        var tagsSelf := if elem in elements then elements[elem] else {};
        var tagsOther := if elem in other.elements then other.elements[elem] else {};
        if tagsSelf != {} || tagsOther != {} {
          var t :| t in tagsSelf + tagsOther;
          assert t in a.TagsOf(elem) + b.TagsOf(elem) && t != "";
          PickOne(a, b, merged.Abs(), pick, todo, elem, t);
          merged.Add(elem, Some(t), "");
          pick := pick[elem := t];
        } else {
          assert !HasTag(a, b, elem);
        }
        todo := todo - {elem};
      }
    }
  }

  lemma PickOne(a: State, b: State, m: State, pick: map<Element, Tag>, todo: set<Element>, e: Element, t: Tag)
    requires IsMergeExcept(a, b, m, pick, todo)
    requires e in todo && t in a.TagsOf(e) + b.TagsOf(e)
    ensures IsMergeExcept(a, b, m.Add(e, t), pick[e := t], todo - {e})
  {
    assert HasTag(a, b, e);
    var pick', m' := pick[e := t], m.Add(e, t);
    ValuesOfExtension(pick, e, t);
    assert m.TagsOf(e) + {t} == {t};
    assert m'.elements == m.elements[e := {t}];
    forall f | f in pick'
      ensures m'.elements[f] == {pick'[f]}
    {
      assert f != e ==> m.elements[f] == {pick[f]};
    }
    forall f
      ensures f in pick' <==> f !in todo - {e} && HasTag(a, b, f)
    {
      assert f != e ==> (f in pick <==> f !in todo && HasTag(a, b, f));
    }
  }

  // ---------------------------------------------------------------- exactness of the tag index

  /** Adding keeps the index exact exactly when the tag is new or already marks this element. */
  lemma AddKeepsExact(s: State, e: Element, t: Tag)
    requires s.Exact()
    ensures s.Add(e, t).Exact() <==> t !in s.tags || t in s.TagsOf(e)
    ensures s.Add(e, t).Visible() == s.Visible() + {e}
  {
    var s' := s.Add(e, t);
    assert t in s'.elements[e];
    if t in s.tags && t !in s.TagsOf(e) {
      var f :| f in s.elements && t in s.elements[f];
      assert f in s'.elements && t in s'.elements[f];
    } else {
      forall u
        ensures u in s'.tags <==> exists f :: f in s'.elements && u in s'.elements[f]
      {
        if u in s.tags {
          var f :| f in s.elements && u in s.elements[f];
          assert f in s'.elements && u in s'.elements[f];
        }
      }
    }
  }

  /** Removing keeps the index exact exactly when no tag of another element is named: foreign tags are dropped from
      the index although their elements keep them. */
  lemma RemoveKeepsExact(s: State, e: Element, only: Option<set<Tag>>)
    requires s.Exact() && e in s.elements
    ensures s.Remove(e, only).Exact() <==> only.None? || only.value * s.tags <= s.elements[e]
    ensures e !in s.Remove(e, only).Visible() <==> only.None? || s.elements[e] <= only.value
  {
    var s' := s.Remove(e, only);
    if only.Some? {
      EmptyDifference(s.elements[e], only.value);
    }
    if only.None? || only.value * s.tags <= s.elements[e] {
      forall t | t in s'.tags
        ensures exists f :: f in s'.elements && t in s'.elements[f]
      {
        var f :| f in s.elements && t in s.elements[f];
        assert f in s'.elements && t in s'.elements[f];
      }
      forall t, f | f in s'.elements && t in s'.elements[f]
        ensures t in s'.tags
      {
        assert t in s.elements[f] && t in s.tags;
        if f != e {
          assert s.elements[f] !! s.elements[e];
        }
      }
    } else {
      var t :| t in only.value * s.tags && t !in s.elements[e];
      var f :| f in s.elements && t in s.elements[f];
      assert f in s'.elements && t in s'.elements[f] && t !in s'.tags;
    }
  }

  // ---------------------------------------------------------------- what one replica's history determines

  datatype Edit = Added(e: Element, tag: Tag) | Removed(e: Element, only: Option<set<Tag>>)

  ghost function AfterEdits(edits: seq<Edit>): State {
    if edits == [] then EMPTY
    else
      var before, last := AfterEdits(edits[..|edits| - 1]), edits[|edits| - 1];
      if last.Added? then before.Add(last.e, last.tag) else before.Remove(last.e, last.only)
  }

  /** The edit removes the tag from the element. */
  ghost predicate Drops(edit: Edit, e: Element, t: Tag) {
    edit.Removed? && edit.e == e && (edit.only.None? || t in edit.only.value)
  }

  /** The i-th edit adds the tag to the element and no later one removes it. */
  ghost predicate LastsFrom(edits: seq<Edit>, e: Element, t: Tag, i: int) {
    0 <= i < |edits| && edits[i] == Added(e, t) && forall j :: i < j < |edits| ==> !Drops(edits[j], e, t)
  }

  /** The tag has been added for the element and not been removed since. */
  ghost predicate Lasts(edits: seq<Edit>, e: Element, t: Tag) {
    exists i :: LastsFrom(edits, e, t, i)
  }

  lemma LastsOneMore(edits: seq<Edit>, e: Element, t: Tag)
    requires edits != []
    ensures var last := edits[|edits| - 1];
            Lasts(edits, e, t) <==> last == Added(e, t) || (Lasts(edits[..|edits| - 1], e, t) && !Drops(last, e, t))
  {
    var front, n := edits[..|edits| - 1], |edits| - 1;
    if Lasts(edits, e, t) {
      var i :| LastsFrom(edits, e, t, i);
      assert i < n ==> LastsFrom(front, e, t, i);
    }
    if edits[n] == Added(e, t) {
      assert LastsFrom(edits, e, t, n);
    } else if Lasts(front, e, t) && !Drops(edits[n], e, t) {
      var i :| LastsFrom(front, e, t, i);
      assert LastsFrom(edits, e, t, i);
    }
  }

  lemma EditTags(s: State, edit: Edit, e: Element, t: Tag)
    ensures var s' := if edit.Added? then s.Add(edit.e, edit.tag) else s.Remove(edit.e, edit.only);
            t in s'.TagsOf(e) <==> edit == Added(e, t) || (t in s.TagsOf(e) && !Drops(edit, e, t))
  {
  }

  /** After any additions and removals the tags of an element are exactly those added for it and not removed since. */
  lemma {:induction false} TagsAreThoseLasting(edits: seq<Edit>, e: Element, t: Tag)
    ensures t in AfterEdits(edits).TagsOf(e) <==> Lasts(edits, e, t)
  {
    if edits != [] {
      var front, last := edits[..|edits| - 1], edits[|edits| - 1];
      TagsAreThoseLasting(front, e, t);
      EditTags(AfterEdits(front), last, e, t);
      LastsOneMore(edits, e, t);
    }
  }

  lemma {:induction false} EditsKeepTagged(edits: seq<Edit>)
    ensures Tagged(AfterEdits(edits))
  {
    if edits != [] {
      EditsKeepTagged(edits[..|edits| - 1]);
      EditKeepsTagged(AfterEdits(edits[..|edits| - 1]), edits[|edits| - 1]);
    }
  }

  lemma EditKeepsTagged(s: State, edit: Edit)
    requires Tagged(s)
    ensures Tagged(if edit.Added? then s.Add(edit.e, edit.tag) else s.Remove(edit.e, edit.only))
  {
    if edit.Added? {
      assert edit.tag in s.Add(edit.e, edit.tag).elements[edit.e];
    } else if edit.e in s.elements && edit.only.Some? {
      EmptyDifference(s.elements[edit.e], edit.only.value);
    }
  }

  /** An element is visible exactly while some tag added for it has not been removed since; in particular, removing
      one of several tags leaves it visible under the others. */
  lemma VisibleWhileTagLasts(edits: seq<Edit>, e: Element)
    ensures e in AfterEdits(edits).Visible() <==> exists t :: Lasts(edits, e, t)
  {
    var s := AfterEdits(edits);
    EditsKeepTagged(edits);
    if e in s.elements {
      assert s.elements[e] != {};
      var t :| t in s.elements[e];
      assert t in s.TagsOf(e);
      TagsAreThoseLasting(edits, e, t);
    }
    if t :| Lasts(edits, e, t) {
      TagsAreThoseLasting(edits, e, t);
    }
  }

  /** Every tag is added once, and removals name tags that the element has. */
  ghost predicate Orderly(edits: seq<Edit>) {
    forall i {:trigger edits[i]} :: 0 <= i < |edits| ==> OrderlyAt(edits, i)
  }

  ghost predicate OrderlyAt(edits: seq<Edit>, i: int)
    requires 0 <= i < |edits|
  {
    match edits[i]
    case Added(e, t) => forall j :: 0 <= j < i && edits[j].Added? ==> edits[j].tag != t
    case Removed(e, only) => only.Some? ==> forall t :: t in only.value ==> Lasts(edits[..i], e, t)
  }

  lemma OrderlyFront(edits: seq<Edit>, n: nat)
    requires Orderly(edits) && n <= |edits|
    ensures Orderly(edits[..n])
  {
    var front := edits[..n];
    forall i | 0 <= i < n
      ensures OrderlyAt(front, i)
    {
      assert OrderlyAt(edits, i) && front[i] == edits[i] && front[..i] == edits[..i];
    }
  }

  /** Then the index lists exactly the tags that last, each for one element only. */
  lemma {:induction false} IndexIsThoseLasting(edits: seq<Edit>)
    requires Orderly(edits)
    ensures AfterEdits(edits).Exact()
    ensures forall t :: t in AfterEdits(edits).tags <==> exists e :: Lasts(edits, e, t)
  {
    if edits != [] {
      var n := |edits| - 1;
      var before, last := AfterEdits(edits[..n]), edits[n];
      OrderlyFront(edits, n);
      IndexIsThoseLasting(edits[..n]);
      assert OrderlyAt(edits, n);
      if last.Added? {
        TagIsNew(edits, n);
        AddKeepsExact(before, last.e, last.tag);
      } else if last.e in before.elements {
        OwnTagsOnly(edits, n);
        RemoveKeepsExact(before, last.e, last.only);
      }
    }
    IndexOfExact(edits);
  }

  lemma TagIsNew(edits: seq<Edit>, n: nat)
    requires n < |edits| && OrderlyAt(edits, n) && edits[n].Added?
    requires forall t :: t in AfterEdits(edits[..n]).tags <==> exists e :: Lasts(edits[..n], e, t)
    ensures edits[n].tag !in AfterEdits(edits[..n]).tags
  {
    forall e, i
      ensures !LastsFrom(edits[..n], e, edits[n].tag, i)
    {
      assert 0 <= i < n && edits[i].Added? ==> edits[i].tag != edits[n].tag;
    }
  }

  lemma OwnTagsOnly(edits: seq<Edit>, n: nat)
    requires n < |edits| && OrderlyAt(edits, n) && edits[n].Removed? && edits[n].e in AfterEdits(edits[..n]).elements
    ensures edits[n].only.Some? ==> edits[n].only.value <= AfterEdits(edits[..n]).elements[edits[n].e]
  {
    if edits[n].only.Some? {
      forall t | t in edits[n].only.value
        ensures t in AfterEdits(edits[..n]).TagsOf(edits[n].e)
      {
        TagsAreThoseLasting(edits[..n], edits[n].e, t);
      }
    }
  }

  lemma IndexOfExact(edits: seq<Edit>)
    requires AfterEdits(edits).Exact()
    ensures forall t :: t in AfterEdits(edits).tags <==> exists e :: Lasts(edits, e, t)
  {
    var s := AfterEdits(edits);
    forall t
      ensures t in s.tags <==> exists e :: Lasts(edits, e, t)
    {
      if t in s.tags {
        var e :| e in s.elements && t in s.elements[e];
        TagsAreThoseLasting(edits, e, t);
      }
      if e :| Lasts(edits, e, t) {
        TagsAreThoseLasting(edits, e, t);
        assert e in s.elements && t in s.elements[e];
      }
    }
  }

  // ---------------------------------------------------------------- merging

  ghost predicate Tagged(s: State) {
    forall e {:trigger s.elements[e]} :: e in s.elements ==> s.elements[e] != {}
  }

  /** The visible set of a merge is the union of the visible sets, whichever tags are picked. */
  lemma MergeShowsUnion(a: State, b: State, m: State, pick: map<Element, Tag>)
    requires Tagged(a) && Tagged(b) && IsMerge(a, b, m, pick)
    ensures Tagged(m)
    ensures m.Visible() == a.Visible() + b.Visible()
  {
    forall e
      ensures e in m.elements <==> e in a.elements || e in b.elements
    {
      assert e in m.elements <==> HasTag(a, b, e);
      if e in a.elements {
        var t :| t in a.elements[e];
        assert t in a.TagsOf(e) + b.TagsOf(e);
      }
      if e in b.elements {
        var t :| t in b.elements[e];
        assert t in a.TagsOf(e) + b.TagsOf(e);
      }
    }
  }

  ghost predicate MergesTo(a: State, b: State, m: State) {
    exists pick :: IsMerge(a, b, m, pick)
  }

  /** On the visible set, merging is commutative, associative and idempotent. */
  lemma MergeCommutes(a: State, b: State, ab: State, ba: State)
    requires Tagged(a) && Tagged(b) && MergesTo(a, b, ab) && MergesTo(b, a, ba)
    ensures ab.Visible() == ba.Visible()
  {
    SomeMergeShowsUnion(a, b, ab);
    SomeMergeShowsUnion(b, a, ba);
  }

  lemma MergeAssociates(a: State, b: State, c: State, ab: State, bc: State, abThenC: State, aThenBc: State)
    requires Tagged(a) && Tagged(b) && Tagged(c)
    requires MergesTo(a, b, ab) && MergesTo(ab, c, abThenC)
    requires MergesTo(b, c, bc) && MergesTo(a, bc, aThenBc)
    ensures abThenC.Visible() == aThenBc.Visible()
  {
    LeftToRight(a, b, c, ab, abThenC);
    SomeMergeShowsUnion(b, c, bc);
    SomeMergeShowsUnion(a, bc, aThenBc);
  }

  lemma LeftToRight(a: State, b: State, c: State, ab: State, abThenC: State)
    requires Tagged(a) && Tagged(b) && Tagged(c)
    requires MergesTo(a, b, ab) && MergesTo(ab, c, abThenC)
    ensures abThenC.Visible() == a.Visible() + (b.Visible() + c.Visible())
  {
    SomeMergeShowsUnion(a, b, ab);
    SomeMergeShowsUnion(ab, c, abThenC);
  }

  lemma MergeIsIdempotent(a: State, aa: State)
    requires Tagged(a) && MergesTo(a, a, aa)
    ensures aa.Visible() == a.Visible()
  {
    SomeMergeShowsUnion(a, a, aa);
  }

  lemma SomeMergeShowsUnion(a: State, b: State, m: State)
    requires Tagged(a) && Tagged(b) && MergesTo(a, b, m)
    ensures Tagged(m)
    ensures m.Visible() == a.Visible() + b.Visible()
  {
    var pick :| IsMerge(a, b, m, pick);
    MergeShowsUnion(a, b, m, pick);
  }

  /** There are no tombstones: a removed element survives a merge away exactly when the other side does not show it. */
  lemma RemovalIsForgotten(a: State, b: State, e: Element, m: State, pick: map<Element, Tag>)
    requires Tagged(a) && Tagged(b) && IsMerge(a.Remove(e, None), b, m, pick)
    ensures e in m.Visible() <==> e in b.Visible()
  {
    MergeShowsUnion(a.Remove(e, None), b, m, pick);
  }

  // ---------------------------------------------------------------- runs of many replicas

  type ReplicaId = nat

  datatype Step =
    | Adds(at: ReplicaId, e: Element, tag: Tag)
    | Removes(at: ReplicaId, e: Element, only: Option<set<Tag>>)
    | Merges(at: ReplicaId, from: ReplicaId, into: State, pick: map<Element, Tag>)

  /** All replicas, and every tag ever used with the element it was created for. */
  datatype System = System(replicas: map<ReplicaId, State>, owner: map<Tag, Element>)

  /** Additions use a non-empty tag never used before; removals name only tags of the element. */
  ghost predicate Next(s: System, step: Step, s': System) {
    && step.at in s.replicas
    && match step {
         case Adds(at, e, tag) =>
           && tag != "" && tag !in s.owner
           && s' == System(s.replicas[at := s.replicas[at].Add(e, tag)], s.owner[tag := e])
         case Removes(at, e, only) =>
           && (only.Some? ==> only.value <= s.replicas[at].TagsOf(e))
           && s' == System(s.replicas[at := s.replicas[at].Remove(e, only)], s.owner)
         case Merges(at, from, into, pick) =>
           && from in s.replicas
           && IsMerge(s.replicas[at], s.replicas[from], into, pick)
           && s' == System(s.replicas[at := into], s.owner)
       }
  }

  ghost predicate TagsOwned(st: State, owner: map<Tag, Element>) {
    forall e, t {:trigger t in st.elements[e]} ::
      e in st.elements && t in st.elements[e] ==> t in owner && owner[t] == e
  }

  ghost predicate Owned(s: System, r: ReplicaId)
    requires r in s.replicas
  {
    s.replicas[r].Exact() && TagsOwned(s.replicas[r], s.owner)
  }

  ghost predicate Inv(s: System) {
    "" !in s.owner && forall r {:trigger Owned(s, r)} :: r in s.replicas ==> Owned(s, r)
  }

  ghost predicate IsRun(states: seq<System>, steps: seq<Step>) {
    && |states| == |steps| + 1
    && "" !in states[0].owner && (forall r :: r in states[0].replicas ==> states[0].replicas[r] == EMPTY)
    && forall i {:trigger steps[i]} :: 0 <= i < |steps| ==> Next(states[i], steps[i], states[i + 1])
  }

  lemma MergeIsOwned(a: State, b: State, into: State, pick: map<Element, Tag>, owner: map<Tag, Element>)
    requires TagsOwned(a, owner) && TagsOwned(b, owner)
    requires IsMerge(a, b, into, pick)
    ensures into.Exact() && TagsOwned(into, owner)
  {
    forall e | e in pick
      ensures pick[e] in owner && owner[pick[e]] == e
    {
      if pick[e] in a.TagsOf(e) {
        assert pick[e] in a.elements[e];
      } else {
        assert pick[e] in b.elements[e];
      }
    }
    forall e | e in into.elements
      ensures into.elements[e] == {pick[e]}
    {
    }
    forall t | t in into.tags
      ensures exists e :: e in into.elements && t in into.elements[e]
    {
      var e :| e in pick && pick[e] == t;
      assert t in into.elements[e];
    }
  }

  lemma NextKeepsInv(s: System, step: Step, s': System)
    requires Inv(s) && Next(s, step, s')
    ensures Inv(s')
  {
    forall r | r in s'.replicas
      ensures Owned(s', r)
    {
      assert Owned(s, r) && Owned(s, step.at);
      if r == step.at {
        var before := s.replicas[r];
        match step
        case Adds(at, e, tag) =>
          assert tag !in before.tags;
          AddKeepsExact(before, e, tag);
        case Removes(at, e, only) =>
          if e in before.elements {
            RemoveKeepsExact(before, e, only);
          }
        case Merges(at, from, into, pick) =>
          assert Owned(s, from);
          MergeIsOwned(before, s.replicas[from], into, pick, s.owner);
      }
    }
  }

  /** In every run of any replicas, every replica's tag index is the disjoint union of its elements' tags, and no
      tag is empty. */
  lemma {:induction false} RunsStayExact(states: seq<System>, steps: seq<Step>, n: nat)
    requires IsRun(states, steps) && n <= |steps|
    ensures Inv(states[n])
    ensures forall r :: r in states[n].replicas ==> states[n].replicas[r].Exact()
    ensures forall r, e :: r in states[n].replicas ==> "" !in states[n].replicas[r].TagsOf(e)
  {
    if n > 0 {
      RunsStayExact(states, steps, n - 1);
      assert Next(states[n - 1], steps[n - 1], states[n]);
      NextKeepsInv(states[n - 1], steps[n - 1], states[n]);
    }
    assert forall r :: r in states[n].replicas ==> Owned(states[n], r);
  }

  // ---------------------------------------------------------------- what does not hold

  function Alone(e: Element, t: Tag): State {
    State(map[e := {t}], {t})
  }

  lemma MergeWithEmpty(e: Element, t: Tag)
    ensures IsMerge(EMPTY, Alone(e, t), Alone(e, t), map[e := t])
    ensures IsMerge(Alone(e, t), EMPTY, Alone(e, t), map[e := t])
  {
    var m := map[e := t];
    assert m[e] == t;
    assert HasTag(EMPTY, Alone(e, t), e) && HasTag(Alone(e, t), EMPTY, e);
    assert m.Values == {t};
  }

  /** A reachable system in which a removal is undone: replica 0 adds an element and replica 1 merges it; replica 0
      removes it and merges replica 1, which has done nothing since. */
  lemma MergeUndoesRemoval() returns (states: seq<System>, steps: seq<Step>, e: Element)
    ensures IsRun(states, steps) && |steps| == 4 && steps[2] == Removes(0, e, None) && steps[3].Merges?
      && steps[3].at == 0
    ensures 0 in states[3].replicas && e !in states[3].replicas[0].Visible()
    ensures 0 in states[4].replicas && e in states[4].replicas[0].Visible()
  {
    e := "lamp";
    var t, lone := "t", Alone(e, "t");
    var owner := map[t := e];
    steps := [Adds(0, e, t), Merges(1, 0, lone, map[e := t]), Removes(0, e, None), Merges(0, 1, lone, map[e := t])];
    states := [
      System(map[0 := EMPTY, 1 := EMPTY], map[]),
      System(map[0 := lone, 1 := EMPTY], owner),
      System(map[0 := lone, 1 := lone], owner),
      System(map[0 := EMPTY, 1 := lone], owner),
      System(map[0 := lone, 1 := lone], owner)];
    MergeWithEmpty(e, t);
    AddAndRemoveAlone(e, t);
    assert Next(states[0], steps[0], states[1]);
    assert Next(states[1], steps[1], states[2]);
    assert Next(states[2], steps[2], states[3]);
    assert Next(states[3], steps[3], states[4]);
  }

  lemma AddAndRemoveAlone(e: Element, t: Tag)
    ensures EMPTY.Add(e, t) == Alone(e, t)
    ensures Alone(e, t).Remove(e, None) == EMPTY
  {
    assert EMPTY.TagsOf(e) + {t} == {t} && EMPTY.tags + {t} == {t};
    assert Alone(e, t).elements - {e} == map[] && {t} - {t} == {};
  }

  /** After two additions with fresh tags, removing one element with the other's tag as well spoils the index: the
      other element stays, under a tag that is no longer in `tags`. */
  lemma ForeignTagSpoilsIndex() returns (s: State, s': State)
    ensures s == EMPTY.Add("lamp", "t").Add("fan", "u") && s.Exact()
    ensures s' == s.Remove("lamp", Some({"t", "u"})) && !s'.Exact()
    ensures s'.Visible() == {"fan"} && s'.tags == {}
  {
    var lamp := Alone("lamp", "t");
    AddAndRemoveAlone("lamp", "t");
    AddKeepsExact(EMPTY, "lamp", "t");
    AddKeepsExact(lamp, "fan", "u");
    assert lamp.TagsOf("fan") + {"u"} == {"u"} && lamp.tags + {"u"} == {"t", "u"};
    s := EMPTY.Add("lamp", "t").Add("fan", "u");
    s' := s.Remove("lamp", Some({"t", "u"}));
    RemoveKeepsExact(s, "lamp", Some({"t", "u"}));
    assert s.elements == map["lamp" := {"t"}, "fan" := {"u"}] && s.tags == {"t", "u"};
    assert "u" in {"t", "u"} * s.tags && "u" !in s.elements["lamp"];
  }
}
