/** Catch2's section tracking: a test case body is run again and again, each run ("cycle") entering one
    more leaf section, until every section is complete. Trackers are named by their path from the root;
    a tracker that was never created is the same as one never started. */
module SectionTracker {
  import opened Basics

  type Path = seq<int>

  /** A section of a test body: its name-and-location, and the sections directly inside it. */
  datatype Section = Section(id: int, children: seq<Section>)

  datatype CycleState =
    | NotStarted | Executing | ExecutingChildren | NeedsAnotherRun | CompletedSuccessfully | Failed

  datatype Tracker = Tracker(state: CycleState, children: seq<int>)
  {
    predicate IsComplete() { state == CompletedSuccessfully || state == Failed }

    predicate IsOpen() { state != NotStarted && !IsComplete() }
  }

  const UNSEEN := Tracker(NotStarted, [])

  type Trackers = map<Path, Tracker>

  function At(trackers: Trackers, p: Path): Tracker { if p in trackers then trackers[p] else UNSEEN }

  /** The run context: the trackers, the current one, whether this cycle has closed a section, the
      stack of active sections, the sections entered so far, and whether close() met an illogical
      state (an internal error in the source). */
  datatype Context = Context(trackers: Trackers, current: Path, completedCycle: bool,
                             active: seq<Path>, entered: seq<Path>, illogical: bool)

  function Parent(p: Path): Path
    requires p != []
  {
    p[..|p| - 1]
  }

  // ---------------------------------------------------- tracker operations

  /** Marks a tracker as executing a child, and its ancestors until one already is. */
  function OpenChild(t: Trackers, p: Path): Trackers
    decreases |p|
  {
    if At(t, p).state == ExecutingChildren then t
    else
      var marked := t[p := At(t, p).(state := ExecutingChildren)];
      if p == [] then marked else OpenChild(marked, Parent(p))
  }

  function Open(c: Context, p: Path): Context
    requires p != []
  {
    c.(trackers := OpenChild(c.trackers[p := At(c.trackers, p).(state := Executing)], Parent(p)), current := p)
  }

  function Register(t: Trackers, p: Path, id: int): Trackers
  {
    if id in At(t, p).children then t
    else t[p := At(t, p).(children := At(t, p).children + [id])]
  }

  /** Finds or creates the child of the current tracker; opens it unless complete or the cycle is over. */
  function Acquire(c: Context, id: int): Context
  {
    var found := c.(trackers := Register(c.trackers, c.current, id));
    var p := c.current + [id];
    if !c.completedCycle && !At(found.trackers, p).IsComplete() then Open(found, p) else found
  }

  function AllComplete(t: Trackers, p: Path, ids: seq<int>): bool
  {
    forall i | 0 <= i < |ids| :: At(t, p + [ids[i]]).IsComplete()
  }

  function CloseThis(c: Context, p: Path): Context
    requires p != []
  {
    var tracker := At(c.trackers, p);
    var after := match tracker.state
      case Executing => c.(trackers := c.trackers[p := tracker.(state := CompletedSuccessfully)])
      case ExecutingChildren =>
        if AllComplete(c.trackers, p, tracker.children)
        then c.(trackers := c.trackers[p := tracker.(state := CompletedSuccessfully)]) else c
      case NeedsAnotherRun => c
      case _ => c.(illogical := true);
    after.(current := Parent(p), completedCycle := true)
  }

  /** Trackers still open below p are closed first, innermost first. */
  function Close(c: Context, p: Path): (closed: Context)
    requires p != []
    ensures closed.active == c.active && closed.entered == c.entered
    decreases |c.current|
  {
    if p < c.current then Close(CloseThis(c, c.current), p) else CloseThis(c, p)
  }

  // ---------------------------------------------------- running a test body

  function SectionEnded(c: Context): Context
  {
    if c.active == [] || c.active[|c.active| - 1] == [] then c
    else Close(c, c.active[|c.active| - 1]).(active := c.active[..|c.active| - 1])
  }

  /** One SECTION statement reached by the body. */
  function RunSection(c: Context, s: Section): Context
    decreases s, 1
  {
    var p := c.current + [s.id];
    var acquired := Acquire(c, s.id);
    if !At(acquired.trackers, p).IsOpen() then acquired
    else
      var started := acquired.(active := acquired.active + [p], entered := acquired.entered + [p]);
      SectionEnded(RunSections(started, s.children))
  }

  function RunSections(c: Context, ss: seq<Section>): Context
    decreases ss, 0
  {
    if ss == [] then c else RunSections(RunSection(c, ss[0]), ss[1..])
  }

  // -------------------------------------------------- leaves and progress

  function Leaves(s: Section): (n: nat)
    ensures n >= 1
    decreases s, 1
  {
    if s.children == [] then 1 else LeavesIn(s.children)
  }

  function LeavesIn(ss: seq<Section>): (n: nat)
    ensures ss != [] ==> n >= 1
    decreases ss, 0
  {
    if ss == [] then 0 else Leaves(ss[0]) + LeavesIn(ss[1..])
  }

  function Ids(ss: seq<Section>): seq<int>
  {
    if ss == [] then [] else [ss[0].id] + Ids(ss[1..])
  }

  /** Sections inside the same section have different names-and-locations. */
  predicate DistinctSiblings(s: Section)
    decreases s, 1
  {
    DistinctIn(s.children)
  }

  predicate DistinctIn(ss: seq<Section>)
    decreases ss, 0
  {
    ss == [] || (ss[0].id !in Ids(ss[1..]) && DistinctSiblings(ss[0]) && DistinctIn(ss[1..]))
  }

  /** The sections from under p down to leaf k of s, outermost first. */
  function Route(s: Section, p: Path, k: nat): seq<Path>
    decreases s, 1
  {
    [p + [s.id]] + RouteIn(s.children, p + [s.id], k)
  }

  function RouteIn(ss: seq<Section>, p: Path, k: nat): seq<Path>
    decreases ss, 0
  {
    if ss == [] then []
    else if k < Leaves(ss[0]) then Route(ss[0], p, k)
    else RouteIn(ss[1..], p, k - Leaves(ss[0]))
  }

  ghost predicate Untouched(t: Trackers, p: Path) { forall q | p <= q :: At(t, q) == UNSEEN }

  /** The trackers record that exactly the first k leaves of s, whose tracker is at p, are done. */
  ghost predicate Progress(s: Section, p: Path, k: nat, t: Trackers)
    decreases s, 1
  {
    if k == 0 then Untouched(t, p)
    else if k >= Leaves(s) then At(t, p).state == CompletedSuccessfully
    else At(t, p) == Tracker(ExecutingChildren, Ids(s.children)) && ProgressIn(s.children, p, k, t)
  }

  ghost predicate ProgressIn(ss: seq<Section>, p: Path, k: nat, t: Trackers)
    decreases ss, 0
  {
    if ss == [] then k == 0
    else
      var d := if k < Leaves(ss[0]) then k else Leaves(ss[0]);
      Progress(ss[0], p + [ss[0].id], d, t) && ProgressIn(ss[1..], p, k - d, t)
  }

  // ------------------------------------------------------------ framing

  ghost predicate SameBelow(t: Trackers, t': Trackers, p: Path) { forall q | p <= q :: At(t, q) == At(t', q) }

  /** q lies in the subtree of one of the named children of p. */
  predicate Under(q: Path, p: Path, ids: seq<int>) { |q| > |p| && p <= q && q[|p|] in ids }

  /** Nothing but p and the subtrees of its named children differs. */
  ghost predicate SameElsewhere(t: Trackers, t': Trackers, p: Path, ids: seq<int>)
  {
    forall q | q != p && !Under(q, p, ids) :: At(t, q) == At(t', q)
  }

  lemma {:induction false} ProgressFrame(s: Section, p: Path, k: nat, t: Trackers, t': Trackers)
    requires Progress(s, p, k, t) && SameBelow(t, t', p)
    ensures Progress(s, p, k, t')
    decreases s, 1
  {
    assert At(t, p) == At(t', p);
    if 0 < k < Leaves(s) {
      forall id | id in Ids(s.children) ensures SameBelow(t, t', p + [id]) {
        forall q | p + [id] <= q ensures At(t, q) == At(t', q) { ChildSubtree(q, p, id); }
      }
      ProgressInFrame(s.children, p, k, t, t');
    }
  }

  lemma {:induction false} ProgressInFrame(ss: seq<Section>, p: Path, k: nat, t: Trackers, t': Trackers)
    requires ProgressIn(ss, p, k, t)
    requires forall id | id in Ids(ss) :: SameBelow(t, t', p + [id])
    ensures ProgressIn(ss, p, k, t')
    decreases ss, 0
  {
    if ss != [] {
      var d := if k < Leaves(ss[0]) then k else Leaves(ss[0]);
      assert ss[0].id in Ids(ss);
      ProgressFrame(ss[0], p + [ss[0].id], d, t, t');
      ProgressInFrame(ss[1..], p, k - d, t, t');
    }
  }

  lemma ChildSubtree(q: Path, p: Path, id: int)
    ensures p + [id] <= q <==> |q| > |p| && p <= q && q[|p|] == id
  {
  }

  lemma ElsewhereGivesBelow(t: Trackers, t': Trackers, p: Path, ids: seq<int>, other: int)
    requires SameElsewhere(t, t', p, ids) && other !in ids
    ensures SameBelow(t, t', p + [other])
  {
  }

  lemma {:induction false} UntouchedIsNoProgress(ss: seq<Section>, p: Path, t: Trackers)
    requires forall id | id in Ids(ss) :: Untouched(t, p + [id])
    ensures ProgressIn(ss, p, 0, t)
    decreases ss
  {
    if ss != [] {
      assert ss[0].id in Ids(ss);
      UntouchedIsNoProgress(ss[1..], p, t);
    }
  }

  /** A section's own children are all complete exactly when all its leaves are done. */
  lemma {:induction false} AllCompleteIffDone(ss: seq<Section>, p: Path, k: nat, t: Trackers)
    requires ProgressIn(ss, p, k, t)
    ensures k <= LeavesIn(ss)
    ensures AllComplete(t, p, Ids(ss)) <==> k == LeavesIn(ss)
    decreases ss
  {
    if ss != [] {
      var head := ss[0];
      var d := if k < Leaves(head) then k else Leaves(head);
      AllCompleteIffDone(ss[1..], p, k - d, t);
      var q := p + [head.id];
      assert Progress(head, q, d, t);
      assert At(t, q).IsComplete() <==> d == Leaves(head) by {
        if d == 0 { assert q <= q; }
      }
      var ids := Ids(ss);
      assert ids[0] == head.id && ids[1..] == Ids(ss[1..]);
      assert AllComplete(t, p, ids) <==> At(t, q).IsComplete() && AllComplete(t, p, ids[1..]) by {
        assert forall i | 0 < i < |ids| :: ids[i] == ids[1..][i - 1];
      }
    }
  }

  // ----------------------------------------------------------- one cycle

  /** The current tracker has just been opened and all its ancestors are executing children. */
  ghost predicate Ready(c: Context)
  {
    && (forall i | 0 <= i < |c.current| :: At(c.trackers, c.current[..i]).state == ExecutingChildren)
    && At(c.trackers, c.current).state == Executing
    && !c.illogical
  }

  /** The child list at p: `before` and the ids of ss, or in the very first pass only `before`. */
  ghost predicate Registered(t: Trackers, p: Path, before: seq<int>, ss: seq<Section>, k: nat)
  {
    && (At(t, p).children == before + Ids(ss) || (k == 0 && At(t, p).children == before))
    && (forall id | id in Ids(ss) :: id !in before)
  }

  lemma OpenChildStopsAtParent(t: Trackers, p: Path)
    requires At(t, p).state == Executing
    requires p != [] ==> At(t, Parent(p)).state == ExecutingChildren
    ensures OpenChild(t, p) == t[p := At(t, p).(state := ExecutingChildren)]
  {
  }

  /** Opening a section: its parent becomes "executing children", and it is ready itself. */
  lemma SectionOpens(c: Context, id: int)
    requires Ready(c) && !c.completedCycle && !At(c.trackers, c.current + [id]).IsComplete()
    ensures var c' := Acquire(c, id);
            var p, q := c.current, c.current + [id];
            && Ready(c') && c'.current == q
            && c' == c.(trackers := c'.trackers, current := q)
            && At(c'.trackers, p) == Tracker(ExecutingChildren, At(Register(c.trackers, p, id), p).children)
            && At(c'.trackers, q) == At(c.trackers, q).(state := Executing)
            && forall r | r != p && r != q :: At(c'.trackers, r) == At(c.trackers, r)
  {
    var p, q := c.current, c.current + [id];
    assert Parent(q) == p;
    var registered := Register(c.trackers, p, id);
    var running := registered[q := At(registered, q).(state := Executing)];
    assert p != [] ==> Parent(p) == c.current[..|p| - 1];
    OpenChildStopsAtParent(running, p);
    var c' := Acquire(c, id);
    forall i | 0 <= i < |q| ensures At(c'.trackers, q[..i]).state == ExecutingChildren {
      if i < |p| { assert q[..i] == p[..i]; } else { assert q[..i] == p; }
    }
  }

  lemma CompleteIsSkipped(c: Context, s: Section)
    requires s.id in At(c.trackers, c.current).children
    requires At(c.trackers, c.current + [s.id]).state == CompletedSuccessfully
    ensures RunSection(c, s) == c
  {
  }

  /** Once a section has closed, the rest of the siblings are only noted down. */
  lemma {:induction false} RestIsOnlyRegistered(c: Context, ss: seq<Section>, before: seq<int>)
    requires c.completedCycle && DistinctIn(ss)
    requires ProgressIn(ss, c.current, 0, c.trackers) && Registered(c.trackers, c.current, before, ss, 0)
    ensures var c', p := RunSections(c, ss), c.current;
            && c' == c.(trackers := c'.trackers)
            && At(c'.trackers, p) == At(c.trackers, p).(children := before + Ids(ss))
            && forall q | q != p :: At(c'.trackers, q) == At(c.trackers, q)
    decreases ss
  {
    var p := c.current;
    if ss == [] {
      assert before + Ids(ss) == before;
    } else {
      var id, rest := ss[0].id, ss[1..];
      OnlyRegistered(c, ss[0]);
      var c1 := RunSection(c, ss[0]);
      RegisterNext(c.trackers, p, before, ss, 0);
      forall other | other in Ids(rest) ensures SameBelow(c.trackers, c1.trackers, p + [other]) { }
      ProgressInFrame(rest, p, 0, c.trackers, c1.trackers);
      RestIsOnlyRegistered(c1, rest, before + [id]);
      IdsCons(before, ss);
    }
  }

  lemma OnlyRegistered(c: Context, s: Section)
    requires c.completedCycle && Untouched(c.trackers, c.current + [s.id])
    ensures RunSection(c, s) == c.(trackers := Register(c.trackers, c.current, s.id))
  {
    var q := c.current + [s.id];
    assert q <= q && q != c.current && At(c.trackers, q) == UNSEEN;
    assert At(Register(c.trackers, c.current, s.id), q) == UNSEEN;
  }

  lemma IdsCons(before: seq<int>, ss: seq<Section>)
    requires ss != [] && DistinctIn(ss) && forall id | id in Ids(ss) :: id !in before
    ensures before + Ids(ss) == before + [ss[0].id] + Ids(ss[1..])
    ensures ss[0].id in before + Ids(ss) && ss[0].id !in before
    ensures forall id | id in Ids(ss[1..]) :: id !in before + [ss[0].id]
  {
    assert Ids(ss) == [ss[0].id] + Ids(ss[1..]);
    assert Ids(ss)[0] == ss[0].id;
    assert forall id | id in Ids(ss[1..]) :: id in Ids(ss);
  }

  lemma RegisterNext(t: Trackers, p: Path, before: seq<int>, ss: seq<Section>, k: nat)
    requires ss != [] && DistinctIn(ss) && Registered(t, p, before, ss, k)
    ensures var t' := Register(t, p, ss[0].id);
            && Registered(t', p, before + [ss[0].id], ss[1..], 0)
            && (k > 0 ==> t' == t && Registered(t, p, before + [ss[0].id], ss[1..], k))
            && At(t', p).state == At(t, p).state
            && forall q | q != p :: At(t', q) == At(t, q)
  {
    IdsCons(before, ss);
    if At(t, p).children == before + Ids(ss) {
      assert Register(t, p, ss[0].id) == t;
    } else {
      assert At(Register(t, p, ss[0].id), p).children == before + [ss[0].id];
    }
  }

  /** The section statement that is next in line: opened, run to its next leaf, closed again. */
  ghost predicate RanNextLeaf(c: Context, c': Context, ids: seq<int>, route: seq<Path>)
  {
    && c'.current == c.current && c'.completedCycle && !c'.illogical
    && c'.active == c.active && c'.entered == c.entered + route
    && At(c'.trackers, c.current).state == ExecutingChildren
    && SameElsewhere(c.trackers, c'.trackers, c.current, ids)
  }

  lemma {:induction false} SectionRunsNextLeaf(c: Context, s: Section, k: nat)
    requires DistinctSiblings(s) && Ready(c) && !c.completedCycle
    requires Progress(s, c.current + [s.id], k, c.trackers) && k < Leaves(s)
    ensures var c' := RunSection(c, s);
            && RanNextLeaf(c, c', [s.id], Route(s, c.current, k))
            && Progress(s, c.current + [s.id], k + 1, c'.trackers)
            && At(c'.trackers, c.current).children == At(Register(c.trackers, c.current, s.id), c.current).children
    decreases s, 1
  {
    var p, q := c.current, c.current + [s.id];
    assert q <= q;
    SectionOpens(c, s.id);
    var acquired := Acquire(c, s.id);
    var started := acquired.(active := acquired.active + [q], entered := acquired.entered + [q]);
    assert RunSection(c, s) == SectionEnded(RunSections(started, s.children));
    if s.children == [] {
      LeafCloses(c, started, s);
    } else {
      BodyStarts(c, started, s, k);
      SectionsRunNextLeaf(started, s.children, k, []);
      var ran := RunSections(started, s.children);
      BodyCloses(c, started, ran, s, k);
    }
  }

  lemma LeafCloses(c: Context, started: Context, s: Section)
    requires Ready(started) && started.current == c.current + [s.id] && s.children == []
    requires started.active == c.active + [started.current] && started.entered == c.entered + [started.current]
    requires At(started.trackers, c.current).state == ExecutingChildren
    requires forall r | r != c.current && r != started.current :: At(started.trackers, r) == At(c.trackers, r)
    ensures var c' := SectionEnded(RunSections(started, s.children));
            && RanNextLeaf(c, c', [s.id], Route(s, c.current, 0))
            && Progress(s, started.current, 1, c'.trackers)
            && At(c'.trackers, c.current) == At(started.trackers, c.current)
  {
  }

  lemma BodyStarts(c: Context, started: Context, s: Section, k: nat)
    requires s.children != [] && k < Leaves(s)
    requires started.current == c.current + [s.id]
    requires Progress(s, started.current, k, c.trackers)
    requires At(started.trackers, started.current).children == At(c.trackers, started.current).children
    requires forall r | r != c.current && r != started.current :: At(started.trackers, r) == At(c.trackers, r)
    ensures ProgressIn(s.children, started.current, k, started.trackers)
    ensures Registered(started.trackers, started.current, [], s.children, k)
  {
    var q := started.current;
    forall id | id in Ids(s.children) ensures SameBelow(c.trackers, started.trackers, q + [id]) {
      forall r | q + [id] <= r ensures At(c.trackers, r) == At(started.trackers, r) { }
    }
    assert [] + Ids(s.children) == Ids(s.children);
    assert q <= q;
    if k == 0 {
      forall id | id in Ids(s.children) ensures Untouched(c.trackers, q + [id]) {
        forall r | q + [id] <= r ensures At(c.trackers, r) == UNSEEN { ChildSubtree(r, q, id); }
      }
      UntouchedIsNoProgress(s.children, q, c.trackers);
    }
    ProgressInFrame(s.children, q, k, c.trackers, started.trackers);
  }

  /** Closing a section whose body has just run its next leaf records the progress made. */
  lemma CloseRecordsProgress(ran: Context, q: Path, s: Section, k: nat)
    requires q != [] && s.children != [] && k < Leaves(s) && !ran.illogical
    requires ProgressIn(s.children, q, k + 1, ran.trackers)
    requires At(ran.trackers, q) == Tracker(ExecutingChildren, Ids(s.children)) && ran.current == q
    ensures var c' := Close(ran, q);
            && Progress(s, q, k + 1, c'.trackers)
            && c' == ran.(trackers := c'.trackers, current := Parent(q), completedCycle := true)
            && forall r | r != q :: At(c'.trackers, r) == At(ran.trackers, r)
  {
    AllCompleteIffDone(s.children, q, k + 1, ran.trackers);
  }

  lemma BodyCloses(c: Context, started: Context, ran: Context, s: Section, k: nat)
    requires s.children != [] && k < Leaves(s) && started.current == c.current + [s.id]
    requires started.active == c.active + [started.current] && started.entered == c.entered + [started.current]
    requires At(started.trackers, c.current).state == ExecutingChildren
    requires forall r | r != c.current && r != started.current :: At(started.trackers, r) == At(c.trackers, r)
    requires RanNextLeaf(started, ran, Ids(s.children), RouteIn(s.children, started.current, k))
    requires ProgressIn(s.children, started.current, k + 1, ran.trackers)
    requires At(ran.trackers, started.current).children == Ids(s.children)
    ensures var c' := SectionEnded(ran);
            && RanNextLeaf(c, c', [s.id], Route(s, c.current, k))
            && Progress(s, started.current, k + 1, c'.trackers)
            && At(c'.trackers, c.current) == At(started.trackers, c.current)
  {
    var p, q := c.current, started.current;
    var c' := SectionEnded(ran);
    assert Parent(q) == p && q != p;
    assert (c.active + [q])[..|c.active|] == c.active && (c.active + [q])[|c.active|] == q;
    CloseRecordsProgress(ran, q, s, k);
    assert !Under(p, q, Ids(s.children));
    Regroup(c.entered, [q], RouteIn(s.children, q, k));
    assert c.entered + [q] + RouteIn(s.children, q, k) == c.entered + Route(s, p, k);
    forall r | r != p && !Under(r, p, [s.id]) ensures At(c.trackers, r) == At(c'.trackers, r) {
      ChildSubtree(r, p, s.id);
      assert r != q && !Under(r, q, Ids(s.children));
    }
  }

  lemma {:induction false} SectionsRunNextLeaf(c: Context, ss: seq<Section>, k: nat, before: seq<int>)
    requires DistinctIn(ss) && Ready(c) && !c.completedCycle
    requires ProgressIn(ss, c.current, k, c.trackers) && k < LeavesIn(ss)
    requires Registered(c.trackers, c.current, before, ss, k)
    ensures var c' := RunSections(c, ss);
            && RanNextLeaf(c, c', Ids(ss), RouteIn(ss, c.current, k))
            && ProgressIn(ss, c.current, k + 1, c'.trackers)
            && At(c'.trackers, c.current).children == before + Ids(ss)
    decreases ss, 0
  {
    var p, head, rest := c.current, ss[0], ss[1..];
    var q := p + [head.id];
    RegisterNext(c.trackers, p, before, ss, k);
    IdsCons(before, ss);
    if k >= Leaves(head) {
      assert At(c.trackers, p).children == before + Ids(ss);
      CompleteIsSkipped(c, head);
      SectionsRunNextLeaf(c, rest, k - Leaves(head), before + [head.id]);
      HeadStaysDone(c, RunSections(c, rest), ss, k);
    } else {
      SectionRunsNextLeaf(c, head, k);
      var c1 := RunSection(c, head);
      HeadRan(c, c1, ss, k, before);
      RestIsOnlyRegistered(c1, rest, before + [head.id]);
      RestFollows(c, c1, RunSections(c1, rest), ss, k);
    }
  }

  lemma HeadStaysDone(c: Context, c': Context, ss: seq<Section>, k: nat)
    requires ss != [] && DistinctIn(ss) && k >= Leaves(ss[0])
    requires ProgressIn(ss, c.current, k, c.trackers)
    requires RanNextLeaf(c, c', Ids(ss[1..]), RouteIn(ss[1..], c.current, k - Leaves(ss[0])))
    requires ProgressIn(ss[1..], c.current, k - Leaves(ss[0]) + 1, c'.trackers)
    ensures RanNextLeaf(c, c', Ids(ss), RouteIn(ss, c.current, k))
    ensures ProgressIn(ss, c.current, k + 1, c'.trackers)
  {
  }

  lemma WiderFrame(t: Trackers, t': Trackers, p: Path, ids: seq<int>, more: seq<int>)
    requires SameElsewhere(t, t', p, ids) && forall id | id in ids :: id in more
    ensures SameElsewhere(t, t', p, more)
  {
    forall q | q != p && !Under(q, p, more) ensures At(t, q) == At(t', q) {
      UnderMore(q, p, ids, more);
    }
  }

  lemma UnderMore(q: Path, p: Path, ids: seq<int>, more: seq<int>)
    requires forall id | id in ids :: id in more
    ensures Under(q, p, ids) ==> Under(q, p, more)
  {
    if |q| > |p| {
      var step := q[|p|];
      assert step in ids ==> step in more;
    }
  }

  lemma HeadRan(c: Context, c1: Context, ss: seq<Section>, k: nat, before: seq<int>)
    requires ss != [] && DistinctIn(ss) && k < Leaves(ss[0])
    requires ProgressIn(ss, c.current, k, c.trackers) && Registered(c.trackers, c.current, before, ss, k)
    requires RanNextLeaf(c, c1, [ss[0].id], Route(ss[0], c.current, k))
    requires At(c1.trackers, c.current).children == At(Register(c.trackers, c.current, ss[0].id), c.current).children
    ensures ProgressIn(ss[1..], c.current, 0, c1.trackers)
    ensures Registered(c1.trackers, c.current, before + [ss[0].id], ss[1..], 0)
  {
    var p, rest := c.current, ss[1..];
    RegisterNext(c.trackers, p, before, ss, k);
    forall id | id in Ids(rest) ensures SameBelow(c.trackers, c1.trackers, p + [id]) {
      ElsewhereGivesBelow(c.trackers, c1.trackers, p, [ss[0].id], id);
    }
    ProgressInFrame(rest, p, 0, c.trackers, c1.trackers);
  }

  lemma RestFollows(c: Context, c1: Context, c': Context, ss: seq<Section>, k: nat)
    requires ss != [] && DistinctIn(ss) && k < Leaves(ss[0])
    requires RanNextLeaf(c, c1, [ss[0].id], Route(ss[0], c.current, k))
    requires Progress(ss[0], c.current + [ss[0].id], k + 1, c1.trackers)
    requires ProgressIn(ss[1..], c.current, 0, c1.trackers)
    requires c' == c1.(trackers := c'.trackers)
    requires At(c'.trackers, c.current).state == At(c1.trackers, c.current).state
    requires forall q | q != c.current :: At(c'.trackers, q) == At(c1.trackers, q)
    ensures RanNextLeaf(c, c', Ids(ss), RouteIn(ss, c.current, k))
    ensures ProgressIn(ss, c.current, k + 1, c'.trackers)
  {
    var p, head, rest := c.current, ss[0], ss[1..];
    forall id ensures SameBelow(c1.trackers, c'.trackers, p + [id]) { }
    ProgressFrame(head, p + [head.id], k + 1, c1.trackers, c'.trackers);
    ProgressInFrame(rest, p, 0, c1.trackers, c'.trackers);
    WiderFrame(c.trackers, c1.trackers, p, [head.id], Ids(ss));
  }

  // ------------------------------------------------------- the whole test

  const START_RUN := Context(map[], [], false, [], [], false)

  /** One run of the test body, with the test case itself as outermost tracker. */
  function RunCycle(c: Context, test: Section): Context
  {
    var acquired := Acquire(c.(current := [], completedCycle := false), test.id);
    Close(RunSections(acquired, test.children), [test.id])
  }

  function RunCycles(test: Section, n: nat): Context
  {
    if n == 0 then START_RUN else RunCycle(RunCycles(test, n - 1), test)
  }

  /** The sections entered by the first n cycles if cycle j goes straight to leaf j. */
  function RoutesUpTo(test: Section, n: nat): seq<Path>
  {
    if n == 0 then [] else RoutesUpTo(test, n - 1) + RouteIn(test.children, [test.id], n - 1)
  }

  /** State between cycles: the first n leaves are done. */
  ghost predicate BetweenCycles(c: Context, test: Section, n: nat)
  {
    && Progress(test, [test.id], n, c.trackers)
    && c.entered == RoutesUpTo(test, n)
    && c.active == [] && !c.illogical
  }

  lemma TestCaseOpens(c: Context, test: Section)
    requires !c.illogical && !c.completedCycle && c.current == []
    requires !At(c.trackers, [test.id]).IsComplete()
    ensures var c' := Acquire(c, test.id);
            && Ready(c') && c'.current == [test.id] && c' == c.(trackers := c'.trackers, current := [test.id])
            && At(c'.trackers, [test.id]) == At(c.trackers, [test.id]).(state := Executing)
            && forall r | r != [] && r != [test.id] :: At(c'.trackers, r) == At(c.trackers, r)
  {
    assert [] + [test.id] == [test.id];
    assert Parent([test.id]) == [];
    var c' := Acquire(c, test.id);
    forall i | 0 <= i < |c'.current| ensures At(c'.trackers, c'.current[..i]).state == ExecutingChildren {
      assert c'.current[..i] == [];
    }
  }

  /** From the opened test case on, a cycle of a test with sections runs to its next leaf. */
  lemma BodyRunsNextLeaf(started: Context, test: Section, n: nat) returns (c': Context)
    requires DistinctSiblings(test) && test.children != [] && n < Leaves(test)
    requires Ready(started) && !started.completedCycle && started.current == [test.id]
    requires ProgressIn(test.children, started.current, n, started.trackers)
    requires Registered(started.trackers, started.current, [], test.children, n)
    ensures c' == Close(RunSections(started, test.children), [test.id])
    ensures Progress(test, [test.id], n + 1, c'.trackers) && !c'.illogical && c'.active == started.active
    ensures c'.entered == started.entered + RouteIn(test.children, [test.id], n)
  {
    SectionsRunNextLeaf(started, test.children, n, []);
    var ran := RunSections(started, test.children);
    assert [] + Ids(test.children) == Ids(test.children);
    CloseRecordsProgress(ran, [test.id], test, n);
    c' := Close(ran, [test.id]);
  }

  /** A test without sections is complete after its one cycle. */
  lemma BareTestCompletes(started: Context, test: Section) returns (c': Context)
    requires test.children == [] && Ready(started) && started.current == [test.id]
    ensures c' == Close(RunSections(started, test.children), [test.id])
    ensures Progress(test, [test.id], 1, c'.trackers) && !c'.illogical && c'.active == started.active
    ensures c'.entered == started.entered
  {
    c' := Close(RunSections(started, test.children), [test.id]);
  }

  lemma TestCaseStarts(c: Context, test: Section, n: nat) returns (started: Context)
    requires n < Leaves(test) && BetweenCycles(c, test, n)
    ensures started == Acquire(c.(current := [], completedCycle := false), test.id)
    ensures Ready(started) && started.current == [test.id] && !started.completedCycle
    ensures started.active == [] && started.entered == RoutesUpTo(test, n)
    ensures test.children != [] ==>
              && ProgressIn(test.children, started.current, n, started.trackers)
              && Registered(started.trackers, started.current, [], test.children, n)
  {
    var q, c0 := [test.id], c.(current := [], completedCycle := false);
    assert q <= q;
    TestCaseOpens(c0, test);
    started := Acquire(c0, test.id);
    if test.children != [] {
      assert c0.current + [test.id] == q;
      BodyStarts(c0, started, test, n);
    }
  }

  lemma CycleRunsNextLeaf(c: Context, test: Section, n: nat) returns (c': Context)
    requires DistinctSiblings(test) && n < Leaves(test) && BetweenCycles(c, test, n)
    ensures c' == RunCycle(c, test) && BetweenCycles(c', test, n + 1)
  {
    var started := TestCaseStarts(c, test, n);
    if test.children != [] {
      c' := BodyRunsNextLeaf(started, test, n);
    } else {
      c' := BareTestCompletes(started, test);
      assert RoutesUpTo(test, 1) == [];
    }
  }

  lemma CompleteIffAllLeavesDone(s: Section, p: Path, k: nat, t: Trackers)
    requires Progress(s, p, k, t)
    ensures At(t, p).state == CompletedSuccessfully <==> k >= Leaves(s)
  {
  }

  lemma NothingDoneAtStart(test: Section)
    ensures BetweenCycles(START_RUN, test, 0)
  {
  }

  lemma OneMoreCycle(test: Section, n: nat, c: Context)
    requires DistinctSiblings(test) && n < Leaves(test)
    requires c == RunCycles(test, n) && BetweenCycles(c, test, n)
    ensures BetweenCycles(RunCycles(test, n + 1), test, n + 1)
  {
    var next := CycleRunsNextLeaf(c, test, n);
    CycleAfter(test, n);
  }

  lemma CycleAfter(test: Section, n: nat)
    ensures RunCycles(test, n + 1) == RunCycle(RunCycles(test, n), test)
  {
  }

  /** After n cycles exactly the first n leaves are done, and cycle by cycle the sections entered are
      those on the way to leaf 0, leaf 1, ... */
  lemma {:induction false} CyclesRunLeavesInOrder(test: Section, n: nat)
    requires DistinctSiblings(test) && n <= Leaves(test)
    ensures BetweenCycles(RunCycles(test, n), test, n)
  {
    if n > 0 {
      CyclesRunLeavesInOrder(test, n - 1);
      OneMoreCycle(test, n - 1, RunCycles(test, n - 1));
    } else {
      NothingDoneAtStart(test);
    }
  }

  lemma TestCompletesAtLastLeaf(test: Section, n: nat)
    requires DistinctSiblings(test) && n <= Leaves(test)
    ensures At(RunCycles(test, n).trackers, [test.id]).state == CompletedSuccessfully <==> n == Leaves(test)
  {
    CyclesRunLeavesInOrder(test, n);
    CompleteIffAllLeavesDone(test, [test.id], n, RunCycles(test, n).trackers);
  }

  // ------------------------------------- each leaf section exactly once

  /** The paths of the leaf sections under p, in the order of the text. */
  function LeafPaths(s: Section, p: Path): (r: seq<Path>)
    ensures |r| == Leaves(s)
    decreases s, 1
  {
    if s.children == [] then [p + [s.id]] else LeafPathsIn(s.children, p + [s.id])
  }

  function LeafPathsIn(ss: seq<Section>, p: Path): (r: seq<Path>)
    ensures |r| == LeavesIn(ss)
    decreases ss, 0
  {
    if ss == [] then [] else LeafPaths(ss[0], p) + LeafPathsIn(ss[1..], p)
  }

  lemma {:induction false} RouteStaysInside(s: Section, p: Path, k: nat)
    ensures forall q | q in Route(s, p, k) :: p + [s.id] <= q
    ensures forall q | q in LeafPaths(s, p) :: p + [s.id] <= q
    decreases s, 1
  {
    RouteInStaysInside(s.children, p + [s.id], k);
  }

  lemma {:induction false} RouteInStaysInside(ss: seq<Section>, p: Path, k: nat)
    ensures forall q | q in RouteIn(ss, p, k) :: Under(q, p, Ids(ss)) && p <= q
    ensures forall q | q in LeafPathsIn(ss, p) :: Under(q, p, Ids(ss)) && p <= q
    decreases ss, 0
  {
    if ss != [] {
      RouteStaysInside(ss[0], p, k);
      forall q | p + [ss[0].id] <= q ensures Under(q, p, Ids(ss)) { ChildSubtree(q, p, ss[0].id); }
      if k >= Leaves(ss[0]) {
        RouteInStaysInside(ss[1..], p, k - Leaves(ss[0]));
      } else {
        RouteInStaysInside(ss[1..], p, 0);
      }
    }
  }

  /** How often q occurs in a route. */
  function Visits(route: seq<Path>, q: Path): nat
  {
    if route == [] then 0 else (if route[0] == q then 1 else 0) + Visits(route[1..], q)
  }

  lemma {:induction false} VisitsIsMultiplicity(route: seq<Path>, q: Path)
    ensures multiset(route)[q] == Visits(route, q)
  {
    if route != [] {
      VisitsIsMultiplicity(route[1..], q);
      assert route == [route[0]] + route[1..];
    }
  }

  lemma {:induction false} NeverVisited(route: seq<Path>, q: Path)
    requires q !in route
    ensures Visits(route, q) == 0
  {
    if route != [] { NeverVisited(route[1..], q); }
  }

  lemma VisitsCons(head: Path, rest: seq<Path>, q: Path)
    ensures Visits([head] + rest, q) == (if head == q then 1 else 0) + Visits(rest, q)
  {
    assert ([head] + rest)[1..] == rest;
  }

  lemma {:induction false} RouteHitsOwnLeaf(s: Section, p: Path, j: nat, k: nat)
    requires DistinctSiblings(s) && j < Leaves(s) && k < Leaves(s)
    ensures Visits(Route(s, p, j), LeafPaths(s, p)[k]) == if j == k then 1 else 0
    decreases s, 1
  {
    var q := p + [s.id];
    VisitsCons(q, RouteIn(s.children, q, j), LeafPaths(s, p)[k]);
    if s.children != [] {
      RouteInHitsOwnLeaf(s.children, q, j, k);
      RouteInStaysInside(s.children, q, j);
      assert LeafPathsIn(s.children, q)[k] in LeafPathsIn(s.children, q);
    }
  }

  lemma {:induction false} RouteInHitsOwnLeaf(ss: seq<Section>, p: Path, j: nat, k: nat)
    requires DistinctIn(ss) && j < LeavesIn(ss) && k < LeavesIn(ss)
    ensures Visits(RouteIn(ss, p, j), LeafPathsIn(ss, p)[k]) == if j == k then 1 else 0
    decreases ss, 0
  {
    var n := Leaves(ss[0]);
    var leaf := LeafOf(ss, p, k);
    var route := RouteOf(ss, p, j);
    if j < n && k < n {
      RouteHitsOwnLeaf(ss[0], p, j, k);
    } else if j >= n && k >= n {
      RouteInHitsOwnLeaf(ss[1..], p, j - n, k - n);
    } else if j < n {
      HeadRouteMissesRest(ss, p, j, k);
      NeverVisited(route, leaf);
    } else {
      RestRouteMissesHead(ss, p, j, k);
      NeverVisited(route, leaf);
    }
  }

  lemma RouteOf(ss: seq<Section>, p: Path, j: nat) returns (route: seq<Path>)
    requires ss != []
    ensures route == RouteIn(ss, p, j)
    ensures j < Leaves(ss[0]) ==> route == Route(ss[0], p, j)
    ensures j >= Leaves(ss[0]) ==> route == RouteIn(ss[1..], p, j - Leaves(ss[0]))
  {
    route := RouteIn(ss, p, j);
  }

  /** Leaf k is one of the first section's or one of the others'. */
  lemma LeafOf(ss: seq<Section>, p: Path, k: nat) returns (leaf: Path)
    requires ss != [] && k < LeavesIn(ss)
    ensures leaf == LeafPathsIn(ss, p)[k]
    ensures k < Leaves(ss[0]) ==> leaf == LeafPaths(ss[0], p)[k]
    ensures k >= Leaves(ss[0]) ==> leaf == LeafPathsIn(ss[1..], p)[k - Leaves(ss[0])]
  {
    assert LeafPathsIn(ss, p) == LeafPaths(ss[0], p) + LeafPathsIn(ss[1..], p);
    leaf := LeafPathsIn(ss, p)[k];
  }

  lemma HeadRouteMissesRest(ss: seq<Section>, p: Path, j: nat, k: nat)
    requires ss != [] && DistinctIn(ss) && j < Leaves(ss[0]) <= k < LeavesIn(ss)
    ensures LeafPathsIn(ss[1..], p)[k - Leaves(ss[0])] !in Route(ss[0], p, j)
  {
    var leaf := LeafPathsIn(ss[1..], p)[k - Leaves(ss[0])];
    assert leaf in LeafPathsIn(ss[1..], p);
    RouteInStaysInside(ss[1..], p, 0);
    RouteStaysInside(ss[0], p, j);
    ChildSubtree(leaf, p, ss[0].id);
  }

  lemma RestRouteMissesHead(ss: seq<Section>, p: Path, j: nat, k: nat)
    requires ss != [] && DistinctIn(ss) && k < Leaves(ss[0]) <= j < LeavesIn(ss)
    ensures LeafPaths(ss[0], p)[k] !in RouteIn(ss[1..], p, j - Leaves(ss[0]))
  {
    var leaf := LeafPaths(ss[0], p)[k];
    assert leaf in LeafPaths(ss[0], p);
    RouteStaysInside(ss[0], p, 0);
    ChildSubtree(leaf, p, ss[0].id);
    RouteInStaysInside(ss[1..], p, j - Leaves(ss[0]));
  }

  lemma {:induction false} RoutesHitEachLeafOnce(test: Section, n: nat, k: nat)
    requires DistinctSiblings(test) && n <= LeavesIn(test.children) && k < LeavesIn(test.children)
    ensures multiset(RoutesUpTo(test, n))[LeafPathsIn(test.children, [test.id])[k]] == if k < n then 1 else 0
  {
    if n > 0 {
      RoutesHitEachLeafOnce(test, n - 1, k);
      var route, leaf := RouteIn(test.children, [test.id], n - 1), LeafPathsIn(test.children, [test.id])[k];
      RouteInHitsOwnLeaf(test.children, [test.id], n - 1, k);
      VisitsIsMultiplicity(route, leaf);
    }
  }

  /** For every finite section tree with distinct siblings: after as many cycles as there are leaves
      (one if there are no sections) the test case is complete and not before, no internal error has
      occurred, and every leaf section has been entered exactly once. */
  lemma EveryLeafRunsExactlyOnce(test: Section)
    requires DistinctSiblings(test)
    ensures var c := RunCycles(test, Leaves(test));
            && At(c.trackers, [test.id]).state == CompletedSuccessfully && !c.illogical
            && forall k | 0 <= k < LeavesIn(test.children) ::
                 multiset(c.entered)[LeafPathsIn(test.children, [test.id])[k]] == 1
    ensures forall n | 0 <= n < Leaves(test) ::
              At(RunCycles(test, n).trackers, [test.id]).state != CompletedSuccessfully
  {
    CyclesRunLeavesInOrder(test, Leaves(test));
    TestCompletesAtLastLeaf(test, Leaves(test));
    forall k | 0 <= k < LeavesIn(test.children)
      ensures multiset(RunCycles(test, Leaves(test)).entered)[LeafPathsIn(test.children, [test.id])[k]] == 1
    {
      RoutesHitEachLeafOnce(test, Leaves(test), k);
    }
    forall n | 0 <= n < Leaves(test)
      ensures At(RunCycles(test, n).trackers, [test.id]).state != CompletedSuccessfully
    {
      TestCompletesAtLastLeaf(test, n);
    }
  }

  lemma AllLeavesDone(test: Section)
    requires DistinctSiblings(test)
    ensures var c := RunCycles(test, Leaves(test));
            && c.entered == RoutesUpTo(test, Leaves(test)) && c.active == [] && !c.illogical
            && forall k | 0 <= k < LeavesIn(test.children) ::
                 multiset(c.entered)[LeafPathsIn(test.children, [test.id])[k]] == 1
  {
    CyclesRunLeavesInOrder(test, Leaves(test));
    EveryLeafRunsExactlyOnce(test);
  }

  // ------------------------------------------------------ the run context

  /** The tracker context and the part of the run context that drives it, updated in place. */
  class RunContext {
    var trackers: Trackers
    var current: Path
    var completedCycle: bool
    var activeSections: seq<Path>
    var entered: seq<Path>
    var illogical: bool

    function State(): Context
      reads this
    {
      Context(trackers, current, completedCycle, activeSections, entered, illogical)
    }

    constructor ()
      ensures State() == START_RUN
    {
      trackers, current, completedCycle := map[], [], false;
      activeSections, entered, illogical := [], [], false;
    }

    method OpenChildOf(p: Path)
      modifies this
      ensures State() == old(State()).(trackers := OpenChild(old(trackers), p))
      decreases |p|
    {
      if At(trackers, p).state != ExecutingChildren {
        trackers := trackers[p := At(trackers, p).(state := ExecutingChildren)];
        if p != [] {
          OpenChildOf(Parent(p));
        }
      }
    }

    method OpenTracker(p: Path)
      requires p != []
      modifies this
      ensures State() == Open(old(State()), p)
    {
      trackers := trackers[p := At(trackers, p).(state := Executing)];
      current := p;
      OpenChildOf(Parent(p));
    }

    method AcquireTracker(id: int) returns (p: Path)
      modifies this
      ensures State() == Acquire(old(State()), id) && p == old(current) + [id]
    {
      if id !in At(trackers, current).children {
        trackers := trackers[current := At(trackers, current).(children := At(trackers, current).children + [id])];
      }
      p := current + [id];
      if !completedCycle {
        if !At(trackers, p).IsComplete() {
          OpenTracker(p);
        }
      }
    }

    method CloseTracker(p: Path)
      requires p != []
      modifies this
      ensures State() == Close(old(State()), p)
      decreases if p <= current then |current| - |p| else 0
    {
      while p < current
        invariant p < old(current) || State() == old(State())
        invariant Close(State(), p) == Close(old(State()), p)
        decreases |current|
      {
        CloseTracker(current);
      }
      var tracker := At(trackers, p);
      match tracker.state {
        case NeedsAnotherRun =>
        case Executing =>
          trackers := trackers[p := tracker.(state := CompletedSuccessfully)];
        case ExecutingChildren =>
          if AllComplete(trackers, p, tracker.children) {
            trackers := trackers[p := tracker.(state := CompletedSuccessfully)];
          }
        case _ =>
          illogical := true;
      }
      current := Parent(p);
      completedCycle := true;
    }

    method SectionStarted(id: int) returns (included: bool)
      modifies this
      ensures var acquired, p := Acquire(old(State()), id), old(current) + [id];
              && included == At(acquired.trackers, p).IsOpen()
              && State() == if included then acquired.(active := acquired.active + [p], entered := acquired.entered + [p])
                            else acquired
    {
      var p := AcquireTracker(id);
      if !At(trackers, p).IsOpen() {
        return false;
      }
      activeSections := activeSections + [p];
      entered := entered + [p];
      return true;
    }

    method EndSection()
      modifies this
      ensures State() == SectionEnded(old(State()))
    {
      if activeSections != [] && activeSections[|activeSections| - 1] != [] {
        CloseTracker(activeSections[|activeSections| - 1]);
        activeSections := activeSections[..|activeSections| - 1];
      }
    }

    /** A SECTION statement with its body. */
    method ExecuteSection(s: Section)
      modifies this
      ensures State() == RunSection(old(State()), s)
      decreases s, 1
    {
      var included := SectionStarted(s.id);
      if included {
        ExecuteSections(s.children);
        EndSection();
      }
    }

    method ExecuteSections(ss: seq<Section>)
      modifies this
      ensures State() == RunSections(old(State()), ss)
      decreases ss, 0
    {
      if ss != [] {
        ExecuteSection(ss[0]);
        ExecuteSections(ss[1..]);
      }
    }

    method ExecuteCycle(test: Section)
      modifies this
      ensures State() == RunCycle(old(State()), test)
    {
      current, completedCycle := [], false;
      var testCase := AcquireTracker(test.id);
      assert testCase == [test.id];
      ExecuteSections(test.children);
      CloseTracker(testCase);
    }

    /** Runs the body until the test case is complete; the number of runs is the number of leaves. */
    method RunTest(test: Section) returns (testRuns: nat)
      requires State() == START_RUN && DistinctSiblings(test)
      modifies this
      ensures testRuns == Leaves(test)
      ensures entered == RoutesUpTo(test, Leaves(test)) && activeSections == [] && !illogical
      ensures forall k | 0 <= k < LeavesIn(test.children) ::
                multiset(entered)[LeafPathsIn(test.children, [test.id])[k]] == 1
    {
      testRuns := 0;
      var again := true;
      while again
        invariant testRuns <= Leaves(test) && State() == RunCycles(test, testRuns)
        invariant again <==> testRuns < Leaves(test)
        decreases Leaves(test) - testRuns
      {
        ExecuteCycle(test);
        testRuns := testRuns + 1;
        TestCompletesAtLastLeaf(test, testRuns);
        again := At(trackers, [test.id]).state != CompletedSuccessfully;
      }
      AllLeavesDone(test);
    }
  }
}
