/** Catch2's section tracking: a test body is run again and again, and each run
    is steered into the first section that has not been completed yet.

    A tracker object is a record of the arena `nodes`, and a pointer to a
    tracker is its index there. Trackers are only ever added, so a tracker's
    parent always has a smaller index. */
module SectionTracking {

  /** What a test body (or the body of a section) contains: the sections it
      meets, in order. The name stands for the source's name and location. */
  datatype Section = Section(name: string, kids: seq<Section>)

  type Path = seq<string>

  datatype CycleState =
    NotStarted | Executing | ExecutingChildren | NeedsAnotherRun | CompletedSuccessfully | Failed

  datatype RunState = Running | CompletedCycle

  const ROOT_NAME := "{root}"
  const NO_PARENT := -1

  datatype Tracker = Tracker(name: string, parent: int, children: seq<nat>, state: CycleState)
  {
    predicate IsComplete() { state == CompletedSuccessfully || state == Failed }

    predicate IsOpen() { state != NotStarted && !IsComplete() }
  }

  // ---------------------------------------------------------------- sections

  /** Number of leaves of a section: its runs. */
  function Leaves(s: Section): (n: nat)
    ensures n >= 1
    decreases s, 0
  {
    if s.kids == [] then 1 else LeavesBefore(s.kids, |s.kids|)
  }

  /** Number of leaves of the first i sections of a body. */
  function LeavesBefore(kids: seq<Section>, i: nat): (n: nat)
    requires i <= |kids|
    ensures n >= i
    decreases kids, i
  {
    if i == 0 then 0 else LeavesBefore(kids, i - 1) + Leaves(kids[i - 1])
  }

  /** The leaves of a section in depth-first order, as paths of names. */
  function LeafPaths(path: Path, s: Section): (r: seq<Path>)
    ensures |r| == Leaves(s)
    decreases s, 0
  {
    if s.kids == [] then [path + [s.name]] else LeafPathsBefore(path + [s.name], s.kids, |s.kids|)
  }

  function LeafPathsBefore(path: Path, kids: seq<Section>, i: nat): (r: seq<Path>)
    requires i <= |kids|
    ensures |r| == LeavesBefore(kids, i)
    decreases kids, i
  {
    if i == 0 then [] else LeafPathsBefore(path, kids, i - 1) + LeafPaths(path, kids[i - 1])
  }

  /** Sections met by one body carry different names, at every level. */
  ghost predicate Distinct(s: Section)
  {
    && (forall i, j :: 0 <= i < j < |s.kids| ==> s.kids[i].name != s.kids[j].name)
    && (forall i :: 0 <= i < |s.kids| ==> Distinct(s.kids[i]))
  }

  /** The part of k completed leaves that falls into section i of a body. */
  function Share(kids: seq<Section>, i: nat, k: nat): (r: nat)
    requires i < |kids|
    ensures r <= Leaves(kids[i])
  {
    if k <= LeavesBefore(kids, i) then 0
    else if k - LeavesBefore(kids, i) <= Leaves(kids[i]) then k - LeavesBefore(kids, i)
    else Leaves(kids[i])
  }

  lemma {:induction false} LeavesBeforeMonotone(kids: seq<Section>, i: nat, j: nat)
    requires i <= j <= |kids|
    ensures LeavesBefore(kids, i) <= LeavesBefore(kids, j)
    decreases j
  {
    if i < j { LeavesBeforeMonotone(kids, i, j - 1); }
  }

  /** One more leaf, falling into section i, is one more leaf there and changes
      no other section's share. */
  lemma ShareStep(kids: seq<Section>, i: nat, k: nat)
    requires i < |kids| && LeavesBefore(kids, i) <= k < LeavesBefore(kids, i + 1)
    ensures Share(kids, i, k + 1) == Share(kids, i, k) + 1 <= Leaves(kids[i])
    ensures forall m :: 0 <= m < i ==> Share(kids, m, k) == Share(kids, m, k + 1) == Leaves(kids[m])
    ensures forall m :: i < m < |kids| ==> Share(kids, m, k) == Share(kids, m, k + 1) == 0
  {
    forall m | 0 <= m < i
      ensures Share(kids, m, k) == Share(kids, m, k + 1) == Leaves(kids[m])
    {
      LeavesBeforeMonotone(kids, m + 1, i);
    }
    forall m | i < m < |kids|
      ensures Share(kids, m, k) == Share(kids, m, k + 1) == 0
    {
      LeavesBeforeMonotone(kids, i + 1, m);
    }
  }

  /** Leaf r of section i is leaf LeavesBefore(i) + r of the body. */
  lemma {:induction false} LeafPathOfKid(path: Path, kids: seq<Section>, i: nat, r: nat, n: nat)
    requires i < n <= |kids| && r < Leaves(kids[i])
    ensures LeavesBefore(kids, i) + r < LeavesBefore(kids, n)
    ensures LeafPathsBefore(path, kids, n)[LeavesBefore(kids, i) + r] == LeafPaths(path, kids[i])[r]
    decreases n
  {
    if i < n - 1 { LeafPathOfKid(path, kids, i, r, n - 1); }
  }

  /** p leads from section s down to one of its leaves. */
  ghost predicate IsLeafPath(s: Section, p: Path)
    decreases s
  {
    && p != [] && p[0] == s.name
    && if s.kids == [] then |p| == 1 else exists i :: 0 <= i < |s.kids| && IsLeafPath(s.kids[i], p[1..])
  }

  /** The listed paths are those of the leaves, and no others. */
  lemma {:induction false} LeafPathsExact(path: Path, s: Section, p: Path)
    ensures (path + p in LeafPaths(path, s)) <==> IsLeafPath(s, p)
    decreases s, 1
  {
    if s.kids == [] {
      assert path + p == path + [s.name] <==> p == [s.name] by {
        if path + p == path + [s.name] { assert p == (path + p)[|path|..] == [s.name]; }
      }
      assert IsLeafPath(s, p) <==> p == [s.name];
    } else {
      var below := path + [s.name];
      if path + p in LeafPaths(path, s) {
        LeafPathsStart(below, s.kids, |s.kids|, path + p);
        assert below <= path + p;
        assert p[0] == (path + p)[|path|] == below[|path|];
      }
      if p != [] && p[0] == s.name {
        assert path + p == below + p[1..];
        LeafPathsBeforeExact(below, s.kids, |s.kids|, p[1..]);
      }
    }
  }

  lemma {:induction false} LeafPathsBeforeExact(path: Path, kids: seq<Section>, n: nat, p: Path)
    requires n <= |kids|
    ensures (path + p in LeafPathsBefore(path, kids, n)) <==> exists i :: 0 <= i < n && IsLeafPath(kids[i], p)
    decreases kids, n
  {
    if n > 0 {
      LeafPathsBeforeExact(path, kids, n - 1, p);
      LeafPathsExact(path, kids[n - 1], p);
    }
  }

  /** Every listed path starts with the path it was listed under. */
  lemma {:induction false} LeafPathsStart(path: Path, kids: seq<Section>, n: nat, q: Path)
    requires n <= |kids| && q in LeafPathsBefore(path, kids, n)
    ensures exists i :: 0 <= i < n && path + [kids[i].name] <= q
    decreases kids, n
  {
    if q in LeafPathsBefore(path, kids, n - 1) {
      LeafPathsStart(path, kids, n - 1, q);
    } else {
      var s := kids[n - 1];
      if s.kids != [] { LeafPathsStart(path + [s.name], s.kids, |s.kids|, q); }
      assert path + [s.name] <= q;
    }
  }

  /** With distinct names no path is listed twice. */
  lemma {:induction false} LeafPathsDistinct(path: Path, s: Section, i: nat, j: nat)
    requires Distinct(s) && i < j < Leaves(s)
    ensures LeafPaths(path, s)[i] != LeafPaths(path, s)[j]
    decreases s, 1
  {
    LeafPathsBeforeDistinct(path + [s.name], s, |s.kids|, i, j);
  }

  lemma {:induction false} LeafPathsBeforeDistinct(path: Path, s: Section, n: nat, i: nat, j: nat)
    requires n <= |s.kids| && Distinct(s) && i < j < LeavesBefore(s.kids, n)
    ensures LeafPathsBefore(path, s.kids, n)[i] != LeafPathsBefore(path, s.kids, n)[j]
    decreases s, 0, n
  {
    var m := LeavesBefore(s.kids, n - 1);
    var q := LeafPathsBefore(path, s.kids, n);
    assert q == LeafPathsBefore(path, s.kids, n - 1) + LeafPaths(path, s.kids[n - 1]);
    if j < m {
      LeafPathsBeforeDistinct(path, s, n - 1, i, j);
    } else if i >= m {
      LeafPathsDistinct(path, s.kids[n - 1], i - m, j - m);
    } else {
      assert q[i] in LeafPathsBefore(path, s.kids, n - 1);
      LeafPathsStart(path, s.kids, n - 1, q[i]);
      var last := [s.kids[n - 1]];
      assert LeafPathsBefore(path, last, 0) == [];
      assert LeafPathsBefore(path, last, 1) == LeafPaths(path, s.kids[n - 1]);
      assert q[j] in LeafPathsBefore(path, last, 1);
      LeafPathsStart(path, last, 1, q[j]);
      assert q[i][|path|] != q[j][|path|];
    }
  }

  // ---------------------------------------------------------------- trackers

  ghost predicate WellFormed(nodes: seq<Tracker>)
  {
    && |nodes| > 0
    && nodes[0].parent == NO_PARENT
    && (forall i :: 0 < i < |nodes| ==> 0 <= nodes[i].parent < i)
    && (forall i, c :: 0 <= i < |nodes| && 0 <= c < |nodes[i].children| ==>
          nodes[i].children[c] < |nodes| && nodes[nodes[i].children[c]].parent == i)
  }

  /** Tracker j is c or lies below it. */
  ghost predicate Below(nodes: seq<Tracker>, j: int, c: nat)
    requires WellFormed(nodes) && j < |nodes|
    decreases j
  {
    j == c || (j > c && Below(nodes, nodes[j].parent, c))
  }

  /** The trackers of `later` extend those of `earlier`: names and parents are
      kept, and whatever changed or is new lies at or below c. */
  ghost predicate ChangedOnlyBelow(earlier: seq<Tracker>, later: seq<Tracker>, c: nat)
    requires WellFormed(earlier) && WellFormed(later)
  {
    && |earlier| <= |later|
    && (forall j :: 0 <= j < |earlier| ==>
          later[j].parent == earlier[j].parent && later[j].name == earlier[j].name)
    && (forall j :: 0 <= j < |earlier| && !Below(earlier, j, c) ==> later[j] == earlier[j])
  }

  lemma {:induction false} BelowStable(earlier: seq<Tracker>, later: seq<Tracker>, j: int, c: nat)
    requires WellFormed(earlier) && WellFormed(later) && j < |earlier| <= |later|
    requires forall m :: 0 <= m < |earlier| ==> later[m].parent == earlier[m].parent
    ensures Below(earlier, j, c) == Below(later, j, c)
    decreases j
  {
    if j > c { BelowStable(earlier, later, earlier[j].parent, c); }
  }

  lemma {:induction false} BelowTransitive(nodes: seq<Tracker>, j: int, d: nat, c: nat)
    requires WellFormed(nodes) && j < |nodes| && d < |nodes|
    requires Below(nodes, j, d) && Below(nodes, d, c)
    ensures Below(nodes, j, c)
    decreases j
  {
    if j != d { BelowTransitive(nodes, nodes[j].parent, d, c); }
  }

  /** Two different children of one tracker share no descendant. */
  lemma {:induction false} SiblingsDisjoint(nodes: seq<Tracker>, j: int, c: nat, d: nat)
    requires WellFormed(nodes) && j < |nodes| && 0 < c < |nodes| && 0 < d < |nodes| && c != d
    requires nodes[c].parent == nodes[d].parent
    ensures !(Below(nodes, j, c) && Below(nodes, j, d))
    decreases j
  {
    if j > c && j > d { SiblingsDisjoint(nodes, nodes[j].parent, c, d); }
  }

  // ------------------------------------------- what k completed leaves look like

  /** Tracker id records that exactly the first k leaves of s are completed. */
  ghost predicate Shape(nodes: seq<Tracker>, id: nat, s: Section, k: nat)
    decreases s, 1
  {
    && id < |nodes|
    && nodes[id].name == s.name
    && k <= Leaves(s)
    && if k == 0 then nodes[id].state == NotStarted && nodes[id].children == []
       else if k == Leaves(s) then nodes[id].state == CompletedSuccessfully
       else nodes[id].state == ExecutingChildren && KidsShape(nodes, id, s.kids, k)
  }

  ghost predicate KidsShape(nodes: seq<Tracker>, id: nat, kids: seq<Section>, k: nat)
    requires id < |nodes|
    decreases kids, 0
  {
    && |nodes[id].children| == |kids|
    && forall i :: 0 <= i < |kids| ==> KidShape(nodes, id, kids, i, k)
  }

  ghost predicate KidShape(nodes: seq<Tracker>, id: nat, kids: seq<Section>, i: nat, k: nat)
    requires id < |nodes| && i < |kids|
    decreases kids[i], 2
  {
    && i < |nodes[id].children|
    && Shape(nodes, nodes[id].children[i], kids[i], Share(kids, i, k))
  }

  /** What a child's tracker shows of its section. */
  lemma KidState(nodes: seq<Tracker>, id: nat, kids: seq<Section>, i: nat, k: nat)
    requires id < |nodes| && i < |kids| && KidShape(nodes, id, kids, i, k)
    ensures nodes[id].children[i] < |nodes|
    ensures nodes[nodes[id].children[i]].name == kids[i].name
    ensures nodes[nodes[id].children[i]].IsComplete() <==> Share(kids, i, k) == Leaves(kids[i])
    ensures nodes[nodes[id].children[i]].IsOpen() <==> 0 < Share(kids, i, k) < Leaves(kids[i])
  {
    assert Shape(nodes, nodes[id].children[i], kids[i], Share(kids, i, k));
  }

  /** What Shape says of a tracker depends only on the trackers below it. */
  lemma {:induction false} ShapeFrame(earlier: seq<Tracker>, later: seq<Tracker>, id: nat, s: Section, k: nat)
    requires WellFormed(earlier) && id < |earlier| <= |later|
    requires Shape(earlier, id, s, k)
    requires forall j :: 0 <= j < |earlier| && Below(earlier, j, id) ==> later[j] == earlier[j]
    ensures Shape(later, id, s, k)
    decreases s, 0
  {
    assert Below(earlier, id, id);
    if 0 < k < Leaves(s) {
      forall i | 0 <= i < |s.kids|
        ensures KidShape(later, id, s.kids, i, k)
      {
        assert KidShape(earlier, id, s.kids, i, k);
        var c := earlier[id].children[i];
        forall j | 0 <= j < |earlier| && Below(earlier, j, c)
          ensures later[j] == earlier[j]
        {
          BelowTransitive(earlier, j, c, id);
        }
        KidFrame(earlier, later, id, s.kids, i, k);
      }
    }
  }

  lemma {:induction false} KidFrame(earlier: seq<Tracker>, later: seq<Tracker>, id: nat, kids: seq<Section>,
                                    i: nat, k: nat)
    requires WellFormed(earlier) && id < |earlier| <= |later| && i < |kids|
    requires KidShape(earlier, id, kids, i, k)
    requires later[id].children == earlier[id].children
    requires forall j :: 0 <= j < |earlier| && Below(earlier, j, earlier[id].children[i]) ==> later[j] == earlier[j]
    ensures KidShape(later, id, kids, i, k)
    decreases kids[i], 1
  {
    ShapeFrame(earlier, later, earlier[id].children[i], kids[i], Share(kids, i, k));
  }

  // ------------------------------------------------------- tracker operations

  /** Index of the first child of `id` called `name`, or the number of children. */
  function ChildIndex(nodes: seq<Tracker>, children: seq<nat>, name: string): (r: nat)
    requires forall m :: 0 <= m < |children| ==> children[m] < |nodes|
    ensures r <= |children|
    ensures r < |children| ==> nodes[children[r]].name == name
    ensures forall m :: 0 <= m < r ==> nodes[children[m]].name != name
  {
    if children == [] || nodes[children[0]].name == name then 0
    else ChildIndex(nodes, children[1..], name) + 1
  }

  function ChildAdded(nodes: seq<Tracker>, id: nat, name: string): (r: seq<Tracker>)
    requires WellFormed(nodes) && id < |nodes|
    ensures WellFormed(r) && |r| == |nodes| + 1
  {
    nodes[id := nodes[id].(children := nodes[id].children + [|nodes|])] + [Tracker(name, id, [], NotStarted)]
  }

  /** The child of `id` called `name` is looked up, or added if there is none. */
  function Acquired(nodes: seq<Tracker>, id: nat, name: string): (r: (seq<Tracker>, nat))
    requires WellFormed(nodes) && id < |nodes|
    ensures WellFormed(r.0) && r.1 < |r.0| && r.0[r.1].parent == id && r.0[r.1].name == name
  {
    var i := ChildIndex(nodes, nodes[id].children, name);
    if i < |nodes[id].children| then (nodes, nodes[id].children[i])
    else (ChildAdded(nodes, id, name), |nodes|)
  }

  function WithState(nodes: seq<Tracker>, id: nat, state: CycleState): (r: seq<Tracker>)
    requires id < |nodes|
    ensures WellFormed(nodes) ==> WellFormed(r)
  {
    nodes[id := nodes[id].(state := state)]
  }

  /** `id` and its ancestors are executing a child, up to the first that already was. */
  function ChildOpened(nodes: seq<Tracker>, id: nat): (r: seq<Tracker>)
    requires WellFormed(nodes) && id < |nodes|
    ensures WellFormed(r) && |r| == |nodes|
    decreases id
  {
    if nodes[id].state == ExecutingChildren then nodes
    else if id == 0 then WithState(nodes, id, ExecutingChildren)
    else ChildOpened(WithState(nodes, id, ExecutingChildren), nodes[id].parent)
  }

  function Opened(nodes: seq<Tracker>, id: nat): (r: seq<Tracker>)
    requires WellFormed(nodes) && id < |nodes|
    ensures WellFormed(r) && |r| == |nodes|
  {
    if id == 0 then WithState(nodes, id, Executing)
    else ChildOpened(WithState(nodes, id, Executing), nodes[id].parent)
  }

  predicate AllComplete(nodes: seq<Tracker>, children: seq<nat>)
    requires forall m :: 0 <= m < |children| ==> children[m] < |nodes|
  {
    forall i :: 0 <= i < |children| ==> nodes[children[i]].IsComplete()
  }

  function Closed(nodes: seq<Tracker>, id: nat): (r: seq<Tracker>)
    requires WellFormed(nodes) && id < |nodes|
    ensures WellFormed(r) && |r| == |nodes|
  {
    if nodes[id].state == Executing
       || (nodes[id].state == ExecutingChildren && AllComplete(nodes, nodes[id].children))
    then WithState(nodes, id, CompletedSuccessfully)
    else nodes
  }

  /** The trackers from `current` up to `id` can all be closed. */
  ghost predicate Closable(nodes: seq<Tracker>, current: nat, id: nat)
    requires WellFormed(nodes) && current < |nodes| && Below(nodes, current, id)
    decreases current
  {
    && nodes[current].state in {NeedsAnotherRun, Executing, ExecutingChildren}
    && (current != id ==> Closable(nodes, nodes[current].parent, id))
  }

  /** They are closed one after the other, the innermost first. */
  ghost function ClosedUpTo(nodes: seq<Tracker>, current: nat, id: nat): (r: seq<Tracker>)
    requires WellFormed(nodes) && current < |nodes| && Below(nodes, current, id)
    ensures WellFormed(r) && |r| == |nodes|
    decreases current
  {
    if current == id then Closed(nodes, id)
    else
      var after := Closed(nodes, current);
      BelowStable(nodes, after, nodes[current].parent, id);
      ClosedUpTo(after, nodes[current].parent, id)
  }

  lemma OneClosed(nodes: seq<Tracker>, current: nat, id: nat)
    requires WellFormed(nodes) && current < |nodes| && Below(nodes, current, id) && current != id
    requires Closable(nodes, current, id)
    ensures var after, parent := Closed(nodes, current), nodes[current].parent;
            && after[current].parent == parent && id <= parent && Below(after, parent, id)
            && Closable(after, parent, id) && ClosedUpTo(nodes, current, id) == ClosedUpTo(after, parent, id)
            && Below(nodes, current, current) && Closable(nodes, current, current)
            && ClosedUpTo(nodes, current, current) == after
  {
    var after, parent := Closed(nodes, current), nodes[current].parent;
    BelowStable(nodes, after, parent, id);
    ClosableFrame(nodes, after, parent, id);
  }

  lemma {:induction false} ClosableFrame(earlier: seq<Tracker>, later: seq<Tracker>, c: nat, id: nat)
    requires WellFormed(earlier) && WellFormed(later) && c < |earlier| == |later|
    requires forall j :: 0 <= j < |earlier| ==> later[j].parent == earlier[j].parent
    requires forall j :: 0 <= j <= c ==> later[j] == earlier[j]
    requires Below(earlier, c, id) && Below(later, c, id) && Closable(earlier, c, id)
    ensures Closable(later, c, id)
    decreases c
  {
    if c != id { ClosableFrame(earlier, later, earlier[c].parent, id); }
  }

  class TrackerContext {
    var nodes: seq<Tracker>
    var current: nat
    var runState: RunState

    ghost predicate Valid() reads this { WellFormed(nodes) && current < |nodes| }

    constructor ()
      ensures Valid() && nodes == [Tracker(ROOT_NAME, NO_PARENT, [], NotStarted)]
    {
      nodes := [Tracker(ROOT_NAME, NO_PARENT, [], NotStarted)];
      current, runState := 0, Running;
    }

    method StartCycle()
      requires Valid()
      modifies this
      ensures Valid() && nodes == old(nodes) && current == 0 && runState == Running
    {
      current := 0;
      runState := Running;
    }

    method FindChild(id: nat, name: string) returns (index: nat)
      requires Valid() && id < |nodes|
      ensures index == ChildIndex(nodes, nodes[id].children, name)
    {
      var children := nodes[id].children;
      index := 0;
      while index < |children| && nodes[children[index]].name != name
        invariant index <= |children|
        invariant ChildIndex(nodes, children, name) == index + ChildIndex(nodes, children[index..], name)
      {
        index := index + 1;
      }
    }

    method OpenChild(id: nat)
      requires Valid() && id < |nodes|
      modifies this`nodes
      ensures nodes == ChildOpened(old(nodes), id)
      decreases id
    {
      if nodes[id].state != ExecutingChildren {
        nodes := WithState(nodes, id, ExecutingChildren);
        if nodes[id].parent != NO_PARENT {
          OpenChild(nodes[id].parent);
        }
      }
    }

    method Open(id: nat)
      requires Valid() && id < |nodes|
      modifies this
      ensures nodes == Opened(old(nodes), id) && current == id && runState == old(runState)
    {
      nodes := WithState(nodes, id, Executing);
      current := id;
      if nodes[id].parent != NO_PARENT {
        OpenChild(nodes[id].parent);
      }
    }

    /** The source's TrackerBase::close: trackers still open below this one are
        closed first. */
    method Close(id: nat)
      requires Valid() && 0 < id && Below(nodes, current, id) && Closable(nodes, current, id)
      modifies this
      ensures Valid() && nodes == ClosedUpTo(old(nodes), old(current), id)
      ensures current == nodes[id].parent && runState == CompletedCycle
      decreases |nodes| - id
    {
      while current != id
        invariant Valid() && id <= current && Below(nodes, current, id) && Closable(nodes, current, id)
        invariant |nodes| == |old(nodes)| && ClosedUpTo(nodes, current, id) == ClosedUpTo(old(nodes), old(current), id)
        decreases current
      {
        OneClosed(nodes, current, id);
        Close(current);
      }
      CloseThis(id);
    }

    /** The rest of close, for the tracker that is the current one by then. */
    method CloseThis(id: nat)
      requires Valid() && 0 < id && current == id
      requires nodes[id].state in {NeedsAnotherRun, Executing, ExecutingChildren}
      modifies this
      ensures Valid() && nodes == Closed(old(nodes), id) && current == nodes[id].parent && runState == CompletedCycle
    {
      match nodes[id].state {
        case NeedsAnotherRun =>
        case Executing =>
          nodes := WithState(nodes, id, CompletedSuccessfully);
        case ExecutingChildren =>
          if AllComplete(nodes, nodes[id].children) {
            nodes := WithState(nodes, id, CompletedSuccessfully);
          }
      }
      current := nodes[id].parent;
      runState := CompletedCycle;
    }

    method Acquire(name: string) returns (id: nat)
      requires Valid()
      modifies this
      ensures Valid() && runState == old(runState)
      ensures id == Acquired(old(nodes), old(current), name).1
      ensures var added := Acquired(old(nodes), old(current), name).0;
              if runState != CompletedCycle && !added[id].IsComplete()
              then nodes == Opened(added, id) && current == id
              else nodes == added && current == old(current)
    {
      id := FindOrAdd(name);
      if runState != CompletedCycle {
        TryOpen(id);
      }
    }

    method FindOrAdd(name: string) returns (id: nat)
      requires Valid()
      modifies this`nodes
      ensures Valid() && (nodes, id) == Acquired(old(nodes), current, name)
    {
      var index := FindChild(current, name);
      if index < |nodes[current].children| {
        id := nodes[current].children[index];
      } else {
        id := AddChild(name);
      }
    }

    method AddChild(name: string) returns (id: nat)
      requires Valid()
      modifies this`nodes
      ensures Valid() && nodes == ChildAdded(old(nodes), current, name) && id == |old(nodes)|
    {
      id := |nodes|;
      nodes := nodes[current := nodes[current].(children := nodes[current].children + [id])]
               + [Tracker(name, current, [], NotStarted)];
    }

    method TryOpen(id: nat)
      requires Valid() && id < |nodes|
      modifies this
      ensures Valid() && runState == old(runState)
      ensures if old(nodes)[id].IsComplete() then nodes == old(nodes) && current == old(current)
              else nodes == Opened(old(nodes), id) && current == id
    {
      if !nodes[id].IsComplete() {
        Open(id);
      }
    }
  }

  // -------------------------------------------------------- one cycle of a body

  /** Tracker id has just started on a run of the body of s, of whose
      leaves the first k are completed. */
  ghost predicate Entered(nodes: seq<Tracker>, id: nat, s: Section, k: nat)
  {
    && WellFormed(nodes)
    && 0 < id < |nodes|
    && k < Leaves(s)
    && nodes[id].name == s.name
    && nodes[id].state == Executing
    && nodes[nodes[id].parent].state == ExecutingChildren
    && if k == 0 then nodes[id].children == [] else KidsShape(nodes, id, s.kids, k)
  }

  /** The cycle's leaf is done: every child there is records its share of k
      leaves. In the first run of a body, a child exists once it has been met. */
  ghost predicate KidsSoFar(nodes: seq<Tracker>, id: nat, kids: seq<Section>, i: nat, k: nat)
    requires id < |nodes| && i <= |kids|
  {
    && (|nodes[id].children| == i || |nodes[id].children| == |kids|)
    && forall m :: 0 <= m < |nodes[id].children| ==> KidShape(nodes, id, kids, m, k)
  }

  ghost predicate NamesMatch(nodes: seq<Tracker>, id: nat, kids: seq<Section>)
    requires WellFormed(nodes) && id < |nodes|
  {
    && |nodes[id].children| <= |kids|
    && forall m :: 0 <= m < |nodes[id].children| ==> nodes[nodes[id].children[m]].name == kids[m].name
  }

  /** With distinct names, section i is looked up as child i. */
  lemma FoundInPlace(nodes: seq<Tracker>, id: nat, s: Section, i: nat)
    requires WellFormed(nodes) && id < |nodes| && Distinct(s) && i < |s.kids|
    requires NamesMatch(nodes, id, s.kids) && i <= |nodes[id].children|
    ensures ChildIndex(nodes, nodes[id].children, s.kids[i].name) == i
            || |nodes[id].children| == i == ChildIndex(nodes, nodes[id].children, s.kids[i].name)
  {
    var r := ChildIndex(nodes, nodes[id].children, s.kids[i].name);
    assert r < |nodes[id].children| ==> nodes[nodes[id].children[r]].name == s.kids[r].name;
  }

  /** Opening a tracker whose parent is executing marks the two of them only. */
  lemma OpenedIsLocal(nodes: seq<Tracker>, c: nat)
    requires WellFormed(nodes) && c < |nodes| && nodes[c].parent > 0
    requires nodes[nodes[c].parent].state == Executing
    requires nodes[nodes[nodes[c].parent].parent].state == ExecutingChildren
    ensures Opened(nodes, c) == WithState(WithState(nodes, c, Executing), nodes[c].parent, ExecutingChildren)
  {
    var p := nodes[c].parent;
    var self := WithState(nodes, c, Executing);
    var both := WithState(self, p, ExecutingChildren);
    assert nodes[p].parent < p < c;
    assert both[both[p].parent].state == ExecutingChildren;
    assert ChildOpened(both, both[p].parent) == both;
  }

  /** All children are complete exactly when the last leaf has been run. */
  lemma AllCompleteIffLastLeaf(nodes: seq<Tracker>, id: nat, s: Section, k: nat)
    requires WellFormed(nodes) && id < |nodes| && s.kids != [] && k <= Leaves(s)
    requires KidsShape(nodes, id, s.kids, k)
    ensures AllComplete(nodes, nodes[id].children) <==> k == Leaves(s)
  {
    var n := |s.kids|;
    assert Leaves(s) == LeavesBefore(s.kids, n - 1) + Leaves(s.kids[n - 1]);
    assert KidShape(nodes, id, s.kids, n - 1, k);
    KidState(nodes, id, s.kids, n - 1, k);
    if k == Leaves(s) {
      forall i | 0 <= i < n
        ensures nodes[nodes[id].children[i]].IsComplete()
      {
        assert KidShape(nodes, id, s.kids, i, k);
        KidState(nodes, id, s.kids, i, k);
        LeavesBeforeMonotone(s.kids, i + 1, n);
        assert Share(s.kids, i, k) == Leaves(s.kids[i]);
      }
    }
  }

  /** Closing a tracker after its body ran one more leaf records that leaf. */
  lemma ClosedShape(nodes: seq<Tracker>, id: nat, s: Section, k: nat)
    requires WellFormed(nodes) && id < |nodes| && nodes[id].name == s.name && k < Leaves(s)
    requires if s.kids == [] then nodes[id].state == Executing
             else nodes[id].state == ExecutingChildren && KidsShape(nodes, id, s.kids, k + 1)
    ensures Shape(Closed(nodes, id), id, s, k + 1)
  {
    if s.kids != [] { AllCompleteIffLastLeaf(nodes, id, s, k + 1); }
  }

  /** A child keeps its shape while only its parent and a sibling's subtree change. */
  lemma SiblingKept(earlier: seq<Tracker>, later: seq<Tracker>, id: nat, kids: seq<Section>, m: nat, c: nat,
                    k: nat, k': nat)
    requires WellFormed(earlier) && id < |earlier| <= |later| && m < |kids|
    requires KidShape(earlier, id, kids, m, k) && Share(kids, m, k) == Share(kids, m, k')
    requires m < |later[id].children| && later[id].children[m] == earlier[id].children[m] != c
    requires 0 < c && (c < |earlier| ==> earlier[c].parent == id)
    requires forall j :: 0 <= j < |earlier| && j != id && (c >= |earlier| || !Below(earlier, j, c)) ==>
               later[j] == earlier[j]
    ensures KidShape(later, id, kids, m, k')
  {
    var d := earlier[id].children[m];
    forall j | 0 <= j < |earlier| && Below(earlier, j, d)
      ensures later[j] == earlier[j]
    {
      if c < |earlier| { SiblingsDisjoint(earlier, j, c, d); }
    }
    ShapeFrame(earlier, later, d, kids[m], Share(kids, m, k));
  }

  lemma ChangedTransitive(a: seq<Tracker>, b: seq<Tracker>, d: seq<Tracker>, id: nat)
    requires WellFormed(a) && WellFormed(b) && WellFormed(d)
    requires ChangedOnlyBelow(a, b, id) && ChangedOnlyBelow(b, d, id)
    ensures ChangedOnlyBelow(a, d, id)
  {
    forall j | 0 <= j < |a| && !Below(a, j, id)
      ensures d[j] == a[j]
    {
      BelowStable(a, b, j, id);
    }
  }

  /** Meeting section i before the cycle's leaf was run: its tracker is child i. */
  lemma KidFound(nodes: seq<Tracker>, id: nat, s: Section, i: nat, k: nat)
    requires Entered(nodes, id, s, k) && Distinct(s) && i < |s.kids| && LeavesBefore(s.kids, i) <= k
    ensures ChildIndex(nodes, nodes[id].children, s.kids[i].name) == i
    ensures var (added, c) := Acquired(nodes, id, s.kids[i].name);
            && Shape(added, c, s.kids[i], Share(s.kids, i, k))
            && (if k > 0 then i < |nodes[id].children| && added == nodes && c == nodes[id].children[i]
                else i == 0 && nodes[id].children == [])
  {
    if k > 0 {
      assert KidShape(nodes, id, s.kids, i, k);
      forall m | 0 <= m < |s.kids|
        ensures nodes[nodes[id].children[m]].name == s.kids[m].name
      {
        assert KidShape(nodes, id, s.kids, m, k);
        KidState(nodes, id, s.kids, m, k);
      }
    }
    FoundInPlace(nodes, id, s, i);
  }

  /** A section that is complete is passed by, the first other one is opened. */
  lemma KidEntered(nodes: seq<Tracker>, id: nat, s: Section, i: nat, k: nat)
    requires Entered(nodes, id, s, k) && Distinct(s) && i < |s.kids| && LeavesBefore(s.kids, i) <= k
    ensures var (added, c) := Acquired(nodes, id, s.kids[i].name);
            if LeavesBefore(s.kids, i + 1) <= k then added == nodes && added[c].IsComplete()
            else && !added[c].IsComplete() && id < c
                 && Entered(Opened(added, c), c, s.kids[i], Share(s.kids, i, k))
                 && KidOpened(nodes, Opened(added, c), id, s.kids, i, c, k)
  {
    KidFound(nodes, id, s, i, k);
    var (added, c) := Acquired(nodes, id, s.kids[i].name);
    if LeavesBefore(s.kids, i + 1) > k {
      OpenedIsLocal(added, c);
      BodyEntered(added, c, s.kids[i], Share(s.kids, i, k));
    }
  }

  lemma BodyEntered(nodes: seq<Tracker>, c: nat, s: Section, k: nat)
    requires WellFormed(nodes) && 0 < c < |nodes| && k < Leaves(s) && Shape(nodes, c, s, k)
    ensures var after := WithState(WithState(nodes, c, Executing), nodes[c].parent, ExecutingChildren);
            Entered(after, c, s, k)
  {
    var after := WithState(WithState(nodes, c, Executing), nodes[c].parent, ExecutingChildren);
    if k > 0 {
      assert KidsShape(nodes, c, s.kids, k);
      forall m | 0 <= m < |s.kids|
        ensures KidShape(after, c, s.kids, m, k)
      {
        assert KidShape(nodes, c, s.kids, m, k);
        KidFrame(nodes, after, c, s.kids, m, k);
      }
    }
  }

  /** What opening section i changed in the trackers. */
  ghost predicate KidOpened(nodes: seq<Tracker>, after: seq<Tracker>, id: nat, kids: seq<Section>, i: nat,
                            c: nat, k: nat)
    requires WellFormed(nodes) && id < |nodes|
  {
    && WellFormed(after) && id < c <= |nodes|
    && |after| == (if c == |nodes| then c + 1 else |nodes|)
    && after[id].state == ExecutingChildren && after[c].parent == id
    && after[id].name == nodes[id].name && after[id].parent == nodes[id].parent
    && i < |after[id].children| && after[id].children[i] == c
    && (c < |nodes| ==> after[id].children == nodes[id].children && |nodes[id].children| == |kids|
                        && after[c].name == nodes[c].name && nodes[c].parent == id)
    && (c >= |nodes| ==> i == 0 && k == 0 && nodes[id].children == [] && after[id].children == [c])
    && forall j :: 0 <= j < |nodes| && j != id && j != c ==> after[j] == nodes[j]
  }

  /** The trackers after the run of section i, from opening to closing it. */
  ghost predicate KidClosed(before: seq<Tracker>, later: seq<Tracker>, id: nat, kids: seq<Section>, i: nat,
                            c: nat, k: nat)
    requires WellFormed(before) && id < |before| && i < |kids|
  {
    && WellFormed(later) && id < c < |later| && |before| <= |later|
    && later[id].state == ExecutingChildren
    && later[id].parent == before[id].parent && later[id].name == before[id].name
    && i < |later[id].children| && later[id].children[i] == c && later[c].parent == id
    && (c < |before| ==> later[id].children == before[id].children && |before[id].children| == |kids|
                         && before[c].parent == id && before[c].name == later[c].name)
    && (c >= |before| ==> i == 0 && k == 0 && later[id].children == [c])
    && Shape(later, c, kids[i], Share(kids, i, k) + 1)
    && forall j :: 0 <= j < |before| && j != id && (c >= |before| || !Below(before, j, c)) ==> later[j] == before[j]
  }

  lemma KidRunLocal(before: seq<Tracker>, entered: seq<Tracker>, later: seq<Tracker>, id: nat,
                    kids: seq<Section>, i: nat, c: nat, k: nat)
    requires WellFormed(before) && id < |before| && i < |kids|
    requires KidOpened(before, entered, id, kids, i, c, k)
    requires WellFormed(later) && ChangedOnlyBelow(entered, later, c)
    requires Shape(later, c, kids[i], Share(kids, i, k) + 1)
    ensures KidClosed(before, later, id, kids, i, c, k)
    ensures ChangedOnlyBelow(before, later, id)
  {
    assert !Below(entered, id, c);
    forall j | 0 <= j < |before| && j != id && (c >= |before| || !Below(before, j, c))
      ensures later[j] == before[j]
    {
      if c < |before| { BelowStable(before, entered, j, c); }
    }
    forall j | 0 <= j < |before| && !Below(before, j, id)
      ensures later[j] == before[j]
    {
      if c < |before| && Below(before, j, c) { BelowTransitive(before, j, c, id); }
    }
  }

  /** Section i has one completed leaf more; the other sections are as before. */
  lemma KidsAfterRun(before: seq<Tracker>, later: seq<Tracker>, id: nat, s: Section, i: nat, c: nat, k: nat)
    requires Distinct(s) && Entered(before, id, s, k) && i < |s.kids|
    requires LeavesBefore(s.kids, i) <= k < LeavesBefore(s.kids, i + 1)
    requires KidClosed(before, later, id, s.kids, i, c, k)
    ensures KidsSoFar(later, id, s.kids, i + 1, k + 1)
  {
    ShareStep(s.kids, i, k);
    var k' := k + 1;
    forall m | 0 <= m < |later[id].children|
      ensures KidShape(later, id, s.kids, m, k')
    {
      if m != i {
        assert KidsShape(before, id, s.kids, k);
        assert KidShape(before, id, s.kids, m, k) && KidShape(before, id, s.kids, i, k);
        KidState(before, id, s.kids, m, k);
        KidState(before, id, s.kids, i, k);
        SiblingKept(before, later, id, s.kids, m, c, k, k');
      }
    }
  }

  lemma KidDone(before: seq<Tracker>, entered: seq<Tracker>, later: seq<Tracker>, id: nat, s: Section, i: nat,
                c: nat, k: nat)
    requires Distinct(s) && Entered(before, id, s, k) && i < |s.kids|
    requires LeavesBefore(s.kids, i) <= k < LeavesBefore(s.kids, i + 1)
    requires KidOpened(before, entered, id, s.kids, i, c, k)
    requires WellFormed(later) && ChangedOnlyBelow(entered, later, c)
    requires Shape(later, c, s.kids[i], Share(s.kids, i, k) + 1)
    ensures ChangedOnlyBelow(before, later, id)
    ensures later[id].state == ExecutingChildren
    ensures KidsSoFar(later, id, s.kids, i + 1, k + 1)
  {
    KidRunLocal(before, entered, later, id, s.kids, i, c, k);
    KidsAfterRun(before, later, id, s, i, c, k);
  }

  lemma AllKidsMet(nodes: seq<Tracker>, id: nat, kids: seq<Section>, k: nat)
    requires id < |nodes| && KidsSoFar(nodes, id, kids, |kids|, k)
    ensures KidsShape(nodes, id, kids, k)
  {
    forall m | 0 <= m < |kids|
      ensures KidShape(nodes, id, kids, m, k)
    {}
  }

  /** Meeting section i after the cycle's leaf was run: it is not open. */
  lemma AcquiredAfterwards(nodes: seq<Tracker>, id: nat, s: Section, i: nat, k: nat)
    requires WellFormed(nodes) && 0 < id < |nodes| && Distinct(s) && i < |s.kids|
    requires KidsSoFar(nodes, id, s.kids, i, k) && k <= LeavesBefore(s.kids, i)
    ensures var (added, c) := Acquired(nodes, id, s.kids[i].name);
            && !added[c].IsOpen() && ChangedOnlyBelow(nodes, added, id)
            && added[id].state == nodes[id].state && KidsSoFar(added, id, s.kids, i + 1, k)
  {
    forall m | 0 <= m < |nodes[id].children|
      ensures nodes[nodes[id].children[m]].name == s.kids[m].name
    {
      KidState(nodes, id, s.kids, m, k);
    }
    FoundInPlace(nodes, id, s, i);
    if i < |nodes[id].children| {
      KidState(nodes, id, s.kids, i, k);
    } else {
      KidAdded(nodes, id, s.kids, i, k);
    }
  }

  /** A section met for the first time gets a tracker that is not started. */
  lemma KidAdded(nodes: seq<Tracker>, id: nat, kids: seq<Section>, i: nat, k: nat)
    requires WellFormed(nodes) && 0 < id < |nodes| && i < |kids| && |nodes[id].children| == i
    requires i == ChildIndex(nodes, nodes[id].children, kids[i].name)
    requires KidsSoFar(nodes, id, kids, i, k) && k <= LeavesBefore(kids, i)
    ensures var (added, c) := Acquired(nodes, id, kids[i].name);
            && !added[c].IsOpen() && ChangedOnlyBelow(nodes, added, id)
            && added[id].state == nodes[id].state && KidsSoFar(added, id, kids, i + 1, k)
  {
    var (added, c) := Acquired(nodes, id, kids[i].name);
    forall m | 0 <= m < |added[id].children|
      ensures KidShape(added, id, kids, m, k)
    {
      if m < i { SiblingKept(nodes, added, id, kids, m, c, k, k); }
    }
  }

  /** Between cycles: the test case's tracker is the root's only child. */
  ghost predicate TestShape(nodes: seq<Tracker>, test: Section, k: nat)
  {
    if k == 0 then nodes == [Tracker(ROOT_NAME, NO_PARENT, [], NotStarted)]
    else |nodes| > 1 && nodes[0].children == [1] && Shape(nodes, 1, test, k)
  }

  lemma TestEntered(nodes: seq<Tracker>, test: Section, k: nat)
    requires WellFormed(nodes) && TestShape(nodes, test, k) && k < Leaves(test)
    ensures var (added, c) := Acquired(nodes, 0, test.name);
            && c == 1 && !added[c].IsComplete() && Entered(Opened(added, c), c, test, k)
            && added[0].children == [1] && Opened(added, c)[0].children == [1]
  {
    var (added, c) := Acquired(nodes, 0, test.name);
    assert Shape(added, 1, test, k);
    BodyEntered(added, c, test, k);
    assert Opened(added, c) == WithState(WithState(added, c, Executing), 0, ExecutingChildren);
  }

  class RunContext {
    const context: TrackerContext
    var activeSections: seq<nat>
    var entered: seq<Path>   // the leaf bodies that were run, in order

    constructor ()
      ensures fresh(context) && context.Valid() && entered == [] && activeSections == []
      ensures context.nodes == [Tracker(ROOT_NAME, NO_PARENT, [], NotStarted)]
    {
      context := new TrackerContext();
      activeSections, entered := [], [];
    }

    method SectionStarted(name: string) returns (open: bool)
      requires context.Valid()
      modifies this`activeSections, context
      ensures context.Valid() && context.runState == old(context.runState)
      ensures var (added, id) := Acquired(old(context.nodes), old(context.current), name);
              && (if context.runState != CompletedCycle && !added[id].IsComplete()
                  then context.nodes == Opened(added, id) && context.current == id
                  else context.nodes == added && context.current == old(context.current))
              && open == context.nodes[id].IsOpen()
              && activeSections == old(activeSections) + if open then [id] else []
    {
      var id := context.Acquire(name);
      if !context.nodes[id].IsOpen() {
        return false;
      }
      activeSections := activeSections + [id];
      return true;
    }

    method SectionEnded()
      requires context.Valid()
      requires activeSections != [] ==>
                 var last := activeSections[|activeSections| - 1];
                 0 < last && Below(context.nodes, context.current, last)
                 && Closable(context.nodes, context.current, last)
      modifies this`activeSections, context
      ensures context.Valid()
      ensures if old(activeSections) == []
              then activeSections == [] && context.nodes == old(context.nodes)
                   && context.current == old(context.current) && context.runState == old(context.runState)
              else var last := old(activeSections[|activeSections| - 1]);
                   && context.nodes == ClosedUpTo(old(context.nodes), old(context.current), last)
                   && context.current == context.nodes[last].parent && context.runState == CompletedCycle
                   && activeSections == old(activeSections[..|activeSections| - 1])
    {
      if activeSections != [] {
        var last := |activeSections| - 1;
        context.Close(activeSections[last]);
        activeSections := activeSections[..last];
      }
    }

    /** Runs the body of s in a cycle in which no leaf was run yet. */
    method RunBody(s: Section, path: Path, ghost k: nat)
      requires Distinct(s) && context.runState == Running
      requires context.Valid() && Entered(context.nodes, context.current, s, k)
      modifies this, context
      ensures context.Valid() && context.current == old(context.current) && activeSections == old(activeSections)
      ensures ChangedOnlyBelow(old(context.nodes), context.nodes, context.current)
      ensures entered == old(entered) + [LeafPaths(path, s)[k]]
      ensures if s.kids == []
              then context.nodes == old(context.nodes) && context.runState == Running
              else && context.runState == CompletedCycle
                   && context.nodes[context.current].state == ExecutingChildren
                   && KidsShape(context.nodes, context.current, s.kids, k + 1)
      decreases s, 4
    {
      if s.kids == [] {
        entered := entered + [path + [s.name]];
        return;
      }
      RunSections(s, path, k);
    }

    /** The body of a section that has sections: it meets them in order. */
    method RunSections(s: Section, path: Path, ghost k: nat)
      requires Distinct(s) && context.runState == Running && s.kids != []
      requires context.Valid() && Entered(context.nodes, context.current, s, k)
      modifies this, context
      ensures context.Valid() && context.current == old(context.current) && activeSections == old(activeSections)
      ensures ChangedOnlyBelow(old(context.nodes), context.nodes, context.current)
      ensures entered == old(entered) + [LeafPaths(path, s)[k]] && context.runState == CompletedCycle
      ensures context.nodes[context.current].state == ExecutingChildren
      ensures KidsShape(context.nodes, context.current, s.kids, k + 1)
      decreases s, 3
    {
      ghost var id, start, done, leaf := context.current, context.nodes, entered, LeafPaths(path, s)[k];
      var i := 0;
      while i < |s.kids|
        invariant i <= |s.kids| && activeSections == old(activeSections)
        invariant Met(s, i, k, start, id, done, leaf)
      {
        Meet(s, i, path + [s.name], k, start, id, done);
        i := i + 1;
      }
      assert Leaves(s) == LeavesBefore(s.kids, |s.kids|);
      AllKidsMet(context.nodes, id, s.kids, k + 1);
    }

    /** The first i sections of the running body were met. Until the cycle's leaf
        was run, everything is as when the body was started. */
    ghost predicate Met(s: Section, i: nat, k: nat, start: seq<Tracker>, id: nat, done: seq<Path>, leaf: Path)
      requires i <= |s.kids|
      reads this, context
    {
      && context.Valid() && context.current == id && WellFormed(start)
      && ChangedOnlyBelow(start, context.nodes, id)
      && if context.runState == Running
         then LeavesBefore(s.kids, i) <= k && context.nodes == start && entered == done
         else && k < LeavesBefore(s.kids, i) && entered == done + [leaf]
              && context.nodes[id].state == ExecutingChildren && KidsSoFar(context.nodes, id, s.kids, i, k + 1)
    }

    method Meet(s: Section, i: nat, path: Path, ghost k: nat, ghost start: seq<Tracker>, ghost id: nat,
                ghost done: seq<Path>)
      requires Distinct(s) && i < |s.kids| && Entered(start, id, s, k)
      requires Met(s, i, k, start, id, done, LeafPathsBefore(path, s.kids, |s.kids|)[k])
      modifies this, context
      ensures Met(s, i + 1, k, start, id, done, LeafPathsBefore(path, s.kids, |s.kids|)[k])
      ensures activeSections == old(activeSections)
      decreases s, 2
    {
      ghost var before := context.nodes;
      if context.runState == Running {
        MeetWhileRunning(s, i, path, k);
      } else {
        MeetAfterwards(s, i, path, k);
      }
      ChangedTransitive(start, before, context.nodes, id);
    }

    method MeetWhileRunning(s: Section, i: nat, path: Path, ghost k: nat)
      requires Distinct(s) && i < |s.kids| && LeavesBefore(s.kids, i) <= k
      requires context.runState == Running
      requires context.Valid() && Entered(context.nodes, context.current, s, k)
      modifies this, context
      ensures context.Valid() && context.current == old(context.current) && activeSections == old(activeSections)
      ensures ChangedOnlyBelow(old(context.nodes), context.nodes, context.current)
      ensures if LeavesBefore(s.kids, i + 1) <= k
              then context.runState == Running && context.nodes == old(context.nodes) && entered == old(entered)
              else && context.runState == CompletedCycle
                   && entered == old(entered) + [LeafPathsBefore(path, s.kids, |s.kids|)[k]]
                   && context.nodes[context.current].state == ExecutingChildren
                   && KidsSoFar(context.nodes, context.current, s.kids, i + 1, k + 1)
      decreases s, 1
    {
      ghost var before, id, r := context.nodes, context.current, Share(s.kids, i, k);
      KidEntered(before, id, s, i, k);
      var open := SectionStarted(s.kids[i].name);
      if open {
        RunKid(s, i, path, before, id, k);
      }
    }

    /** Section i of s was opened out of `before`: it runs, and is left again. */
    method RunKid(s: Section, i: nat, path: Path, ghost before: seq<Tracker>, ghost id: nat, ghost k: nat)
      requires Distinct(s) && i < |s.kids| && LeavesBefore(s.kids, i) <= k < LeavesBefore(s.kids, i + 1)
      requires context.Valid() && context.runState == Running && Entered(before, id, s, k)
      requires Entered(context.nodes, context.current, s.kids[i], Share(s.kids, i, k))
      requires KidOpened(before, context.nodes, id, s.kids, i, context.current, k)
      requires activeSections != [] && activeSections[|activeSections| - 1] == context.current
      modifies this, context
      ensures context.Valid() && context.runState == CompletedCycle && context.current == id
      ensures activeSections == old(activeSections[..|activeSections| - 1])
      ensures ChangedOnlyBelow(before, context.nodes, id)
      ensures context.nodes[id].state == ExecutingChildren
      ensures KidsSoFar(context.nodes, id, s.kids, i + 1, k + 1)
      ensures entered == old(entered) + [LeafPathsBefore(path, s.kids, |s.kids|)[k]]
      decreases s, 0
    {
      ghost var r := Share(s.kids, i, k);
      RunSection(s.kids[i], path, r);
      KidDone(before, old(context.nodes), context.nodes, id, s, i, old(context.current), k);
      LeafPathOfKid(path, s.kids, i, r, |s.kids|);
    }

    /** The body of a section that was just opened, and the end of the section. */
    method RunSection(s: Section, path: Path, ghost k: nat)
      requires Distinct(s) && context.runState == Running
      requires context.Valid() && Entered(context.nodes, context.current, s, k)
      requires activeSections != [] && activeSections[|activeSections| - 1] == context.current
      modifies this, context
      ensures context.Valid() && context.runState == CompletedCycle
      ensures context.current == old(context.nodes[context.current].parent)
      ensures activeSections == old(activeSections[..|activeSections| - 1])
      ensures ChangedOnlyBelow(old(context.nodes), context.nodes, old(context.current))
      ensures Shape(context.nodes, old(context.current), s, k + 1)
      ensures entered == old(entered) + [LeafPaths(path, s)[k]]
      decreases s, 5
    {
      RunBody(s, path, k);
      ClosedShape(context.nodes, context.current, s, k);
      SectionEnded();
    }

    method MeetAfterwards(s: Section, i: nat, path: Path, ghost k: nat)
      requires Distinct(s) && i < |s.kids| && k < LeavesBefore(s.kids, i)
      requires context.runState == CompletedCycle
      requires context.Valid() && context.current > 0
      requires context.nodes[context.current].state == ExecutingChildren
      requires KidsSoFar(context.nodes, context.current, s.kids, i, k + 1)
      modifies this, context
      ensures context.Valid() && context.current == old(context.current) && activeSections == old(activeSections)
      ensures context.runState == CompletedCycle && entered == old(entered)
      ensures ChangedOnlyBelow(old(context.nodes), context.nodes, context.current)
      ensures context.nodes[context.current].state == ExecutingChildren
      ensures KidsSoFar(context.nodes, context.current, s.kids, i + 1, k + 1)
    {
      ghost var before, id := context.nodes, context.current;
      AcquiredAfterwards(before, id, s, i, k + 1);
      var open := SectionStarted(s.kids[i].name);
      assert !open;
    }

    /** One cycle of the test case, of whose leaves the first k were run before. */
    method RunCycle(test: Section, ghost k: nat) returns (completed: bool)
      requires Distinct(test) && k < Leaves(test) && activeSections == []
      requires context.Valid() && TestShape(context.nodes, test, k)
      modifies this, context
      ensures context.Valid() && activeSections == []
      ensures TestShape(context.nodes, test, k + 1)
      ensures completed <==> k + 1 == Leaves(test)
      ensures entered == old(entered) + [LeafPaths([], test)[k]]
    {
      context.StartCycle();
      var testCase := context.Acquire(test.name);
      TestEntered(old(context.nodes), test, k);
      RunBody(test, [], k);
      ClosedShape(context.nodes, testCase, test, k);
      context.Close(testCase);
      completed := context.nodes[testCase].state == CompletedSuccessfully;
    }

    /** Every leaf of the test is entered exactly once, in depth-first order,
        in exactly as many cycles as there are leaves. */
    method RunTest(test: Section) returns (cycles: nat)
      requires Distinct(test) && activeSections == [] && entered == []
      requires context.nodes == [Tracker(ROOT_NAME, NO_PARENT, [], NotStarted)] && context.Valid()
      modifies this, context
      ensures entered == LeafPaths([], test)
      ensures cycles == Leaves(test)
    {
      cycles := 0;
      var completed := false;
      while !completed
        invariant context.Valid() && activeSections == [] && cycles <= Leaves(test)
        invariant TestShape(context.nodes, test, cycles)
        invariant completed <==> cycles == Leaves(test)
        invariant entered == LeafPaths([], test)[..cycles]
        decreases Leaves(test) - cycles
      {
        completed := RunCycle(test, cycles);
        cycles := cycles + 1;
      }
    }
  }
}
