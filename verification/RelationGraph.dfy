/**
 Which tables the relation viewer shows: the filtered ones, those a number of foreign-key steps away,
 and, on request, only the ones left with an edge.
 */
module RelationGraph {
  import opened Wrappers

  type Id = string

  datatype Edge = Edge(from: Id, to: Id)

  datatype Direction = Both | Outgoing | Incoming

  /** The depth box: a number of steps, or everything. */
  datatype Depth = Steps(n: nat) | All

  /** Where the search starts and what it may walk over. */
  datatype Search = Search(edges: seq<Edge>, direction: Direction, showable: set<Id>, base: set<Id>)

  /** A step along an edge in the chosen direction, onto a neighbour that may be shown. */
  predicate CanStep(edges: seq<Edge>, direction: Direction, showable: set<Id>, a: Id, b: Id) {
    && b in showable
    && exists k :: 0 <= k < |edges| &&
         ( || (direction != Incoming && edges[k] == Edge(a, b))
           || (direction != Outgoing && edges[k] == Edge(b, a)))
  }

  predicate Neighbour(q: Search, a: Id, b: Id) {
    CanStep(q.edges, q.direction, q.showable, a, b)
  }

  ghost predicate IsPath(q: Search, path: seq<Id>) {
    && |path| > 0 && path[0] in q.base
    && forall k :: 0 < k < |path| ==> Neighbour(q, path[k - 1], path[k])
  }

  /** Some path of at most `steps` steps leads from a base node to `v`. */
  ghost predicate Reaches(q: Search, v: Id, steps: nat) {
    exists path: seq<Id> :: IsPath(q, path) && path[|path| - 1] == v && |path| <= steps + 1
  }

  ghost predicate ReachesAtAll(q: Search, v: Id) {
    exists steps: nat :: Reaches(q, v, steps)
  }

  // ---------------------------------------------------------------------------
  // One round
  // ---------------------------------------------------------------------------

  /** The unseen showable neighbours of the frontier. */
  ghost predicate IsNext(q: Search, visible: set<Id>, frontier: set<Id>, next: set<Id>) {
    forall b :: b in next <==> b !in visible && exists a :: a in frontier && Neighbour(q, a, b)
  }

  method Round(q: Search, visible: set<Id>, frontier: set<Id>) returns (next: set<Id>)
    ensures IsNext(q, visible, frontier, next)
  {
    var Search(edges, direction, showable, _) := q;
    next := {};
    for k := 0 to |edges|
      invariant forall b :: b in next <==>
                  b !in visible && exists a :: a in frontier && CanStep(edges[..k], direction, showable, a, b)
    {
      var edge, before := edges[k], next;
      if direction != Incoming && edge.from in frontier && edge.to !in visible && edge.to in showable {
        next := next + {edge.to};
      }
      if direction != Outgoing && edge.to in frontier && edge.from !in visible && edge.from in showable {
        next := next + {edge.from};
      }
      forall a, b ensures CanStep(edges[..k + 1], direction, showable, a, b)
                     <==> CanStep(edges[..k], direction, showable, a, b)
                          || (b in showable && ((direction != Incoming && edge == Edge(a, b))
                                                || (direction != Outgoing && edge == Edge(b, a))))
      {
        StepPush(edges, k, direction, showable, a, b);
      }
    }
    assert edges[..|edges|] == edges;
  }

  lemma StepPush(edges: seq<Edge>, k: nat, direction: Direction, showable: set<Id>, a: Id, b: Id)
    requires k < |edges|
    ensures CanStep(edges[..k + 1], direction, showable, a, b)
       <==> CanStep(edges[..k], direction, showable, a, b)
            || (b in showable && ((direction != Incoming && edges[k] == Edge(a, b))
                                  || (direction != Outgoing && edges[k] == Edge(b, a))))
  {
    assert edges[..k + 1] == edges[..k] + [edges[k]];
    assert edges[..k + 1][k] == edges[k];
    if CanStep(edges[..k], direction, showable, a, b) {
      var j :| 0 <= j < k && ( || (direction != Incoming && edges[..k][j] == Edge(a, b))
                               || (direction != Outgoing && edges[..k][j] == Edge(b, a)));
      assert edges[..k + 1][j] == edges[..k][j];
    }
  }

  // ---------------------------------------------------------------------------
  // The rounds
  // ---------------------------------------------------------------------------

  /** After `steps` rounds: exactly what that many steps reach, the frontier being what is new. */
  ghost predicate RoundsDone(q: Search,
                             visible: set<Id>, frontier: set<Id>, steps: nat) {
    && (forall v :: v in visible <==> Reaches(q, v, steps))
    && (forall v :: v in frontier <==> v in visible && (steps > 0 ==> !Reaches(q, v, steps - 1)))
  }

  lemma ReachesMore(q: Search, v: Id, steps: nat, more: nat)
    requires Reaches(q, v, steps) && steps <= more
    ensures Reaches(q, v, more)
  {
  }

  lemma ReachesThrough(q: Search, a: Id, b: Id, steps: nat)
    requires Reaches(q, a, steps) && Neighbour(q, a, b)
    ensures Reaches(q, b, steps + 1)
  {
    var path :| IsPath(q, path) && path[|path| - 1] == a && |path| <= steps + 1;
    var longer := path + [b];
    forall k | 0 < k < |longer| ensures Neighbour(q, longer[k - 1], longer[k]) {
      if k < |path| { assert longer[k - 1] == path[k - 1] && longer[k] == path[k]; }
    }
    assert IsPath(q, longer) && longer[|longer| - 1] == b;
  }

  /** What takes one step more than before is a neighbour of what took exactly that many. */
  lemma LastStep(q: Search, b: Id, steps: nat) returns (a: Id)
    requires Reaches(q, b, steps + 1) && !Reaches(q, b, steps)
    ensures Reaches(q, a, steps) && Neighbour(q, a, b)
    ensures steps > 0 ==> !Reaches(q, a, steps - 1)
  {
    var path :| IsPath(q, path) && path[|path| - 1] == b && |path| <= steps + 2;
    assert |path| == steps + 2;
    a := path[|path| - 2];
    var shorter := path[..|path| - 1];
    assert IsPath(q, shorter) && shorter[|shorter| - 1] == a;
    assert Neighbour(q, path[|path| - 2], path[|path| - 1]);
    if steps > 0 && Reaches(q, a, steps - 1) {
      ReachesThrough(q, a, b, steps - 1);
    }
  }

  lemma RoundAdvances(q: Search,
                      visible: set<Id>, frontier: set<Id>, next: set<Id>, steps: nat)
    requires RoundsDone(q, visible, frontier, steps)
    requires IsNext(q, visible, frontier, next)
    ensures RoundsDone(q, visible + next, next, steps + 1)
  {
    forall b ensures b in visible + next <==> Reaches(q, b, steps + 1) {
      if b in visible {
        ReachesMore(q, b, steps, steps + 1);
      } else if b in next {
        var a :| a in frontier && Neighbour(q, a, b);
        ReachesThrough(q, a, b, steps);
      } else if Reaches(q, b, steps + 1) {
        var _ := LastStep(q, b, steps);
      }
    }
  }

  lemma StartDone(q: Search)
    ensures RoundsDone(q, q.base, q.base, 0)
  {
    forall v ensures v in q.base <==> Reaches(q, v, 0) {
      if v in q.base { assert IsPath(q, [v]) && [v][|[v]| - 1] == v; }
    }
  }

  /** A round without news ends the search: no number of steps reaches anything more. */
  lemma {:induction false} NothingNewNothingMore(q: Search,
                                visible: set<Id>, frontier: set<Id>, steps: nat, v: Id, more: nat)
    requires RoundsDone(q, visible, frontier, steps)
    requires IsNext(q, visible, frontier, {})
    requires Reaches(q, v, more)
    ensures v in visible
    decreases more
  {
    if more <= steps {
      ReachesMore(q, v, more, steps);
    } else if Reaches(q, v, more - 1) {
      NothingNewNothingMore(q, visible, frontier, steps, v, more - 1);
    } else {
      var a := LastStep(q, v, more - 1);
      NothingNewNothingMore(q, visible, frontier, steps, a, more - 1);
    }
  }

  lemma ClosedIsEverything(q: Search, visible: set<Id>, frontier: set<Id>, steps: nat)
    requires RoundsDone(q, visible, frontier, steps) && IsNext(q, visible, frontier, {})
    ensures forall v :: v in visible <==> ReachesAtAll(q, v)
    ensures forall v, more: nat :: steps <= more ==> (v in visible <==> Reaches(q, v, more))
  {
    forall v, more: nat | Reaches(q, v, more) ensures v in visible {
      NothingNewNothingMore(q, visible, frontier, steps, v, more);
    }
    forall v, more: nat | v in visible && steps <= more ensures Reaches(q, v, more) {
      ReachesMore(q, v, steps, more);
    }
  }

  /** The outcome a depth asks for. */
  ghost predicate IsVisibleSet(q: Search, depth: Depth, visible: set<Id>) {
    match depth
    case Steps(n) => forall v :: v in visible <==> Reaches(q, v, n)
    case All => forall v :: v in visible <==> ReachesAtAll(q, v)
  }

  lemma StoppedEarly(q: Search, depth: Depth, visible: set<Id>, frontier: set<Id>, d: nat)
    requires RoundsDone(q, visible, frontier, d) && IsNext(q, visible, frontier, {})
    requires depth.Steps? ==> d <= depth.n
    ensures IsVisibleSet(q, depth, visible)
  {
    ClosedIsEverything(q, visible, frontier, d);
  }

  /** Each round with news adds a table, so as many rounds as there are tables cannot all have news. */
  lemma RanAllRounds(q: Search, depth: Depth, nodes: set<Id>, visible: set<Id>, frontier: set<Id>, d: nat)
    requires RoundsDone(q, visible, frontier, d) && visible <= nodes
    requires frontier != {} ==> |visible| >= d + 1
    requires d == match depth case Steps(n) => n case All => |nodes|
    ensures IsVisibleSet(q, depth, visible)
  {
    SubsetIsSmaller(visible, nodes);
    if depth.All? {
      assert frontier == {};
      StoppedEarly(q, depth, visible, frontier, d);
    }
  }

  lemma RoundGrows(q: Search, visible: set<Id>, frontier: set<Id>, next: set<Id>)
    requires IsNext(q, visible, frontier, next) && next != {}
    ensures next <= q.showable && |visible + next| >= |visible| + 1
  {
    forall b | b in next ensures b in q.showable && b !in visible {
      var a :| a in frontier && Neighbour(q, a, b);
    }
    GrowsByOne(visible, next);
  }

  /** Every table shown is one of the tables, and each round so far has added one. */
  ghost predicate Bounded(nodes: set<Id>, q: Search, visible: set<Id>, frontier: set<Id>, d: nat) {
    q.base <= visible <= nodes && (frontier != {} ==> |visible| >= d + 1)
  }

  lemma BoundedAdvances(nodes: set<Id>, q: Search, visible: set<Id>, frontier: set<Id>, next: set<Id>, d: nat)
    requires Bounded(nodes, q, visible, frontier, d) && q.showable <= nodes && frontier != {}
    requires IsNext(q, visible, frontier, next) && next != {}
    ensures Bounded(nodes, q, visible + next, next, d + 1)
  {
    RoundGrows(q, visible, frontier, next);
  }

  /** At most `depth` rounds, stopping early once a round finds nothing. */
  method Expand(nodes: set<Id>, q: Search, depth: Depth) returns (visible: set<Id>)
    requires q.base <= nodes && q.showable <= nodes
    ensures q.base <= visible <= nodes
    ensures IsVisibleSet(q, depth, visible)
  {
    visible := q.base;
    var frontier := q.base;
    var maxDepth := match depth case Steps(n) => n case All => |nodes|;
    StartDone(q);
    var d := 0;
    while d < maxDepth && |frontier| > 0
      invariant 0 <= d <= maxDepth
      invariant RoundsDone(q, visible, frontier, d)
      invariant Bounded(nodes, q, visible, frontier, d)
      decreases maxDepth - d
    {
      var next := Round(q, visible, frontier);
      if next == {} {
        StoppedEarly(q, depth, visible, frontier, d);
        return;
      }
      RoundAdvances(q, visible, frontier, next, d);
      BoundedAdvances(nodes, q, visible, frontier, next, d);
      visible, frontier, d := visible + next, next, d + 1;
    }
    LoopEnds(nodes, q, depth, visible, frontier, d);
  }

  lemma LoopEnds(nodes: set<Id>, q: Search, depth: Depth, visible: set<Id>, frontier: set<Id>, d: nat)
    requires RoundsDone(q, visible, frontier, d) && Bounded(nodes, q, visible, frontier, d)
    requires var maxDepth := match depth case Steps(n) => n case All => |nodes|;
             d <= maxDepth && (d == maxDepth || frontier == {})
    ensures IsVisibleSet(q, depth, visible)
  {
    if frontier == {} {
      StoppedEarly(q, depth, visible, frontier, d);
    } else {
      RanAllRounds(q, depth, nodes, visible, frontier, d);
    }
  }

  lemma GrowsByOne(a: set<Id>, b: set<Id>)
    requires b != {} && a !! b
    ensures |a + b| >= |a| + 1
  {
    var x :| x in b;
    assert a + b == (a + (b - {x})) + {x};
    SubsetIsSmaller(a, a + (b - {x}));
  }

  // ---------------------------------------------------------------------------
  // Hiding isolated tables
  // ---------------------------------------------------------------------------

  function VisibleEdges(edges: seq<Edge>, visible: set<Id>): seq<Edge> {
    if |edges| == 0 then []
    else
      var n := |edges| - 1;
      VisibleEdges(edges[..n], visible) + if edges[n].from in visible && edges[n].to in visible then [edges[n]] else []
  }

  lemma {:induction false} VisibleEdgeIsInside(edges: seq<Edge>, visible: set<Id>, e: Edge)
    ensures e in VisibleEdges(edges, visible) <==> e in edges && e.from in visible && e.to in visible
  {
    if |edges| > 0 {
      var n := |edges| - 1;
      VisibleEdgeIsInside(edges[..n], visible, e);
      assert e in edges <==> e in edges[..n] || e == edges[n];
    }
  }

  lemma {:induction false} SameEdges(edges: seq<Edge>, visible: set<Id>, kept: set<Id>)
    requires kept <= visible
    requires forall e :: e in edges && e.from in visible && e.to in visible ==> e.from in kept && e.to in kept
    ensures VisibleEdges(edges, kept) == VisibleEdges(edges, visible)
  {
    if |edges| > 0 {
      var n := |edges| - 1;
      assert edges[n] in edges;
      forall e | e in edges[..n] ensures e in edges {}
      SameEdges(edges[..n], visible, kept);
    }
  }

  ghost predicate Connected(edges: seq<Edge>, visible: set<Id>, v: Id) {
    exists e :: e in VisibleEdges(edges, visible) && (e.from == v || e.to == v)
  }

  /** Keeps exactly the tables with a visible edge; no edge is lost, and none of the kept tables is alone. */
  method HideIsolated(edges: seq<Edge>, visible: set<Id>) returns (kept: set<Id>, visibleEdges: seq<Edge>)
    ensures forall v :: v in kept <==> v in visible && Connected(edges, visible, v)
    ensures visibleEdges == VisibleEdges(edges, kept) == VisibleEdges(edges, visible)
    ensures forall v :: v in kept ==> Connected(edges, kept, v)
  {
    visibleEdges := VisibleEdges(edges, visible);
    var connected: set<Id> := {};
    for k := 0 to |visibleEdges|
      invariant forall v :: v in connected <==> exists e :: e in visibleEdges[..k] && (e.from == v || e.to == v)
    {
      var edge := visibleEdges[k];
      assert visibleEdges[..k + 1] == visibleEdges[..k] + [edge];
      connected := connected + {edge.from, edge.to};
    }
    assert visibleEdges[..|visibleEdges|] == visibleEdges;
    kept := set v | v in visible && v in connected;
    forall e | e in edges && e.from in visible && e.to in visible ensures e.from in kept && e.to in kept {
      VisibleEdgeIsInside(edges, visible, e);
    }
    SameEdges(edges, visible, kept);
    visibleEdges := VisibleEdges(edges, kept);
  }

  // ---------------------------------------------------------------------------
  // Which way
  // ---------------------------------------------------------------------------

  lemma OneStepReaches(q: Search, v: Id)
    ensures Reaches(q, v, 1) <==> v in q.base || exists a :: a in q.base && Neighbour(q, a, v)
  {
    if v in q.base {
      var path := [v];
      assert IsPath(q, path);
    }
    if a :| a in q.base && Neighbour(q, a, v) {
      var path := [a, v];
      assert IsPath(q, path) && path[|path| - 1] == v;
    }
    if Reaches(q, v, 1) && v !in q.base {
      var path :| IsPath(q, path) && path[|path| - 1] == v && |path| <= 2;
      assert |path| == 2 && path[1 - 1] in q.base && Neighbour(q, path[1 - 1], path[1]);
    }
  }

  /**
   At depth one: the filtered tables; outgoing adds the showable targets of their foreign keys, incoming the
   showable sources of foreign keys onto them, and both adds both.
   */
  lemma DepthOneFollowsTheArrows(q: Search, v: Id)
    ensures var to, from := (exists e :: e in q.edges && e.from in q.base && e.to == v),
                            (exists e :: e in q.edges && e.to in q.base && e.from == v);
            Reaches(q, v, 1) <==>
            v in q.base || (v in q.showable && match q.direction
                                               case Outgoing => to
                                               case Incoming => from
                                               case Both => to || from)
  {
    OneStepReaches(q, v);
    if e :| e in q.edges && e.from in q.base && e.to == v {
      var k :| 0 <= k < |q.edges| && q.edges[k] == e;
      assert v in q.showable && q.direction != Incoming ==> Neighbour(q, e.from, v);
    }
    if e :| e in q.edges && e.to in q.base && e.from == v {
      var k :| 0 <= k < |q.edges| && q.edges[k] == e;
      assert v in q.showable && q.direction != Outgoing ==> Neighbour(q, e.to, v);
    }
    if a :| a in q.base && Neighbour(q, a, v) {
      var k :| && 0 <= k < |q.edges|
               && ((q.direction != Incoming && q.edges[k] == Edge(a, v))
                   || (q.direction != Outgoing && q.edges[k] == Edge(v, a)));
      assert q.edges[k] in q.edges;
    }
  }
}
