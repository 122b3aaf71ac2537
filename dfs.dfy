/** The depth-first search of DFS.java: an explicit stack of edge frames stands in for the
    recursion, nodes get preorder and postorder numbers, the search restarts from the smallest
    unvisited node, and every edge is labelled tree, forward, back or cross.

    The Node and Edge objects are modelled by index: node v's fields are position v of the
    per-node arrays, input edge e's fields position e of the per-edge arrays. A placeholder
    edge (tail null) lives only on the stack, so its two fields live in its frame. */
module Dfs {

  /** The `type` field of an edge: null until the edge is processed, then 't', 'f', 'b' or 'c'. */
  datatype EdgeType = Unset | Tree | Forward | Back | Cross

  /** The graph main builds: `n` nodes, the tail and head of every input edge, and each node's
      outgoing edges (as edge indices) in the order they were added to its `neighbors` list. */
  datatype Graph = Graph(n: nat, tail: seq<nat>, head: seq<nat>, adj: seq<seq<nat>>)

  /** At least one node, every endpoint a node, and every input edge listed exactly once: in
      the adjacency list of its tail. */
  ghost predicate WellFormed(g: Graph)
  {
    g.n >= 1 && |g.head| == |g.tail| && |g.adj| == g.n &&
    (forall e :: 0 <= e < |g.tail| ==> g.tail[e] < g.n && g.head[e] < g.n) &&
    (forall v, i :: 0 <= v < g.n && 0 <= i < |g.adj[v]| ==> g.adj[v][i] < |g.tail| && g.tail[g.adj[v][i]] == v) &&
    (forall v, i, j :: 0 <= v < g.n && 0 <= i < j < |g.adj[v]| ==> g.adj[v][i] != g.adj[v][j]) &&
    (forall e :: 0 <= e < |g.tail| ==> e in g.adj[g.tail[e]])
  }

  /** An entry of the stack: a placeholder edge (null tail) into `target`, with its own
      `traversed` and `type` fields, or input edge number i of node v's neighbours. */
  datatype Frame =
    | Placeholder(target: nat, done: bool, kind: EdgeType)
    | Input(v: nat, i: nat)

  /** Everything `dfs` reads and writes: the node fields (visited, preorder, postorder), the edge
      fields (traversed, type), the stack, the three counters and `result`. The last five fields
      and the last one are bookkeeping of the model: the nodes in the order they got postorder
      numbers, the stack position of each active node's tree frame, a clock and the time each
      input edge was processed, how often each input edge has been pushed, and for each node
      the input edge that discovered it (-1 for a node not yet discovered or discovered from a
      placeholder). */
  datatype State = State(
    visited: seq<bool>, pre: seq<int>, post: seq<int>,
    traversed: seq<bool>, kind: seq<EdgeType>,
    stack: seq<Frame>,
    preorder: int, postorder: int, minUnvisited: int, result: seq<int>,
    finishOrder: seq<int>, frameOf: seq<int>, clock: int, when: seq<int>, pushes: seq<int>,
    discoveredBy: seq<int>)

  ghost predicate ValidFrame(g: Graph, f: Frame)
  {
    match f
    case Placeholder(t, _, _) => t < g.n
    case Input(v, i) => v < g.n && v < |g.adj| && i < |g.adj[v]|
  }

  /** Every sequence has the length of the node or edge array it stands for. */
  ghost predicate Shape(g: Graph, s: State)
  {
    |s.visited| == g.n && |s.pre| == g.n && |s.post| == g.n && |s.result| == g.n && |s.frameOf| == g.n &&
    |s.traversed| == |g.tail| && |s.kind| == |g.tail| && |s.when| == |g.tail| && |s.pushes| == |g.tail| &&
    |s.discoveredBy| == g.n &&
    (forall p :: 0 <= p < |s.stack| ==> ValidFrame(g, s.stack[p]))
  }

  /** The edge a frame of an input edge stands for. */
  ghost function EdgeOf(g: Graph, f: Frame): (e: nat)
    requires WellFormed(g) && ValidFrame(g, f) && f.Input?
    ensures e < |g.tail| && g.tail[e] == f.v
  {
    g.adj[f.v][f.i]
  }

  /** `num2`: the node a frame leads to. */
  ghost function HeadOf(g: Graph, f: Frame): (h: nat)
    requires WellFormed(g) && ValidFrame(g, f)
    ensures h < g.n
  {
    match f
    case Placeholder(t, _, _) => t
    case Input(_, _) => g.head[EdgeOf(g, f)]
  }

  /** The `traversed` field of a frame's edge. */
  ghost function IsTraversed(g: Graph, s: State, f: Frame): bool
    requires WellFormed(g) && Shape(g, s) && ValidFrame(g, f)
  {
    match f
    case Placeholder(_, done, _) => done
    case Input(_, _) => s.traversed[EdgeOf(g, f)]
  }

  /** The `type` field of a frame's edge. */
  ghost function KindOf(g: Graph, s: State, f: Frame): EdgeType
    requires WellFormed(g) && Shape(g, s) && ValidFrame(g, f)
  {
    match f
    case Placeholder(_, _, k) => k
    case Input(_, _) => s.kind[EdgeOf(g, f)]
  }

  /** A frame whose edge has been traversed as a tree edge: its head is on the active path. */
  ghost predicate IsTree(g: Graph, s: State, f: Frame)
    requires WellFormed(g) && Shape(g, s) && ValidFrame(g, f)
  {
    IsTraversed(g, s, f) && KindOf(g, s, f) == Tree
  }

  /** The smallest unvisited node at or after m, or |visited| when there is none: the inner
      scan of `minUnvisited`. */
  function NextUnvisited(visited: seq<bool>, m: int): (r: int)
    requires 0 <= m <= |visited|
    ensures m <= r <= |visited| && (r < |visited| ==> !visited[r])
    ensures forall k :: m <= k < r ==> visited[k]
    decreases |visited| - m
  {
    if m < |visited| && visited[m] then NextUnvisited(visited, m + 1) else m
  }

  /** The frames pushed for the k neighbours of node h, last neighbour first, so that the
      first neighbour ends on top. */
  function Pushed(h: nat, k: nat): (fs: seq<Frame>)
    ensures |fs| == k && forall j :: 0 <= j < k ==> fs[j] == Input(h, k - 1 - j)
  {
    seq(k, j requires 0 <= j < k => Input(h, k - 1 - j))
  }

  /** One more push for each outgoing edge of h. */
  ghost function PushAll(g: Graph, pushes: seq<int>, h: nat): (p: seq<int>)
    requires |pushes| == |g.tail|
    ensures |p| == |pushes|
    ensures forall e :: 0 <= e < |p| ==> p[e] == if g.tail[e] == h then pushes[e] + 1 else pushes[e]
  {
    seq(|pushes|, e requires 0 <= e < |pushes| => if g.tail[e] == h then pushes[e] + 1 else pushes[e])
  }

  /** The state `dfs` starts from: fresh nodes and edges, and the placeholder into node 0. */
  ghost function Initial(g: Graph): State
  {
    State(seq(g.n, _ => false), seq(g.n, _ => 0), seq(g.n, _ => 0),
          seq(|g.tail|, _ => false), seq(|g.tail|, _ => Unset),
          [Placeholder(0, false, Unset)],
          1, 1, 0, seq(g.n, _ => 0),
          [], seq(g.n, _ => 0), 0, seq(|g.tail|, _ => 0), seq(|g.tail|, _ => 0), seq(g.n, _ => -1))
  }

  /** `e.traversed = true` and `e.type = k` for the frame on top (an input edge also gets
      its processing time). */
  ghost function MarkTop(g: Graph, s: State, k: EdgeType): State
    requires WellFormed(g) && Shape(g, s) && s.stack != []
  {
    var top := |s.stack| - 1;
    match s.stack[top]
    case Placeholder(t, _, _) => s.(stack := s.stack[top := Placeholder(t, true, k)])
    case Input(_, _) =>
      var e := EdgeOf(g, s.stack[top]);
      s.(traversed := s.traversed[e := true], kind := s.kind[e := k],
         when := s.when[e := s.clock], clock := s.clock + 1)
  }

  /** The top edge was already traversed: a tree edge gives its head the next postorder number;
      the edge is popped, and an emptied stack restarts from `minUnvisited` if one is left. */
  ghost function Finish(g: Graph, s: State): State
    requires WellFormed(g) && Shape(g, s) && s.stack != [] && 0 <= s.minUnvisited
  {
    var top := |s.stack| - 1;
    var f := s.stack[top];
    var s1 := if KindOf(g, s, f) == Tree then
        s.(post := s.post[HeadOf(g, f) := s.postorder], postorder := s.postorder + 1,
           finishOrder := s.finishOrder + [HeadOf(g, f)])
      else s;
    var rest := s.stack[..top];
    s1.(stack := if rest == [] && s.minUnvisited < g.n then [Placeholder(s.minUnvisited, false, Unset)] else rest)
  }

  /** The top edge leads to an unvisited node h: visit it, advance `minUnvisited` if it was h,
      record h in `result` and give it the next preorder number, mark the edge a tree edge,
      note the edge as the one that discovered h, and push h's outgoing edges. */
  ghost function Discover(g: Graph, s: State): State
    requires WellFormed(g) && Shape(g, s) && s.stack != [] && 1 <= s.preorder <= g.n
    requires 0 <= s.minUnvisited <= g.n
  {
    var top := |s.stack| - 1;
    var h := HeadOf(g, s.stack[top]);
    var visited := s.visited[h := true];
    var m := if h == s.minUnvisited then NextUnvisited(visited, s.minUnvisited + 1) else s.minUnvisited;
    var marked := MarkTop(g, s, Tree);
    marked.(visited := visited, minUnvisited := m,
            result := s.result[s.preorder - 1 := h], pre := s.pre[h := s.preorder], preorder := s.preorder + 1,
            frameOf := s.frameOf[h := top], stack := marked.stack + Pushed(h, |g.adj[h]|),
            pushes := PushAll(g, s.pushes, h),
            discoveredBy := s.discoveredBy[h := if s.stack[top].Input? then EdgeOf(g, s.stack[top]) else -1])
  }

  /** The top edge is an input edge into an already visited node: forward when the head was
      discovered after the tail, otherwise cross when the head has its postorder number, and
      back when it does not. */
  ghost function Classify(g: Graph, s: State): State
    requires WellFormed(g) && Shape(g, s) && s.stack != [] && s.stack[|s.stack| - 1].Input?
  {
    var e := EdgeOf(g, s.stack[|s.stack| - 1]);
    MarkTop(g, s, TypeOf(s, g.tail[e], g.head[e]))
  }

  /** The type `dfs` gives an edge from t into the visited node h. */
  ghost function TypeOf(s: State, t: nat, h: nat): (k: EdgeType)
    requires t < |s.pre| && h < |s.pre| && |s.post| == |s.pre|
    ensures k in {Forward, Cross, Back}
  {
    if s.pre[h] > s.pre[t] then Forward else if s.post[h] > 0 then Cross else Back
  }

  /* ---------------------------------------------------------------------------------
     The invariant of the loop
     --------------------------------------------------------------------------------- */

  /** The nodes marked visited. */
  ghost function Visited(visited: seq<bool>): set<int>
  {
    set v | 0 <= v < |visited| && visited[v]
  }

  /** The nodes that have a postorder number. */
  ghost function Finished(post: seq<int>): set<int>
  {
    set v | 0 <= v < |post| && post[v] > 0
  }

  /** A node is active while it is visited but has no postorder number yet. */
  ghost predicate Active(s: State, u: int)
    requires 0 <= u < |s.visited| == |s.post|
  {
    s.visited[u] && s.post[u] == 0
  }

  /** Preorder numbers: the visited nodes are numbered 1 .. preorder - 1 in discovery order,
      `result` lists them in that order, and the unvisited ones still have 0. */
  ghost predicate Numbering(g: Graph, s: State)
    requires Shape(g, s)
  {
    Numbered(g.n, s.visited, s.pre, s.preorder, s.result)
  }

  ghost predicate Numbered(n: nat, visited: seq<bool>, pre: seq<int>, preorder: int, result: seq<int>)
    requires |visited| == n && |pre| == n && |result| == n
  {
    1 <= preorder <= n + 1 && |Visited(visited)| == preorder - 1 &&
    (forall v :: 0 <= v < n && visited[v] ==> 1 <= pre[v] < preorder && result[pre[v] - 1] == v) &&
    (forall v :: 0 <= v < n && !visited[v] ==> pre[v] == 0) &&
    (forall k :: 0 <= k < preorder - 1 ==> 0 <= result[k] < n && visited[result[k]] && pre[result[k]] == k + 1)
  }

  /** The part of the postorder bookkeeping about single nodes: numbers are non-negative, only
      visited nodes have one, and each is below the counter. */
  ghost predicate PostBounds(g: Graph, s: State)
    requires Shape(g, s)
  {
    1 <= s.postorder &&
    forall v :: 0 <= v < g.n ==> 0 <= s.post[v] && (s.post[v] > 0 ==> s.visited[v] && s.post[v] < s.postorder)
  }

  /** Postorder numbers: the finished nodes are numbered 1 .. postorder - 1 in the order they
      finished, which `finishOrder` lists; the others still have 0. */
  ghost predicate Finishing(g: Graph, s: State)
    requires Shape(g, s)
  {
    PostBounds(g, s) && s.postorder <= g.n + 1 &&
    |s.finishOrder| == s.postorder - 1 && |Finished(s.post)| == s.postorder - 1 &&
    (forall v :: 0 <= v < g.n && s.post[v] > 0 ==> s.finishOrder[s.post[v] - 1] == v) &&
    (forall k :: 0 <= k < |s.finishOrder| ==> 0 <= s.finishOrder[k] < g.n && s.post[s.finishOrder[k]] == k + 1)
  }

  /** The active path: every tree frame on the stack leads to an active node whose frame it is,
      every active node has one, and preorder numbers grow up the stack. */
  ghost predicate ActivePath(g: Graph, s: State)
    requires WellFormed(g) && Shape(g, s)
  {
    (forall p :: 0 <= p < |s.stack| && IsTree(g, s, s.stack[p]) ==>
       Active(s, HeadOf(g, s.stack[p])) && s.frameOf[HeadOf(g, s.stack[p])] == p) &&
    (forall u :: 0 <= u < g.n && Active(s, u) ==>
       0 <= s.frameOf[u] < |s.stack| && IsTree(g, s, s.stack[s.frameOf[u]]) && HeadOf(g, s.stack[s.frameOf[u]]) == u) &&
    (forall u, w :: 0 <= u < g.n && 0 <= w < g.n && Active(s, u) && Active(s, w) && s.frameOf[u] < s.frameOf[w] ==>
       s.pre[u] < s.pre[w])
  }

  /** The position node v's neighbour i takes on the stack: the neighbours of v are pushed right
      above v's tree frame, last neighbour lowest. */
  ghost function Slot(g: Graph, s: State, v: nat, i: nat): int
    requires WellFormed(g) && Shape(g, s) && v < g.n
  {
    s.frameOf[v] + |g.adj[v]| - i
  }

  /** Input frames: each sits in its slot above the tree frame of its (active) tail, and every
      not yet traversed outgoing edge of a visited node is on the stack in its slot. */
  ghost predicate Siblings(g: Graph, s: State)
    requires WellFormed(g) && Shape(g, s)
  {
    (forall q :: 0 <= q < |s.stack| && s.stack[q].Input? ==>
       Active(s, s.stack[q].v) && Slot(g, s, s.stack[q].v, s.stack[q].i) == q) &&
    (forall v, i :: 0 <= v < g.n && 0 <= i < |g.adj[v]| && s.visited[v] && !s.traversed[g.adj[v][i]] ==>
       s.post[v] == 0 && 0 <= Slot(g, s, v, i) < |s.stack| && s.stack[Slot(g, s, v, i)] == Input(v, i))
  }

  /** Placeholders: only at the bottom; a fresh one is alone on the stack and leads to an
      unvisited node; a traversed one is a tree edge. */
  ghost predicate Placeholders(g: Graph, s: State)
    requires WellFormed(g) && Shape(g, s)
  {
    forall p :: 0 <= p < |s.stack| && s.stack[p].Placeholder? ==>
      p == 0 &&
      (!s.stack[p].done ==> |s.stack| == 1 && !s.visited[s.stack[p].target] && s.stack[p].kind == Unset) &&
      (s.stack[p].done ==> s.stack[p].kind == Tree)
  }

  /** Input edges: typed exactly when traversed, untouched while their tail is unvisited,
      pushed once when their tail is discovered, and stamped with the time they were processed. */
  ghost predicate EdgeStatus(g: Graph, s: State)
    requires WellFormed(g) && Shape(g, s)
  {
    0 <= s.clock &&
    forall e :: 0 <= e < |g.tail| ==>
      (s.traversed[e] <==> s.kind[e] != Unset) &&
      (!s.visited[g.tail[e]] ==> !s.traversed[e]) &&
      s.pushes[e] == (if s.visited[g.tail[e]] then 1 else 0) &&
      (s.traversed[e] ==> 0 <= s.when[e] < s.clock)
  }

  /** A node's outgoing edges are processed in the order of its neighbour list. */
  ghost predicate InOrder(g: Graph, s: State)
    requires WellFormed(g) && Shape(g, s)
  {
    forall v, i, j :: 0 <= v < g.n && 0 <= i < j < |g.adj[v]| && s.traversed[g.adj[v][j]] ==>
      s.traversed[g.adj[v][i]] && s.when[g.adj[v][i]] < s.when[g.adj[v][j]]
  }

  /** `minUnvisited` is the smallest unvisited node, or n when all are visited; the stack only
      runs empty when all are. */
  ghost predicate Cursor(g: Graph, s: State)
    requires Shape(g, s)
  {
    0 <= s.minUnvisited <= g.n &&
    (forall v :: 0 <= v < s.minUnvisited ==> s.visited[v]) &&
    (s.minUnvisited < g.n ==> !s.visited[s.minUnvisited]) &&
    (s.stack == [] ==> s.minUnvisited == g.n)
  }

  /** a finishes before b, as far as b has finished. */
  ghost predicate PostBefore(s: State, a: int, b: int)
    requires 0 <= a < |s.post| && 0 <= b < |s.post|
  {
    s.post[b] > 0 ==> 0 < s.post[a] < s.post[b]
  }

  /** What the type of an edge from t to h says about the numbers of its endpoints, in as far
      as they are assigned. */
  ghost predicate Typed(s: State, t: int, h: int, k: EdgeType)
    requires 0 <= t < |s.visited| && 0 <= h < |s.visited| && |s.pre| == |s.post| == |s.visited|
  {
    match k
    case Unset => true
    case Tree => s.visited[h] && s.pre[t] < s.pre[h] && PostBefore(s, h, t)
    case Forward => s.pre[t] < s.pre[h] && s.post[h] > 0 && PostBefore(s, h, t)
    case Cross => s.pre[h] < s.pre[t] && s.post[h] > 0 && PostBefore(s, h, t)
    case Back => s.visited[h] && s.pre[h] <= s.pre[t] && (s.post[h] > 0 ==> 0 < s.post[t] <= s.post[h])
  }

  ghost predicate Classified(g: Graph, s: State)
    requires WellFormed(g) && Shape(g, s)
  {
    forall e :: 0 <= e < |g.tail| ==> Typed(s, g.tail[e], g.head[e], s.kind[e])
  }

  ghost predicate Inv(g: Graph, s: State)
  {
    WellFormed(g) && Shape(g, s) && Numbering(g, s) && Finishing(g, s) && ActivePath(g, s) &&
    Siblings(g, s) && Placeholders(g, s) && EdgeStatus(g, s) && InOrder(g, s) && Cursor(g, s) &&
    Classified(g, s)
  }

  ghost predicate IsNode(v: int, n: nat)
  {
    0 <= v < n
  }

  /** The node numbers 0 .. n - 1. */
  ghost function Nodes(n: nat): set<int>
  {
    set v | 0 <= v < n && IsNode(v, n)
  }

  /** There are n nodes. */
  lemma {:induction false} NodesSize(n: nat)
    ensures |Nodes(n)| == n
  {
    if n > 0 {
      NodesSize(n - 1);
      assert Nodes(n) == Nodes(n - 1) + {n - 1};
    }
  }

  /** A set of node numbers below n has at most n elements, and at most n - 1 when it misses
      the node h. */
  lemma {:induction false} BoundedSize(a: set<int>, n: nat, h: int)
    requires forall v :: v in a ==> 0 <= v < n && v != h
    ensures |a| <= if 0 <= h < n then n - 1 else n
  {
    if n > 0 {
      var a' := a - {n - 1};
      if h == n - 1 {
        assert a' == a;
        BoundedSize(a', n - 1, -1);
      } else {
        BoundedSize(a', n - 1, h);
        if n - 1 in a {
          assert a == a' + {n - 1};
        } else {
          assert a == a';
        }
      }
    } else {
      assert forall v :: v !in a;
      assert a == {};
    }
  }

  /** While some node is unvisited, fewer than n preorder numbers have been handed out. */
  lemma UnvisitedBound(g: Graph, s: State, h: nat)
    requires Shape(g, s) && Numbering(g, s) && h < g.n && !s.visited[h]
    ensures s.preorder <= g.n
  {
    BoundedSize(Visited(s.visited), g.n, h);
  }

  /** One iteration of the loop of `dfs`. An untraversed placeholder always leads to an
      unvisited node, so the branch that reads the (null) tail's preorder number is never taken
      by one. */
  ghost function Step(g: Graph, s: State): State
    requires Inv(g, s) && s.stack != []
  {
    var f := s.stack[|s.stack| - 1];
    if IsTraversed(g, s, f) then Finish(g, s)
    else if !s.visited[HeadOf(g, f)] then
      UnvisitedBound(g, s, HeadOf(g, f));
      Discover(g, s)
    else if f.Placeholder? then
      assert false; s
    else Classify(g, s)
  }

  /** The invariant holds when the loop starts. */
  lemma InitialInv(g: Graph)
    requires WellFormed(g)
    ensures Inv(g, Initial(g))
  {
    InitialNumbering(g);
    InitialFinishing(g);
    InitialPaths(g);
  }

  lemma InitialNumbering(g: Graph)
    requires WellFormed(g)
    ensures Shape(g, Initial(g)) && Numbering(g, Initial(g))
  {
    assert Visited(Initial(g).visited) == {};
  }

  lemma InitialFinishing(g: Graph)
    requires WellFormed(g)
    ensures Shape(g, Initial(g)) && Finishing(g, Initial(g))
  {
    assert Finished(Initial(g).post) == {};
  }

  lemma InitialPaths(g: Graph)
    requires WellFormed(g)
    ensures Shape(g, Initial(g))
    ensures ActivePath(g, Initial(g)) && Siblings(g, Initial(g)) && Placeholders(g, Initial(g))
    ensures EdgeStatus(g, Initial(g)) && InOrder(g, Initial(g)) && Cursor(g, Initial(g)) && Classified(g, Initial(g))
  {
  }

  /* Discovering a node keeps the invariant. */

  /** The conditions under which `Discover` is the step taken. */
  ghost predicate Discovers(g: Graph, s: State)
  {
    WellFormed(g) && Shape(g, s) && s.stack != [] && !IsTraversed(g, s, s.stack[|s.stack| - 1]) &&
    !s.visited[HeadOf(g, s.stack[|s.stack| - 1])] && 1 <= s.preorder <= g.n && 0 <= s.minUnvisited <= g.n
  }

  lemma DiscoverFields(g: Graph, s: State)
    requires Discovers(g, s)
    ensures var top := |s.stack| - 1; var h := HeadOf(g, s.stack[top]); var s' := Discover(g, s);
      s'.visited == s.visited[h := true] && s'.pre == s.pre[h := s.preorder] && s'.preorder == s.preorder + 1 &&
      s'.result == s.result[s.preorder - 1 := h] && s'.post == s.post && s'.postorder == s.postorder &&
      s'.finishOrder == s.finishOrder && s'.frameOf == s.frameOf[h := top] &&
      s'.minUnvisited == (if h == s.minUnvisited then NextUnvisited(s'.visited, s.minUnvisited + 1) else s.minUnvisited) &&
      s'.pushes == PushAll(g, s.pushes, h) &&
      s'.stack == MarkTop(g, s, Tree).stack + Pushed(h, |g.adj[h]|) &&
      s'.traversed == MarkTop(g, s, Tree).traversed && s'.kind == MarkTop(g, s, Tree).kind &&
      s'.when == MarkTop(g, s, Tree).when && s'.clock == MarkTop(g, s, Tree).clock
  {
  }

  /** Marking the top edge changes no length and keeps every frame valid. */
  lemma MarkTopShape(g: Graph, s: State, k: EdgeType)
    requires WellFormed(g) && Shape(g, s) && s.stack != []
    ensures var m := MarkTop(g, s, k);
      Shape(g, m) && |m.stack| == |s.stack| && m.stack[..|s.stack| - 1] == s.stack[..|s.stack| - 1] &&
      m.visited == s.visited && m.pre == s.pre && m.post == s.post && m.preorder == s.preorder &&
      m.postorder == s.postorder && m.minUnvisited == s.minUnvisited && m.result == s.result &&
      m.finishOrder == s.finishOrder && m.frameOf == s.frameOf && m.pushes == s.pushes
  {
  }

  lemma DiscoverShape(g: Graph, s: State)
    requires Discovers(g, s)
    ensures Shape(g, Discover(g, s))
  {
    DiscoverFields(g, s);
    MarkTopShape(g, s, Tree);
    var h := HeadOf(g, s.stack[|s.stack| - 1]);
    var st := Discover(g, s).stack;
    var m := MarkTop(g, s, Tree).stack;
    assert forall p :: |m| <= p < |st| ==> st[p] == Input(h, |g.adj[h]| - 1 - (p - |m|));
  }

  /* Visiting a new node h hands it the next preorder number and records it in `result`. */

  /** The conditions of the lemmas below: s' is s with h visited and numbered. */
  ghost predicate Visits(g: Graph, s: State, s': State, h: nat)
  {
    Shape(g, s) && Shape(g, s') && h < g.n && !s.visited[h] && 1 <= s.preorder <= g.n &&
    s'.visited == s.visited[h := true] && s'.pre == s.pre[h := s.preorder] &&
    s'.preorder == s.preorder + 1 && s'.result == s.result[s.preorder - 1 := h]
  }

  lemma VisitCount(g: Graph, s: State, s': State, h: nat)
    requires Visits(g, s, s', h) && |Visited(s.visited)| == s.preorder - 1
    ensures |Visited(s'.visited)| == s'.preorder - 1
  {
    assert Visited(s'.visited) == Visited(s.visited) + {h};
  }

  lemma VisitPre(g: Graph, s: State, s': State, h: nat)
    requires Visits(g, s, s', h) && Numbering(g, s)
    ensures forall v :: 0 <= v < g.n && s'.visited[v] ==> 1 <= s'.pre[v] < s'.preorder && s'.result[s'.pre[v] - 1] == v
    ensures forall v :: 0 <= v < g.n && !s'.visited[v] ==> s'.pre[v] == 0
  {
  }

  lemma VisitResult(g: Graph, s: State, s': State, h: nat)
    requires Visits(g, s, s', h) && Numbering(g, s)
    ensures forall k :: 0 <= k < s'.preorder - 1 ==>
      0 <= s'.result[k] < g.n && s'.visited[s'.result[k]] && s'.pre[s'.result[k]] == k + 1
  {
  }

  lemma VisitNumbering(g: Graph, s: State, s': State, h: nat)
    requires Visits(g, s, s', h) && Numbering(g, s)
    ensures Numbering(g, s')
  {
    VisitCount(g, s, s', h);
    VisitPre(g, s, s', h);
    VisitResult(g, s, s', h);
  }

  /** Visiting more nodes without finishing any keeps the postorder bookkeeping. */
  lemma VisitFinishing(g: Graph, s: State, s': State)
    requires Shape(g, s) && Shape(g, s') && Finishing(g, s)
    requires s'.post == s.post && s'.postorder == s.postorder && s'.finishOrder == s.finishOrder
    requires forall v :: 0 <= v < g.n && s.visited[v] ==> s'.visited[v]
    ensures Finishing(g, s')
  {
    assert Finished(s'.post) == Finished(s.post);
    forall v | 0 <= v < g.n && s'.post[v] > 0
      ensures s'.visited[v]
    {
      assert s.visited[v];
    }
  }

  /** Visiting h moves the cursor past h and every visited node after it when h was the cursor. */
  lemma VisitCursor(g: Graph, s: State, s': State, h: nat)
    requires Shape(g, s) && Shape(g, s') && Cursor(g, s) && h < g.n && !s.visited[h]
    requires s'.visited == s.visited[h := true] && s'.stack != []
    requires s'.minUnvisited == if h == s.minUnvisited then NextUnvisited(s'.visited, s.minUnvisited + 1) else s.minUnvisited
    ensures Cursor(g, s')
  {
  }

  lemma DiscoverNumbering(g: Graph, s: State)
    requires Discovers(g, s) && Numbering(g, s)
    ensures Shape(g, Discover(g, s)) && Numbering(g, Discover(g, s))
  {
    DiscoverFields(g, s);
    DiscoverShape(g, s);
    VisitNumbering(g, s, Discover(g, s), HeadOf(g, s.stack[|s.stack| - 1]));
  }

  lemma DiscoverFinishing(g: Graph, s: State)
    requires Discovers(g, s) && Finishing(g, s)
    ensures Shape(g, Discover(g, s)) && Finishing(g, Discover(g, s))
  {
    DiscoverFields(g, s);
    DiscoverShape(g, s);
    VisitFinishing(g, s, Discover(g, s));
  }

  lemma DiscoverCursor(g: Graph, s: State)
    requires Discovers(g, s) && Cursor(g, s)
    ensures Shape(g, Discover(g, s)) && Cursor(g, Discover(g, s))
  {
    DiscoverFields(g, s);
    DiscoverShape(g, s);
    VisitCursor(g, s, Discover(g, s), HeadOf(g, s.stack[|s.stack| - 1]));
  }

  /** The top frame of an input edge sits in its slot above its active tail. */
  lemma TopInput(g: Graph, s: State)
    requires WellFormed(g) && Shape(g, s) && Siblings(g, s) && s.stack != [] && s.stack[|s.stack| - 1].Input?
    ensures var f := s.stack[|s.stack| - 1];
      Active(s, f.v) && Slot(g, s, f.v, f.i) == |s.stack| - 1
  {
  }

  lemma DiscoverEdges(g: Graph, s: State)
    requires Discovers(g, s) && EdgeStatus(g, s) && Siblings(g, s)
    ensures Shape(g, Discover(g, s)) && EdgeStatus(g, Discover(g, s))
  {
    DiscoverFields(g, s);
    DiscoverShape(g, s);
    if s.stack[|s.stack| - 1].Input? {
      TopInput(g, s);
    }
  }

  /** An untraversed outgoing edge of a visited node sits above every earlier one of its
      siblings that is still untraversed, so the input edge on top is the first untraversed
      edge of its tail. */
  lemma TopIsFirst(g: Graph, s: State)
    requires WellFormed(g) && Shape(g, s) && Siblings(g, s) && s.stack != []
    requires s.stack[|s.stack| - 1].Input?
    ensures var f := s.stack[|s.stack| - 1];
      forall i :: 0 <= i < f.i ==> s.traversed[g.adj[f.v][i]]
  {
    TopInput(g, s);
  }

  /** Processing the input edge on top keeps each node's edges processed in list order. */
  lemma MarkInOrder(g: Graph, s: State, k: EdgeType)
    requires WellFormed(g) && Shape(g, s) && Siblings(g, s) && EdgeStatus(g, s) && InOrder(g, s)
    requires s.stack != [] && s.stack[|s.stack| - 1].Input? && !IsTraversed(g, s, s.stack[|s.stack| - 1])
    ensures InOrder(g, MarkTop(g, s, k))
  {
    var f := s.stack[|s.stack| - 1];
    var e := EdgeOf(g, f);
    var m := MarkTop(g, s, k);
    TopIsFirst(g, s);
    forall v, i, j | 0 <= v < g.n && 0 <= i < j < |g.adj[v]| && m.traversed[g.adj[v][j]]
      ensures m.traversed[g.adj[v][i]] && m.when[g.adj[v][i]] < m.when[g.adj[v][j]]
    {
      if g.adj[v][j] == e {
        assert v == f.v && j == f.i;
      }
    }
  }

  lemma DiscoverInOrder(g: Graph, s: State)
    requires Discovers(g, s) && Siblings(g, s) && EdgeStatus(g, s) && InOrder(g, s)
    ensures Shape(g, Discover(g, s)) && InOrder(g, Discover(g, s))
  {
    DiscoverFields(g, s);
    DiscoverShape(g, s);
    if s.stack[|s.stack| - 1].Input? {
      MarkInOrder(g, s, Tree);
    }
  }

  lemma DiscoverPlaceholders(g: Graph, s: State)
    requires Discovers(g, s) && Placeholders(g, s)
    ensures Shape(g, Discover(g, s)) && Placeholders(g, Discover(g, s))
  {
    DiscoverFields(g, s);
    DiscoverShape(g, s);
    MarkTopShape(g, s, Tree);
  }

  /** s' is s after `Discover`, spelled out field by field. */
  ghost predicate Discovered(g: Graph, s: State, s': State, h: nat)
  {
    WellFormed(g) && Shape(g, s) && Shape(g, s') && s.stack != [] && h < g.n &&
    var top := |s.stack| - 1;
    var f := s.stack[top];
    h == HeadOf(g, f) && !s.visited[h] && !IsTraversed(g, s, f) &&
    s'.visited == s.visited[h := true] && s'.pre == s.pre[h := s.preorder] && s'.post == s.post &&
    s'.frameOf == s.frameOf[h := top] &&
    |s'.stack| == |s.stack| + |g.adj[h]| &&
    (forall q :: 0 <= q < top ==> s'.stack[q] == s.stack[q]) &&
    (forall q :: top < q < |s'.stack| ==> s'.stack[q] == Input(h, |g.adj[h]| + top - q)) &&
    (f.Input? ==> s'.stack[top] == f && s'.traversed == s.traversed[EdgeOf(g, f) := true] &&
                  s'.kind == s.kind[EdgeOf(g, f) := Tree]) &&
    (f.Placeholder? ==> s'.stack[top] == Placeholder(f.target, true, Tree) &&
                        s'.traversed == s.traversed && s'.kind == s.kind)
  }

  lemma DiscoverIsDiscovered(g: Graph, s: State)
    requires Discovers(g, s)
    ensures Discovered(g, s, Discover(g, s), HeadOf(g, s.stack[|s.stack| - 1]))
  {
    DiscoverFields(g, s);
    DiscoverShape(g, s);
    MarkTopShape(g, s, Tree);
  }

  lemma DiscoveredFrames(g: Graph, s: State, s': State, h: nat)
    requires Discovered(g, s, s', h) && Siblings(g, s) && PostBounds(g, s)
    ensures forall q :: 0 <= q < |s'.stack| && s'.stack[q].Input? ==>
      Active(s', s'.stack[q].v) && Slot(g, s', s'.stack[q].v, s'.stack[q].i) == q
  {
    var top := |s.stack| - 1;
    forall q | 0 <= q < |s'.stack| && s'.stack[q].Input?
      ensures Active(s', s'.stack[q].v) && Slot(g, s', s'.stack[q].v, s'.stack[q].i) == q
    {
      if q <= top {
        assert s'.stack[q] == s.stack[q];
      }
    }
  }

  lemma DiscoveredPendingAt(g: Graph, s: State, s': State, h: nat, v: nat, i: nat)
    requires Discovered(g, s, s', h) && Siblings(g, s) && PostBounds(g, s)
    requires v < g.n && i < |g.adj[v]| && s'.visited[v] && !s'.traversed[g.adj[v][i]]
    ensures s'.post[v] == 0 && 0 <= Slot(g, s', v, i) < |s'.stack| && s'.stack[Slot(g, s', v, i)] == Input(v, i)
  {
    if v == h {
      DiscoveredPendingHead(g, s, s', h, i);
    } else {
      DiscoveredPendingOld(g, s, s', h, v, i);
    }
  }

  /** The neighbours of the node just discovered sit in their slots above its tree frame. */
  lemma DiscoveredPendingHead(g: Graph, s: State, s': State, h: nat, i: nat)
    requires Discovered(g, s, s', h) && PostBounds(g, s) && i < |g.adj[h]|
    ensures s'.post[h] == 0 && 0 <= Slot(g, s', h, i) < |s'.stack| && s'.stack[Slot(g, s', h, i)] == Input(h, i)
  {
    assert Slot(g, s', h, i) == |s.stack| - 1 + |g.adj[h]| - i;
  }

  /** A pending edge of a node visited before the step keeps its slot. */
  lemma DiscoveredPendingOld(g: Graph, s: State, s': State, h: nat, v: nat, i: nat)
    requires Discovered(g, s, s', h) && Siblings(g, s)
    requires v < g.n && v != h && i < |g.adj[v]| && s'.visited[v] && !s'.traversed[g.adj[v][i]]
    ensures s'.post[v] == 0 && 0 <= Slot(g, s', v, i) < |s'.stack| && s'.stack[Slot(g, s', v, i)] == Input(v, i)
  {
    assert s.visited[v] && !s.traversed[g.adj[v][i]];
    var q := Slot(g, s, v, i);
    assert Slot(g, s', v, i) == q;
    assert s.stack[q] == Input(v, i);
  }

  lemma DiscoveredPending(g: Graph, s: State, s': State, h: nat)
    requires Discovered(g, s, s', h) && Siblings(g, s) && PostBounds(g, s)
    ensures forall v, i :: 0 <= v < g.n && 0 <= i < |g.adj[v]| && s'.visited[v] && !s'.traversed[g.adj[v][i]] ==>
       s'.post[v] == 0 && 0 <= Slot(g, s', v, i) < |s'.stack| && s'.stack[Slot(g, s', v, i)] == Input(v, i)
  {
    forall v, i | 0 <= v < g.n && 0 <= i < |g.adj[v]| && s'.visited[v] && !s'.traversed[g.adj[v][i]]
      ensures s'.post[v] == 0 && 0 <= Slot(g, s', v, i) < |s'.stack| && s'.stack[Slot(g, s', v, i)] == Input(v, i)
    {
      DiscoveredPendingAt(g, s, s', h, v, i);
    }
  }

  lemma DiscoverSiblings(g: Graph, s: State)
    requires Discovers(g, s) && Siblings(g, s) && PostBounds(g, s)
    ensures Shape(g, Discover(g, s)) && Siblings(g, Discover(g, s))
  {
    var h := HeadOf(g, s.stack[|s.stack| - 1]);
    DiscoverIsDiscovered(g, s);
    DiscoveredFrames(g, s, Discover(g, s), h);
    DiscoveredPending(g, s, Discover(g, s), h);
  }

  /** A frame other than the top one that is a tree edge after the step already was one. */
  lemma DiscoveredTreeAt(g: Graph, s: State, s': State, h: nat, p: nat)
    requires Discovered(g, s, s', h) && Siblings(g, s) && EdgeStatus(g, s)
    requires p < |s'.stack| && p != |s.stack| - 1 && IsTree(g, s', s'.stack[p])
    ensures p < |s.stack| - 1 && s'.stack[p] == s.stack[p] && IsTree(g, s, s.stack[p])
  {
    var top := |s.stack| - 1;
    if p < top {
      var f := s.stack[p];
      assert s'.stack[p] == f;
      if f.Input? && s.stack[top].Input? {
        assert Slot(g, s, f.v, f.i) == p;
        TopInput(g, s);
      }
    }
  }

  lemma DiscoveredTrees(g: Graph, s: State, s': State, h: nat)
    requires Discovered(g, s, s', h) && Siblings(g, s) && EdgeStatus(g, s) && ActivePath(g, s) && PostBounds(g, s)
    ensures forall p :: 0 <= p < |s'.stack| && IsTree(g, s', s'.stack[p]) ==>
       Active(s', HeadOf(g, s'.stack[p])) && s'.frameOf[HeadOf(g, s'.stack[p])] == p
  {
    var top := |s.stack| - 1;
    forall p | 0 <= p < |s'.stack| && IsTree(g, s', s'.stack[p])
      ensures Active(s', HeadOf(g, s'.stack[p])) && s'.frameOf[HeadOf(g, s'.stack[p])] == p
    {
      if p != top {
        DiscoveredTreeAt(g, s, s', h, p);
      }
    }
  }

  /** The tree frame of an active node is below the top while the top is untraversed. */
  lemma ActiveBelowTop(g: Graph, s: State, u: nat)
    requires WellFormed(g) && Shape(g, s) && ActivePath(g, s) && s.stack != [] && !IsTraversed(g, s, s.stack[|s.stack| - 1])
    requires u < g.n && Active(s, u)
    ensures 0 <= s.frameOf[u] < |s.stack| - 1 && IsTree(g, s, s.stack[s.frameOf[u]])
  {
  }

  lemma DiscoveredActive(g: Graph, s: State, s': State, h: nat)
    requires Discovered(g, s, s', h) && ActivePath(g, s) && PostBounds(g, s)
    ensures forall u :: 0 <= u < g.n && Active(s', u) ==>
       0 <= s'.frameOf[u] < |s'.stack| && IsTree(g, s', s'.stack[s'.frameOf[u]]) && HeadOf(g, s'.stack[s'.frameOf[u]]) == u
  {
    forall u | 0 <= u < g.n && Active(s', u)
      ensures 0 <= s'.frameOf[u] < |s'.stack| && IsTree(g, s', s'.stack[s'.frameOf[u]]) && HeadOf(g, s'.stack[s'.frameOf[u]]) == u
    {
      if u != h {
        ActiveBelowTop(g, s, u);
        assert s'.stack[s.frameOf[u]] == s.stack[s.frameOf[u]];
      }
    }
  }

  lemma DiscoveredDepthAt(g: Graph, s: State, s': State, h: nat, u: nat, w: nat)
    requires Discovered(g, s, s', h) && ActivePath(g, s) && PostBounds(g, s) && Numbering(g, s)
    requires u < g.n && w < g.n && Active(s', u) && Active(s', w) && s'.frameOf[u] < s'.frameOf[w]
    ensures s'.pre[u] < s'.pre[w]
  {
    if w != h {
      ActiveBelowTop(g, s, w);
      assert u != h;
      assert Active(s, u) && Active(s, w);
    } else {
      assert s.visited[u];
    }
  }

  lemma DiscoveredDepth(g: Graph, s: State, s': State, h: nat)
    requires Discovered(g, s, s', h) && ActivePath(g, s) && PostBounds(g, s) && Numbering(g, s)
    ensures forall u, w :: 0 <= u < g.n && 0 <= w < g.n && Active(s', u) && Active(s', w) && s'.frameOf[u] < s'.frameOf[w] ==>
       s'.pre[u] < s'.pre[w]
  {
    forall u, w | 0 <= u < g.n && 0 <= w < g.n && Active(s', u) && Active(s', w) && s'.frameOf[u] < s'.frameOf[w]
      ensures s'.pre[u] < s'.pre[w]
    {
      DiscoveredDepthAt(g, s, s', h, u, w);
    }
  }

  lemma DiscoverActivePath(g: Graph, s: State)
    requires Discovers(g, s) && Siblings(g, s) && EdgeStatus(g, s) && ActivePath(g, s) && PostBounds(g, s) && Numbering(g, s)
    ensures Shape(g, Discover(g, s)) && ActivePath(g, Discover(g, s))
  {
    var h := HeadOf(g, s.stack[|s.stack| - 1]);
    DiscoverIsDiscovered(g, s);
    DiscoveredTrees(g, s, Discover(g, s), h);
    DiscoveredActive(g, s, Discover(g, s), h);
    DiscoveredDepth(g, s, Discover(g, s), h);
  }

  /** The edge on top becomes a tree edge from its active tail to the newly numbered h. */
  lemma DiscoveredTopTyped(g: Graph, s: State, s': State, h: nat)
    requires Discovered(g, s, s', h) && Siblings(g, s) && Numbering(g, s)
    requires s.stack[|s.stack| - 1].Input?
    ensures var e := EdgeOf(g, s.stack[|s.stack| - 1]); Typed(s', g.tail[e], g.head[e], s'.kind[e])
  {
    TopInput(g, s);
  }

  /** Every other edge keeps its type, and the endpoints of a typed edge are visited, so h is
      not one of them. */
  lemma DiscoveredOtherTyped(g: Graph, s: State, s': State, h: nat, e: nat)
    requires Discovered(g, s, s', h) && EdgeStatus(g, s) && PostBounds(g, s)
    requires e < |g.tail| && s'.kind[e] == s.kind[e] && Typed(s, g.tail[e], g.head[e], s.kind[e])
    ensures Typed(s', g.tail[e], g.head[e], s'.kind[e])
  {
    if s.kind[e] != Unset {
      assert g.tail[e] != h && g.head[e] != h;
    }
  }

  lemma DiscoveredTypedAt(g: Graph, s: State, s': State, h: nat, e: nat)
    requires Discovered(g, s, s', h) && Siblings(g, s) && EdgeStatus(g, s) && PostBounds(g, s) && Numbering(g, s)
    requires Classified(g, s) && e < |g.tail|
    ensures Typed(s', g.tail[e], g.head[e], s'.kind[e])
  {
    var f := s.stack[|s.stack| - 1];
    if f.Input? && e == EdgeOf(g, f) {
      DiscoveredTopTyped(g, s, s', h);
    } else {
      DiscoveredOtherTyped(g, s, s', h, e);
    }
  }

  lemma DiscoverClassified(g: Graph, s: State)
    requires Discovers(g, s) && Siblings(g, s) && EdgeStatus(g, s) && PostBounds(g, s) && Numbering(g, s) && Classified(g, s)
    ensures Shape(g, Discover(g, s)) && Classified(g, Discover(g, s))
  {
    var h := HeadOf(g, s.stack[|s.stack| - 1]);
    DiscoverIsDiscovered(g, s);
    forall e | 0 <= e < |g.tail|
      ensures Typed(Discover(g, s), g.tail[e], g.head[e], Discover(g, s).kind[e])
    {
      DiscoveredTypedAt(g, s, Discover(g, s), h, e);
    }
  }

  /** Discovering a node keeps the invariant. */
  lemma DiscoverInv(g: Graph, s: State)
    requires Inv(g, s) && Discovers(g, s)
    ensures Inv(g, Discover(g, s))
  {
    DiscoverShape(g, s);
    DiscoverNumbering(g, s);
    DiscoverFinishing(g, s);
    DiscoverActivePath(g, s);
    DiscoverSiblings(g, s);
    DiscoverPlaceholders(g, s);
    DiscoverEdges(g, s);
    DiscoverInOrder(g, s);
    DiscoverCursor(g, s);
    DiscoverClassified(g, s);
  }

  /* Popping a traversed edge keeps the invariant. */

  /** The conditions under which `Finish` is the step taken. */
  ghost predicate Finishes(g: Graph, s: State)
  {
    WellFormed(g) && Shape(g, s) && s.stack != [] && IsTraversed(g, s, s.stack[|s.stack| - 1]) &&
    0 <= s.minUnvisited <= g.n
  }

  /** s' is s after `Finish`, spelled out field by field. */
  ghost predicate Pops(g: Graph, s: State, s': State)
  {
    Finishes(g, s) && Shape(g, s') &&
    var top := |s.stack| - 1;
    var f := s.stack[top];
    s'.visited == s.visited && s'.pre == s.pre && s'.preorder == s.preorder && s'.result == s.result &&
    s'.minUnvisited == s.minUnvisited && s'.frameOf == s.frameOf && s'.traversed == s.traversed &&
    s'.kind == s.kind && s'.when == s.when && s'.clock == s.clock && s'.pushes == s.pushes &&
    (KindOf(g, s, f) == Tree ==>
       s'.post == s.post[HeadOf(g, f) := s.postorder] && s'.postorder == s.postorder + 1 &&
       s'.finishOrder == s.finishOrder + [HeadOf(g, f)]) &&
    (KindOf(g, s, f) != Tree ==> s'.post == s.post && s'.postorder == s.postorder && s'.finishOrder == s.finishOrder) &&
    s'.stack == if top == 0 && s.minUnvisited < g.n then [Placeholder(s.minUnvisited, false, Unset)] else s.stack[..top]
  }

  lemma FinishPops(g: Graph, s: State)
    requires Finishes(g, s)
    ensures Pops(g, s, Finish(g, s))
  {
    var s' := Finish(g, s);
    assert forall p :: 0 <= p < |s'.stack| ==> ValidFrame(g, s'.stack[p]);
  }

  /** The tree frame on top is the frame of the deepest active node. */
  lemma DeepestActive(g: Graph, s: State, w: nat)
    requires WellFormed(g) && Shape(g, s) && ActivePath(g, s) && s.stack != []
    requires IsTree(g, s, s.stack[|s.stack| - 1])
    requires w < g.n && Active(s, w) && w != HeadOf(g, s.stack[|s.stack| - 1])
    ensures Active(s, HeadOf(g, s.stack[|s.stack| - 1])) && s.frameOf[HeadOf(g, s.stack[|s.stack| - 1])] == |s.stack| - 1
    ensures s.frameOf[w] < |s.stack| - 1 && s.pre[w] < s.pre[HeadOf(g, s.stack[|s.stack| - 1])]
  {
  }

  lemma PopsNumbering(g: Graph, s: State, s': State)
    requires Pops(g, s, s') && Numbering(g, s)
    ensures Numbering(g, s')
  {
  }

  /** The conditions of the lemmas below: s' is s with the active node h given the next
      postorder number. */
  ghost predicate Closes(g: Graph, s: State, s': State, h: nat)
  {
    Shape(g, s) && Shape(g, s') && h < g.n && s.visited[h] && s.post[h] == 0 &&
    s'.visited == s.visited && s'.post == s.post[h := s.postorder] && s'.postorder == s.postorder + 1 &&
    s'.finishOrder == s.finishOrder + [h]
  }

  /** Numbering one more node adds it to the finished ones. */
  lemma FinishedAdd(post: seq<int>, h: nat, x: int)
    requires h < |post| && post[h] == 0 && x > 0
    ensures Finished(post[h := x]) == Finished(post) + {h}
  {
  }

  /** At most n nodes are finished. */
  lemma FinishedBound(post: seq<int>)
    ensures |Finished(post)| <= |post|
  {
    BoundedSize(Finished(post), |post|, -1);
  }

  lemma CloseCount(g: Graph, s: State, s': State, h: nat)
    requires Closes(g, s, s', h) && 1 <= s.postorder && |s.finishOrder| == s.postorder - 1 && |Finished(s.post)| == s.postorder - 1
    ensures 1 <= s'.postorder <= g.n + 1 && |s'.finishOrder| == s'.postorder - 1 && |Finished(s'.post)| == s'.postorder - 1
  {
    FinishedAdd(s.post, h, s.postorder);
    FinishedBound(s'.post);
  }

  lemma CloseNumbers(g: Graph, s: State, s': State, h: nat)
    requires Closes(g, s, s', h) && Finishing(g, s)
    ensures forall v :: 0 <= v < g.n ==> 0 <= s'.post[v] && (s'.post[v] > 0 ==> s'.visited[v] && s'.post[v] < s'.postorder)
    ensures forall v :: 0 <= v < g.n && s'.post[v] > 0 ==> s'.finishOrder[s'.post[v] - 1] == v
    ensures forall k :: 0 <= k < |s'.finishOrder| ==> 0 <= s'.finishOrder[k] < g.n && s'.post[s'.finishOrder[k]] == k + 1
  {
    forall v | 0 <= v < g.n && s'.post[v] > 0
      ensures s'.finishOrder[s'.post[v] - 1] == v
    {
      if v != h {
        assert s'.post[v] == s.post[v] && s.finishOrder[s.post[v] - 1] == v;
      }
    }
    forall k | 0 <= k < |s'.finishOrder|
      ensures 0 <= s'.finishOrder[k] < g.n && s'.post[s'.finishOrder[k]] == k + 1
    {
      if k < |s.finishOrder| {
        assert s'.finishOrder[k] == s.finishOrder[k] && s.post[s.finishOrder[k]] == k + 1;
      }
    }
  }

  lemma PopsFinishing(g: Graph, s: State, s': State)
    requires Pops(g, s, s') && Finishing(g, s) && ActivePath(g, s)
    ensures Finishing(g, s')
  {
    var f := s.stack[|s.stack| - 1];
    if KindOf(g, s, f) == Tree {
      var h := HeadOf(g, f);
      assert Active(s, h);
      CloseCount(g, s, s', h);
      CloseNumbers(g, s, s', h);
    }
  }

  lemma PopsCursor(g: Graph, s: State, s': State)
    requires Pops(g, s, s') && Cursor(g, s)
    ensures Cursor(g, s')
  {
  }

  lemma PopsEdges(g: Graph, s: State, s': State)
    requires Pops(g, s, s') && EdgeStatus(g, s) && InOrder(g, s)
    ensures EdgeStatus(g, s') && InOrder(g, s')
  {
  }

  lemma PopsPlaceholders(g: Graph, s: State, s': State)
    requires Pops(g, s, s') && Placeholders(g, s) && Cursor(g, s)
    ensures Placeholders(g, s')
  {
    var top := |s.stack| - 1;
    if !(top == 0 && s.minUnvisited < g.n) {
      forall p | 0 <= p < |s'.stack| && s'.stack[p].Placeholder?
        ensures p == 0 && s'.stack[p].done && s'.stack[p].kind == Tree
      {
        assert s'.stack[p] == s.stack[p];
      }
    }
  }

  /** A frame that survives the pop is one of the frames below the top. */
  lemma PopsKeeps(g: Graph, s: State, s': State, p: nat)
    requires Pops(g, s, s') && p < |s'.stack| && !(|s.stack| == 1 && s.minUnvisited < g.n)
    ensures p < |s.stack| - 1 && s'.stack[p] == s.stack[p]
  {
  }

  lemma PopsTrees(g: Graph, s: State, s': State)
    requires Pops(g, s, s') && ActivePath(g, s) && PostBounds(g, s)
    ensures forall p :: 0 <= p < |s'.stack| && IsTree(g, s', s'.stack[p]) ==>
       Active(s', HeadOf(g, s'.stack[p])) && s'.frameOf[HeadOf(g, s'.stack[p])] == p
  {
    forall p | 0 <= p < |s'.stack| && IsTree(g, s', s'.stack[p])
      ensures Active(s', HeadOf(g, s'.stack[p])) && s'.frameOf[HeadOf(g, s'.stack[p])] == p
    {
      PopsTreeAt(g, s, s', p);
    }
  }

  /** A tree frame left on the stack after a pop still leads to an active node: the node
      finished by the pop is the head of the popped frame, not of one below it. */
  lemma PopsTreeAt(g: Graph, s: State, s': State, p: nat)
    requires Pops(g, s, s') && ActivePath(g, s)
    requires p < |s'.stack| && IsTree(g, s', s'.stack[p])
    ensures Active(s', HeadOf(g, s'.stack[p])) && s'.frameOf[HeadOf(g, s'.stack[p])] == p
  {
    if !(|s.stack| == 1 && s.minUnvisited < g.n) {
      PopsKeeps(g, s, s', p);
      var f, last := s.stack[p], s.stack[|s.stack| - 1];
      assert IsTree(g, s, f);
      if KindOf(g, s, last) == Tree {
        assert IsTree(g, s, last);
      }
    }
  }

  lemma PopsActiveAt(g: Graph, s: State, s': State, u: nat)
    requires Pops(g, s, s') && ActivePath(g, s) && PostBounds(g, s)
    requires u < g.n && Active(s', u)
    ensures 0 <= s'.frameOf[u] < |s'.stack| && IsTree(g, s', s'.stack[s'.frameOf[u]]) && HeadOf(g, s'.stack[s'.frameOf[u]]) == u
  {
    var top := |s.stack| - 1;
    assert Active(s, u);
    assert s.frameOf[u] != top;
    assert s'.stack[s.frameOf[u]] == s.stack[s.frameOf[u]];
  }

  lemma PopsActivePath(g: Graph, s: State, s': State)
    requires Pops(g, s, s') && ActivePath(g, s) && PostBounds(g, s)
    ensures ActivePath(g, s')
  {
    PopsTrees(g, s, s');
    forall u | 0 <= u < g.n && Active(s', u)
      ensures 0 <= s'.frameOf[u] < |s'.stack| && IsTree(g, s', s'.stack[s'.frameOf[u]]) && HeadOf(g, s'.stack[s'.frameOf[u]]) == u
    {
      PopsActiveAt(g, s, s', u);
    }
  }

  lemma PopsFramesAt(g: Graph, s: State, s': State, q: nat)
    requires Pops(g, s, s') && TopOwned(g, s) && Siblings(g, s) && q < |s'.stack| && s'.stack[q].Input?
    ensures Active(s', s'.stack[q].v) && Slot(g, s', s'.stack[q].v, s'.stack[q].i) == q
  {
    PopsKeeps(g, s, s', q);
  }

  lemma PopsPendingAt(g: Graph, s: State, s': State, v: nat, i: nat)
    requires Pops(g, s, s') && TopOwned(g, s) && Siblings(g, s)
    requires v < g.n && i < |g.adj[v]| && s'.visited[v] && !s'.traversed[g.adj[v][i]]
    ensures s'.post[v] == 0 && 0 <= Slot(g, s', v, i) < |s'.stack| && s'.stack[Slot(g, s', v, i)] == Input(v, i)
  {
    var top, q := |s.stack| - 1, Slot(g, s, v, i);
    assert s.stack[q] == Input(v, i);
    assert q != top;
    assert s'.stack == s.stack[..top];
    PopsPostKept(g, s, s', v);
  }

  /** A pop gives a postorder number only to the head of the popped frame: an active node
      whose tree frame lies below the top keeps its number. */
  lemma PopsPostKept(g: Graph, s: State, s': State, v: nat)
    requires Pops(g, s, s') && TopOwned(g, s)
    requires v < g.n && s.frameOf[v] < |s.stack| - 1
    ensures s'.post[v] == s.post[v]
  {
  }

  /** A tree frame on top is the frame of its head. */
  ghost predicate TopOwned(g: Graph, s: State)
    requires WellFormed(g) && Shape(g, s) && s.stack != []
  {
    var f := s.stack[|s.stack| - 1];
    KindOf(g, s, f) == Tree ==> s.frameOf[HeadOf(g, f)] == |s.stack| - 1
  }

  lemma TopOwnedOf(g: Graph, s: State)
    requires Finishes(g, s) && ActivePath(g, s)
    ensures TopOwned(g, s)
  {
    var f := s.stack[|s.stack| - 1];
    if KindOf(g, s, f) == Tree {
      assert IsTree(g, s, f);
    }
  }

  lemma PopsSiblings(g: Graph, s: State, s': State)
    requires Pops(g, s, s') && ActivePath(g, s) && Siblings(g, s)
    ensures Siblings(g, s')
  {
    TopOwnedOf(g, s);
    forall q | 0 <= q < |s'.stack| && s'.stack[q].Input?
      ensures Active(s', s'.stack[q].v) && Slot(g, s', s'.stack[q].v, s'.stack[q].i) == q
    {
      PopsFramesAt(g, s, s', q);
    }
    forall v, i | 0 <= v < g.n && 0 <= i < |g.adj[v]| && s'.visited[v] && !s'.traversed[g.adj[v][i]]
      ensures s'.post[v] == 0 && 0 <= Slot(g, s', v, i) < |s'.stack| && s'.stack[Slot(g, s', v, i)] == Input(v, i)
    {
      PopsPendingAt(g, s, s', v, i);
    }
  }

  /** When h finishes, every other endpoint of a typed edge at h has finished before it: h is
      the deepest active node, and the types order the preorder numbers. */
  lemma CloseTypedAt(g: Graph, s: State, s': State, h: nat, e: nat)
    requires Closes(g, s, s', h) && WellFormed(g) && ActivePath(g, s) && PostBounds(g, s) && EdgeStatus(g, s)
    requires s.stack != [] && IsTree(g, s, s.stack[|s.stack| - 1]) && h == HeadOf(g, s.stack[|s.stack| - 1])
    requires e < |g.tail| && s'.pre == s.pre && s'.kind == s.kind && Typed(s, g.tail[e], g.head[e], s.kind[e])
    ensures Typed(s', g.tail[e], g.head[e], s'.kind[e])
  {
    var t, hd := g.tail[e], g.head[e];
    if s.kind[e] != Unset {
      if t == h && hd != h && Active(s, hd) {
        DeepestActive(g, s, hd);
      }
      if hd == h && t != h && Active(s, t) {
        DeepestActive(g, s, t);
      }
    }
  }

  lemma CloseClassified(g: Graph, s: State, s': State, h: nat)
    requires Closes(g, s, s', h) && WellFormed(g) && ActivePath(g, s) && PostBounds(g, s) && EdgeStatus(g, s)
    requires s.stack != [] && IsTree(g, s, s.stack[|s.stack| - 1]) && h == HeadOf(g, s.stack[|s.stack| - 1])
    requires s'.pre == s.pre && s'.kind == s.kind && Classified(g, s)
    ensures Classified(g, s')
  {
    forall e | 0 <= e < |g.tail|
      ensures Typed(s', g.tail[e], g.head[e], s'.kind[e])
    {
      CloseTypedAt(g, s, s', h, e);
    }
  }

  /** Fields the types speak of are unchanged, so are the types' facts. */
  lemma SameClassified(g: Graph, s: State, s': State)
    requires WellFormed(g) && Shape(g, s) && Shape(g, s') && Classified(g, s)
    requires s'.visited == s.visited && s'.pre == s.pre && s'.post == s.post && s'.kind == s.kind
    ensures Classified(g, s')
  {
    forall e | 0 <= e < |g.tail|
      ensures Typed(s', g.tail[e], g.head[e], s'.kind[e])
    {
      assert Typed(s, g.tail[e], g.head[e], s.kind[e]);
    }
  }

  lemma PopsClassified(g: Graph, s: State, s': State)
    requires Pops(g, s, s') && ActivePath(g, s) && PostBounds(g, s) && EdgeStatus(g, s) && Classified(g, s)
    ensures Classified(g, s')
  {
    var f := s.stack[|s.stack| - 1];
    if KindOf(g, s, f) == Tree {
      var h := HeadOf(g, f);
      assert Active(s, h);
      CloseClassified(g, s, s', h);
    } else {
      SameClassified(g, s, s');
    }
  }

  /** Popping an edge keeps the invariant. */
  lemma FinishInv(g: Graph, s: State)
    requires Inv(g, s) && Finishes(g, s)
    ensures Inv(g, Finish(g, s))
  {
    var s' := Finish(g, s);
    FinishPops(g, s);
    PopsNumbering(g, s, s');
    PopsFinishing(g, s, s');
    PopsActivePath(g, s, s');
    PopsSiblings(g, s, s');
    PopsPlaceholders(g, s, s');
    PopsEdges(g, s, s');
    PopsCursor(g, s, s');
    PopsClassified(g, s, s');
  }

  /* Typing an edge into a visited node keeps the invariant. */

  /** The conditions under which `Classify` is the step taken. */
  ghost predicate Classifies(g: Graph, s: State)
  {
    WellFormed(g) && Shape(g, s) && s.stack != [] && s.stack[|s.stack| - 1].Input? &&
    !IsTraversed(g, s, s.stack[|s.stack| - 1]) && s.visited[HeadOf(g, s.stack[|s.stack| - 1])]
  }

  /** s' is s with the input edge on top processed and given type k. */
  ghost predicate Marks(g: Graph, s: State, s': State, k: EdgeType)
  {
    Classifies(g, s) && Shape(g, s') && k != Unset && k != Tree &&
    var e := EdgeOf(g, s.stack[|s.stack| - 1]);
    s'.traversed == s.traversed[e := true] && s'.kind == s.kind[e := k] &&
    s'.when == s.when[e := s.clock] && s'.clock == s.clock + 1 && s'.stack == s.stack &&
    s'.visited == s.visited && s'.pre == s.pre && s'.post == s.post && s'.preorder == s.preorder &&
    s'.postorder == s.postorder && s'.minUnvisited == s.minUnvisited && s'.result == s.result &&
    s'.finishOrder == s.finishOrder && s'.frameOf == s.frameOf && s'.pushes == s.pushes
  }

  lemma ClassifyMarks(g: Graph, s: State)
    requires Classifies(g, s)
    ensures var e := EdgeOf(g, s.stack[|s.stack| - 1]);
      Marks(g, s, Classify(g, s), TypeOf(s, g.tail[e], g.head[e]))
  {
    var e := EdgeOf(g, s.stack[|s.stack| - 1]);
    MarkTopShape(g, s, TypeOf(s, g.tail[e], g.head[e]));
  }

  lemma SameNumbering(g: Graph, s: State, s': State)
    requires Shape(g, s) && Shape(g, s') && Numbering(g, s)
    requires s'.visited == s.visited && s'.pre == s.pre && s'.preorder == s.preorder && s'.result == s.result
    ensures Numbering(g, s')
  {
  }

  lemma SameFinishing(g: Graph, s: State, s': State)
    requires Shape(g, s) && Shape(g, s') && Finishing(g, s)
    requires s'.visited == s.visited && s'.post == s.post && s'.postorder == s.postorder && s'.finishOrder == s.finishOrder
    ensures Finishing(g, s')
  {
  }

  lemma MarksCounters(g: Graph, s: State, s': State, k: EdgeType)
    requires Marks(g, s, s', k) && Numbering(g, s) && Finishing(g, s) && Cursor(g, s) && Placeholders(g, s)
    ensures Numbering(g, s') && Finishing(g, s') && Cursor(g, s') && Placeholders(g, s')
  {
    SameNumbering(g, s, s');
    SameFinishing(g, s, s');
  }

  lemma MarksTrees(g: Graph, s: State, s': State, k: EdgeType)
    requires Marks(g, s, s', k)
    ensures forall f :: ValidFrame(g, f) ==> IsTree(g, s', f) == IsTree(g, s, f)
  {
  }

  lemma MarksActivePath(g: Graph, s: State, s': State, k: EdgeType)
    requires Marks(g, s, s', k) && ActivePath(g, s)
    ensures ActivePath(g, s')
  {
    MarksTrees(g, s, s', k);
  }

  lemma MarksSiblings(g: Graph, s: State, s': State, k: EdgeType)
    requires Marks(g, s, s', k) && Siblings(g, s)
    ensures Siblings(g, s')
  {
  }

  lemma MarksEdges(g: Graph, s: State, s': State, k: EdgeType)
    requires Marks(g, s, s', k) && Siblings(g, s) && EdgeStatus(g, s)
    ensures EdgeStatus(g, s')
  {
    TopInput(g, s);
  }

  lemma MarksInOrder(g: Graph, s: State)
    requires Classifies(g, s) && Siblings(g, s) && EdgeStatus(g, s) && InOrder(g, s)
    ensures Shape(g, Classify(g, s)) && InOrder(g, Classify(g, s))
  {
    ClassifyMarks(g, s);
    var e := EdgeOf(g, s.stack[|s.stack| - 1]);
    MarkInOrder(g, s, TypeOf(s, g.tail[e], g.head[e]));
  }

  /** Above the tree frame of the top edge's tail lie only that tail's untraversed neighbours. */
  lemma FrameAboveTailAt(g: Graph, s: State, q: nat)
    requires Classifies(g, s) && Siblings(g, s) && InOrder(g, s)
    requires q < |s.stack| && s.frameOf[s.stack[|s.stack| - 1].v] < q
    ensures var v := s.stack[|s.stack| - 1].v;
      s.stack[q] == Input(v, s.frameOf[v] + |g.adj[v]| - q) && !IsTraversed(g, s, s.stack[q])
  {
    var f := s.stack[|s.stack| - 1];
    var v := f.v;
    var j := s.frameOf[v] + |g.adj[v]| - q;
    TopInput(g, s);
    if j > f.i {
      assert !s.traversed[g.adj[v][j]];
      assert Slot(g, s, v, j) == q;
    }
  }

  /** The tail of the input edge on top is the deepest active node: the frames above its tree
      frame are its own untraversed neighbours. */
  lemma TopTailDeepest(g: Graph, s: State, w: nat)
    requires Classifies(g, s) && Siblings(g, s) && InOrder(g, s) && ActivePath(g, s)
    requires w < g.n && Active(s, w) && w != s.stack[|s.stack| - 1].v
    ensures s.pre[w] < s.pre[s.stack[|s.stack| - 1].v]
  {
    var v := s.stack[|s.stack| - 1].v;
    var p := s.frameOf[w];
    if s.frameOf[v] < p {
      FrameAboveTailAt(g, s, p);
    }
  }

  /** The type `dfs` gives the edge on top fits the numbers of its endpoints. */
  lemma MarksTopTyped(g: Graph, s: State)
    requires Classifies(g, s) && Siblings(g, s) && InOrder(g, s) && ActivePath(g, s) && Numbering(g, s) && PostBounds(g, s)
    ensures var e := EdgeOf(g, s.stack[|s.stack| - 1]); var t, h := g.tail[e], g.head[e];
      Typed(s, t, h, TypeOf(s, t, h))
  {
    var f := s.stack[|s.stack| - 1];
    var e := EdgeOf(g, f);
    var t, h := g.tail[e], g.head[e];
    TopInput(g, s);
    if s.post[h] == 0 && h != t {
      TopTailDeepest(g, s, h);
    }
    if s.pre[h] == s.pre[t] {
      PreInjective(g, s, h, t);
    }
    TypeOfTyped(s, t, h);
  }

  /** Visited nodes with the same preorder number are the same node. */
  lemma PreInjective(g: Graph, s: State, u: nat, w: nat)
    requires Shape(g, s) && Numbering(g, s)
    requires u < g.n && w < g.n && s.visited[u] && s.visited[w] && s.pre[u] == s.pre[w]
    ensures u == w
  {
    assert s.result[s.pre[u] - 1] == u;
  }

  /** The type chosen from the numbers is consistent with them when t is active, no other
      active node is deeper than t, and distinct nodes have distinct preorder numbers. */
  lemma TypeOfTyped(s: State, t: nat, h: nat)
    requires t < |s.visited| && h < |s.visited| && |s.pre| == |s.post| == |s.visited|
    requires s.visited[h] && s.visited[t] && s.post[t] == 0 && s.post[h] >= 0
    requires s.post[h] == 0 && h != t ==> s.pre[h] < s.pre[t]
    requires s.pre[h] == s.pre[t] ==> h == t
    ensures Typed(s, t, h, TypeOf(s, t, h))
  {
  }

  lemma MarksTyped(g: Graph, s: State, s': State, k: EdgeType)
    requires Marks(g, s, s', k) && Classified(g, s)
    requires var e := EdgeOf(g, s.stack[|s.stack| - 1]); Typed(s, g.tail[e], g.head[e], k)
    ensures Classified(g, s')
  {
    var top := EdgeOf(g, s.stack[|s.stack| - 1]);
    forall e | 0 <= e < |g.tail|
      ensures Typed(s', g.tail[e], g.head[e], s'.kind[e])
    {
      if e != top {
        assert Typed(s, g.tail[e], g.head[e], s.kind[e]);
      }
    }
  }

  lemma MarksClassified(g: Graph, s: State)
    requires Classifies(g, s) && Siblings(g, s) && InOrder(g, s) && ActivePath(g, s) && Numbering(g, s) && PostBounds(g, s)
    requires Classified(g, s)
    ensures Shape(g, Classify(g, s)) && Classified(g, Classify(g, s))
  {
    var e := EdgeOf(g, s.stack[|s.stack| - 1]);
    ClassifyMarks(g, s);
    MarksTopTyped(g, s);
    MarksTyped(g, s, Classify(g, s), TypeOf(s, g.tail[e], g.head[e]));
  }

  /** Typing an edge keeps the invariant. */
  lemma ClassifyInv(g: Graph, s: State)
    requires Inv(g, s) && Classifies(g, s)
    ensures Inv(g, Classify(g, s))
  {
    var e := EdgeOf(g, s.stack[|s.stack| - 1]);
    var k := TypeOf(s, g.tail[e], g.head[e]);
    ClassifyMarks(g, s);
    MarksCounters(g, s, Classify(g, s), k);
    MarksActivePath(g, s, Classify(g, s), k);
    MarksSiblings(g, s, Classify(g, s), k);
    MarksEdges(g, s, Classify(g, s), k);
    MarksInOrder(g, s);
    MarksClassified(g, s);
  }

  /* Tree edges */

  /** `discoveredBy` names, for each node, the input edge (one into that node) or -1, and an
      input edge is a tree edge exactly when it is the edge that discovered its head. */
  ghost predicate TreeEdges(g: Graph, s: State)
    requires WellFormed(g) && Shape(g, s)
  {
    (forall v :: 0 <= v < g.n ==>
       -1 <= s.discoveredBy[v] < |g.tail| && (0 <= s.discoveredBy[v] ==> g.head[s.discoveredBy[v]] == v)) &&
    (forall e :: 0 <= e < |g.tail| ==> (s.kind[e] == Tree <==> s.discoveredBy[g.head[e]] == e))
  }

  lemma InitialTreeEdges(g: Graph)
    requires WellFormed(g)
    ensures Shape(g, Initial(g)) && TreeEdges(g, Initial(g))
  {
    InitialNumbering(g);
  }

  /** The edge that discovers a node becomes its only tree edge: any earlier tree edge leads to
      a node that was visited already. */
  lemma DiscoverTreeEdges(g: Graph, s: State)
    requires Discovers(g, s) && Classified(g, s) && TreeEdges(g, s)
    ensures Shape(g, Discover(g, s)) && TreeEdges(g, Discover(g, s))
  {
    DiscoverShape(g, s);
    var s' := Discover(g, s);
    forall e | 0 <= e < |g.tail|
      ensures s'.kind[e] == Tree <==> s'.discoveredBy[g.head[e]] == e
    {
      assert Typed(s, g.tail[e], g.head[e], s.kind[e]);
    }
  }

  /** Popping an edge changes no type and no discovering edge. */
  lemma FinishTreeEdges(g: Graph, s: State)
    requires Finishes(g, s) && TreeEdges(g, s)
    ensures Shape(g, Finish(g, s)) && TreeEdges(g, Finish(g, s))
  {
    FinishPops(g, s);
  }

  /** A classified edge was untyped, so it did not discover its head, and gets a type other
      than tree. */
  lemma ClassifyTreeEdges(g: Graph, s: State)
    requires Classifies(g, s) && EdgeStatus(g, s) && TreeEdges(g, s)
    ensures Shape(g, Classify(g, s)) && TreeEdges(g, Classify(g, s))
  {
    ClassifyMarks(g, s);
  }

  /** Every iteration keeps tree edges and discovering edges the same. */
  lemma StepTreeEdges(g: Graph, s: State)
    requires Inv(g, s) && s.stack != [] && TreeEdges(g, s)
    ensures Shape(g, Step(g, s)) && TreeEdges(g, Step(g, s))
  {
    StepCases(g, s);
    if Finishes(g, s) {
      FinishTreeEdges(g, s);
    } else if Discovers(g, s) {
      DiscoverTreeEdges(g, s);
    } else {
      ClassifyTreeEdges(g, s);
    }
  }

  /* The loop */

  /** One iteration of the loop where the loop takes one: in a state that keeps the invariant
      and has a non-empty stack. Any other state is left as it is; the loop never reaches one,
      since `Search` keeps the invariant. */
  ghost function Next(g: Graph, s: State): State
  {
    if Inv(g, s) && s.stack != [] then Step(g, s) else s
  }

  /** The state after k iterations of the loop, started from the initial state. */
  ghost function Run(g: Graph, k: nat): State
  {
    if k == 0 then Initial(g) else Next(g, Run(g, k - 1))
  }

  /** The loop of dfs, started from the initial state, has stopped after `steps` iterations, in
      state s: s is the state after that many iterations, and its stack is empty. */
  ghost predicate Halts(g: Graph, steps: nat, s: State)
  {
    s == Run(g, steps) && s.stack == []
  }

  /** Once the stack is empty the loop has stopped: no further iteration changes the state. */
  lemma {:induction false} RunStays(g: Graph, k: nat, j: nat)
    requires Run(g, k).stack == []
    ensures Run(g, k + j) == Run(g, k)
    decreases j
  {
    if j > 0 {
      RunStays(g, k, j - 1);
    }
  }

  /** The state the loop stops in is one and the same, however the number of iterations is
      counted. */
  lemma HaltsUnique(g: Graph, a: nat, b: nat, s: State, t: State)
    requires Halts(g, a, s) && Halts(g, b, t)
    ensures s == t
  {
    if a <= b {
      RunStays(g, a, b - a);
    } else {
      RunStays(g, b, a - b);
    }
  }

  /** From a state the loop reaches after k iterations and that allows one more, the next
      iteration leads to the state after k + 1. */
  lemma RunStep(g: Graph, k: nat, s: State)
    requires Run(g, k) == s && Inv(g, s) && s.stack != []
    ensures Run(g, k + 1) == Step(g, s)
  {
  }

  /** Which branch an iteration takes. */
  lemma StepCases(g: Graph, s: State)
    requires Inv(g, s) && s.stack != []
    ensures Finishes(g, s) ==> Step(g, s) == Finish(g, s)
    ensures Discovers(g, s) ==> Step(g, s) == Discover(g, s)
    ensures Classifies(g, s) ==> Step(g, s) == Classify(g, s)
    ensures Finishes(g, s) || Discovers(g, s) || Classifies(g, s)
  {
    var f := s.stack[|s.stack| - 1];
    if !IsTraversed(g, s, f) && !s.visited[HeadOf(g, f)] {
      UnvisitedBound(g, s, HeadOf(g, f));
    }
  }

  /** Every iteration keeps the invariant. */
  lemma StepInv(g: Graph, s: State)
    requires Inv(g, s) && s.stack != []
    ensures Inv(g, Step(g, s))
  {
    StepCases(g, s);
    if Finishes(g, s) {
      FinishInv(g, s);
    } else if Discovers(g, s) {
      DiscoverInv(g, s);
    } else {
      ClassifyInv(g, s);
    }
  }

  /** 1 while the stack holds only a fresh placeholder, which the next iteration discovers. */
  ghost function Restarting(s: State): int
  {
    if |s.stack| == 1 && s.stack[0].Placeholder? && !s.stack[0].done then 1 else 0
  }

  /** Twice the number of unvisited nodes, less one while a restart is pending. */
  ghost function Rank(g: Graph, s: State): int
  {
    2 * (g.n + 1 - s.preorder) - Restarting(s)
  }

  /** The input edges not yet traversed. */
  ghost function Pending(traversed: seq<bool>): set<int>
  {
    set e | 0 <= e < |traversed| && !traversed[e]
  }

  /** The rank is never negative: a pending restart leads to an unvisited node. */
  lemma RankBound(g: Graph, s: State)
    requires Inv(g, s)
    ensures Rank(g, s) >= 0
  {
    if Restarting(s) == 1 {
      UnvisitedBound(g, s, s.stack[0].target);
    }
  }

  /** (rank, pending edges, stack height) is lexicographically smaller in s' than in s. */
  ghost predicate Below(g: Graph, s': State, s: State)
  {
    Rank(g, s') < Rank(g, s) ||
    (Rank(g, s') == Rank(g, s) &&
     (|Pending(s'.traversed)| < |Pending(s.traversed)| ||
      (|Pending(s'.traversed)| == |Pending(s.traversed)| && |s'.stack| < |s.stack|)))
  }

  lemma FinishDecreases(g: Graph, s: State)
    requires Finishes(g, s)
    ensures Below(g, Finish(g, s), s)
  {
    FinishPops(g, s);
  }

  lemma DiscoverDecreases(g: Graph, s: State)
    requires Discovers(g, s)
    ensures Below(g, Discover(g, s), s)
  {
    DiscoverIsDiscovered(g, s);
    DiscoverFields(g, s);
  }

  /** Traversing an edge removes it from the pending ones. */
  lemma PendingMark(traversed: seq<bool>, e: nat)
    requires e < |traversed| && !traversed[e]
    ensures |Pending(traversed[e := true])| == |Pending(traversed)| - 1
  {
    assert Pending(traversed[e := true]) == Pending(traversed) - {e};
  }

  lemma ClassifyDecreases(g: Graph, s: State)
    requires Classifies(g, s)
    ensures Below(g, Classify(g, s), s)
  {
    ClassifyMarks(g, s);
    PendingMark(s.traversed, EdgeOf(g, s.stack[|s.stack| - 1]));
  }

  /** Every iteration decreases (rank, pending edges, stack height) lexicographically: a
      discovery lowers the rank, a typing leaves one edge fewer to process, a pop shortens
      the stack or, when it empties it, schedules the restart that lowers the rank. */
  lemma StepDecreases(g: Graph, s: State)
    requires Inv(g, s) && s.stack != []
    ensures Below(g, Step(g, s), s)
  {
    StepCases(g, s);
    if Finishes(g, s) {
      FinishDecreases(g, s);
    } else if Discovers(g, s) {
      DiscoverDecreases(g, s);
    } else {
      ClassifyDecreases(g, s);
    }
  }

  /** How the final preorder and postorder numbers of an edge's endpoints reflect its type:
      a tree or forward edge leads into the tail's subtree, a cross edge to a node finished
      earlier in another subtree, and a back edge to an ancestor (or the tail itself). */
  ghost predicate Nested(pre: seq<int>, post: seq<int>, t: nat, h: nat, k: EdgeType)
    requires t < |pre| && h < |pre| && |post| == |pre|
  {
    match k
    case Unset => false
    case Tree => pre[t] < pre[h] && post[h] < post[t]
    case Forward => pre[t] < pre[h] && post[h] < post[t]
    case Cross => pre[h] < pre[t] && post[h] < post[t]
    case Back => pre[h] <= pre[t] && post[t] <= post[h]
  }

  /** With the stack empty every node is visited, and none is still active. */
  lemma AllVisited(g: Graph, s: State)
    requires WellFormed(g) && Shape(g, s) && Cursor(g, s) && ActivePath(g, s) && PostBounds(g, s) && s.stack == []
    ensures forall v :: 0 <= v < g.n ==> s.visited[v] && 0 < s.post[v]
  {
    forall v | 0 <= v < g.n ensures s.visited[v] && 0 < s.post[v]
    {
      assert s.post[v] == 0 ==> Active(s, v);
    }
  }

  lemma CompletePreorder(g: Graph, s: State)
    requires WellFormed(g) && Shape(g, s) && Numbering(g, s)
    requires forall v :: 0 <= v < g.n ==> s.visited[v]
    ensures s.preorder == g.n + 1
    ensures forall v :: 0 <= v < g.n ==> 1 <= s.pre[v] <= g.n && s.result[s.pre[v] - 1] == v
    ensures forall k :: 0 <= k < g.n ==> 0 <= s.result[k] < g.n && s.pre[s.result[k]] == k + 1
  {
    assert Visited(s.visited) == Nodes(g.n);
    NodesSize(g.n);
  }

  lemma CompletePostorder(g: Graph, s: State)
    requires WellFormed(g) && Shape(g, s) && Finishing(g, s)
    requires forall v :: 0 <= v < g.n ==> 0 < s.post[v]
    ensures s.postorder == g.n + 1 && |s.finishOrder| == g.n
    ensures forall v :: 0 <= v < g.n ==> 1 <= s.post[v] <= g.n && s.finishOrder[s.post[v] - 1] == v
    ensures forall k :: 0 <= k < g.n ==> 0 <= s.finishOrder[k] < g.n && s.post[s.finishOrder[k]] == k + 1
  {
    assert Finished(s.post) == Nodes(g.n);
    NodesSize(g.n);
  }

  lemma CompleteEdges(g: Graph, s: State)
    requires WellFormed(g) && Shape(g, s) && Siblings(g, s) && EdgeStatus(g, s) && Classified(g, s) && s.stack == []
    requires forall v :: 0 <= v < g.n ==> s.visited[v] && 0 < s.post[v]
    ensures forall e :: 0 <= e < |g.tail| ==>
      s.traversed[e] && s.pushes[e] == 1 && Nested(s.pre, s.post, g.tail[e], g.head[e], s.kind[e])
  {
    forall e | 0 <= e < |g.tail|
      ensures s.traversed[e] && s.pushes[e] == 1 && Nested(s.pre, s.post, g.tail[e], g.head[e], s.kind[e])
    {
      var v := g.tail[e];
      var i :| 0 <= i < |g.adj[v]| && g.adj[v][i] == e;
      assert Typed(s, g.tail[e], g.head[e], s.kind[e]);
    }
  }

  /** What holds when dfs returns: every node is visited and numbered 1 .. n in both orders,
      `result` and `finishOrder` list the nodes by those numbers (each a bijection with its
      numbering), every edge has been pushed exactly once and typed consistently with the
      numbers of its endpoints, each node's edges were processed in the order of its
      neighbour list, and the tree edges are exactly the edges that discovered their heads. */
  ghost predicate Done(g: Graph, s: State)
  {
    WellFormed(g) && Shape(g, s) && |s.finishOrder| == g.n &&
    (forall v :: 0 <= v < g.n ==> s.visited[v] && 1 <= s.pre[v] <= g.n && s.result[s.pre[v] - 1] == v) &&
    (forall k :: 0 <= k < g.n ==> 0 <= s.result[k] < g.n && s.pre[s.result[k]] == k + 1) &&
    (forall v :: 0 <= v < g.n ==> 1 <= s.post[v] <= g.n && s.finishOrder[s.post[v] - 1] == v) &&
    (forall k :: 0 <= k < g.n ==> 0 <= s.finishOrder[k] < g.n && s.post[s.finishOrder[k]] == k + 1) &&
    (forall e :: 0 <= e < |g.tail| ==>
       s.traversed[e] && s.pushes[e] == 1 && Nested(s.pre, s.post, g.tail[e], g.head[e], s.kind[e])) &&
    (forall v, i, j :: 0 <= v < g.n && 0 <= i < j < |g.adj[v]| ==> s.when[g.adj[v][i]] < s.when[g.adj[v][j]]) &&
    TreeEdges(g, s)
  }

  /** The invariant with an empty stack gives everything `Done` lists, and both counters
      have run through all n numbers. */
  lemma Complete(g: Graph, s: State)
    requires Inv(g, s) && s.stack == [] && TreeEdges(g, s)
    ensures s.preorder == g.n + 1 && s.postorder == g.n + 1
    ensures Done(g, s)
  {
    AllVisited(g, s);
    CompletePreorder(g, s);
    CompletePostorder(g, s);
    CompleteEdges(g, s);
  }

  /** The final numbers determine the type up to tree versus forward: the three cases are
      told apart by the numbers alone. */
  lemma TypeByNumbers(pre: seq<int>, post: seq<int>, t: nat, h: nat, k: EdgeType)
    requires t < |pre| && h < |pre| && |post| == |pre| && Nested(pre, post, t, h, k)
    ensures k == Back <==> pre[h] <= pre[t] && post[t] <= post[h]
    ensures k == Cross <==> pre[h] < pre[t] && post[h] < post[t]
    ensures (k == Tree || k == Forward) <==> pre[t] < pre[h] && post[h] < post[t]
    ensures t == h ==> k == Back
  {
  }

  /** What one turn of the loop of dfs needs of its iteration: which branch it takes, that the
      invariant and the tree edges are kept, that the run goes on, and that the measure of the
      loop decreases. */
  lemma Iteration(g: Graph, k: nat, s: State)
    requires Inv(g, s) && TreeEdges(g, s) && s == Run(g, k) && s.stack != []
    ensures Finishes(g, s) || Discovers(g, s) || Classifies(g, s)
    ensures Finishes(g, s) ==> Step(g, s) == Finish(g, s)
    ensures Discovers(g, s) ==> Step(g, s) == Discover(g, s)
    ensures Classifies(g, s) ==> Step(g, s) == Classify(g, s)
    ensures Inv(g, Step(g, s)) && TreeEdges(g, Step(g, s))
    ensures Step(g, s) == Run(g, k + 1)
    ensures Below(g, Step(g, s), s) && Rank(g, Step(g, s)) >= 0
  {
    StepCases(g, s);
    StepInv(g, s);
    StepTreeEdges(g, s);
    StepDecreases(g, s);
    RankBound(g, Step(g, s));
    RunStep(g, k, s);
  }

  /** The node and edge fields, the stack, the counters and `result` hold what s says. */
  ghost predicate Mirrors(s: State, visited: array<bool>, pre: array<int>, post: array<int>,
                          traversed: array<bool>, kind: array<EdgeType>, result: array<int>,
                          stack: seq<Frame>, preorder: int, postorder: int, minUnvisited: int)
    reads visited, pre, post, traversed, kind, result
  {
    s.visited == visited[..] && s.pre == pre[..] && s.post == post[..] && s.traversed == traversed[..] &&
    s.kind == kind[..] && s.result == result[..] && s.stack == stack && s.preorder == preorder &&
    s.postorder == postorder && s.minUnvisited == minUnvisited
  }

  /** The `e.traversed` branch of the loop of dfs: a popped tree edge gives its head the next
      postorder number, and an emptied stack restarts from `minUnvisited`. */
  method PopEdge(g: Graph, ghost s: State, visited: array<bool>, pre: array<int>, post: array<int>,
                 traversed: array<bool>, kind: array<EdgeType>, result: array<int>,
                 stack: seq<Frame>, preorder: int, postorder: int, minUnvisited: int)
    returns (stack': seq<Frame>, postorder': int)
    requires Finishes(g, s)
    requires Mirrors(s, visited, pre, post, traversed, kind, result, stack, preorder, postorder, minUnvisited)
    requires pre != post && post != result && pre != result
    modifies post
    ensures Mirrors(Finish(g, s), visited, pre, post, traversed, kind, result, stack', preorder, postorder', minUnvisited)
  {
    FinishPops(g, s);
    var top := |stack| - 1;
    var f := stack[top];
    var h := match f case Placeholder(t, _, _) => t case Input(v, i) => g.head[g.adj[v][i]];
    var k := match f case Placeholder(_, _, k) => k case Input(v, i) => kind[g.adj[v][i]];
    postorder' := postorder;
    if k == Tree {
      post[h] := postorder;
      postorder' := postorder + 1;
    }
    stack' := stack[..top];
    if stack' == [] && minUnvisited < g.n {
      stack' := [Placeholder(minUnvisited, false, Unset)];
    }
  }

  /** The scan that moves `minUnvisited` past the visited nodes after it. */
  method NextCursor(visited: array<bool>, m: int) returns (r: int)
    requires 0 <= m <= visited.Length
    ensures r == NextUnvisited(visited[..], m)
  {
    r := m;
    while r < visited.Length && visited[r]
      invariant m <= r <= visited.Length
      invariant NextUnvisited(visited[..], r) == NextUnvisited(visited[..], m)
      decreases visited.Length - r
    {
      r := r + 1;
    }
  }

  /** The inner loop of the `!n2.visited` branch: push the frames of h's d outgoing edges,
      from the last to the first. */
  method PushNeighbors(stack: seq<Frame>, h: nat, d: nat) returns (stack': seq<Frame>)
    ensures stack' == stack + Pushed(h, d)
  {
    stack' := stack;
    var i := d - 1;
    while i >= 0
      invariant -1 <= i < d
      invariant stack' == stack + Pushed(h, d)[..d - 1 - i]
    {
      stack' := stack' + [Input(h, i)];
      i := i - 1;
    }
  }

  /** The `!n2.visited` branch of the loop of dfs: visit the head, advance `minUnvisited` when
      it was the head, record the head in `result` with the next preorder number, mark the top
      edge a traversed tree edge and push the head's outgoing edges, last one first. */
  method VisitHead(g: Graph, ghost s: State, visited: array<bool>, pre: array<int>, post: array<int>,
                   traversed: array<bool>, kind: array<EdgeType>, result: array<int>,
                   stack: seq<Frame>, preorder: int, postorder: int, minUnvisited: int)
    returns (stack': seq<Frame>, preorder': int, minUnvisited': int)
    requires Discovers(g, s)
    requires Mirrors(s, visited, pre, post, traversed, kind, result, stack, preorder, postorder, minUnvisited)
    requires pre != post && post != result && pre != result && visited != traversed
    modifies visited, pre, traversed, kind, result
    ensures Mirrors(Discover(g, s), visited, pre, post, traversed, kind, result, stack', preorder', postorder, minUnvisited')
  {
    DiscoverFields(g, s);
    var top := |stack| - 1;
    var f := stack[top];
    var h := match f case Placeholder(t, _, _) => t case Input(v, i) => g.head[g.adj[v][i]];
    visited[h] := true;
    minUnvisited' := minUnvisited;
    if h == minUnvisited {
      minUnvisited' := NextCursor(visited, minUnvisited + 1);
    }
    result[preorder - 1] := h;
    pre[h] := preorder;
    preorder' := preorder + 1;
    if f.Input? {
      kind[g.adj[f.v][f.i]] := Tree;
    }
    stack' := PushNeighbors(stack, h, |g.adj[h]|);
    match f {
      case Placeholder(t, _, _) => stack' := stack'[top := Placeholder(t, true, Tree)];
      case Input(v, j) => traversed[g.adj[v][j]] := true;
    }
  }

  /** The remaining branch of the loop of dfs: the head was already visited, so the input edge
      on top is forward, cross or back, decided by the numbers of its endpoints. The top is
      never a placeholder here: a placeholder is only ever pushed for an unvisited node. */
  method TypeEdge(g: Graph, ghost s: State, visited: array<bool>, pre: array<int>, post: array<int>,
                  traversed: array<bool>, kind: array<EdgeType>, result: array<int>,
                  stack: seq<Frame>, preorder: int, postorder: int, minUnvisited: int)
    requires Classifies(g, s)
    requires Mirrors(s, visited, pre, post, traversed, kind, result, stack, preorder, postorder, minUnvisited)
    requires visited != traversed
    modifies traversed, kind
    ensures Mirrors(Classify(g, s), visited, pre, post, traversed, kind, result, stack, preorder, postorder, minUnvisited)
  {
    ClassifyMarks(g, s);
    var f := stack[|stack| - 1];
    var e := g.adj[f.v][f.i];
    var t, h := g.tail[e], g.head[e];
    if pre[h] > pre[t] {
      kind[e] := Forward;
    } else if post[h] > 0 {
      kind[e] := Cross;
    } else {
      kind[e] := Back;
    }
    traversed[e] := true;
  }

  /** One turn of the loop of dfs: the top of the stack decides which of the three branches runs. */
  method StepTop(g: Graph, ghost s: State, visited: array<bool>, pre: array<int>, post: array<int>,
                 traversed: array<bool>, kind: array<EdgeType>, result: array<int>,
                 stack: seq<Frame>, preorder: int, postorder: int, minUnvisited: int)
    returns (stack': seq<Frame>, preorder': int, postorder': int, minUnvisited': int)
    requires Finishes(g, s) || Discovers(g, s) || Classifies(g, s)
    requires Mirrors(s, visited, pre, post, traversed, kind, result, stack, preorder, postorder, minUnvisited)
    requires pre != post && post != result && pre != result && visited != traversed
    modifies visited, pre, post, traversed, kind, result
    ensures Finishes(g, s) ==>
      Mirrors(Finish(g, s), visited, pre, post, traversed, kind, result, stack', preorder', postorder', minUnvisited')
    ensures Discovers(g, s) ==>
      Mirrors(Discover(g, s), visited, pre, post, traversed, kind, result, stack', preorder', postorder', minUnvisited')
    ensures Classifies(g, s) ==>
      Mirrors(Classify(g, s), visited, pre, post, traversed, kind, result, stack', preorder', postorder', minUnvisited')
  {
    preorder', postorder', minUnvisited' := preorder, postorder, minUnvisited;
    var f := stack[|stack| - 1];
    var isTraversed, h;
    match f {
      case Placeholder(t, done, _) => isTraversed, h := done, t;
      case Input(v, i) => isTraversed, h := traversed[g.adj[v][i]], g.head[g.adj[v][i]];
    }
    if isTraversed {
      assert Finishes(g, s);
      stack', postorder' := PopEdge(g, s, visited, pre, post, traversed, kind, result, stack, preorder, postorder, minUnvisited);
    } else if !visited[h] {
      assert Discovers(g, s);
      stack', preorder', minUnvisited' := VisitHead(g, s, visited, pre, post, traversed, kind, result, stack, preorder, postorder, minUnvisited);
    } else {
      assert Classifies(g, s);
      stack' := stack;
      TypeEdge(g, s, visited, pre, post, traversed, kind, result, stack, preorder, postorder, minUnvisited);
    }
  }

  /** dfs: a depth-first search of every node from node 0, restarting from the smallest
      unvisited node whenever the stack runs empty. `visited`, `pre` and `post` are the node
      fields, `traversed` and `kind` the edge fields, all fresh when the search starts. On
      return `result` lists the nodes in discovery order, every node has preorder and postorder
      numbers 1 .. n, and every edge is typed consistently with them, a tree edge exactly when
      it discovered its head. `final` is the state the loop stops in after `steps` iterations
      from the initial state, so its order of finishing, the time each edge was processed and
      how often each edge was pushed are those of the search itself. */
  method Dfs(g: Graph, visited: array<bool>, pre: array<int>, post: array<int>,
             traversed: array<bool>, kind: array<EdgeType>)
    returns (result: array<int>, ghost final: State, ghost steps: nat)
    requires WellFormed(g)
    requires visited.Length == g.n && pre.Length == g.n && post.Length == g.n
    requires traversed.Length == |g.tail| && kind.Length == |g.tail| && pre != post && visited != traversed
    requires forall v :: 0 <= v < g.n ==> !visited[v] && pre[v] == 0 && post[v] == 0
    requires forall e :: 0 <= e < |g.tail| ==> !traversed[e] && kind[e] == Unset
    modifies visited, pre, post, traversed, kind
    ensures fresh(result) && result.Length == g.n
    ensures final.visited == visited[..] && final.pre == pre[..] && final.post == post[..] &&
            final.traversed == traversed[..] && final.kind == kind[..] && final.result == result[..]
    ensures Halts(g, steps, final)
    ensures Done(g, final)
  {
    result := new int[g.n](_ => 0);
    InitialMirrors(g, visited, pre, post, traversed, kind, result);
    final, steps := Search(g, visited, pre, post, traversed, kind, result);
  }

  /** Fresh node and edge fields and a zeroed `result` are the fields of the initial state. */
  lemma InitialMirrors(g: Graph, visited: array<bool>, pre: array<int>, post: array<int>,
                       traversed: array<bool>, kind: array<EdgeType>, result: array<int>)
    requires visited.Length == g.n && pre.Length == g.n && post.Length == g.n && result.Length == g.n
    requires traversed.Length == |g.tail| && kind.Length == |g.tail|
    requires forall v :: 0 <= v < g.n ==> !visited[v] && pre[v] == 0 && post[v] == 0 && result[v] == 0
    requires forall e :: 0 <= e < |g.tail| ==> !traversed[e] && kind[e] == Unset
    ensures Mirrors(Initial(g), visited, pre, post, traversed, kind, result, [Placeholder(0, false, Unset)], 1, 1, 0)
  {
  }

  /** The loop of dfs, from the initial state until the stack is empty: `final` is the state it
      stops in, after `steps` iterations. */
  method Search(g: Graph, visited: array<bool>, pre: array<int>, post: array<int>,
                traversed: array<bool>, kind: array<EdgeType>, result: array<int>)
    returns (ghost final: State, ghost steps: nat)
    requires WellFormed(g)
    requires Mirrors(Initial(g), visited, pre, post, traversed, kind, result, [Placeholder(0, false, Unset)], 1, 1, 0)
    requires pre != post && post != result && pre != result && visited != traversed
    modifies visited, pre, post, traversed, kind, result
    ensures Halts(g, steps, final)
    ensures Done(g, final)
    ensures final.visited == visited[..] && final.pre == pre[..] && final.post == post[..] &&
            final.traversed == traversed[..] && final.kind == kind[..] && final.result == result[..]
  {
    var stack, preorder, postorder, minUnvisited := [Placeholder(0, false, Unset)], 1, 1, 0;
    ghost var s := Initial(g);
    steps := 0;
    InitialInv(g);
    InitialTreeEdges(g);
    while stack != []
      invariant Inv(g, s) && TreeEdges(g, s)
      invariant s == Run(g, steps)
      invariant Mirrors(s, visited, pre, post, traversed, kind, result, stack, preorder, postorder, minUnvisited)
      decreases Rank(g, s), |Pending(s.traversed)|, |s.stack|
    {
      ghost var prev := s;
      Iteration(g, steps, prev);
      stack, preorder, postorder, minUnvisited :=
        StepTop(g, prev, visited, pre, post, traversed, kind, result, stack, preorder, postorder, minUnvisited);
      s := Step(g, prev);
      steps := steps + 1;
    }
    Complete(g, s);
    final := s;
  }
}
