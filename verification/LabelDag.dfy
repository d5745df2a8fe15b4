/** The label cycle breaker: an iterative three-colour depth-first search over
    (child, parent) edges that splits the edge list into accepted and dropped edges. */
module LabelDag {

  datatype Label = Label(name: string)

  datatype Edge = Edge(child: Label, parent: Label)

  datatype Color = White | Gray | Black

  /** A stack entry: a node and how many of its parents have been looked at. */
  datatype Frame = Frame(node: Label, idx: nat)

  // ----- The graph, independently of the search

  /** The parents listed for `c`, in listing order, duplicates included. */
  function ParentsOf(edges: seq<Edge>, c: Label): seq<Label> {
    if edges == [] then []
    else
      var rest := ParentsOf(edges[..|edges| - 1], c);
      var last := edges[|edges| - 1];
      if last.child == c then rest + [last.parent] else rest
  }

  ghost predicate IsPath(edges: seq<Edge>, path: seq<Label>) {
    && |path| > 0
    && forall i :: 0 <= i < |path| - 1 ==> Edge(path[i], path[i + 1]) in edges
  }

  /** `b` can be reached from `a` by following zero or more edges upwards. */
  ghost predicate Reaches(edges: seq<Edge>, a: Label, b: Label) {
    exists path :: IsPath(edges, path) && path[0] == a && path[|path| - 1] == b
  }

  /** No edge can be completed to a cycle. A self-loop is a cycle: every label reaches itself. */
  ghost predicate Acyclic(edges: seq<Edge>) {
    forall e <- edges :: !Reaches(edges, e.parent, e.child)
  }

  function Nodes(edges: seq<Edge>): (nodes: set<Label>) {
    (set e <- edges :: e.child) + (set e <- edges :: e.parent)
  }

  // ----- The state of the search

  /** What the search holds between two steps. `pos`, `emitted`, `finish` and `clock` are only for
      the proof: where a label lies on the stack, the edges in the order they were decided, and
      the finishing times. */
  datatype Search = Search(
    edges: seq<Edge>,
    color: map<Label, Color>,
    stack: seq<Frame>,
    pos: map<Label, nat>,
    accepted: seq<Edge>,
    dropped: seq<Edge>,
    emitted: seq<Edge>,
    finish: map<Label, nat>,
    clock: nat)
  {
    /** GRAY means "on the stack", and no label is on the stack twice. */
    ghost predicate Coloured() {
      && color.Keys == Nodes(edges)
      && (forall n :: n in pos <==> n in color && color[n] == Gray)
      && (forall n :: n in pos ==> pos[n] < |stack| && stack[pos[n]].node == n)
      && (forall k :: 0 <= k < |stack| ==> stack[k].node in pos && pos[stack[k].node] == k)
    }

    /** Neighbours on the stack are joined by accepted edges. */
    ghost predicate Linked() {
      forall k :: 0 < k < |stack| ==> Edge(stack[k - 1].node, stack[k].node) in accepted
    }

    /** An accepted edge points at a label that finished earlier, unless it still lies on the stack. */
    ghost predicate RankedEdge(e: Edge) {
      || (e.child in pos && e.parent in pos && pos[e.parent] == pos[e.child] + 1)
      || (e.parent in finish && (e.child in finish ==> finish[e.parent] < finish[e.child]))
    }

    ghost predicate Ranked() {
      && (forall n :: n in finish <==> n in color && color[n] == Black)
      && (forall n :: n in finish ==> finish[n] < clock)
      && (forall e <- accepted :: RankedEdge(e))
    }

    /** How far a label's list of parents has been worked off. */
    ghost predicate CountedAt(n: Label) {
      if n in pos then
        && pos[n] < |stack|
        && stack[pos[n]].idx <= |ParentsOf(edges, n)|
        && ParentsOf(emitted, n) == ParentsOf(edges, n)[..stack[pos[n]].idx]
      else
        ParentsOf(emitted, n) == if n in finish then ParentsOf(edges, n) else []
    }

    ghost predicate Counted() {
      && (forall n :: CountedAt(n))
      && multiset(emitted) == multiset(accepted) + multiset(dropped)
    }

    ghost predicate Justified() {
      forall e <- dropped :: Reaches(accepted, e.parent, e.child)
    }

    ghost predicate Valid() {
      Coloured() && Linked() && Ranked() && Counted() && Justified()
    }

    /** `Valid`, kept folded: it can be used only where `Unfold` is mentioned. */
    ghost predicate Sound() {
      forall k: nat {:trigger Unfold(k)} :: Unfold(k) ==> Valid()
    }

    /** The search's variables, as the program holds them. */
    ghost predicate Shows(es: seq<Edge>, c: map<Label, Color>, st: seq<Frame>, acc: seq<Edge>, drop: seq<Edge>) {
      edges == es && color == c && stack == st && accepted == acc && dropped == drop
    }

    ghost function Whites(): set<Label> {
      set n | n in color && color[n] == White
    }
  }

  ghost predicate Unfold(k: nat) { true }

  // ----- Facts about the graph

  lemma ParentsOfSnoc(edges: seq<Edge>, e: Edge, c: Label)
    ensures ParentsOf(edges + [e], c) == if e.child == c then ParentsOf(edges, c) + [e.parent] else ParentsOf(edges, c)
  {
    assert (edges + [e])[..|edges|] == edges;
  }

  lemma {:induction false} ParentsOfMembers(edges: seq<Edge>, c: Label)
    ensures forall p :: p in ParentsOf(edges, c) <==> Edge(c, p) in edges
    ensures forall p :: multiset(ParentsOf(edges, c))[p] == multiset(edges)[Edge(c, p)]
  {
    if edges != [] {
      var front, last := edges[..|edges| - 1], edges[|edges| - 1];
      assert edges == front + [last];
      ParentsOfMembers(front, c);
    }
  }

  /** A list of edges is determined, up to order, by every label's list of parents. */
  lemma SameParentsSameEdges(a: seq<Edge>, b: seq<Edge>)
    requires forall c :: ParentsOf(a, c) == ParentsOf(b, c)
    ensures multiset(a) == multiset(b)
  {
    forall e: Edge
      ensures multiset(a)[e] == multiset(b)[e]
    {
      ParentsOfMembers(a, e.child);
      ParentsOfMembers(b, e.child);
      assert multiset(ParentsOf(a, e.child))[e.parent] == multiset(a)[Edge(e.child, e.parent)];
    }
  }

  lemma NodesOfParents(edges: seq<Edge>, c: Label, k: nat)
    requires k < |ParentsOf(edges, c)|
    ensures c in Nodes(edges) && ParentsOf(edges, c)[k] in Nodes(edges)
    ensures Edge(c, ParentsOf(edges, c)[k]) in edges
  {
    ParentsOfMembers(edges, c);
    assert ParentsOf(edges, c)[k] in ParentsOf(edges, c);
    var e := Edge(c, ParentsOf(edges, c)[k]);
    assert e in edges && e.child == c;
  }

  lemma NoParentsOutside(edges: seq<Edge>, c: Label)
    requires c !in Nodes(edges)
    ensures ParentsOf(edges, c) == []
  {
    if ParentsOf(edges, c) != [] {
      NodesOfParents(edges, c, 0);
    }
  }

  lemma ReachesMonotone(a: seq<Edge>, b: seq<Edge>, x: Label, y: Label)
    requires Reaches(a, x, y)
    requires forall e <- a :: e in b
    ensures Reaches(b, x, y)
  {
    var path :| IsPath(a, path) && path[0] == x && path[|path| - 1] == y;
    assert IsPath(b, path);
  }

  /** Ranks only fall along a path, so a strictly ranked edge list has no cycle. */
  lemma {:induction false} RanksFallAlongPaths(edges: seq<Edge>, rank: map<Label, nat>, path: seq<Label>)
    requires forall e <- edges :: e.child in rank && e.parent in rank && rank[e.parent] < rank[e.child]
    requires IsPath(edges, path) && path[0] in rank
    ensures path[|path| - 1] in rank && rank[path[|path| - 1]] <= rank[path[0]]
    decreases |path|
  {
    if |path| > 1 {
      assert Edge(path[0], path[1]) in edges;
      assert IsPath(edges, path[1..]) by {
        forall i | 0 <= i < |path[1..]| - 1
          ensures Edge(path[1..][i], path[1..][i + 1]) in edges
        {
          assert Edge(path[i + 1], path[i + 1 + 1]) in edges;
        }
      }
      RanksFallAlongPaths(edges, rank, path[1..]);
    }
  }

  lemma RankedIsAcyclic(edges: seq<Edge>, rank: map<Label, nat>)
    requires forall e <- edges :: e.child in rank && e.parent in rank && rank[e.parent] < rank[e.child]
    ensures Acyclic(edges)
  {
    forall e | e in edges && Reaches(edges, e.parent, e.child)
      ensures false
    {
      var path :| IsPath(edges, path) && path[0] == e.parent && path[|path| - 1] == e.child;
      RanksFallAlongPaths(edges, rank, path);
    }
  }

  // ----- One step of the search

  /** The labels from stack position `k` up to the top form a path of accepted edges. */
  lemma StackPath(s: Search, k: nat)
    requires s.Linked() && k < |s.stack|
    ensures Reaches(s.accepted, s.stack[k].node, s.stack[|s.stack| - 1].node)
  {
    var path := Labels(s.stack[k..]);
    forall i | 0 <= i < |path| - 1
      ensures Edge(path[i], path[i + 1]) in s.accepted
    {
      var j := k + i + 1;
      assert Edge(s.stack[j - 1].node, s.stack[j].node) in s.accepted;
    }
    assert IsPath(s.accepted, path);
  }

  ghost function Labels(frames: seq<Frame>): (labels: seq<Label>)
    ensures |labels| == |frames|
    ensures forall i :: 0 <= i < |frames| ==> labels[i] == frames[i].node
  {
    seq(|frames|, i requires 0 <= i < |frames| => frames[i].node)
  }

  /** The state just after the top frame has moved on by one and its edge `e` was decided. */
  ghost predicate Advanced(s: Search, e: Edge, t: Search) {
    && s.stack != []
    && var top := s.stack[|s.stack| - 1];
    && top.node == e.child
    && top.idx < |ParentsOf(s.edges, e.child)|
    && e.parent == ParentsOf(s.edges, e.child)[top.idx]
    && t.edges == s.edges && t.color == s.color && t.pos == s.pos
    && t.finish == s.finish && t.clock == s.clock
    && t.stack == s.stack[|s.stack| - 1 := Frame(e.child, top.idx + 1)]
    && t.emitted == s.emitted + [e]
    && (|| (t.accepted == s.accepted + [e] && t.dropped == s.dropped)
        || (t.accepted == s.accepted && t.dropped == s.dropped + [e]))
  }

  lemma AdvanceColoured(s: Search, e: Edge, t: Search)
    requires s.Coloured() && Advanced(s, e, t)
    ensures t.Coloured()
  {
  }

  lemma AdvanceLinked(s: Search, e: Edge, t: Search)
    requires s.Linked() && Advanced(s, e, t)
    ensures t.Linked()
  {
    forall k | 0 < k < |t.stack|
      ensures Edge(t.stack[k - 1].node, t.stack[k].node) in t.accepted
    {
      assert Edge(s.stack[k - 1].node, s.stack[k].node) in s.accepted;
    }
  }

  lemma AdvanceCountedAt(s: Search, e: Edge, t: Search, n: Label)
    requires s.Coloured() && s.CountedAt(n) && Advanced(s, e, t)
    ensures t.CountedAt(n)
  {
    ParentsOfSnoc(s.emitted, e, n);
  }

  lemma AdvanceCounted(s: Search, e: Edge, t: Search)
    requires s.Coloured() && s.Counted() && Advanced(s, e, t)
    ensures t.Counted()
  {
    forall n ensures t.CountedAt(n) {
      assert s.CountedAt(n);
      AdvanceCountedAt(s, e, t, n);
    }
  }

  lemma AdvanceJustified(s: Search, e: Edge, t: Search)
    requires s.Justified() && Advanced(s, e, t)
    requires e in t.dropped ==> Reaches(t.accepted, e.parent, e.child)
    ensures t.Justified()
  {
    forall d | d in t.dropped && d != e ensures Reaches(t.accepted, d.parent, d.child) {
      assert d in s.dropped;
      ReachesMonotone(s.accepted, t.accepted, d.parent, d.child);
    }
  }

  /** A parent on the stack: the edge would close a cycle, so it is dropped. */
  lemma DropStep(s: Search, e: Edge, t: Search)
    requires s.Valid() && Advanced(s, e, t)
    requires e.parent in s.color && s.color[e.parent] == Gray
    requires t.accepted == s.accepted
    ensures t.Valid()
  {
    AdvanceColoured(s, e, t);
    AdvanceLinked(s, e, t);
    AdvanceCounted(s, e, t);
    StackPath(s, s.pos[e.parent]);
    AdvanceJustified(s, e, t);
    RankedUnchanged(s, t);
  }

  lemma RankedUnchanged(s: Search, t: Search)
    requires s.Ranked()
    requires t.color == s.color && t.pos == s.pos && t.finish == s.finish && t.clock == s.clock
    requires forall e <- t.accepted :: e in s.accepted || t.RankedEdge(e)
    ensures t.Ranked()
  {
    forall e | e in t.accepted ensures t.RankedEdge(e) {
      if e in s.accepted {
        assert s.RankedEdge(e);
      }
    }
  }

  /** A finished parent: the edge points at something already ranked, so it is accepted. */
  lemma AcceptStep(s: Search, e: Edge, t: Search)
    requires s.Valid() && Advanced(s, e, t)
    requires e.parent in s.color && s.color[e.parent] == Black
    requires t.accepted == s.accepted + [e] && t.dropped == s.dropped
    ensures t.Valid()
  {
    AdvanceColoured(s, e, t);
    AdvanceLinked(s, e, t);
    AdvanceCounted(s, e, t);
    AdvanceJustified(s, e, t.(dropped := s.dropped));
    TopIsGray(s);
    assert t.RankedEdge(e);
    RankedUnchanged(s, t);
  }

  lemma TopIsGray(s: Search)
    requires s.Coloured() && s.stack != [] && s.Ranked()
    ensures var n := s.stack[|s.stack| - 1].node;
            n in s.pos && s.pos[n] == |s.stack| - 1 && n in s.color && s.color[n] == Gray && n !in s.finish
  {
  }

  /** The state just after the white parent of the top frame has been put on the stack. */
  ghost predicate Pushed(mid: Search, e: Edge, t: Search) {
    && t == mid.(stack := mid.stack + [Frame(e.parent, 0)],
                 color := mid.color[e.parent := Gray],
                 pos := mid.pos[e.parent := |mid.stack|])
  }

  lemma PushColoured(mid: Search, n: Label, t: Search)
    requires mid.Coloured() && n in mid.color && mid.color[n] == White
    requires t.edges == mid.edges && t.color == mid.color[n := Gray]
    requires t.stack == mid.stack + [Frame(n, 0)] && t.pos == mid.pos[n := |mid.stack|]
    ensures t.Coloured()
  {
    assert n !in mid.pos;
    assert t.color.Keys == mid.color.Keys;
  }

  lemma PushCounted(mid: Search, n: Label, t: Search)
    requires mid.Coloured() && mid.Counted() && n !in mid.pos && n !in mid.finish
    requires t == mid.(stack := mid.stack + [Frame(n, 0)], color := mid.color[n := Gray],
                       pos := mid.pos[n := |mid.stack|])
    ensures t.Counted()
  {
    forall m ensures t.CountedAt(m) {
      assert mid.CountedAt(m);
    }
  }

  lemma PushRanked(s: Search, n: Label, t: Search)
    requires s.Ranked() && s.Coloured() && n in s.color && s.color[n] == White
    requires t.color == s.color[n := Gray] && t.pos == s.pos[n := |s.stack|] && t.finish == s.finish
             && t.clock == s.clock
    requires forall e <- t.accepted :: e in s.accepted || t.RankedEdge(e)
    ensures t.Ranked()
  {
    forall e | e in t.accepted ensures t.RankedEdge(e) {
      if e in s.accepted {
        assert s.RankedEdge(e);
      }
    }
  }

  /** A white parent: the edge is accepted and the search goes up along it. */
  lemma PushStep(s: Search, e: Edge, mid: Search, t: Search)
    requires s.Valid() && Advanced(s, e, mid) && Pushed(mid, e, t)
    requires e.parent in s.color && s.color[e.parent] == White
    requires mid.accepted == s.accepted + [e] && mid.dropped == s.dropped
    ensures t.Valid()
    ensures t.Whites() < s.Whites()
  {
    AdvanceColoured(s, e, mid);
    AdvanceLinked(s, e, mid);
    AdvanceCounted(s, e, mid);
    AdvanceJustified(s, e, mid);
    PushColoured(mid, e.parent, t);
    PushCounted(mid, e.parent, t);
    TopIsGray(s);
    assert t.RankedEdge(e);
    PushRanked(s, e.parent, t);
    PushLinked(mid, e, t);
    assert e.parent in s.Whites() && e.parent !in t.Whites();
  }

  lemma PushLinked(mid: Search, e: Edge, t: Search)
    requires mid.Linked() && Pushed(mid, e, t)
    requires mid.stack != [] && mid.stack[|mid.stack| - 1].node == e.child && e in mid.accepted
    ensures t.Linked()
  {
    forall k | 0 < k < |t.stack|
      ensures Edge(t.stack[k - 1].node, t.stack[k].node) in t.accepted
    {
      if k < |mid.stack| {
        assert Edge(mid.stack[k - 1].node, mid.stack[k].node) in mid.accepted;
      }
    }
  }

  /** The state just after the top frame, with no parents left, has been taken off. */
  ghost predicate Popped(s: Search, t: Search) {
    && s.stack != []
    && var top := s.stack[|s.stack| - 1];
    && top.idx == |ParentsOf(s.edges, top.node)|
    && t == s.(stack := s.stack[..|s.stack| - 1], color := s.color[top.node := Black], pos := s.pos - {top.node},
               finish := s.finish[top.node := s.clock], clock := s.clock + 1)
  }

  lemma PopColoured(s: Search, t: Search)
    requires s.Coloured() && Popped(s, t)
    ensures t.Coloured()
  {
    var n := s.stack[|s.stack| - 1].node;
    assert t.color.Keys == s.color.Keys;
    forall k | 0 <= k < |t.stack| ensures t.stack[k].node in t.pos && t.pos[t.stack[k].node] == k {
      assert s.pos[s.stack[k].node] == k;
    }
  }

  lemma PopCounted(s: Search, t: Search)
    requires s.Coloured() && s.Counted() && Popped(s, t)
    ensures t.Counted()
  {
    forall m ensures t.CountedAt(m) {
      assert s.CountedAt(m);
    }
  }

  lemma PopRanked(s: Search, t: Search)
    requires s.Coloured() && s.Ranked() && Popped(s, t)
    ensures t.Ranked()
  {
    TopIsGray(s);
    forall e | e in t.accepted ensures t.RankedEdge(e) {
      assert s.RankedEdge(e);
    }
  }

  /** All parents looked at: the label is finished, later than everything it points at. */
  lemma PopStep(s: Search, t: Search)
    requires s.Valid() && Popped(s, t)
    ensures t.Valid()
    ensures t.Whites() == s.Whites()
  {
    PopColoured(s, t);
    PopCounted(s, t);
    PopRanked(s, t);
    TopIsGray(s);
    assert t.Linked() by {
      forall k | 0 < k < |t.stack| ensures Edge(t.stack[k - 1].node, t.stack[k].node) in t.accepted {
        assert Edge(s.stack[k - 1].node, s.stack[k].node) in s.accepted;
      }
    }
  }

  ghost predicate HasNext(s: Search) {
    && s.stack != []
    && var top := s.stack[|s.stack| - 1];
    && top.idx < |ParentsOf(s.edges, top.node)|
    && ParentsOf(s.edges, top.node)[top.idx] in s.color
  }

  /** The proof's account of one turn of the inner loop that looks at a parent. */
  ghost function Decide(s: Search): Search
    requires HasNext(s)
  {
    var top := s.stack[|s.stack| - 1];
    var e := Edge(top.node, ParentsOf(s.edges, top.node)[top.idx]);
    var next := s.(stack := s.stack[|s.stack| - 1 := Frame(top.node, top.idx + 1)], emitted := s.emitted + [e]);
    match s.color[e.parent]
    case Gray => next.(dropped := s.dropped + [e])
    case Black => next.(accepted := s.accepted + [e])
    case White => next.(accepted := s.accepted + [e], stack := next.stack + [Frame(e.parent, 0)],
                        color := s.color[e.parent := Gray], pos := s.pos[e.parent := |next.stack|])
  }

  /** The proof's account of one turn of the inner loop that takes a frame off. */
  ghost function Finish(s: Search): Search
    requires s.stack != []
  {
    var n := s.stack[|s.stack| - 1].node;
    s.(stack := s.stack[..|s.stack| - 1], color := s.color[n := Black], pos := s.pos - {n},
       finish := s.finish[n := s.clock], clock := s.clock + 1)
  }

  lemma DecideStep(s: Search)
    requires s.Sound() && s.stack != []
    requires s.stack[|s.stack| - 1].idx < |ParentsOf(s.edges, s.stack[|s.stack| - 1].node)|
    ensures HasNext(s)
    ensures Decide(s).Sound()
    ensures Decide(s).Whites() < s.Whites()
            || (Decide(s).Whites() == s.Whites() && |Decide(s).stack| == |s.stack|)
  {
    var top := s.stack[|s.stack| - 1];
    assert HasNext(s) by {
      assert Unfold(0);
      NodesOfParents(s.edges, top.node, top.idx);
    }
    match s.color[ParentsOf(s.edges, top.node)[top.idx]] {
      case Gray => DecideGray(s);
      case Black => DecideBlack(s);
      case White => DecideWhite(s);
    }
  }

  /** The edge of the parent that is looked at next. */
  function NextEdge(s: Search): Edge
    requires HasNext(s)
  {
    var top := s.stack[|s.stack| - 1];
    Edge(top.node, ParentsOf(s.edges, top.node)[top.idx])
  }

  lemma DecideGray(s: Search)
    requires s.Sound() && HasNext(s) && s.color[NextEdge(s).parent] == Gray
    ensures Decide(s).Sound() && Decide(s).Whites() == s.Whites() && |Decide(s).stack| == |s.stack|
  {
    assert Unfold(0);
    DropStep(s, NextEdge(s), Decide(s));
  }

  lemma DecideBlack(s: Search)
    requires s.Sound() && HasNext(s) && s.color[NextEdge(s).parent] == Black
    ensures Decide(s).Sound() && Decide(s).Whites() == s.Whites() && |Decide(s).stack| == |s.stack|
  {
    assert Unfold(0);
    AcceptStep(s, NextEdge(s), Decide(s));
  }

  /** The state between accepting an edge and moving on to its parent. */
  ghost function Accepting(s: Search): Search
    requires HasNext(s)
  {
    var e, top := NextEdge(s), s.stack[|s.stack| - 1];
    s.(stack := s.stack[|s.stack| - 1 := Frame(top.node, top.idx + 1)],
       emitted := s.emitted + [e], accepted := s.accepted + [e])
  }

  lemma WhiteShape(s: Search)
    requires HasNext(s) && s.color[NextEdge(s).parent] == White
    ensures Advanced(s, NextEdge(s), Accepting(s)) && Pushed(Accepting(s), NextEdge(s), Decide(s))
  {
  }

  lemma DecideWhite(s: Search)
    requires s.Sound() && HasNext(s) && s.color[NextEdge(s).parent] == White
    ensures Decide(s).Sound() && Decide(s).Whites() < s.Whites()
  {
    WhiteShape(s);
    KeepPushing(s, NextEdge(s), Accepting(s), Decide(s));
  }

  lemma KeepPushing(s: Search, e: Edge, mid: Search, t: Search)
    requires s.Sound() && Advanced(s, e, mid) && Pushed(mid, e, t)
    requires e.parent in s.color && s.color[e.parent] == White
    requires mid.accepted == s.accepted + [e] && mid.dropped == s.dropped
    ensures t.Sound() && t.Whites() < s.Whites()
  {
    assert Unfold(0);
    PushStep(s, e, mid, t);
  }

  lemma FinishStep(s: Search)
    requires s.Sound() && s.stack != []
    requires s.stack[|s.stack| - 1].idx == |ParentsOf(s.edges, s.stack[|s.stack| - 1].node)|
    ensures Finish(s).Sound() && Finish(s).Whites() == s.Whites()
  {
    assert Unfold(0);
    PopStep(s, Finish(s));
  }

  /** Starting the search at a white label, with an empty stack. */
  lemma StartStep(s: Search, start: Label, t: Search)
    requires s.Sound() && s.stack == [] && start in s.color && s.color[start] == White
    requires t == s.(stack := [Frame(start, 0)], color := s.color[start := Gray], pos := map[start := 0])
    ensures t.Sound()
    ensures t.Whites() < s.Whites()
  {
    assert Unfold(0);
    assert s.pos == map[];
    assert t.stack == s.stack + [Frame(start, 0)] && t.pos == s.pos[start := |s.stack|];
    PushColoured(s, start, t);
    PushCounted(s, start, t);
    PushRanked(s, start, t);
    assert start in s.Whites() && start !in t.Whites();
  }

  /** What holds when every label has been finished. */
  lemma Finished(s: Search)
    requires s.Sound() && s.stack == []
    requires forall n :: n in s.color ==> s.color[n] != White
    ensures multiset(s.accepted) + multiset(s.dropped) == multiset(s.edges)
    ensures Acyclic(s.accepted)
    ensures forall e <- s.dropped :: Reaches(s.accepted, e.parent, e.child)
  {
    assert Unfold(0);
    forall c ensures ParentsOf(s.emitted, c) == ParentsOf(s.edges, c) {
      assert s.CountedAt(c);
      if c !in s.color {
        NoParentsOutside(s.edges, c);
      }
    }
    SameParentsSameEdges(s.emitted, s.edges);
    forall e | e in s.accepted
      ensures e.child in s.finish && e.parent in s.finish && s.finish[e.parent] < s.finish[e.child]
    {
      assert e in multiset(s.accepted);
      assert e in multiset(s.edges);
      assert e in s.edges && e.child in Nodes(s.edges);
      assert e.child in s.color && s.color[e.child] == Black;
    }
    RankedIsAcyclic(s.accepted, s.finish);
  }

  /** Dropping nothing is the same as the input having been acyclic. */
  lemma DropsNothingIffAcyclic(edges: seq<Edge>, accepted: seq<Edge>, dropped: seq<Edge>)
    requires multiset(accepted) + multiset(dropped) == multiset(edges)
    requires Acyclic(accepted)
    requires forall e <- dropped :: Reaches(accepted, e.parent, e.child)
    ensures dropped == [] <==> Acyclic(edges)
  {
    forall e | e in accepted ensures e in edges {
      assert e in multiset(accepted);
      assert e in multiset(edges);
    }
    if dropped != [] {
      var e := dropped[0];
      assert e in multiset(dropped);
      assert e in multiset(edges);
      ReachesMonotone(accepted, edges, e.parent, e.child);
      assert !Acyclic(edges);
    } else {
      forall e | e in edges ensures !Reaches(edges, e.parent, e.child) {
        assert e in multiset(edges);
        assert e in multiset(accepted);
        if Reaches(edges, e.parent, e.child) {
          forall d | d in edges ensures d in accepted {
            assert d in multiset(edges);
            assert d in multiset(accepted);
          }
          ReachesMonotone(edges, accepted, e.parent, e.child);
        }
      }
    }
  }

  // ----- The algorithm

  method BuildAdjacency(edges: seq<Edge>) returns (adj: map<Label, seq<Label>>, nodes: set<Label>)
    ensures nodes == Nodes(edges)
    ensures forall c :: ParentsOf(edges, c) == Lookup(adj, c)
  {
    adj, nodes := map[], {};
    for i := 0 to |edges|
      invariant nodes == Nodes(edges[..i])
      invariant forall c :: ParentsOf(edges[..i], c) == Lookup(adj, c)
    {
      var e := edges[i];
      assert edges[..i + 1] == edges[..i] + [e];
      ghost var was := adj;
      adj := adj[e.child := Lookup(adj, e.child) + [e.parent]];
      nodes := nodes + {e.child, e.parent};
      forall c ensures ParentsOf(edges[..i + 1], c) == Lookup(adj, c) {
        ParentsOfSnoc(edges[..i], e, c);
        assert ParentsOf(edges[..i], c) == Lookup(was, c);
      }
    }
    assert edges[..|edges|] == edges;
  }

  function Lookup(adj: map<Label, seq<Label>>, c: Label): seq<Label> {
    if c in adj then adj[c] else []
  }

  lemma EmptySearchIsValid(edges: seq<Edge>, color: map<Label, Color>)
    requires color.Keys == Nodes(edges) && forall n :: n in color ==> color[n] == White
    ensures Search(edges, color, [], map[], [], [], [], map[], 0).Sound()
  {
    assert Search(edges, color, [], map[], [], [], [], map[], 0).Valid();
  }

  /** Splits `edges` into an acyclic part and the edges that would close a cycle. The
      start labels are picked from a set, in any order. */
  method BreakCycles(edges: seq<Edge>) returns (accepted: seq<Edge>, dropped: seq<Edge>)
    ensures multiset(accepted) + multiset(dropped) == multiset(edges)
    ensures Acyclic(accepted)
    ensures forall e <- dropped :: Reaches(accepted, e.parent, e.child)
    ensures dropped == [] <==> Acyclic(edges)
  {
    var adj, nodes := BuildAdjacency(edges);
    var color := map n | n in nodes :: White;
    accepted, dropped := [], [];
    ghost var s := Search(edges, color, [], map[], [], [], [], map[], 0);
    EmptySearchIsValid(edges, color);
    var starts := nodes;
    while starts != {}
      invariant starts <= nodes == Nodes(edges) == color.Keys
      invariant s.Shows(edges, color, [], accepted, dropped) && s.Sound()
      invariant forall n :: n in nodes - starts ==> color[n] != White
    {
      var start :| start in starts;
      starts := starts - {start};
      if color[start] == White {
        color := color[start := Gray];
        var stack := [Frame(start, 0)];
        ghost var begun := s.(stack := stack, color := color, pos := map[start := 0]);
        StartStep(s, start, begun);
        color, accepted, dropped, s := Explore(edges, adj, color, stack, accepted, dropped, begun);
      }
    }
    Finished(s);
    DropsNothingIffAcyclic(edges, accepted, dropped);
  }

  /** The inner loop: works the stack off, starting from one gray label. */
  method Explore(edges: seq<Edge>, adj: map<Label, seq<Label>>, color0: map<Label, Color>, stack0: seq<Frame>,
                 accepted0: seq<Edge>, dropped0: seq<Edge>, ghost s0: Search)
    returns (color: map<Label, Color>, accepted: seq<Edge>, dropped: seq<Edge>, ghost s: Search)
    requires forall c :: ParentsOf(edges, c) == Lookup(adj, c)
    requires s0.Shows(edges, color0, stack0, accepted0, dropped0) && s0.Sound()
    ensures s.Shows(edges, color, [], accepted, dropped) && s.Sound()
    ensures color.Keys == color0.Keys && forall n :: n in color0 && color0[n] != White ==> color[n] != White
  {
    color, accepted, dropped, s := color0, accepted0, dropped0, s0;
    var stack := stack0;
    while stack != []
      invariant s.Shows(edges, color, stack, accepted, dropped) && s.Sound()
      invariant color.Keys == color0.Keys && forall n :: n in color0 && color0[n] != White ==> color[n] != White
      decreases s.Whites(), |stack|, Remaining(edges, stack)
    {
      var Frame(node, idx) := stack[|stack| - 1];
      var parents := Lookup(adj, node);
      assert parents == ParentsOf(edges, node);
      TopIsInRange(s);
      if idx < |parents| {
        DecideStep(s);
        s := Decide(s);
        var parent := parents[idx];
        stack := stack[|stack| - 1 := Frame(node, idx + 1)];
        if color[parent] == Gray {
          dropped := dropped + [Edge(node, parent)];
        } else if color[parent] == White {
          accepted := accepted + [Edge(node, parent)];
          color := color[parent := Gray];
          stack := stack + [Frame(parent, 0)];
        } else {
          accepted := accepted + [Edge(node, parent)];
        }
      } else {
        FinishStep(s);
        s := Finish(s);
        color := color[node := Black];
        stack := stack[..|stack| - 1];
      }
    }
  }

  ghost function Remaining(edges: seq<Edge>, stack: seq<Frame>): int {
    if stack == [] then 0
    else |ParentsOf(edges, stack[|stack| - 1].node)| - stack[|stack| - 1].idx
  }

  lemma TopIsInRange(s: Search)
    requires s.Sound() && s.stack != []
    ensures var top := s.stack[|s.stack| - 1]; top.idx <= |ParentsOf(s.edges, top.node)| && top.node in s.color
  {
    assert Unfold(0);
    assert s.CountedAt(s.stack[|s.stack| - 1].node);
  }
}
