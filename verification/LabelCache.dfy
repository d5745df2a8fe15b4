/** The label part of the cache rebuild: label rows, implicit parents, the stored edges and their
    primary key. */
module LabelCache {
  import opened LabelDag

  /** One entry of the labels configuration. Entries are listed in order, with distinct ids. */
  datatype LabelDef = LabelDef(id: Label, parents: seq<Label>)

  /** A row of the label table. */
  datatype LabelRow = LabelRow(isImplicit: bool)

  function EdgesOf(def: LabelDef): seq<Edge> {
    seq(|def.parents|, i requires 0 <= i < |def.parents| => Edge(def.id, def.parents[i]))
  }

  function AllEdges(config: seq<LabelDef>): seq<Edge> {
    if config == [] then [] else AllEdges(config[..|config| - 1]) + EdgesOf(config[|config| - 1])
  }

  ghost predicate Configured(config: seq<LabelDef>, l: Label) {
    exists d <- config :: d.id == l
  }

  lemma {:induction false} AllEdgesMembers(config: seq<LabelDef>, e: Edge)
    ensures e in AllEdges(config) <==> exists d <- config :: d.id == e.child && e.parent in d.parents
  {
    if config != [] {
      var front, last := config[..|config| - 1], config[|config| - 1];
      assert config == front + [last];
      AllEdgesMembers(front, e);
      if last.id == e.child && e.parent in last.parents {
        var i :| 0 <= i < |last.parents| && last.parents[i] == e.parent;
        assert EdgesOf(last)[i] == e;
      }
    }
  }

  /** An edge of an acyclic list never joins a label to itself. */
  lemma NoSelfLoops(edges: seq<Edge>)
    requires Acyclic(edges)
    ensures forall e <- edges :: e.child != e.parent
  {
    forall e | e in edges ensures e.child != e.parent {
      assert IsPath(edges, [e.parent]);
    }
  }

  // ----- The primary key of the edge table

  predicate Distinct(edges: seq<Edge>) {
    forall i, j :: 0 <= i < j < |edges| ==> edges[i] != edges[j]
  }

  lemma {:induction false} DistinctIffOnce(edges: seq<Edge>)
    ensures Distinct(edges) <==> forall e <- edges :: multiset(edges)[e] == 1
  {
    if edges != [] {
      var front, last := edges[..|edges| - 1], edges[|edges| - 1];
      assert edges == front + [last];
      DistinctIffOnce(front);
      assert last in front <==> multiset(front)[last] > 0;
      if Distinct(edges) {
        assert last !in front;
      } else if Distinct(front) {
        assert last in front;
        assert multiset(edges)[last] > 1;
      } else {
        var e :| e in front && multiset(front)[e] != 1;
        assert e in edges && multiset(edges)[e] > 1;
      }
    }
  }

  lemma {:induction false} MorePathsWithMoreEdges(few: seq<Edge>, many: seq<Edge>, a: Label, b: Label)
    requires forall e <- few :: e in many
    requires Reaches(few, a, b)
    ensures Reaches(many, a, b)
  {
    var path :| IsPath(few, path) && path[0] == a && path[|path| - 1] == b;
    assert IsPath(many, path);
  }

  /** `edges` split into accepted ones without a cycle and dropped ones that close one. */
  ghost predicate IsSplit(edges: seq<Edge>, accepted: seq<Edge>, dropped: seq<Edge>) {
    && multiset(accepted) + multiset(dropped) == multiset(edges)
    && Acyclic(accepted)
    && forall e <- dropped :: Reaches(accepted, e.parent, e.child)
  }

  /** The copies of one edge share their fate, and an edge on no cycle is accepted. */
  lemma CopiesStayTogether(edges: seq<Edge>, accepted: seq<Edge>, dropped: seq<Edge>, e: Edge)
    requires IsSplit(edges, accepted, dropped) && e in edges
    ensures multiset(accepted)[e] == if e in dropped then 0 else multiset(edges)[e]
    ensures !Reaches(edges, e.parent, e.child) ==> e in accepted
  {
    assert e in multiset(edges);
    assert e in dropped <==> multiset(dropped)[e] > 0;
    assert e in accepted <==> multiset(accepted)[e] > 0;
    if e in dropped {
      assert Reaches(accepted, e.parent, e.child);
      forall d | d in accepted ensures d in edges {
        assert d in multiset(accepted);
        assert d in multiset(edges);
      }
      MorePathsWithMoreEdges(accepted, edges, e.parent, e.child);
    }
  }

  /** The accepted edges can all be stored exactly if each one was listed once. */
  lemma StorableIff(edges: seq<Edge>, accepted: seq<Edge>, dropped: seq<Edge>)
    requires IsSplit(edges, accepted, dropped)
    ensures Distinct(accepted) <==> forall e <- edges :: multiset(edges)[e] > 1 ==> e in dropped
  {
    DistinctIffOnce(accepted);
    forall e | e in edges
      ensures e !in dropped ==> e in accepted && multiset(accepted)[e] == multiset(edges)[e]
      ensures e in dropped ==> e !in accepted
    {
      CopiesStayTogether(edges, accepted, dropped, e);
      assert e in multiset(edges);
      assert e in accepted <==> multiset(accepted)[e] > 0;
    }
    forall e | e in accepted ensures e in edges {
      assert e in multiset(accepted);
      assert e in multiset(edges);
    }
  }

  /** An edge that is listed twice and lies on no cycle makes the rebuild fail in every order
      of the search. */
  lemma RepeatedEdgeIsAccepted(edges: seq<Edge>, accepted: seq<Edge>, dropped: seq<Edge>, e: Edge)
    requires IsSplit(edges, accepted, dropped)
    requires multiset(edges)[e] > 1 && !Reaches(edges, e.parent, e.child)
    ensures !Distinct(accepted)
  {
    assert e in multiset(edges);
    assert e in edges;
    CopiesStayTogether(edges, accepted, dropped, e);
    StorableIff(edges, accepted, dropped);
    assert e in accepted <==> multiset(accepted)[e] > 0;
  }

  /** The real input: one label whose configuration names the same parent in `parent` and in
      `parents`. */
  lemma ParentNamedTwice(child: Label, parent: Label, accepted: seq<Edge>, dropped: seq<Edge>)
    requires child != parent
    requires IsSplit(AllEdges([LabelDef(child, [parent, parent])]), accepted, dropped)
    ensures !Distinct(accepted)
  {
    var def, e := LabelDef(child, [parent, parent]), Edge(child, parent);
    assert EdgesOf(def) == [e, e];
    assert [def][..0] == [];
    assert AllEdges([def]) == [] + EdgesOf(def) == [e, e];
    OnlyOneEdgeUp([e, e], e);
    RepeatedEdgeIsAccepted([e, e], accepted, dropped, e);
  }

  lemma OnlyOneEdgeUp(edges: seq<Edge>, e: Edge)
    requires e.child != e.parent && forall d <- edges :: d == e
    ensures !Reaches(edges, e.parent, e.child)
  {
    forall path | IsPath(edges, path) && |path| > 1 ensures path[0] == e.child {
      assert Edge(path[0], path[1]) in edges;
    }
  }

  // ----- The rebuild

  /** The label table and the edge table. */
  datatype Tables = Tables(labels: map<Label, LabelRow>, edges: seq<Edge>)

  /** Adds the edges one by one. A second row of the same key is refused. */
  method StoreEdges(edges: seq<Edge>) returns (ok: bool, stored: seq<Edge>)
    ensures ok <==> Distinct(edges)
    ensures ok ==> stored == edges
  {
    ok, stored := true, [];
    for i := 0 to |edges|
      invariant stored == edges[..i] && Distinct(stored)
    {
      if edges[i] in stored {
        ok := false;
        return;
      }
      stored := stored + [edges[i]];
    }
  }

  /** Rebuilds the two tables from the configuration in one transaction, which is given up
      when an edge cannot be stored: exactly if an edge that is listed twice is accepted. A
      rebuild that succeeds stores each configured edge or reports it as dropped; the stored
      edges join different rows and have no cycle. */
  method RebuildLabels(before: Tables, config: seq<LabelDef>)
    returns (ok: bool, tables: Tables, warned: seq<Edge>)
    ensures ok <==> forall e <- AllEdges(config) :: multiset(AllEdges(config))[e] > 1 ==> e in warned
    ensures !ok ==> tables == before
    ensures ok ==> forall l :: l in tables.labels <==> Configured(config, l) || l in ParentSet(AllEdges(config))
    ensures ok ==> forall l :: l in tables.labels ==> (tables.labels[l].isImplicit <==> !Configured(config, l))
    ensures ok ==> IsSplit(AllEdges(config), tables.edges, warned) && Distinct(tables.edges)
    ensures ok ==> forall e <- tables.edges ::
              e.child != e.parent && e.child in tables.labels && e.parent in tables.labels
    ensures warned == [] <==> Acyclic(AllEdges(config))
    ensures !ok <== exists e <- AllEdges(config) ::
              multiset(AllEdges(config))[e] > 1 && !Reaches(AllEdges(config), e.parent, e.child)
  {
    var rows := AddConfigured(config);
    var allEdges: seq<Edge>;
    rows, allEdges := AddParents(config, rows);
    var accepted, dropped := BreakCycles(allEdges);
    StorableIff(allEdges, accepted, dropped);
    forall e | e in allEdges && multiset(allEdges)[e] > 1 && !Reaches(allEdges, e.parent, e.child)
      ensures !Distinct(accepted)
    {
      RepeatedEdgeIsAccepted(allEdges, accepted, dropped, e);
    }
    NoSelfLoops(accepted);
    EndsHaveRows(config, accepted, dropped);
    warned := dropped;
    var stored: seq<Edge>;
    ok, stored := StoreEdges(accepted);
    tables := if ok then Tables(rows, stored) else before;
  }

  lemma EndsHaveRows(config: seq<LabelDef>, accepted: seq<Edge>, dropped: seq<Edge>)
    requires IsSplit(AllEdges(config), accepted, dropped)
    ensures forall e <- accepted :: Configured(config, e.child) && e.parent in ParentSet(AllEdges(config))
  {
    forall e | e in accepted ensures Configured(config, e.child) && e.parent in ParentSet(AllEdges(config)) {
      assert e in multiset(accepted);
      assert e in multiset(AllEdges(config));
      assert e in AllEdges(config);
      AllEdgesMembers(config, e);
    }
  }

  /** Makes a row for each label of the configuration. */
  method AddConfigured(config: seq<LabelDef>) returns (rows: map<Label, LabelRow>)
    ensures forall l :: l in rows <==> Configured(config, l)
    ensures forall l :: l in rows ==> !rows[l].isImplicit
  {
    rows := map[];
    for i := 0 to |config|
      invariant forall l :: l in rows <==> Configured(config[..i], l)
      invariant forall l :: l in rows ==> !rows[l].isImplicit
    {
      assert config[..i + 1] == config[..i] + [config[i]];
      rows := rows[config[i].id := LabelRow(false)];
    }
    assert config[..|config|] == config;
  }

  function ParentSet(edges: seq<Edge>): set<Label> {
    set e <- edges :: e.parent
  }

  lemma ParentSetSnoc(edges: seq<Edge>, e: Edge)
    ensures ParentSet(edges + [e]) == ParentSet(edges) + {e.parent}
  {
    assert (edges + [e])[|edges|] == e;
    forall p | p in ParentSet(edges) ensures p in ParentSet(edges + [e]) {
      var d :| d in edges && d.parent == p;
      assert d in edges + [e];
    }
  }

  /** The parents seen so far have rows, which are implicit unless they were there before. */
  ghost predicate HasParents(rows0: map<Label, LabelRow>, rows: map<Label, LabelRow>, edges: seq<Edge>) {
    && rows.Keys == rows0.Keys + ParentSet(edges)
    && forall l :: l in rows ==> (rows[l].isImplicit <==> l !in rows0)
  }

  lemma OneMoreParent(rows0: map<Label, LabelRow>, rows: map<Label, LabelRow>, edges: seq<Edge>, e: Edge)
    requires HasParents(rows0, rows, edges)
    ensures HasParents(rows0, if e.parent in rows then rows else rows[e.parent := LabelRow(true)], edges + [e])
  {
    ParentSetSnoc(edges, e);
  }

  /** The rows made for undefined parents are those that were not there before. */
  ghost predicate Tracks(rows0: map<Label, LabelRow>, rows: map<Label, LabelRow>, implicitCreated: set<Label>) {
    rows0.Keys <= rows.Keys && implicitCreated == rows.Keys - rows0.Keys
  }

  /** The parents of one definition. */
  method AddParentsOf(def: LabelDef, rows0: map<Label, LabelRow>, before: map<Label, LabelRow>,
                      created: set<Label>, edges: seq<Edge>)
    returns (rows: map<Label, LabelRow>, implicitCreated: set<Label>, allEdges: seq<Edge>)
    requires HasParents(rows0, before, edges) && Tracks(rows0, before, created)
    ensures allEdges == edges + EdgesOf(def)
    ensures HasParents(rows0, rows, allEdges) && Tracks(rows0, rows, implicitCreated)
  {
    rows, implicitCreated, allEdges := before, created, edges;
    for j := 0 to |def.parents|
      invariant allEdges == edges + EdgesOf(def)[..j]
      invariant HasParents(rows0, rows, allEdges) && Tracks(rows0, rows, implicitCreated)
    {
      var parent := def.parents[j];
      OneMoreParent(rows0, rows, allEdges, Edge(def.id, parent));
      if parent !in rows0 && parent !in implicitCreated {
        rows := rows[parent := LabelRow(true)];
        implicitCreated := implicitCreated + {parent};
      }
      assert EdgesOf(def)[..j + 1] == EdgesOf(def)[..j] + [Edge(def.id, parent)];
      allEdges := allEdges + [Edge(def.id, parent)];
    }
    assert EdgesOf(def)[..|def.parents|] == EdgesOf(def);
  }

  /** Collects the edges and makes a row for each parent that has no definition. */
  method AddParents(config: seq<LabelDef>, rows0: map<Label, LabelRow>)
    returns (rows: map<Label, LabelRow>, allEdges: seq<Edge>)
    requires forall l :: l in rows0 ==> !rows0[l].isImplicit
    ensures allEdges == AllEdges(config)
    ensures HasParents(rows0, rows, allEdges)
  {
    rows, allEdges := rows0, [];
    var implicitCreated: set<Label> := {};
    for i := 0 to |config|
      invariant allEdges == AllEdges(config[..i])
      invariant HasParents(rows0, rows, allEdges) && Tracks(rows0, rows, implicitCreated)
    {
      assert config[..i + 1][..i] == config[..i];
      rows, implicitCreated, allEdges := AddParentsOf(config[i], rows0, rows, implicitCreated, allEdges);
    }
    assert config[..|config|] == config;
  }
}
