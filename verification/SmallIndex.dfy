/**
 Small indexes: as long as no node can have more links than the bottom layer keeps, nothing is
 pruned there, its edges stay symmetric and it stays connected. A wide search of such an index
 is a scan of all of it, whatever was inserted and at whatever levels.
 */
module SmallIndex {
  import opened Basics
  import opened Ranking
  import opened LayerGraph
  import opened LayerSearch
  import opened VectorIndex

  /** At the bottom layer every edge has its counterpart and every node reaches every other. */
  ghost predicate Meshed(nodes: Graph) {
    && (forall a, b :: a in Edges(nodes, 0, b) ==> b in Edges(nodes, 0, a))
    && (forall a, b | a in nodes && b in nodes :: Reaches(nodes, 0, a, b))
  }

  lemma ReachesOn(nodes: Graph, layer: nat, a: string, b: string, c: string)
    requires Reaches(nodes, layer, a, b) && Reaches(nodes, layer, b, c)
    ensures Reaches(nodes, layer, a, c)
  {
    var p :| IsPath(nodes, layer, p) && p[0] == a && p[|p| - 1] == b;
    var q :| IsPath(nodes, layer, q) && q[0] == b && q[|q| - 1] == c;
    var both := p + q[1..];
    hide Edges;
    forall i | 0 < i < |both| ensures both[i] in Edges(nodes, layer, both[i - 1]) {
      if i >= |p| { assert both[i] == q[i - |p| + 1] && both[i - 1] == q[i - |p|]; }
    }
    assert IsPath(nodes, layer, both);
    assert both[0] == a && both[|both| - 1] == c;
  }

  /** Reaching survives more nodes and more edges. */
  lemma ReachesInLarger(nodes: Graph, larger: Graph, layer: nat, a: string, b: string)
    requires nodes.Keys <= larger.Keys && forall n | n in nodes :: Edges(nodes, layer, n) <= Edges(larger, layer, n)
    requires Reaches(nodes, layer, a, b)
    ensures Reaches(larger, layer, a, b)
  {
    hide Edges;
    var path :| IsPath(nodes, layer, path) && path[0] == a && path[|path| - 1] == b;
    assert IsPath(larger, layer, path);
  }

  // ----- one insertion -----

  /** The new node is linked both ways to some nodes, and the old edges are all still there. */
  ghost predicate LinkedBothWays(smaller: Graph, after: Graph, id: string, chosen: set<string>) {
    && after.Keys == smaller.Keys + {id} && id !in smaller && chosen <= smaller.Keys && Edges(after, 0, id) == chosen
    && (forall n | n in chosen :: Edges(after, 0, n) == Edges(smaller, 0, n) + {id})
    && (forall n | n in smaller && n !in chosen :: Edges(after, 0, n) == Edges(smaller, 0, n))
  }

  lemma PruneNothing(before: Graph, after: Graph, sim: Similarity, M: nat, id: string, n: string)
    requires GraphOk(before, M) && id in before && n in before && n != id && |before| <= 2 * M + 1
    requires LinkedBack(before, after, sim, M, 0, id, n)
    ensures Edges(after, 0, n) == Edges(before, 0, n) + {id}
  {
    var links, kept := Edges(before, 0, n) + {id}, Edges(after, 0, n);
    assert EdgesOk(before, M, n, 0);
    assert links <= before.Keys - {n};
    SubsetSize(links, before.Keys - {n});
    assert |before.Keys - {n}| == |before.Keys| - 1;
    assert |kept| == |links|;
    SameSizeSubset(kept, links);
  }

  lemma InsertLinksBothWays(smaller: Graph, before: Graph, after: Graph, sim: Similarity, M: nat, ef: int, id: string,
                            start: string, next: string)
    requires GraphOk(before, M) && GraphOk(after, M) && before.Keys == after.Keys
    requires IsExtended(smaller, before, id)
    requires |before| <= 2 * M + 1 && M >= 1
    requires LayerInserted(before, after, sim, M, ef, 0, id, start, next)
    ensures Edges(after, 0, id) != {} && LinkedBothWays(smaller, after, id, Edges(after, 0, id))
  {
    hide *;
    var chosen := Edges(after, 0, id);
    SomeChosen(before, after, sim, M, ef, id, start, next);
    ChosenAreStored(after, M, id);
    ExtendedEdges(smaller, before, id);
    LinkedParts(before, after, sim, M, ef, id, start, next);
    forall n | n in chosen ensures Edges(after, 0, n) == Edges(before, 0, n) + {id} {
      PruneNothing(before, after, sim, M, id, n);
    }
    BothWays(smaller, before, after, id, chosen);
  }

  /** The graph with a new node that nothing is linked to yet. */
  ghost predicate IsExtended(smaller: Graph, before: Graph, id: string) {
    id !in smaller && id in before && before == smaller[id := before[id]]
  }

  lemma ExtendedEdges(smaller: Graph, before: Graph, id: string)
    requires IsExtended(smaller, before, id)
    ensures before.Keys == smaller.Keys + {id} && id !in smaller
    ensures forall n | n in smaller :: Edges(before, 0, n) == Edges(smaller, 0, n)
  {
  }

  lemma LinkedParts(before: Graph, after: Graph, sim: Similarity, M: nat, ef: int, id: string, start: string,
                    next: string)
    requires LayerInserted(before, after, sim, M, ef, 0, id, start, next)
    ensures forall n | n in Edges(after, 0, id) :: LinkedBack(before, after, sim, M, 0, id, n)
    ensures forall n | n in before && n != id && n !in Edges(after, 0, id) :: Edges(after, 0, n) == Edges(before, 0, n)
  {
    hide LinkedBack, ChosenBySearch, Edges;
  }

  lemma BothWays(smaller: Graph, before: Graph, after: Graph, id: string, chosen: set<string>)
    requires before.Keys == after.Keys && before.Keys == smaller.Keys + {id} && id !in smaller
    requires chosen == Edges(after, 0, id) && chosen <= after.Keys - {id}
    requires forall n | n in smaller :: Edges(before, 0, n) == Edges(smaller, 0, n)
    requires forall n | n in chosen :: Edges(after, 0, n) == Edges(before, 0, n) + {id}
    requires forall n | n in before && n != id && n !in chosen :: Edges(after, 0, n) == Edges(before, 0, n)
    ensures LinkedBothWays(smaller, after, id, chosen)
  {
    hide Edges;
  }

  lemma ChosenAreStored(after: Graph, M: nat, id: string)
    requires GraphOk(after, M)
    ensures Edges(after, 0, id) <= after.Keys - {id}
  {
    if id in after { assert EdgesOk(after, M, id, 0); }
  }

  lemma SomeChosen(before: Graph, after: Graph, sim: Similarity, M: nat, ef: int, id: string, start: string,
                   next: string)
    requires LayerInserted(before, after, sim, M, ef, 0, id, start, next) && M >= 1
    ensures next in Edges(after, 0, id)
  {
    hide Linked, IsSearchResult;
    var chosen := Edges(after, 0, id);
    var found: seq<Hit>, visited :| ChosenBySearch(before, sim, M, ef, 0, id, chosen, start, found, visited)
      && found != [] && found[0].id == next;
    var kept := found[..Min(MaxDegree(M, 0), |found|)];
    assert kept[0].id in Ids(kept);
  }

  lemma MeshGrows(smaller: Graph, after: Graph, id: string, chosen: set<string>)
    requires Meshed(smaller) && LinkedBothWays(smaller, after, id, chosen) && chosen != {}
    ensures Meshed(after)
  {
    var link :| link in chosen;
    MeshStaysSymmetric(smaller, after, id, chosen);
    assert forall n | n in smaller :: Edges(smaller, 0, n) <= Edges(after, 0, n);
    assert link in Edges(after, 0, id) && id in Edges(after, 0, link);
    hide Edges;
    forall a, b | a in after && b in after ensures Reaches(after, 0, a, b) {
      ReachesItself(after, 0, a);
      if a != id {
        ReachesInLarger(smaller, after, 0, a, link);
      } else {
        ReachesStep(after, 0, a, a, link);
      }
      ReachesItself(after, 0, link);
      if b != id {
        ReachesInLarger(smaller, after, 0, link, b);
      } else {
        ReachesStep(after, 0, link, link, b);
      }
      ReachesOn(after, 0, a, link, b);
    }
  }

  lemma MeshStaysSymmetric(smaller: Graph, after: Graph, id: string, chosen: set<string>)
    requires Meshed(smaller) && LinkedBothWays(smaller, after, id, chosen)
    ensures forall a, b :: a in Edges(after, 0, b) ==> b in Edges(after, 0, a)
  {
    hide Reaches;
    assert Edges(smaller, 0, id) == {};
    forall b, n | n in Edges(smaller, 0, b) ensures b in smaller && n in smaller {
      assert b in Edges(smaller, 0, n);
    }
    assert forall b | b !in after :: Edges(after, 0, b) == {};
    hide Edges;
    forall a, b | a in Edges(after, 0, b) ensures b in Edges(after, 0, a) {
      if b == id {
        assert a in chosen;
      } else if a == id {
        assert b in chosen;
      } else {
        assert a in Edges(smaller, 0, b);
      }
    }
  }

  // ----- runs -----

  datatype Action = Insert(id: string, vector: Vector, level: nat) | Clear

  ghost predicate IsStep(s: Index, a: Action, t: Index, sim: Similarity, M: nat, ef: int) {
    match a
    case Insert(id, vector, level) => exists trail, starts ::
      IsInsertStep(s, t, sim, M, ef, id, vector, level, trail, starts)
    case Clear => t == EMPTY_INDEX
  }

  /** The states of an index from empty on. */
  ghost predicate IsRun(states: seq<Index>, actions: seq<Action>, sim: Similarity, M: nat, ef: int) {
    && |states| == |actions| + 1 && states[0] == EMPTY_INDEX
    && forall i | 0 <= i < |actions| :: IsStep(states[i], actions[i], states[i + 1], sim, M, ef)
  }

  ghost predicate SmallOk(s: Index, M: nat) {
    IndexOk(s, M) && (|s.nodes| <= 2 * M + 1 ==> Meshed(s.nodes))
  }

  lemma EmptyIsSmall(M: nat)
    ensures SmallOk(EMPTY_INDEX, M)
  {
  }

  lemma FirstIsMeshed(nodes: Graph, id: string, node: Node, M: nat)
    requires GraphOk(nodes, M) && nodes.Keys == {id}
    ensures Meshed(nodes)
  {
    ReachesItself(nodes, 0, id);
    forall b ensures Edges(nodes, 0, b) == {} {
      if b in nodes { assert EdgesOk(nodes, M, b, 0); }
    }
  }

  lemma UpdateKeepsMesh(nodes: Graph, updated: Graph)
    requires Meshed(nodes) && nodes.Keys == updated.Keys && forall n :: Edges(updated, 0, n) == Edges(nodes, 0, n)
    ensures Meshed(updated)
  {
    hide Edges;
    forall a, b | a in updated && b in updated ensures Reaches(updated, 0, a, b) {
      ReachesInLarger(nodes, updated, 0, a, b);
    }
  }

  lemma InsertKeepsSmall(s: Index, t: Index, sim: Similarity, M: nat, ef: int, id: string, vector: Vector, level: nat,
                         trail: seq<string>, starts: map<int, string>)
    requires SmallOk(s, M) && IsInsertStep(s, t, sim, M, ef, id, vector, level, trail, starts)
    ensures SmallOk(t, M)
  {
    hide IndexOk, Meshed, Reaches;
    if |t.nodes| <= 2 * M + 1 {
      if id in s.nodes {
        UpdateKeepsMesh(s.nodes, t.nodes);
      } else {
        NewKeepsMesh(s, t, sim, M, ef, id, vector, level, trail, starts);
      }
    }
  }

  lemma NewKeepsMesh(s: Index, t: Index, sim: Similarity, M: nat, ef: int, id: string, vector: Vector, level: nat,
                     trail: seq<string>, starts: map<int, string>)
    requires SmallOk(s, M) && IsInsertStep(s, t, sim, M, ef, id, vector, level, trail, starts)
    requires id !in s.nodes && |t.nodes| <= 2 * M + 1
    ensures Meshed(t.nodes)
  {
    var node := NewNode(vector, level);
    var before := s.nodes[id := node];
    BottomInserted(s, t, sim, M, ef, id, vector, level, trail, starts);
    hide IsInserted, IsInsertStep, GraphOk, EntryOk, Meshed, LayerInserted;
    if s.entryPoint == None {
      FirstIsMeshed(t.nodes, id, node, M);
    } else {
      var start, next :| LayerInserted(before, t.nodes, sim, M, ef, 0, id, start, next);
      InsertLinksBothWays(s.nodes, before, t.nodes, sim, M, ef, id, start, next);
      MeshGrows(s.nodes, t.nodes, id, Edges(t.nodes, 0, id));
    }
  }

  /** Every insertion into a nonempty index links the new node at the bottom layer. */
  lemma BottomInserted(s: Index, t: Index, sim: Similarity, M: nat, ef: int, id: string, vector: Vector, level: nat,
                       trail: seq<string>, starts: map<int, string>)
    requires IndexOk(s, M) && id !in s.nodes && IsInsertStep(s, t, sim, M, ef, id, vector, level, trail, starts)
    ensures var before := s.nodes[id := NewNode(vector, level)];
            && GraphOk(before, M) && GraphOk(t.nodes, M) && before.Keys == t.nodes.Keys
            && (s.entryPoint == None ==> s.nodes == map[])
            && (s.entryPoint.Some? ==>
                  |s.nodes| >= 1 && exists start, next ::
                    LayerInserted(before, t.nodes, sim, M, ef, 0, id, start, next))
  {
    var before := s.nodes[id := NewNode(vector, level)];
    InsertParts(s, t, sim, M, ef, id, vector, level, trail, starts);
    NewNodeIsolated(s.nodes, M, id, NewNode(vector, level), before);
    EntryKnown(s.nodes, s.entryPoint, s.maxLevel, M);
    hide *;
    if s.entryPoint.Some? {
      NotEmpty(s.nodes, s.entryPoint.value);
      BottomLayer(before, t.nodes, sim, M, ef, s.entryPoint, s.maxLevel, id, trail, starts);
    }
  }

  lemma InsertParts(s: Index, t: Index, sim: Similarity, M: nat, ef: int, id: string, vector: Vector, level: nat,
                    trail: seq<string>, starts: map<int, string>)
    requires IndexOk(s, M) && id !in s.nodes && IsInsertStep(s, t, sim, M, ef, id, vector, level, trail, starts)
    ensures GraphOk(s.nodes, M) && GraphOk(t.nodes, M) && EntryOk(s.nodes, s.entryPoint, s.maxLevel)
    ensures var before := s.nodes[id := NewNode(vector, level)];
            && before.Keys == t.nodes.Keys
            && IsInserted(before, t.nodes, sim, M, ef, s.entryPoint, s.maxLevel, id, trail, starts)
  {
    hide GraphOk, EntryOk, LayerInserted, Descent, NewNode, SameLayer;
  }

  lemma NotEmpty(nodes: Graph, id: string)
    requires id in nodes
    ensures |nodes| >= 1
  {
    assert id in nodes.Keys;
  }

  lemma BottomLayer(before: Graph, after: Graph, sim: Similarity, M: nat, ef: int, entryPoint: Option<string>,
                    maxLevel: int, id: string, trail: seq<string>, starts: map<int, string>)
    requires IsInserted(before, after, sim, M, ef, entryPoint, maxLevel, id, trail, starts) && entryPoint.Some?
             && maxLevel >= 0
    ensures exists start, next :: LayerInserted(before, after, sim, M, ef, 0, id, start, next)
  {
    hide LayerInserted, Descent, SameLayer, SameNodes;
    var zero: nat := 0;
    assert LayerInserted(before, after, sim, M, ef, zero, id, starts[zero], starts[zero - 1]);
  }

  lemma {:induction false} RunKeepsSmall(states: seq<Index>, actions: seq<Action>, sim: Similarity, M: nat, ef: int)
    requires IsRun(states, actions, sim, M, ef)
    ensures SmallOk(states[|actions|], M)
  {
    hide SmallOk, IsStep;
    if actions == [] {
      EmptyIsSmall(M);
    } else {
      var n := |actions| - 1;
      assert IsRun(states[..n + 1], actions[..n], sim, M, ef);
      RunKeepsSmall(states[..n + 1], actions[..n], sim, M, ef);
      assert IsStep(states[n], actions[n], states[n + 1], sim, M, ef);
      StepKeepsSmall(states[n], actions[n], states[n + 1], sim, M, ef);
    }
  }

  lemma StepKeepsSmall(s: Index, a: Action, t: Index, sim: Similarity, M: nat, ef: int)
    requires SmallOk(s, M) && IsStep(s, a, t, sim, M, ef)
    ensures SmallOk(t, M)
  {
    hide SmallOk, IsInsertStep;
    match a
    case Insert(id, vector, level) =>
      var trail, starts :| IsInsertStep(s, t, sim, M, ef, id, vector, level, trail, starts);
      InsertKeepsSmall(s, t, sim, M, ef, id, vector, level, trail, starts);
    case Clear => EmptyIsSmall(M);
  }

  /**
   After any run of insertions and clearings that leaves at most 2M + 1 nodes, the edges of
   the bottom layer are symmetric and every node is reachable from every other.
   */
  lemma SmallIsConnected(states: seq<Index>, actions: seq<Action>, sim: Similarity, M: nat, ef: int, id: string)
    requires IsRun(states, actions, sim, M, ef) && |states[|actions|].nodes| <= 2 * M + 1
    requires id in states[|actions|].nodes
    ensures var nodes := states[|actions|].nodes;
            && Reachable(nodes, 0, id) == nodes.Keys
            && forall a, b :: a in Edges(nodes, 0, b) ==> b in Edges(nodes, 0, a)
  {
    RunKeepsSmall(states, actions, sim, M, ef);
    hide IsRun, Reaches;
  }

  /**
   So a search of such an index that is at least as wide as the index shows exactly the scores of a
   scan of all its nodes.
   */
  lemma SmallSearchIsScan(states: seq<Index>, actions: seq<Action>, sim: Similarity, M: nat, ef: int,
                          query: Vector, bottom: string, width: int, threshold: real, topK: int,
                          hits: seq<Hit>, found: seq<Hit>, visited: set<string>, ids: seq<string>)
    requires IsRun(states, actions, sim, M, ef) && |states[|actions|].nodes| <= 2 * M + 1
    requires var nodes := states[|actions|].nodes;
             && IsAnswer(nodes, sim, query, bottom, width, threshold, topK, hits, found, visited)
             && width >= |nodes| && Distinct(ids) && (set id | id in ids) == nodes.Keys
    ensures Scores(hits) == Scores(Scan(states[|actions|].nodes, sim, query, ids, threshold, topK))
  {
    var nodes := states[|actions|].nodes;
    assert bottom in nodes;
    hide IsAnswer, IsRun, Scan, Reachable;
    SmallIsConnected(states, actions, sim, M, ef, bottom);
    assert |nodes.Keys| == |nodes|;
    SearchAgreesWithScan(nodes, sim, query, bottom, width, threshold, topK, hits, found, visited, ids);
  }

  // ----- what an index holds -----

  /** The vectors inserted since the last clearing, each id with its latest one. */
  function Inserted(actions: seq<Action>): map<string, Vector> {
    if actions == [] then map[]
    else
      match actions[|actions| - 1]
      case Insert(id, vector, _) => Inserted(actions[..|actions| - 1])[id := vector]
      case Clear => map[]
  }

  /** After any run the index holds exactly these, whatever was linked or pruned. */
  lemma {:induction false} HoldsInserted(states: seq<Index>, actions: seq<Action>, sim: Similarity, M: nat, ef: int)
    requires IsRun(states, actions, sim, M, ef)
    ensures var nodes := states[|actions|].nodes;
            VectorsOf(nodes, nodes.Keys) == Inserted(actions)
  {
    if actions != [] {
      var n := |actions| - 1;
      assert IsRun(states[..n + 1], actions[..n], sim, M, ef);
      assert IsStep(states[n], actions[n], states[n + 1], sim, M, ef);
      hide IsRun, IsStep, VectorsOf;
      HoldsInserted(states[..n + 1], actions[..n], sim, M, ef);
      StepStores(states[n], actions[n], states[n + 1], sim, M, ef);
    }
  }

  lemma StepStores(s: Index, a: Action, t: Index, sim: Similarity, M: nat, ef: int)
    requires IsStep(s, a, t, sim, M, ef)
    ensures var held := VectorsOf(s.nodes, s.nodes.Keys);
            VectorsOf(t.nodes, t.nodes.Keys) == if a.Insert? then held[a.id := a.vector] else map[]
  {
    hide IsInsertStep;
    match a
    case Insert(id, vector, level) =>
      var trail, starts :| IsInsertStep(s, t, sim, M, ef, id, vector, level, trail, starts);
      InsertStores(s, t, sim, M, ef, id, vector, level, trail, starts);
    case Clear =>
  }

  /**
   Every answer of any index shows inserted vectors only, with their own similarities; a wide
   search of a small one shows the best of all that was inserted.
   */
  lemma SmallSearchFindsInserted(states: seq<Index>, actions: seq<Action>, sim: Similarity, M: nat, ef: int,
                                 query: Vector, bottom: string, width: int, threshold: real, topK: int,
                                 hits: seq<Hit>, found: seq<Hit>, visited: set<string>)
    requires IsRun(states, actions, sim, M, ef)
    requires IsAnswer(states[|actions|].nodes, sim, query, bottom, width, threshold, topK, hits, found, visited)
    ensures var inserted := Inserted(actions);
            && (forall i | 0 <= i < |hits| ::
                  hits[i].id in inserted && hits[i].score == sim(query, inserted[hits[i].id]) >= threshold)
            && (|inserted| <= 2 * M + 1 && |inserted| <= width ==>
                  ShowsBest(inserted, sim, query, width, threshold, topK, hits))
  {
    hide IsAnswer, Inserted, ShowsBest, IsStep, Reachable, Edges;
    var nodes := states[|actions|].nodes;
    AnswerCovers(nodes, sim, query, bottom, width, threshold, topK, hits, found, visited);
    HoldsInserted(states, actions, sim, M, ef);
    if |nodes| <= 2 * M + 1 { SmallIsConnected(states, actions, sim, M, ef, bottom); }
    ShowsInserted(nodes, Inserted(actions), sim, M, query, bottom, width, threshold, topK, hits, found, visited);
  }

  lemma ShowsInserted(nodes: Graph, inserted: map<string, Vector>, sim: Similarity, M: nat, query: Vector,
                      bottom: string, width: int, threshold: real, topK: int,
                      hits: seq<Hit>, found: seq<Hit>, visited: set<string>)
    requires IsAnswer(nodes, sim, query, bottom, width, threshold, topK, hits, found, visited)
    requires VectorsOf(nodes, nodes.Keys) == inserted
    requires |nodes| <= 2 * M + 1 ==> Reachable(nodes, 0, bottom) == nodes.Keys
    ensures forall i | 0 <= i < |hits| ::
              hits[i].id in inserted && hits[i].score == sim(query, inserted[hits[i].id]) >= threshold
    ensures |inserted| <= 2 * M + 1 && |inserted| <= width ==>
              ShowsBest(inserted, sim, query, width, threshold, topK, hits)
  {
    assert inserted.Keys == nodes.Keys;
    hide *;
    AnswerShowsBest(nodes, sim, query, bottom, width, threshold, topK, hits, found, visited);
    ShownIsHeld(nodes, sim, query, visited, width, threshold, topK, hits);
    AnswerCovers(nodes, sim, query, bottom, width, threshold, topK, hits, found, visited);
    assert |inserted.Keys| == |inserted| && |nodes.Keys| == |nodes|;
    if |inserted| <= 2 * M + 1 && |inserted| <= width { VectorsTaken(nodes, visited); }
  }

  lemma ShownIsHeld(nodes: Graph, sim: Similarity, query: Vector, visited: set<string>, width: int, threshold: real,
                    topK: int, hits: seq<Hit>)
    requires ShowsBest(VectorsOf(nodes, visited), sim, query, width, threshold, topK, hits)
    ensures var held := VectorsOf(nodes, nodes.Keys);
            forall i | 0 <= i < |hits| ::
              hits[i].id in held && hits[i].score == sim(query, held[hits[i].id]) >= threshold
  {
  }

  lemma AnswerCovers(nodes: Graph, sim: Similarity, query: Vector, bottom: string, width: int, threshold: real,
                     topK: int, hits: seq<Hit>, found: seq<Hit>, visited: set<string>)
    requires IsAnswer(nodes, sim, query, bottom, width, threshold, topK, hits, found, visited)
    ensures bottom in nodes
    ensures width >= |Reachable(nodes, 0, bottom)| ==> visited * nodes.Keys == Reachable(nodes, 0, bottom)
  {
    hide IsSearchResult, IsBest, Reachable, FilterAtLeast, AtLeast;
  }

  lemma VectorsTaken(nodes: Graph, visited: set<string>)
    requires visited * nodes.Keys == nodes.Keys
    ensures VectorsOf(nodes, visited) == VectorsOf(nodes, nodes.Keys)
  {
  }
}
