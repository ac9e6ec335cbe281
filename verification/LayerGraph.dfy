/**
 The layered proximity graph of the in-memory vector index: its nodes, what it means to be
 well formed, reachability inside one layer, and what a best-first search of a layer returns.
 */
module LayerGraph {
  import opened Basics
  import opened Ranking

  type Vector = seq<real>

  /** The similarity measure; the index only relies on it being a function into ordered scores. */
  type Similarity = (Vector, Vector) -> real

  datatype Node = Node(vector: Vector, level: nat, neighbors: map<nat, set<string>>)

  type Graph = map<string, Node>

  /** `node.neighbors.get(layer) || new Set()`; nothing for an id that is not stored. */
  function Edges(nodes: Graph, layer: nat, id: string): set<string> {
    if id in nodes && layer in nodes[id].neighbors then nodes[id].neighbors[layer] else {}
  }

  /** Twice as many edges are kept at the bottom layer. */
  function MaxDegree(M: nat, layer: nat): nat {
    if layer == 0 then M * 2 else M
  }

  // ----- well-formedness -----

  ghost predicate EdgesOk(nodes: Graph, M: nat, id: string, layer: nat)
    requires id in nodes
  {
    && |Edges(nodes, layer, id)| <= MaxDegree(M, layer)
    && forall n | n in Edges(nodes, layer, id) :: n in nodes && n != id && layer <= nodes[n].level
  }

  ghost predicate GraphOk(nodes: Graph, M: nat) {
    && (forall id, l: nat | id in nodes :: l in nodes[id].neighbors <==> l <= nodes[id].level)
    && (forall id, l: nat | id in nodes :: EdgesOk(nodes, M, id, l))
  }

  /** The entry point is a stored node of the highest level; an empty graph has none. */
  ghost predicate EntryOk(nodes: Graph, entryPoint: Option<string>, maxLevel: int) {
    match entryPoint
    case None => nodes == map[] && maxLevel == -1
    case Some(e) =>
      && e in nodes && nodes[e].level == maxLevel
      && forall id | id in nodes :: nodes[id].level <= maxLevel
  }

  // ----- reachability inside a layer -----

  ghost predicate IsPath(nodes: Graph, layer: nat, path: seq<string>) {
    && path != []
    && (forall i | 0 <= i < |path| :: path[i] in nodes)
    && (forall i | 0 < i < |path| :: path[i] in Edges(nodes, layer, path[i - 1]))
  }

  ghost predicate Reaches(nodes: Graph, layer: nat, source: string, target: string) {
    exists path :: IsPath(nodes, layer, path) && path[0] == source && path[|path| - 1] == target
  }

  ghost predicate ReachesFrom(nodes: Graph, layer: nat, sources: seq<string>, target: string) {
    exists s | s in sources :: Reaches(nodes, layer, s, target)
  }

  ghost function Reachable(nodes: Graph, layer: nat, source: string): set<string> {
    set id | id in nodes && Reaches(nodes, layer, source, id)
  }

  lemma ReachesItself(nodes: Graph, layer: nat, id: string)
    requires id in nodes
    ensures Reaches(nodes, layer, id, id)
  {
    assert IsPath(nodes, layer, [id]);
  }

  lemma ReachesStep(nodes: Graph, layer: nat, source: string, via: string, target: string)
    requires Reaches(nodes, layer, source, via)
    requires target in nodes && target in Edges(nodes, layer, via)
    ensures Reaches(nodes, layer, source, target)
  {
    var path :| IsPath(nodes, layer, path) && path[0] == source && path[|path| - 1] == via;
    var longer := path + [target];
    assert IsPath(nodes, layer, longer);
    assert longer[0] == source && longer[|longer| - 1] == target;
  }

  /** A set that holds the source and every stored neighbour of its members holds all that is reachable. */
  lemma {:induction false} ClosedHoldsReachable(nodes: Graph, layer: nat, closed: set<string>, path: seq<string>)
    requires IsPath(nodes, layer, path) && path[0] in closed
    requires forall id | id in closed :: Edges(nodes, layer, id) * nodes.Keys <= closed
    ensures path[|path| - 1] in closed
  {
    if |path| > 1 {
      ClosedHoldsReachable(nodes, layer, closed, path[..|path| - 1]);
    }
  }

  // ----- searching one layer -----

  ghost function ScoreMap(nodes: Graph, sim: Similarity, query: Vector, ids: set<string>): (m: map<string, real>)
    ensures m.Keys == ids * nodes.Keys
    ensures forall id | id in m :: m[id] == sim(query, nodes[id].vector)
  {
    map id | id in ids && id in nodes :: sim(query, nodes[id].vector)
  }

  ghost predicate Present(nodes: Graph, ids: seq<string>) {
    forall i | 0 <= i < |ids| :: ids[i] in nodes
  }

  /** Every member of `found` was expanded: all its neighbours have been looked at. */
  ghost predicate Expanded(nodes: Graph, layer: nat, found: seq<Hit>, visited: set<string>) {
    forall i | 0 <= i < |found| :: Edges(nodes, layer, found[i].id) <= visited
  }

  /**
   What `searchLayer` promises: `found` is the best `ef` of everything visited (never fewer
   than the entry points), everything visited is reachable, and every hit was expanded.
   */
  ghost predicate IsSearchResult(nodes: Graph, sim: Similarity, query: Vector, layer: nat, entries: seq<string>,
                                 ef: int, found: seq<Hit>, visited: set<string>) {
    var scores := ScoreMap(nodes, sim, query, visited);
    && IsBest(found, scores, Min(|scores|, Max(ef, |entries|)))
    && (forall i | 0 <= i < |entries| :: entries[i] in visited)
    && (forall id | id in visited && id in nodes :: ReachesFrom(nodes, layer, entries, id))
    && Expanded(nodes, layer, found, visited)
  }

  /**
   The direct reading of a result, without the nodes visited on the way: ranked hits, and no
   stored neighbour of a hit missing except from a full result whose worst hit it does not beat.
   */
  ghost predicate Settled(nodes: Graph, sim: Similarity, query: Vector, layer: nat, cap: int, found: seq<Hit>) {
    && Descending(found) && DistinctIds(found) && |found| <= cap
    && (forall i | 0 <= i < |found| :: found[i].id in nodes && found[i].score == sim(query, nodes[found[i].id].vector))
    && (forall i, n | 0 <= i < |found| && n in Edges(nodes, layer, found[i].id) && n in nodes ::
          n in Ids(found) || (|found| == cap && sim(query, nodes[n].vector) <= found[|found| - 1].score))
  }

  lemma ResultIsSettled(nodes: Graph, sim: Similarity, query: Vector, layer: nat, entries: seq<string>,
                        ef: int, found: seq<Hit>, visited: set<string>)
    requires IsSearchResult(nodes, sim, query, layer, entries, ef, found, visited)
    ensures Settled(nodes, sim, query, layer, Max(ef, |entries|), found)
  {
    var scores := ScoreMap(nodes, sim, query, visited);
    assert forall i | 0 <= i < |found| :: found[i].id in scores;
    assert forall i, n | 0 <= i < |found| && n in Edges(nodes, layer, found[i].id) && n in nodes :: n in scores;
    IdsCount(found);
    if |found| == |scores| {
      assert Ids(found) <= scores.Keys;
      SameSizeSubset(Ids(found), scores.Keys);
    }
  }

  lemma SameSizeSubset<T>(a: set<T>, b: set<T>)
    requires a <= b && |a| == |b|
    ensures a == b
  {
    assert b == a + (b - a);
    assert |b - a| == 0;
  }

  lemma ClosedReaches(nodes: Graph, layer: nat, closed: set<string>, source: string, target: string)
    requires source in closed && Reaches(nodes, layer, source, target)
    requires forall id | id in closed :: Edges(nodes, layer, id) * nodes.Keys <= closed
    ensures target in closed
  {
    var path :| IsPath(nodes, layer, path) && path[0] == source && path[|path| - 1] == target;
    ClosedHoldsReachable(nodes, layer, closed, path);
  }

  lemma LargeEfKeepsAll(nodes: Graph, sim: Similarity, query: Vector, layer: nat, entry: string,
                        ef: int, found: seq<Hit>, visited: set<string>)
    requires entry in nodes && ef >= |Reachable(nodes, layer, entry)|
    requires IsSearchResult(nodes, sim, query, layer, [entry], ef, found, visited)
    ensures Ids(found) == ScoreMap(nodes, sim, query, visited).Keys
  {
    hide Reaches;
    var scores := ScoreMap(nodes, sim, query, visited);
    forall id | id in scores ensures id in Reachable(nodes, layer, entry) {
      assert ReachesFrom(nodes, layer, [entry], id);
    }
    SubsetSize(scores.Keys, Reachable(nodes, layer, entry));
    IdsCount(found);
    assert Ids(found) <= scores.Keys;
    SameSizeSubset(Ids(found), scores.Keys);
  }

  /**
   With `ef` at least the number of nodes reachable from the entry point nothing is dropped:
   the hits are exactly these nodes, all ranked.
   */
  lemma LargeEfFindsReachable(nodes: Graph, sim: Similarity, query: Vector, layer: nat, entry: string,
                              ef: int, found: seq<Hit>, visited: set<string>)
    requires entry in nodes && ef >= |Reachable(nodes, layer, entry)|
    requires IsSearchResult(nodes, sim, query, layer, [entry], ef, found, visited)
    ensures Ids(found) == Reachable(nodes, layer, entry)
    ensures IsBest(found, ScoreMap(nodes, sim, query, Reachable(nodes, layer, entry)), |Reachable(nodes, layer, entry)|)
  {
    LargeEfKeepsAll(nodes, sim, query, layer, entry, ef, found, visited);
    LargeEfReaches(nodes, sim, query, layer, entry, ef, found, visited);
    hide Reaches, IsBest, Expanded;
    assert ScoreMap(nodes, sim, query, Ids(found)) == ScoreMap(nodes, sim, query, visited);
    assert |ScoreMap(nodes, sim, query, visited)| == |Ids(found)|;
  }

  lemma LargeEfReaches(nodes: Graph, sim: Similarity, query: Vector, layer: nat, entry: string,
                       ef: int, found: seq<Hit>, visited: set<string>)
    requires entry in nodes && Ids(found) == ScoreMap(nodes, sim, query, visited).Keys
    requires IsSearchResult(nodes, sim, query, layer, [entry], ef, found, visited)
    ensures Ids(found) == Reachable(nodes, layer, entry)
  {
    hide IsBest, Reaches;
    assert [entry][0] in visited;
    forall id | id in Ids(found) ensures Edges(nodes, layer, id) * nodes.Keys <= Ids(found) {
      var i :| 0 <= i < |found| && found[i].id == id;
    }
    forall id | id in nodes && Reaches(nodes, layer, entry, id) ensures id in Ids(found) {
      ClosedReaches(nodes, layer, Ids(found), entry, id);
    }
    forall id | id in Ids(found) ensures Reaches(nodes, layer, entry, id) {
      assert ReachesFrom(nodes, layer, [entry], id);
    }
  }

  // ----- one offer to the result list -----

  /** The result list while a search runs: the best `cap` seen so far, worst first. */
  ghost predicate Ranked(results: seq<Hit>, scores: map<string, real>, cap: nat) {
    && Ascending(results)
    && DistinctIds(results)
    && |results| == Min(|scores|, cap)
    && ScoredBy(results, scores)
    && NoneBetter(results, scores)
  }

  /** The list after a push, a sort and, when it grew past `ef`, a shift; unchanged when the hit is too weak. */
  function Offer(results: seq<Hit>, ef: int, h: Hit): seq<Hit> {
    if |results| < ef || (results != [] && h.score > results[0].score) then
      var sorted := SortAscending(results + [h]);
      if |sorted| > ef && sorted != [] then sorted[1..] else sorted
    else results
  }

  lemma OfferKeepsRanked(results: seq<Hit>, scores: map<string, real>, ef: int, entries: nat, h: Hit)
    requires 0 < entries <= |results|
    requires Ranked(results, scores, Max(ef, entries))
    requires h.id !in scores
    ensures Ranked(Offer(results, ef, h), scores[h.id := h.score], Max(ef, entries))
    ensures Ids(Offer(results, ef, h)) <= Ids(results) + {h.id}
    ensures |results| <= |Offer(results, ef, h)|
  {
    assert scores[h.id := h.score].Keys == scores.Keys + {h.id};
    if |results| < ef || h.score > results[0].score {
      OfferTaken(results, scores, ef, entries, h);
    } else {
      OfferRefused(results, scores, ef, entries, h);
    }
  }

  lemma OfferTaken(results: seq<Hit>, scores: map<string, real>, ef: int, entries: nat, h: Hit)
    requires 0 < entries <= |results|
    requires Ranked(results, scores, Max(ef, entries)) && h.id !in scores
    requires |results| < ef || h.score > results[0].score
    ensures Ranked(Offer(results, ef, h), scores[h.id := h.score], Max(ef, entries))
    ensures Ids(Offer(results, ef, h)) <= Ids(results) + {h.id} && |results| <= |Offer(results, ef, h)|
  {
    var sorted := SortAscending(results + [h]);
    assert |scores[h.id := h.score]| == |scores| + 1;
    OfferedSorted(results, scores, ef, entries, h, sorted);
    hide Ascending, DistinctIds, ScoredBy, NoneBetter, SortAscending, Ids;
    if |sorted| > ef {
      DropWorst(sorted, scores[h.id := h.score]);
    }
  }

  lemma OfferRefused(results: seq<Hit>, scores: map<string, real>, ef: int, entries: nat, h: Hit)
    requires 0 < entries <= |results|
    requires Ranked(results, scores, Max(ef, entries)) && h.id !in scores
    requires !(|results| < ef || h.score > results[0].score)
    ensures Ranked(Offer(results, ef, h), scores[h.id := h.score], Max(ef, entries)) && Offer(results, ef, h) == results
  {
    hide SortAscending;
    assert forall i | 0 <= i < |results| :: results[0].score <= results[i].score;
  }

  lemma OfferedSorted(results: seq<Hit>, scores: map<string, real>, ef: int, entries: nat, h: Hit, sorted: seq<Hit>)
    requires 0 < entries <= |results|
    requires Ranked(results, scores, Max(ef, entries)) && h.id !in scores
    requires |results| < ef || h.score > results[0].score
    requires sorted == SortAscending(results + [h])
    ensures |sorted| == |results| + 1 && Ids(sorted) == Ids(results) + {h.id}
    ensures Ascending(sorted) && DistinctIds(sorted) && ScoredBy(sorted, scores[h.id := h.score])
            && NoneBetter(sorted, scores[h.id := h.score])
  {
    var k := SortAfterPush(results, h);
    hide SortAscending, Ascending, DistinctIds, ScoredBy, NoneBetter, Ids;
    InsertedIsScored(results, scores, h, k, sorted);
    assert sorted[0] == if k == 0 then h else results[0];
    InsertedNoneBetter(results, scores, ef, entries, h, sorted);
  }

  lemma InsertedIsScored(s: seq<Hit>, scores: map<string, real>, h: Hit, k: nat, inserted: seq<Hit>)
    requires DistinctIds(s) && ScoredBy(s, scores) && h.id !in scores
    requires k <= |s| && inserted == s[..k] + [h] + s[k..]
    ensures DistinctIds(inserted) && ScoredBy(inserted, scores[h.id := h.score])
    ensures Ids(inserted) == Ids(s) + {h.id}
  {
    forall i | 0 <= i < |inserted|
      ensures inserted[i] == if i < k then s[i] else if i == k then h else s[i - 1]
      ensures inserted[i].id in Ids(s) + {h.id}
    {
      if i != k { assert s[if i < k then i else i - 1].id in Ids(s); }
    }
    forall i | 0 <= i < |s| ensures s[i].id in Ids(inserted) {
      assert inserted[if i < k then i else i + 1] == s[i];
    }
    assert inserted[k].id in Ids(inserted);
  }

  lemma InsertedNoneBetter(results: seq<Hit>, scores: map<string, real>, ef: int, entries: nat, h: Hit,
                           sorted: seq<Hit>)
    requires 0 < entries <= |results|
    requires Ranked(results, scores, Max(ef, entries))
    requires |results| < ef || (h.score > results[0].score && sorted != [] && sorted[0].score >= results[0].score)
    requires Ascending(sorted)
    requires Ids(sorted) == Ids(results) + {h.id}
    ensures NoneBetter(sorted, scores[h.id := h.score])
  {
    if |results| == |scores| {
      IdsCount(results);
      assert Ids(results) <= scores.Keys;
      SameSizeSubset(Ids(results), scores.Keys);
    } else {
      forall id, i | id in scores && id !in Ids(sorted) && 0 <= i < |sorted| ensures scores[id] <= sorted[i].score {
        assert scores[id] <= results[0].score;
        assert sorted[0].score <= sorted[i].score;
      }
    }
  }

  lemma DropWorst(sorted: seq<Hit>, scores: map<string, real>)
    requires sorted != [] && Ascending(sorted) && DistinctIds(sorted) && ScoredBy(sorted, scores)
             && NoneBetter(sorted, scores)
    ensures Ascending(sorted[1..]) && DistinctIds(sorted[1..]) && ScoredBy(sorted[1..], scores)
            && NoneBetter(sorted[1..], scores)
    ensures Ids(sorted[1..]) <= Ids(sorted)
  {
    var rest := sorted[1..];
    forall j | 0 < j < |sorted| ensures sorted[j].id in Ids(rest) { assert rest[j - 1] == sorted[j]; }
    forall j | 0 <= j < |rest| ensures rest[j].id in Ids(sorted) { assert rest[j] == sorted[j + 1]; }
    forall id, i | id in scores && id !in Ids(rest) && 0 <= i < |rest| ensures scores[id] <= rest[i].score {
      assert rest[i] == sorted[i + 1];
      if id in Ids(sorted) {
        var j :| 0 <= j < |sorted| && sorted[j].id == id;
      }
    }
  }
}
