/**
 The in-memory HNSW index of the vector store: insertion with pruned back links, best-first
 search of one layer, and the layered top-k search.
 */
module VectorIndex {
  import opened Basics
  import opened Ranking
  import opened LayerGraph
  import opened LayerSearch

  // ----- greedy descent -----

  /** No stored neighbour in the layer beats the node. */
  ghost predicate LocallyBest(nodes: Graph, sim: Similarity, query: Vector, layer: nat, id: string) {
    id in nodes && forall n | n in Edges(nodes, layer, id) && n in nodes ::
      sim(query, nodes[n].vector) <= sim(query, nodes[id].vector)
  }

  lemma {:induction false} PathStaysInLayer(nodes: Graph, M: nat, layer: nat, path: seq<string>)
    requires GraphOk(nodes, M) && IsPath(nodes, layer, path) && nodes[path[0]].level >= layer
    ensures nodes[path[|path| - 1]].level >= layer
    ensures path[|path| - 1] != path[0] ==> exists n :: path[|path| - 1] in Edges(nodes, layer, n)
  {
    if |path| > 1 {
      var prev := path[|path| - 2];
      assert path[|path| - 1] in Edges(nodes, layer, prev);
      assert EdgesOk(nodes, M, prev, layer);
    }
  }

  lemma ReachStaysInLayer(nodes: Graph, M: nat, layer: nat, id: string, target: string)
    requires GraphOk(nodes, M) && id in nodes && nodes[id].level >= layer && ReachesFrom(nodes, layer, [id], target)
    ensures target in nodes && nodes[target].level >= layer
    ensures target != id ==> exists n :: target in Edges(nodes, layer, n)
  {
    var path :| IsPath(nodes, layer, path) && path[0] == id && path[|path| - 1] == target;
    PathStaysInLayer(nodes, M, layer, path);
  }

  lemma BestOfOne(found: seq<Hit>, scores: map<string, real>)
    requires IsBest(found, scores, 1)
    ensures |found| == 1 && found[0].id in scores && forall n | n in scores :: scores[n] <= scores[found[0].id]
  {
    forall n | n in scores ensures scores[n] <= scores[found[0].id] {
      if n in Ids(found) {
        assert n == found[0].id;
      } else {
        assert scores[n] <= found[0].score;
      }
    }
  }

  lemma WidthOne(nodes: Graph, sim: Similarity, query: Vector, layer: nat, id: string, found: seq<Hit>,
                 visited: set<string>)
    requires id in nodes && IsSearchResult(nodes, sim, query, layer, [id], 1, found, visited)
    ensures |found| == 1 && found[0].id in nodes && id in visited
    ensures ReachesFrom(nodes, layer, [id], found[0].id) && Edges(nodes, layer, found[0].id) <= visited
    ensures forall n | n in visited && n in nodes ::
            sim(query, nodes[n].vector) <= sim(query, nodes[found[0].id].vector)
  {
    hide ReachesFrom, Edges, IsBest;
    var scores := ScoreMap(nodes, sim, query, visited);
    assert [id][0] in visited && id in scores;
    SubsetSize({id}, scores.Keys);
    BestOfOne(found, scores);
    assert forall n | n in visited && n in nodes :: scores[n] <= scores[found[0].id];
  }

  lemma GreedyStep(nodes: Graph, sim: Similarity, query: Vector, M: nat, layer: nat, id: string, found: seq<Hit>,
                   visited: set<string>)
    requires GraphOk(nodes, M) && id in nodes && nodes[id].level >= layer
    requires IsSearchResult(nodes, sim, query, layer, [id], 1, found, visited)
    ensures |found| == 1 && found[0].id in nodes
    ensures nodes[found[0].id].level >= layer
    ensures LocallyBest(nodes, sim, query, layer, found[0].id)
    ensures sim(query, nodes[found[0].id].vector) >= sim(query, nodes[id].vector)
    ensures found[0].id != id ==> exists n :: found[0].id in Edges(nodes, layer, n)
  {
    hide GraphOk, ReachesFrom, IsSearchResult, Edges;
    WidthOne(nodes, sim, query, layer, id, found, visited);
    ReachStaysInLayer(nodes, M, layer, id, found[0].id);
  }

  /** One layer of the greedy descent: a search of width 1 that starts at `from` finds `to`. */
  ghost predicate DescentStep(nodes: Graph, sim: Similarity, query: Vector, layer: nat, from: string, to: string) {
    exists found, visited :: IsSearchResult(nodes, sim, query, layer, [from], 1, found, visited) && Ids(found) == {to}
  }

  /** The nodes passed on the way down from layer `top` to the layer above `stop`, one for each layer. */
  ghost predicate Descent(nodes: Graph, sim: Similarity, query: Vector, start: string, top: int, stop: nat,
                          trail: seq<string>) {
    && |trail| == Max(top - stop, 0) + 1 && trail[0] == start
    && forall k | 1 <= k < |trail| :: DescentStep(nodes, sim, query, top - k + 1, trail[k - 1], trail[k])
  }

  lemma DescentStarts(nodes: Graph, sim: Similarity, query: Vector, start: string, top: nat)
    ensures Descent(nodes, sim, query, start, top, top, [start])
  {
  }

  lemma DescentEnds(nodes: Graph, sim: Similarity, query: Vector, start: string, l: nat, top: nat, stop: nat,
                    trail: seq<string>)
    requires Descent(nodes, sim, query, start, top, l, trail) && (l == stop || l == top < stop)
    ensures trail != [] && Descent(nodes, sim, query, start, top, stop, trail)
  {
  }

  /** Greedy search of width 1 takes the descent one layer down, to a node that no neighbour beats. */
  lemma DescentGrows(nodes: Graph, sim: Similarity, query: Vector, M: nat, start: string, l: nat, top: nat,
                     trail: seq<string>, found: seq<Hit>, visited: set<string>)
    requires 0 < l <= top && Descent(nodes, sim, query, start, top, l, trail)
    requires var id := trail[|trail| - 1];
             GraphOk(nodes, M) && id in nodes && nodes[id].level >= l
               && IsSearchResult(nodes, sim, query, l, [id], 1, found, visited)
    ensures |found| == 1 && Descent(nodes, sim, query, start, top, l - 1, trail + [found[0].id])
  {
    var id := trail[|trail| - 1];
    hide Descent, GraphOk, IsSearchResult, LocallyBest, Edges, ScoreMap;
    GreedyStep(nodes, sim, query, M, l, id, found, visited);
    assert Ids(found) == {found[0].id};
    assert DescentStep(nodes, sim, query, l, id, found[0].id);
    DescentAppends(nodes, sim, query, start, l, top, trail, found[0].id);
  }

  lemma DescentAppends(nodes: Graph, sim: Similarity, query: Vector, start: string, l: nat, top: nat,
                       trail: seq<string>, id: string)
    requires 0 < l <= top && Descent(nodes, sim, query, start, top, l, trail)
    requires DescentStep(nodes, sim, query, l, trail[|trail| - 1], id)
    ensures Descent(nodes, sim, query, start, top, l - 1, trail + [id])
  {
    hide DescentStep;
  }

  // ----- filtering and slicing a search result -----

  ghost function AtLeast(scores: map<string, real>, threshold: real): map<string, real> {
    map id | id in scores && scores[id] >= threshold :: scores[id]
  }

  function FilterAtLeast(s: seq<Hit>, threshold: real): seq<Hit> {
    if s == [] then []
    else
      var front := FilterAtLeast(s[..|s| - 1], threshold);
      if s[|s| - 1].score >= threshold then front + [s[|s| - 1]] else front
  }

  lemma FilterLast(s: seq<Hit>, threshold: real)
    requires s != []
    ensures var front, last := s[..|s| - 1], s[|s| - 1];
            FilterAtLeast(s, threshold) == FilterAtLeast(front, threshold)
              + if last.score >= threshold then [last] else []
  {
  }

  lemma {:induction false} FilterKeepsAll(s: seq<Hit>, threshold: real)
    requires forall i | 0 <= i < |s| :: s[i].score >= threshold
    ensures FilterAtLeast(s, threshold) == s
  {
    if s != [] {
      FilterLast(s, threshold);
      hide FilterAtLeast;
      FilterKeepsAll(s[..|s| - 1], threshold);
      assert s == s[..|s| - 1] + [s[|s| - 1]];
    }
  }

  lemma {:induction false} FilterIsPrefix(s: seq<Hit>, threshold: real) returns (m: nat)
    requires Descending(s)
    ensures m <= |s| && FilterAtLeast(s, threshold) == s[..m]
    ensures forall i | 0 <= i < |s| :: s[i].score >= threshold <==> i < m
  {
    if s == [] {
      m := 0;
    } else if s[|s| - 1].score >= threshold {
      m := |s|;
      assert s[..m] == s;
      FilterKeepsAll(s, threshold);
    } else {
      FilterLast(s, threshold);
      hide FilterAtLeast;
      m := FilterIsPrefix(s[..|s| - 1], threshold);
      assert s[..|s| - 1][..m] + [] == s[..m];
      assert forall i | 0 <= i < |s| - 1 :: s[..|s| - 1][i] == s[i];
    }
  }

  /** The slice of the hits above the threshold is the best of all eligible ones, not just of those found. */
  lemma FilteredPrefixIsBest(found: seq<Hit>, scores: map<string, real>, cap: nat, threshold: real, topK: int)
    requires IsBest(found, scores, Min(|scores|, cap))
    ensures var filtered, eligible := FilterAtLeast(found, threshold), AtLeast(scores, threshold);
            && |filtered| == Min(|eligible|, cap)
            && IsBest(filtered[..SliceEnd(|filtered|, topK)], eligible, SliceEnd(Min(|eligible|, cap), topK))
  {
    var eligible := AtLeast(scores, threshold);
    var m := FilterIsPrefix(found, threshold);
    EligibleCount(found, scores, cap, threshold, m);
    var c := SliceEnd(m, topK);
    assert found[..m][..c] == found[..c];
    PrefixNoneBetter(found, scores, threshold, c);
    assert ScoredBy(found[..c], eligible) && DistinctIds(found[..c]);
  }

  lemma PrefixNoneBetter(found: seq<Hit>, scores: map<string, real>, threshold: real, c: nat)
    requires Descending(found) && ScoredBy(found, scores) && NoneBetter(found, scores) && c <= |found|
    ensures NoneBetter(found[..c], AtLeast(scores, threshold))
  {
    PrefixIds(found, c);
    forall id, i | id in scores && id !in Ids(found[..c]) && 0 <= i < c ensures scores[id] <= found[i].score {
      if id in Ids(found) {
        var j :| 0 <= j < |found| && found[j].id == id;
      }
    }
  }

  /** When fewer hits pass than were asked for, they are all the eligible nodes there are. */
  lemma EligibleCount(found: seq<Hit>, scores: map<string, real>, cap: nat, threshold: real, m: nat)
    requires IsBest(found, scores, Min(|scores|, cap)) && m <= |found|
    requires forall i | 0 <= i < |found| :: found[i].score >= threshold <==> i < m
    ensures m <= |AtLeast(scores, threshold)|
    ensures m < cap ==> |AtLeast(scores, threshold)| == m
  {
    var eligible, above := AtLeast(scores, threshold), found[..m];
    assert DistinctIds(above) && ScoredBy(above, eligible);
    IdsCount(above);
    assert Ids(above) <= eligible.Keys;
    SubsetSize(Ids(above), eligible.Keys);
    PrefixIds(found, m);
    if m < cap {
      assert m < |found| ==> found[m].score < threshold;
      forall id | id in eligible ensures id in Ids(above) {
        if id in Ids(found) {
          var j :| 0 <= j < |found| && found[j].id == id;
        } else {
          NotFoundMeansFull(found, scores, cap, id);
        }
      }
      assert eligible.Keys == Ids(above);
    }
  }

  lemma PrefixIds(s: seq<Hit>, c: nat)
    requires c <= |s|
    ensures forall i | 0 <= i < c :: s[i].id in Ids(s[..c])
  {
    forall i | 0 <= i < c ensures s[i].id in Ids(s[..c]) { assert s[..c][i] == s[i]; }
  }

  lemma NotFoundMeansFull(found: seq<Hit>, scores: map<string, real>, cap: nat, id: string)
    requires IsBest(found, scores, Min(|scores|, cap)) && id in scores && id !in Ids(found)
    ensures |found| == cap
  {
    IdsCount(found);
    assert Ids(found) <= scores.Keys - {id};
    SubsetSize(Ids(found), scores.Keys - {id});
  }

  /**
   What a search answers: the bottom layer is searched from `bottom`, the hits above the
   threshold are sliced, and they are the best of all eligible visited nodes; everything
   visited is reachable, and everything reachable is visited when the width covers it.
   */
  ghost predicate IsAnswer(nodes: Graph, sim: Similarity, query: Vector, bottom: string, width: int,
                           threshold: real, topK: int, hits: seq<Hit>, found: seq<Hit>, visited: set<string>) {
    var kept, eligible := FilterAtLeast(found, threshold), AtLeast(ScoreMap(nodes, sim, query, visited), threshold);
    && bottom in nodes && bottom in visited
    && IsSearchResult(nodes, sim, query, 0, [bottom], width, found, visited)
    && hits == kept[..SliceEnd(|kept|, topK)]
    && IsBest(hits, eligible, SliceEnd(Min(|eligible|, Max(width, 1)), topK))
    && visited * nodes.Keys <= Reachable(nodes, 0, bottom)
    && (width >= |Reachable(nodes, 0, bottom)| ==> visited * nodes.Keys == Reachable(nodes, 0, bottom))
  }

  /**
   What the caller sees of an answer: distinct stored nodes with their scores, none below the
   threshold, best first.
   */
  ghost predicate RankedAbove(nodes: Graph, sim: Similarity, query: Vector, threshold: real, hits: seq<Hit>) {
    && Descending(hits) && DistinctIds(hits)
    && forall i | 0 <= i < |hits| ::
         hits[i].id in nodes && hits[i].score == sim(query, nodes[hits[i].id].vector) && hits[i].score >= threshold
  }

  /** How many hits a search shows: those above the threshold within the width, sliced like an array. */
  function ShownCount(eligible: nat, width: int, topK: int): int {
    var kept := if eligible <= width || eligible <= 1 then eligible else if width >= 1 then width else 1;
    if topK >= 0 then if topK <= kept then topK else kept
    else if kept + topK >= 0 then kept + topK else 0
  }

  /**
   An answer in plain terms: of the visited nodes whose similarity reaches the threshold it shows
   as many as the width and `topK` allow, ranked, and leaves none out that beats one it shows.
   */
  ghost predicate ShowsBest(vectors: map<string, Vector>, sim: Similarity, query: Vector, width: int,
                            threshold: real, topK: int, hits: seq<Hit>) {
    && (forall i | 0 <= i < |hits| ::
          hits[i].id in vectors && hits[i].score == sim(query, vectors[hits[i].id]) >= threshold)
    && (forall i, j | 0 <= i < j < |hits| :: hits[i].id != hits[j].id && hits[i].score >= hits[j].score)
    && |hits| == ShownCount(|set id | id in vectors && sim(query, vectors[id]) >= threshold|, width, topK)
    && (forall id, i | id in vectors && sim(query, vectors[id]) >= threshold && 0 <= i < |hits| ::
          (exists j :: 0 <= j < |hits| && hits[j].id == id) || sim(query, vectors[id]) <= hits[i].score)
  }

  function VectorsOf(nodes: Graph, ids: set<string>): (m: map<string, Vector>)
    ensures m.Keys == ids * nodes.Keys
  {
    map id | id in ids && id in nodes :: nodes[id].vector
  }

  lemma AnswerShowsBest(nodes: Graph, sim: Similarity, query: Vector, bottom: string, width: int, threshold: real,
                        topK: int, hits: seq<Hit>, found: seq<Hit>, visited: set<string>)
    requires IsAnswer(nodes, sim, query, bottom, width, threshold, topK, hits, found, visited)
    ensures ShowsBest(VectorsOf(nodes, visited), sim, query, width, threshold, topK, hits)
  {
    var eligible := AtLeast(ScoreMap(nodes, sim, query, visited), threshold);
    AnswerIsRanked(nodes, sim, query, bottom, width, threshold, topK, hits, found, visited);
    hide IsSearchResult, Reachable, FilterAtLeast, AtLeast;
    EligibleInNumbers(nodes, sim, query, visited, threshold, eligible);
    BestShows(VectorsOf(nodes, visited), sim, query, width, threshold, topK, hits, eligible);
  }

  lemma EligibleInNumbers(nodes: Graph, sim: Similarity, query: Vector, visited: set<string>, threshold: real,
                          eligible: map<string, real>)
    requires eligible == AtLeast(ScoreMap(nodes, sim, query, visited), threshold)
    ensures var vectors := VectorsOf(nodes, visited);
            && eligible.Keys == (set id | id in vectors && sim(query, vectors[id]) >= threshold)
            && forall id | id in eligible :: eligible[id] == sim(query, vectors[id])
  {
  }

  lemma BestShows(vectors: map<string, Vector>, sim: Similarity, query: Vector, width: int, threshold: real, topK: int,
                  hits: seq<Hit>, eligible: map<string, real>)
    requires eligible.Keys == set id | id in vectors && sim(query, vectors[id]) >= threshold
    requires forall id | id in eligible :: eligible[id] == sim(query, vectors[id])
    requires IsBest(hits, eligible, SliceEnd(Min(|eligible|, Max(width, 1)), topK))
    ensures ShowsBest(vectors, sim, query, width, threshold, topK, hits)
  {
    assert |eligible| == |eligible.Keys|;
    forall id, i | id in vectors && sim(query, vectors[id]) >= threshold && 0 <= i < |hits|
      ensures (exists j :: 0 <= j < |hits| && hits[j].id == id) || sim(query, vectors[id]) <= hits[i].score
    {
      assert id in eligible;
      if id !in Ids(hits) { assert eligible[id] <= hits[i].score; }
    }
  }

  lemma NoHits(nodes: Graph, sim: Similarity, query: Vector, threshold: real)
    ensures RankedAbove(nodes, sim, query, threshold, [])
  {
  }

  lemma AnswerIsRanked(nodes: Graph, sim: Similarity, query: Vector, bottom: string, width: int, threshold: real,
                       topK: int, hits: seq<Hit>, found: seq<Hit>, visited: set<string>)
    requires IsAnswer(nodes, sim, query, bottom, width, threshold, topK, hits, found, visited)
    ensures RankedAbove(nodes, sim, query, threshold, hits)
  {
    hide IsSearchResult, Reachable, FilterAtLeast, NoneBetter;
    var eligible := AtLeast(ScoreMap(nodes, sim, query, visited), threshold);
    assert forall i | 0 <= i < |hits| :: hits[i].id in eligible;
  }

  lemma SearchIsBest(nodes: Graph, sim: Similarity, query: Vector, bottom: string, ef: int, found: seq<Hit>,
                     visited: set<string>, threshold: real, topK: int)
    requires bottom in nodes
    requires IsSearchResult(nodes, sim, query, 0, [bottom], ef, found, visited)
    ensures var filtered := FilterAtLeast(found, threshold);
            IsAnswer(nodes, sim, query, bottom, ef, threshold, topK, filtered[..SliceEnd(|filtered|, topK)], found,
              visited)
  {
    var scores := ScoreMap(nodes, sim, query, visited);
    assert [bottom][0] in visited;
    SearchReaches(nodes, sim, query, bottom, ef, found, visited);
    hide Reachable, Reaches, ReachesFrom, Expanded, NoneBetter, FilterAtLeast, AtLeast;
    FilteredPrefixIsBest(found, scores, Max(ef, 1), threshold, topK);
  }

  lemma SearchReaches(nodes: Graph, sim: Similarity, query: Vector, bottom: string, ef: int, found: seq<Hit>,
                      visited: set<string>)
    requires bottom in nodes && IsSearchResult(nodes, sim, query, 0, [bottom], ef, found, visited)
    ensures visited * nodes.Keys <= Reachable(nodes, 0, bottom)
    ensures ef >= |Reachable(nodes, 0, bottom)| ==> visited * nodes.Keys == Reachable(nodes, 0, bottom)
  {
    hide Reaches, NoneBetter, DistinctIds, Descending;
    forall id | id in visited * nodes.Keys ensures id in Reachable(nodes, 0, bottom) {
      assert ReachesFrom(nodes, 0, [bottom], id);
    }
    if ef >= |Reachable(nodes, 0, bottom)| {
      LargeEfFindsReachable(nodes, sim, query, 0, bottom, ef, found, visited);
      forall id | id in Ids(found) ensures id in visited {
        var i :| 0 <= i < |found| && found[i].id == id;
        assert id in ScoreMap(nodes, sim, query, visited);
      }
    }
  }

  lemma EntryKnown(nodes: Graph, entryPoint: Option<string>, maxLevel: int, M: nat)
    requires EntryOk(nodes, entryPoint, maxLevel)
    ensures entryPoint == None <==> nodes == map[]
    ensures entryPoint == None ==> maxLevel == -1
    ensures entryPoint.Some? ==> entryPoint.value in nodes && nodes[entryPoint.value].level == maxLevel >= 0
    ensures forall id | id in nodes :: nodes[id].level <= maxLevel
  {
  }

  // ----- the brute-force reference -----

  /** The reference answer: score every listed node, sort them all, filter, slice. */
  function Scan(nodes: Graph, sim: Similarity, query: Vector, ids: seq<string>, threshold: real, topK: int): seq<Hit> {
    var filtered := FilterAtLeast(SortDescending(EntryHits(nodes, sim, query, ids)), threshold);
    filtered[..SliceEnd(|filtered|, topK)]
  }

  /**
   A search wide enough to visit everything reachable shows exactly the scores that scanning
   the reachable nodes one by one would show.
   */
  lemma SearchAgreesWithScan(nodes: Graph, sim: Similarity, query: Vector, bottom: string, width: int,
                             threshold: real, topK: int, hits: seq<Hit>, found: seq<Hit>, visited: set<string>,
                             ids: seq<string>)
    requires IsAnswer(nodes, sim, query, bottom, width, threshold, topK, hits, found, visited)
    requires width >= |Reachable(nodes, 0, bottom)|
    requires Distinct(ids) && (set id | id in ids) == Reachable(nodes, 0, bottom)
    ensures Scores(hits) == Scores(Scan(nodes, sim, query, ids, threshold, topK))
  {
    var reachable := Reachable(nodes, 0, bottom);
    var eligible := AtLeast(ScoreMap(nodes, sim, query, reachable), threshold);
    assert ScoreMap(nodes, sim, query, visited) == ScoreMap(nodes, sim, query, reachable);
    assert |eligible| <= width by { EligibleFew(nodes, sim, query, reachable, threshold); }
    assert forall id | id in ids :: id in reachable;
    hide IsBest, Scan, AtLeast, ScoreMap, Reaches, IsSearchResult, FilterAtLeast;
    ScanIsBest(nodes, sim, query, ids, threshold, topK);
    BestIsUnique(hits, Scan(nodes, sim, query, ids, threshold, topK), eligible, SliceEnd(|eligible|, topK));
  }

  lemma EligibleFew(nodes: Graph, sim: Similarity, query: Vector, ids: set<string>, threshold: real)
    ensures |AtLeast(ScoreMap(nodes, sim, query, ids), threshold)| <= |ids|
  {
    var eligible := AtLeast(ScoreMap(nodes, sim, query, ids), threshold);
    SubsetSize(eligible.Keys, ids);
  }

  lemma ScanIsBest(nodes: Graph, sim: Similarity, query: Vector, ids: seq<string>, threshold: real, topK: int)
    requires Distinct(ids) && forall id | id in ids :: id in nodes
    ensures var eligible := AtLeast(ScoreMap(nodes, sim, query, set id | id in ids), threshold);
            IsBest(Scan(nodes, sim, query, ids, threshold, topK), eligible, SliceEnd(|eligible|, topK))
  {
    hide SortDescending, EntryHits, FilterAtLeast, NoneBetter;
    var scores := ScoreMap(nodes, sim, query, set id | id in ids);
    var all := EntryHits(nodes, sim, query, ids);
    ScanHits(nodes, sim, query, ids, scores);
    SortedPrefixIsBest(all, scores, |all|);
    var sorted := SortDescending(all);
    assert sorted[..|all|] == sorted;
    assert |all| == |scores.Keys| by { IdsCount(all); }
    assert |AtLeast(scores, threshold)| <= |scores| by { SubsetSize(AtLeast(scores, threshold).Keys, scores.Keys); }
    hide AtLeast;
    FilteredPrefixIsBest(sorted, scores, |scores|, threshold, topK);
  }

  lemma ScanHits(nodes: Graph, sim: Similarity, query: Vector, ids: seq<string>, scores: map<string, real>)
    requires Distinct(ids) && scores == ScoreMap(nodes, sim, query, set id | id in ids)
    requires forall id | id in ids :: id in nodes
    ensures var all := EntryHits(nodes, sim, query, ids);
            DistinctIds(all) && ScoredBy(all, scores) && Ids(all) == scores.Keys
  {
    hide *;
    AllPresent(nodes, ids);
    AllStored(nodes, sim, query, ids);
    ListedHits(nodes, sim, query, ids, EntryHits(nodes, sim, query, ids), scores);
  }

  lemma AllPresent(nodes: Graph, ids: seq<string>)
    requires forall id | id in ids :: id in nodes
    ensures Present(nodes, ids)
  {
  }

  lemma ListedHits(nodes: Graph, sim: Similarity, query: Vector, ids: seq<string>, all: seq<Hit>,
                   scores: map<string, real>)
    requires Distinct(ids) && scores == ScoreMap(nodes, sim, query, set id | id in ids)
    requires |all| == |ids| && forall i | 0 <= i < |ids| ::
             ids[i] in nodes && all[i] == Hit(ids[i], sim(query, nodes[ids[i]].vector))
    ensures DistinctIds(all) && ScoredBy(all, scores) && Ids(all) == scores.Keys
  {
    forall id | id in ids ensures id in Ids(all) {
      var i :| 0 <= i < |ids| && ids[i] == id;
      assert all[i].id == id;
    }
  }

  lemma AllStored(nodes: Graph, sim: Similarity, query: Vector, ids: seq<string>)
    requires Present(nodes, ids)
    ensures var all := EntryHits(nodes, sim, query, ids);
            |all| == |ids| && forall i | 0 <= i < |ids| ::
              ids[i] in nodes && all[i] == Hit(ids[i], sim(query, nodes[ids[i]].vector))
  {
    assert Stored(nodes, ids) == ids;
  }

  // ----- what an insertion does to the graph -----

  function IdList(s: seq<Hit>): (r: seq<string>)
    ensures |r| == |s| && forall i | 0 <= i < |s| :: r[i] == s[i].id
    ensures Ids(s) == set n | n in r
    ensures DistinctIds(s) ==> Distinct(r)
  {
    seq(|s|, i requires 0 <= i < |s| => s[i].id)
  }

  /** A fresh node with an empty neighbour set for each of its layers. */
  function NewNode(vector: Vector, level: nat): Node {
    Node(vector, level, EmptyLayers(level))
  }

  function EmptyLayers(level: nat): (m: map<nat, set<string>>)
    ensures forall l: nat :: l in m <==> l <= level
    ensures forall l | l in m :: m[l] == {}
  {
    if level == 0 then map[0 := {}] else EmptyLayers(level - 1)[level := {}]
  }

  /** `this.nodes.get(id)?.vector ?? []` */
  function VectorOf(nodes: Graph, id: string): Vector {
    if id in nodes then nodes[id].vector else []
  }

  /** `kept` is all of `links`, or the `cap` of them most similar to the given vector. */
  ghost predicate Pruned(nodes: Graph, sim: Similarity, vector: Vector, links: set<string>, kept: set<string>,
                         cap: nat) {
    && kept <= links
    && |kept| == Min(|links|, cap)
    && forall k, d | k in kept && d in links - kept ::
       sim(vector, VectorOf(nodes, d)) <= sim(vector, VectorOf(nodes, k))
  }

  /** Only edges may differ: same nodes, vectors, levels and layers. */
  ghost predicate SameNodes(a: Graph, b: Graph) {
    && a.Keys == b.Keys
    && forall id | id in a :: a[id].vector == b[id].vector && a[id].level == b[id].level
                           && a[id].neighbors.Keys == b[id].neighbors.Keys
  }

  ghost predicate SameLayer(a: Graph, b: Graph, layer: nat) {
    forall id | id in a :: Edges(a, layer, id) == Edges(b, layer, id)
  }

  /** A back link to `id` was added to the node `n` in the layer, and its links were pruned. */
  ghost predicate LinkedBack(before: Graph, after: Graph, sim: Similarity, M: nat, layer: nat, id: string, n: string) {
    n in before && Pruned(before, sim, before[n].vector, Edges(before, layer, n) + {id}, Edges(after, layer, n),
      MaxDegree(M, layer))
  }

  /** In the layer, `id` got exactly the chosen links and each chosen node a pruned back link; nothing else changed. */
  ghost predicate Linked(before: Graph, after: Graph, sim: Similarity, M: nat, layer: nat, id: string,
                         chosen: set<string>) {
    && Edges(after, layer, id) == chosen
    && (forall n | n in chosen :: LinkedBack(before, after, sim, M, layer, id, n))
    && (forall n | n in before && n != id && n !in chosen :: Edges(after, layer, n) == Edges(before, layer, n))
  }

  /** The chosen links are the best of a search of the layer that started at a node of the layer. */
  ghost predicate ChosenBySearch(nodes: Graph, sim: Similarity, M: nat, ef: int, layer: nat, id: string,
                                 chosen: set<string>, start: string, found: seq<Hit>, visited: set<string>) {
    && id in nodes && start in nodes && start != id
    && IsSearchResult(nodes, sim, nodes[id].vector, layer, [start], ef, found, visited)
    && chosen == Ids(found[..Min(MaxDegree(M, layer), |found|)])
  }

  /**
   The whole effect of an insertion on one layer that the new node shares with older ones:
   a search from `start` chooses the links, and its best hit is where the next layer starts.
   */
  ghost predicate LayerInserted(before: Graph, after: Graph, sim: Similarity, M: nat, ef: int, layer: nat, id: string,
                                start: string, next: string) {
    && Linked(before, after, sim, M, layer, id, Edges(after, layer, id))
    && exists found: seq<Hit>, visited ::
         ChosenBySearch(before, sim, M, ef, layer, id, Edges(after, layer, id), start, found, visited) && found != []
           && found[0].id == next
  }

  lemma LinkKeepsGraphOk(before: Graph, after: Graph, sim: Similarity, M: nat, layer: nat, id: string,
                         chosen: set<string>)
    requires GraphOk(before, M) && SameNodes(before, after)
    requires id in before && before[id].level >= layer
    requires id !in chosen && |chosen| <= MaxDegree(M, layer)
    requires forall n | n in chosen :: n in before && before[n].level >= layer
    requires Linked(before, after, sim, M, layer, id, chosen)
    requires forall l: nat | l != layer :: SameLayer(before, after, l)
    ensures GraphOk(after, M)
  {
    forall n, l: nat | n in after ensures EdgesOk(after, M, n, l) {
      assert EdgesOk(before, M, n, l);
      if l != layer {
        assert SameLayer(before, after, l);
      } else {
        hide GraphOk;
        LinkKeepsEdgesOk(before, after, sim, M, layer, id, chosen, n);
      }
    }
  }

  lemma LinkKeepsEdgesOk(before: Graph, after: Graph, sim: Similarity, M: nat, layer: nat, id: string,
                         chosen: set<string>, n: string)
    requires SameNodes(before, after) && n in before && EdgesOk(before, M, n, layer)
    requires id in before && before[id].level >= layer
    requires id !in chosen && |chosen| <= MaxDegree(M, layer)
    requires forall c | c in chosen :: c in before && before[c].level >= layer
    requires Linked(before, after, sim, M, layer, id, chosen)
    ensures EdgesOk(after, M, n, layer)
  {
    if n in chosen {
      assert LinkedBack(before, after, sim, M, layer, id, n);
    } else if n != id {
      assert Edges(after, layer, n) == Edges(before, layer, n);
    }
  }

  /** A search result only depends on the nodes, their vectors and the edges of its layer. */
  lemma SearchResultTransfers(a: Graph, b: Graph, sim: Similarity, query: Vector, layer: nat, entries: seq<string>,
                              ef: int, found: seq<Hit>, visited: set<string>)
    requires SameNodes(a, b) && SameLayer(a, b, layer)
    requires IsSearchResult(a, sim, query, layer, entries, ef, found, visited)
    ensures IsSearchResult(b, sim, query, layer, entries, ef, found, visited)
  {
    hide IsBest, ScoreMap, Edges, SameLayer, SameNodes, Reaches, ReachesFrom;
    SameView(a, b, sim, query, layer, visited);
    forall id | id in visited && id in b ensures ReachesFrom(b, layer, entries, id) {
      ReachTransfers(a, b, layer, entries, id);
    }
    forall i | 0 <= i < |found| ensures Edges(b, layer, found[i].id) <= visited {
      assert Edges(a, layer, found[i].id) <= visited;
    }
  }

  lemma SameView(a: Graph, b: Graph, sim: Similarity, query: Vector, layer: nat, visited: set<string>)
    requires SameNodes(a, b) && SameLayer(a, b, layer)
    ensures a.Keys == b.Keys && ScoreMap(a, sim, query, visited) == ScoreMap(b, sim, query, visited)
    ensures forall n :: Edges(a, layer, n) == Edges(b, layer, n)
  {
  }

  lemma ReachTransfers(a: Graph, b: Graph, layer: nat, entries: seq<string>, id: string)
    requires a.Keys == b.Keys && forall n :: Edges(a, layer, n) == Edges(b, layer, n)
    requires ReachesFrom(a, layer, entries, id)
    ensures ReachesFrom(b, layer, entries, id)
  {
    hide Edges;
    var s :| s in entries && Reaches(a, layer, s, id);
    var path :| IsPath(a, layer, path) && path[0] == s && path[|path| - 1] == id;
    assert IsPath(b, layer, path);
  }

  /** What a layer search finds lives in the layer, and is not a node that nothing links to. */
  lemma FoundInLayer(nodes: Graph, sim: Similarity, query: Vector, M: nat, layer: nat, start: string, ef: int,
                     found: seq<Hit>, visited: set<string>, lonely: string)
    requires GraphOk(nodes, M) && start in nodes && nodes[start].level >= layer && start != lonely
    requires IsSearchResult(nodes, sim, query, layer, [start], ef, found, visited)
    requires forall n :: lonely !in Edges(nodes, layer, n)
    ensures |found| > 0 && DistinctIds(found)
    ensures forall i | 0 <= i < |found| ::
            found[i].id in nodes && nodes[found[i].id].level >= layer && found[i].id != lonely
  {
    var scores := ScoreMap(nodes, sim, query, visited);
    assert [start][0] in visited && start in scores;
    SubsetSize({start}, scores.Keys);
    forall i | 0 <= i < |found|
      ensures found[i].id in nodes && nodes[found[i].id].level >= layer && found[i].id != lonely {
      assert found[i].id in scores;
      ReachStaysInLayer(nodes, M, layer, start, found[i].id);
    }
  }

  /** A brand-new node is isolated: it links to nothing and nothing links to it. */
  lemma NewNodeIsolated(nodes: Graph, M: nat, id: string, node: Node, more: Graph)
    requires GraphOk(nodes, M) && id !in nodes && more == nodes[id := node]
    requires forall l: nat :: l in node.neighbors <==> l <= node.level
    requires forall l | l in node.neighbors :: node.neighbors[l] == {}
    ensures GraphOk(more, M)
    ensures forall n, l: nat :: id !in Edges(more, l, n)
  {
    forall n, l: nat ensures id !in Edges(more, l, n) {
      if n in nodes { assert EdgesOk(nodes, M, n, l); }
    }
    forall n, l: nat | n in more ensures EdgesOk(more, M, n, l) {
      if n in nodes { assert EdgesOk(nodes, M, n, l); }
    }
  }

  lemma SameLayerEverywhere(a: Graph, b: Graph, layer: nat)
    requires SameNodes(a, b) && SameLayer(a, b, layer)
    ensures forall n :: Edges(a, layer, n) == Edges(b, layer, n)
  {
  }

  lemma SameLayerChains(a: Graph, b: Graph, c: Graph, layer: nat)
    requires SameNodes(a, b) && SameNodes(b, c) && SameLayer(a, b, layer) && SameLayer(b, c, layer)
    ensures SameLayer(a, c, layer)
  {
  }

  lemma LinkedTransfers(before: Graph, previous: Graph, after: Graph, sim: Similarity, M: nat, layer: nat,
                        id: string, chosen: set<string>)
    requires SameNodes(before, previous) && SameLayer(before, previous, layer)
    requires Linked(previous, after, sim, M, layer, id, chosen)
    ensures Linked(before, after, sim, M, layer, id, chosen)
  {
    hide Linked, Pruned;
    SameLayerEverywhere(before, previous, layer);
    forall n | LinkedBack(previous, after, sim, M, layer, id, n)
      ensures LinkedBack(before, after, sim, M, layer, id, n) {
      PrunedTransfers(before, previous, sim, previous[n].vector, Edges(before, layer, n) + {id},
        Edges(after, layer, n), MaxDegree(M, layer));
    }
    LinkedFromParts(before, previous, after, sim, M, layer, id, chosen);
  }

  lemma PrunedTransfers(a: Graph, b: Graph, sim: Similarity, vector: Vector, links: set<string>, kept: set<string>,
                        cap: nat)
    requires SameNodes(a, b) && Pruned(b, sim, vector, links, kept, cap)
    ensures Pruned(a, sim, vector, links, kept, cap)
  {
    assert forall n :: VectorOf(a, n) == VectorOf(b, n);
  }

  lemma LinkedFromParts(before: Graph, previous: Graph, after: Graph, sim: Similarity, M: nat, layer: nat,
                        id: string, chosen: set<string>)
    requires before.Keys == previous.Keys
    requires forall n :: Edges(before, layer, n) == Edges(previous, layer, n)
    requires forall n | LinkedBack(previous, after, sim, M, layer, id, n) ::
             LinkedBack(before, after, sim, M, layer, id, n)
    requires Linked(previous, after, sim, M, layer, id, chosen)
    ensures Linked(before, after, sim, M, layer, id, chosen)
  {
    hide LinkedBack, Edges;
  }

  lemma LinkedBackStays(before: Graph, a: Graph, b: Graph, sim: Similarity, M: nat, layer: nat, id: string, n: string)
    requires LinkedBack(before, a, sim, M, layer, id, n)
    requires n in a && n in b && a[n] == b[n]
    ensures LinkedBack(before, b, sim, M, layer, id, n)
  {
  }

  lemma LayerFromParts(before: Graph, after: Graph, sim: Similarity, M: nat, ef: int, layer: nat, id: string,
                       chosen: set<string>, start: string, found: seq<Hit>, visited: set<string>)
    requires Linked(before, after, sim, M, layer, id, chosen) && found != []
    requires ChosenBySearch(before, sim, M, ef, layer, id, chosen, start, found, visited)
    ensures LayerInserted(before, after, sim, M, ef, layer, id, start, found[0].id)
  {
    hide ChosenBySearch;
  }

  lemma SameLayerBack(a: Graph, b: Graph, layer: nat)
    requires SameNodes(a, b) && SameLayer(a, b, layer)
    ensures SameNodes(b, a) && SameLayer(b, a, layer)
  {
  }

  /**
   After the links of one layer: the graph is well formed and the layer is inserted with respect to the
   start of the insertion.
   */
  lemma LayerIsDone(before: Graph, previous: Graph, after: Graph, sim: Similarity, M: nat, ef: int, layer: nat,
                    id: string, chosen: set<string>, start: string, found: seq<Hit>, visited: set<string>, k: nat)
    requires GraphOk(previous, M) && SameNodes(before, previous) && SameLayer(before, previous, layer)
             && SameNodes(previous, after)
    requires id in previous && previous[id].level >= layer && start in previous && start != id
    requires found != [] && k == Min(MaxDegree(M, layer), |found|)
    requires IsSearchResult(previous, sim, previous[id].vector, layer, [start], ef, found, visited)
    requires chosen == Ids(found[..k]) && |chosen| <= MaxDegree(M, layer)
    requires forall i | 0 <= i < |found| ::
             found[i].id in previous && previous[found[i].id].level >= layer && found[i].id != id
    requires Linked(previous, after, sim, M, layer, id, chosen)
    requires forall l: nat | l != layer :: SameLayer(previous, after, l)
    ensures GraphOk(after, M) && SameNodes(before, after)
    ensures LayerInserted(before, after, sim, M, ef, layer, id, start, found[0].id)
  {
    hide GraphOk, Linked, IsSearchResult, SameLayer, LayerInserted, Edges;
    forall n | n in chosen ensures n in previous && previous[n].level >= layer && n != id {
      var i :| 0 <= i < k && found[..k][i].id == n;
      assert found[i].id == n;
    }
    LinkedTransfers(before, previous, after, sim, M, layer, id, chosen);
    LinkKeepsGraphOk(previous, after, sim, M, layer, id, chosen);
    SameLayerBack(before, previous, layer);
    SearchResultTransfers(previous, before, sim, previous[id].vector, layer, [start], ef, found, visited);
    assert ChosenBySearch(before, sim, M, ef, layer, id, chosen, start, found, visited);
    LayerFromParts(before, after, sim, M, ef, layer, id, chosen, start, found, visited);
  }

  lemma LayerInsertedTransfers(before: Graph, previous: Graph, after: Graph, sim: Similarity, M: nat, ef: int,
                               layer: nat, id: string, start: string, next: string)
    requires SameNodes(before, previous) && SameNodes(previous, after) && SameLayer(previous, after, layer)
    requires LayerInserted(before, previous, sim, M, ef, layer, id, start, next)
    ensures LayerInserted(before, after, sim, M, ef, layer, id, start, next)
  {
    assert forall n :: Edges(previous, layer, n) == Edges(after, layer, n);
    forall n | n in Edges(previous, layer, id) ensures LinkedBack(before, after, sim, M, layer, id, n) {
      assert LinkedBack(before, previous, sim, M, layer, id, n);
    }
  }

  lemma VectorUpdateOk(nodes: Graph, entryPoint: Option<string>, maxLevel: int, M: nat, id: string, vector: Vector)
    requires GraphOk(nodes, M) && EntryOk(nodes, entryPoint, maxLevel) && id in nodes
    ensures GraphOk(nodes[id := nodes[id].(vector := vector)], M)
    ensures EntryOk(nodes[id := nodes[id].(vector := vector)], entryPoint, maxLevel)
  {
    var updated := nodes[id := nodes[id].(vector := vector)];
    forall n, l: nat | n in updated ensures EdgesOk(updated, M, n, l) {
      assert EdgesOk(nodes, M, n, l);
    }
  }

  lemma GraphHasLayer(nodes: Graph, M: nat, id: string, layer: nat)
    requires GraphOk(nodes, M) && id in nodes
    ensures layer in nodes[id].neighbors <==> layer <= nodes[id].level
  {
  }

  /** Best selections of one vector's links are what pruning keeps. */
  lemma BestIsPruned(nodes: Graph, sim: Similarity, vector: Vector, links: set<string>, hits: seq<Hit>, count: nat)
    requires DistinctIds(hits) && Ids(hits) == links && count <= |links|
    requires forall i | 0 <= i < |hits| :: hits[i].score == sim(vector, VectorOf(nodes, hits[i].id))
    ensures |SortDescending(hits)| == |hits| == |links|
    ensures Pruned(nodes, sim, vector, links, Ids(SortDescending(hits)[..count]), count)
  {
    IdsCount(hits);
    var all := map id | id in links :: sim(vector, VectorOf(nodes, id));
    assert ScoredBy(hits, all) by {
      forall i | 0 <= i < |hits| ensures hits[i].id in links { assert hits[i].id in Ids(hits); }
    }
    assert all.Keys == links;
    SortDescendingSorts(hits);
    hide SortDescending, ScoredBy;
    SortedPrefixIsBest(hits, all, count);
    BestOfLinks(nodes, sim, vector, all, SortDescending(hits)[..count], count);
  }

  lemma BestOfLinks(nodes: Graph, sim: Similarity, vector: Vector, all: map<string, real>, best: seq<Hit>, count: nat)
    requires IsBest(best, all, count) && count <= |all|
    requires forall id | id in all :: all[id] == sim(vector, VectorOf(nodes, id))
    ensures Pruned(nodes, sim, vector, all.Keys, Ids(best), count)
  {
    IdsCount(best);
    forall k, d | k in Ids(best) && d in all.Keys - Ids(best)
      ensures sim(vector, VectorOf(nodes, d)) <= sim(vector, VectorOf(nodes, k)) {
      var i :| 0 <= i < |best| && best[i].id == k;
      assert all[d] <= best[i].score;
    }
  }

  lemma PushDistinct(hits: seq<Hit>, h: Hit)
    requires DistinctIds(hits) && h.id !in Ids(hits)
    ensures DistinctIds(hits + [h]) && Ids(hits + [h]) == Ids(hits) + {h.id}
  {
    assert hits + [h] == hits[..|hits|] + [h] + hits[|hits|..];
    InsertedIds(hits, h, |hits|, hits + [h]);
    forall i | 0 <= i < |hits| ensures hits[i].id != h.id { assert hits[i].id in Ids(hits); }
  }

  /** The layers above `l` up to `top` have been linked, each from its own start; all others are as they were. */
  ghost predicate ConnectedAbove(before: Graph, now: Graph, sim: Similarity, M: nat, ef: int, l: int, top: nat,
                                 id: string, starts: map<int, string>) {
    && SameNodes(before, now)
    && (forall k: int | l <= k <= top :: k in starts)
    && (forall k: nat | l < k <= top :: LayerInserted(before, now, sim, M, ef, k, id, starts[k], starts[k - 1]))
    && (forall k: nat | k <= l || k > top :: SameLayer(before, now, k))
  }

  lemma NothingConnected(before: Graph, sim: Similarity, M: nat, ef: int, top: nat, id: string, start: string)
    ensures ConnectedAbove(before, before, sim, M, ef, top, top, id, map[top as int := start])
  {
  }

  lemma StillSame(before: Graph, now: Graph, sim: Similarity, M: nat, ef: int, l: nat, top: nat, id: string,
                  starts: map<int, string>)
    requires ConnectedAbove(before, now, sim, M, ef, l, top, id, starts)
    ensures SameLayer(before, now, l)
  {
  }

  lemma OneMoreConnected(before: Graph, previous: Graph, after: Graph, sim: Similarity, M: nat, ef: int, l: nat,
                         top: nat, id: string, starts: map<int, string>, next: string)
    requires l <= top && ConnectedAbove(before, previous, sim, M, ef, l, top, id, starts)
    requires SameNodes(previous, after) && forall k: nat | k != l :: SameLayer(previous, after, k)
    requires SameNodes(before, after) && LayerInserted(before, after, sim, M, ef, l, id, starts[l], next)
    ensures ConnectedAbove(before, after, sim, M, ef, l - 1, top, id, starts[l - 1 := next])
  {
    hide SameLayer, LayerInserted, SameNodes;
    forall k: nat | l < k <= top ensures LayerInserted(before, after, sim, M, ef, k, id, starts[k], starts[k - 1]) {
      LayerInsertedTransfers(before, previous, after, sim, M, ef, k, id, starts[k], starts[k - 1]);
    }
    forall k: nat | k < l || k > top ensures SameLayer(before, after, k) {
      SameLayerChains(before, previous, after, k);
    }
  }

  /** The state of the linking loop after the first `i` neighbours. */
  ghost predicate LinkedSoFar(before: Graph, now: Graph, sim: Similarity, M: nat, layer: nat, id: string,
                              neighbors: seq<string>, i: nat)
    requires i <= |neighbors|
  {
    && SameNodes(before, now)
    && Edges(now, layer, id) == (set n | n in neighbors)
    && (forall j | 0 <= j < i :: LinkedBack(before, now, sim, M, layer, id, neighbors[j]))
    && (forall n | n in before && n != id && n !in neighbors[..i] :: Edges(now, layer, n) == Edges(before, layer, n))
    && (forall l: nat | l != layer :: SameLayer(before, now, l))
  }

  lemma StartLinking(before: Graph, now: Graph, sim: Similarity, M: nat, layer: nat, id: string, neighbors: seq<string>)
    requires id in before && layer in before[id].neighbors
    requires now == before[id := before[id].(neighbors := before[id].neighbors[layer := set n | n in neighbors])]
    ensures LinkedSoFar(before, now, sim, M, layer, id, neighbors, 0)
  {
  }

  lemma UntouchedYet(before: Graph, now: Graph, sim: Similarity, M: nat, layer: nat, id: string,
                     neighbors: seq<string>, i: nat)
    requires i < |neighbors| && Distinct(neighbors) && id !in neighbors && neighbors[i] in before
    requires LinkedSoFar(before, now, sim, M, layer, id, neighbors, i)
    ensures Edges(now, layer, neighbors[i]) == Edges(before, layer, neighbors[i])
  {
    hide LinkedBack, SameLayer, Edges;
    assert neighbors[i] in neighbors && neighbors[i] !in neighbors[..i];
  }

  lemma LinkNext(before: Graph, previous: Graph, now: Graph, sim: Similarity, M: nat, layer: nat, id: string,
                 neighbors: seq<string>, i: nat)
    requires i < |neighbors| && Distinct(neighbors) && id !in neighbors
    requires id in before && neighbors[i] in before
    requires LinkedSoFar(before, previous, sim, M, layer, id, neighbors, i)
    requires SameNodes(before, now)
    requires forall n | n in previous && n != neighbors[i] :: now[n] == previous[n]
    requires forall l: nat | l != layer :: Edges(now, l, neighbors[i]) == Edges(previous, l, neighbors[i])
    requires LinkedBack(before, now, sim, M, layer, id, neighbors[i])
    ensures LinkedSoFar(before, now, sim, M, layer, id, neighbors, i + 1)
  {
    hide Pruned;
    forall j | 0 <= j < i ensures LinkedBack(before, now, sim, M, layer, id, neighbors[j]) {
      LinkedBackStays(before, previous, now, sim, M, layer, id, neighbors[j]);
    }
    forall n | n in before && n != id && n !in neighbors[..i + 1]
      ensures Edges(now, layer, n) == Edges(before, layer, n) {
      assert neighbors[..i + 1] == neighbors[..i] + [neighbors[i]];
      assert n != neighbors[i] && n !in neighbors[..i];
    }
    forall l: nat | l != layer ensures SameLayer(before, now, l) {
      assert SameLayer(before, previous, l);
    }
  }

  lemma AllLinked(before: Graph, now: Graph, sim: Similarity, M: nat, layer: nat, id: string, neighbors: seq<string>)
    requires LinkedSoFar(before, now, sim, M, layer, id, neighbors, |neighbors|)
    ensures SameNodes(before, now) && forall l: nat | l != layer :: SameLayer(before, now, l)
    ensures Linked(before, now, sim, M, layer, id, set n | n in neighbors)
  {
    hide LinkedBack;
    assert neighbors[..|neighbors|] == neighbors;
  }

  lemma FirstDistinct(s: seq<Hit>, n: nat)
    requires DistinctIds(s) && n <= |s|
    ensures DistinctIds(s[..n]) && |Ids(s[..n])| == n
  {
    IdsCount(s[..n]);
  }

  /**
   What an insertion into the graph `before`, which holds the new node without links, does to
   its edges: down the trail of the descent, then layer by layer, each linked from its start.
   */
  ghost predicate IsInserted(before: Graph, after: Graph, sim: Similarity, M: nat, ef: int,
                             entryPoint: Option<string>, maxLevel: int, id: string, trail: seq<string>,
                             starts: map<int, string>) {
    && id in before && SameNodes(before, after)
    && var top := Min(before[id].level, maxLevel);
    && (entryPoint.Some? ==>
          && trail != [] && Descent(before, sim, before[id].vector, entryPoint.value, maxLevel, before[id].level, trail)
          && (forall l: int | -1 <= l <= top :: l in starts) && top in starts && starts[top] == trail[|trail| - 1]
          && forall l: nat | l <= top :: LayerInserted(before, after, sim, M, ef, l, id, starts[l], starts[l - 1]))
    && (forall l: nat | l > top :: SameLayer(before, after, l))
  }

  /** The state of an index. */
  datatype Index = Index(nodes: Graph, entryPoint: Option<string>, maxLevel: int)

  const EMPTY_INDEX: Index := Index(map[], None, -1)

  /** A well-formed graph with an entry point of the highest level. */
  ghost predicate IndexOk(s: Index, M: nat) {
    GraphOk(s.nodes, M) && EntryOk(s.nodes, s.entryPoint, s.maxLevel)
  }

  /** The whole effect of an insertion: a known id only changes its vector, a new one is linked. */
  ghost predicate IsInsertStep(s: Index, t: Index, sim: Similarity, M: nat, ef: int, id: string, vector: Vector,
                               level: nat, trail: seq<string>, starts: map<int, string>) {
    && IndexOk(t, M)
    && if id in s.nodes then t == s.(nodes := s.nodes[id := s.nodes[id].(vector := vector)])
       else
         && IsInserted(s.nodes[id := NewNode(vector, level)], t.nodes, sim, M, ef, s.entryPoint, s.maxLevel, id,
            trail, starts)
         && t.maxLevel == Max(level, s.maxLevel)
         && t.entryPoint == if level > s.maxLevel then Some(id) else s.entryPoint
  }

  /** What is stored after an insertion: the vector under its id, and every other node's vector and level as before. */
  lemma InsertStores(s: Index, t: Index, sim: Similarity, M: nat, ef: int, id: string, vector: Vector, level: nat,
                     trail: seq<string>, starts: map<int, string>)
    requires IsInsertStep(s, t, sim, M, ef, id, vector, level, trail, starts)
    ensures t.nodes.Keys == s.nodes.Keys + {id}
    ensures t.nodes[id].vector == vector && t.nodes[id].level == if id in s.nodes then s.nodes[id].level else level
    ensures forall n | n in s.nodes && n != id ::
            t.nodes[n].vector == s.nodes[n].vector && t.nodes[n].level == s.nodes[n].level
  {
    hide GraphOk, EntryOk, LayerInserted, Descent, SameLayer, EmptyLayers;
    if id !in s.nodes {
      var before := s.nodes[id := NewNode(vector, level)];
      assert SameNodes(before, t.nodes);
    }
  }

  /**
   What an insertion does to a layer, in numbers: the new node is linked to the first hits of a
   search, the next layer starts at the very first; everybody keeps at most 2M neighbours in layer 0
   and M in the others, and no fewer than there are, none of them beaten by a dropped one.
   */
  lemma DegreesInNumbers(before: Graph, after: Graph, sim: Similarity, M: nat, ef: int, layer: nat, id: string,
                         start: string, next: string)
    requires LayerInserted(before, after, sim, M, ef, layer, id, start, next)
    ensures var most: nat := if layer == 0 then 2 * M else M;
            && (forall n | n in Edges(after, layer, id) ::
                 KeepsClosest(before, sim, n, Edges(before, layer, n) + {id}, Edges(after, layer, n), most))
            && exists found, visited ::
                 LinksFirstHits(before, sim, most, ef, layer, id, Edges(after, layer, id), start, next, found, visited)
  {
    hide IsSearchResult, Edges;
    var chosen := Edges(after, layer, id);
    var found: seq<Hit>, visited :|
      ChosenBySearch(before, sim, M, ef, layer, id, chosen, start, found, visited) && found != []
        && found[0].id == next;
    FoundDistinct(before, sim, before[id].vector, layer, [start], ef, found, visited);
    FirstDistinct(found, Min(MaxDegree(M, layer), |found|));
    assert LinksFirstHits(before, sim, MaxDegree(M, layer), ef, layer, id, chosen, start, next, found, visited);
    LinksInNumbers(before, after, sim, M, layer, id);
  }

  lemma LinksInNumbers(before: Graph, after: Graph, sim: Similarity, M: nat, layer: nat, id: string)
    requires Linked(before, after, sim, M, layer, id, Edges(after, layer, id))
    ensures forall n | n in Edges(after, layer, id) ::
              KeepsClosest(before, sim, n, Edges(before, layer, n) + {id}, Edges(after, layer, n), MaxDegree(M, layer))
  {
    hide Edges, KeepsClosest, Pruned;
    forall n | n in Edges(after, layer, id)
      ensures KeepsClosest(before, sim, n, Edges(before, layer, n) + {id}, Edges(after, layer, n), MaxDegree(M, layer))
    {
      assert LinkedBack(before, after, sim, M, layer, id, n);
      PrunedIsClosest(before, sim, n, Edges(before, layer, n) + {id}, Edges(after, layer, n), MaxDegree(M, layer));
    }
  }

  /**
   The links are the first hits of the search, as many as allowed, and the very first is where the next
   layer starts.
   */
  ghost predicate LinksFirstHits(nodes: Graph, sim: Similarity, most: nat, ef: int, layer: nat, id: string,
                                 links: set<string>, start: string, next: string, found: seq<Hit>,
                                 visited: set<string>) {
    && id in nodes && IsSearchResult(nodes, sim, nodes[id].vector, layer, [start], ef, found, visited)
    && found != [] && next == found[0].id
    && |links| == (if |found| <= most then |found| else most) && links == Ids(found[..|links|])
  }

  lemma PrunedIsClosest(nodes: Graph, sim: Similarity, n: string, links: set<string>, kept: set<string>, most: nat)
    requires n in nodes && Pruned(nodes, sim, nodes[n].vector, links, kept, most)
    ensures KeepsClosest(nodes, sim, n, links, kept, most)
  {
    forall k, d | k in kept && d in links && d !in kept && k in nodes && d in nodes
      ensures sim(nodes[n].vector, nodes[k].vector) >= sim(nodes[n].vector, nodes[d].vector)
    {
      assert d in links - kept;
    }
  }

  /** Of the links of a stored node, as many as allowed are kept, and no dropped one is closer than a kept one. */
  ghost predicate KeepsClosest(nodes: Graph, sim: Similarity, n: string, links: set<string>, kept: set<string>,
                               most: nat) {
    && n in nodes && kept <= links && |kept| == (if |links| <= most then |links| else most)
    && forall k, d | k in kept && d in links && d !in kept && k in nodes && d in nodes ::
         sim(nodes[n].vector, nodes[k].vector) >= sim(nodes[n].vector, nodes[d].vector)
  }

  lemma FoundDistinct(nodes: Graph, sim: Similarity, query: Vector, layer: nat, entries: seq<string>, ef: int,
                      found: seq<Hit>, visited: set<string>)
    requires IsSearchResult(nodes, sim, query, layer, entries, ef, found, visited)
    ensures DistinctIds(found)
  {
  }

  lemma FirstInserted(nodes: Graph, sim: Similarity, M: nat, ef: int, id: string, node: Node, trail: seq<string>,
                      starts: map<int, string>)
    requires nodes == map[id := node]
    ensures IsInserted(nodes, nodes, sim, M, ef, None, -1, id, trail, starts)
    ensures EntryOk(nodes, Some(id), node.level)
  {
  }

  lemma EntryAfterInsert(nodes: Graph, entryPoint: Option<string>, maxLevel: int, id: string, node: Node, after: Graph)
    requires EntryOk(nodes, entryPoint, maxLevel) && id !in nodes && SameNodes(nodes[id := node], after)
    ensures EntryOk(after, if node.level > maxLevel then Some(id) else entryPoint, Max(node.level, maxLevel))
  {
  }

  class InMemoryHNSW {
    var nodes: Graph
    var entryPoint: Option<string>
    var maxLevel: int
    const similarity: Similarity
    const M: nat
    const efConstruction: int

    // counters
    var insertCount: nat
    var searchCount: nat

    ghost function View(): Index
      reads this
    {
      Index(nodes, entryPoint, maxLevel)
    }

    ghost predicate Valid()
      reads this
    {
      IndexOk(View(), M)
    }

    lemma ValidParts()
      requires Valid()
      ensures GraphOk(nodes, M) && EntryOk(nodes, entryPoint, maxLevel)
    {
    }

    constructor (similarity: Similarity, M: nat, efConstruction: int)
      ensures Valid() && View() == EMPTY_INDEX && insertCount == searchCount == 0
      ensures this.similarity == similarity && this.M == M && this.efConstruction == efConstruction
    {
      this.similarity, this.M, this.efConstruction := similarity, M, efConstruction;
      nodes, entryPoint, maxLevel := map[], None, -1;
      insertCount, searchCount := 0, 0;
    }

    /** The opening of the search: every stored entry point is visited, a candidate and a hit. */
    method StartLists(ghost q: Query, query: Vector, entryPoints: seq<string>)
      returns (candidates: seq<Hit>, results: seq<Hit>, visited: set<string>)
      requires q == Query(nodes, similarity, query, q.layer, Stored(nodes, entryPoints), q.ef)
      ensures |candidates| == |results| == |q.entries| && visited == set id | id in q.entries
      ensures q.entries != [] ==> Running(q, candidates, results, visited, {})
    {
      hide *;
      visited := set id | id in entryPoints && id in nodes;
      candidates, results := [], [];
      assert EntryHits(nodes, similarity, query, []) == [] by { assert Stored(nodes, []) == []; }
      assert entryPoints[..0] == [];
      for i := 0 to |entryPoints|
        invariant results == EntryHits(nodes, similarity, query, entryPoints[..i])
        invariant candidates == Negated(results)
      {
        var epId := entryPoints[i];
        NextEntry(nodes, similarity, query, entryPoints, i);
        if epId in nodes {
          var sim := similarity(query, nodes[epId].vector);
          NegatedPush(results, Hit(epId, sim));
          candidates := candidates + [Hit(epId, -sim)];
          results := results + [Hit(epId, sim)];
        }
      }
      assert entryPoints[..|entryPoints|] == entryPoints;
      assert visited == set id | id in q.entries;
      StoredHits(q, entryPoints);
      StartSearch(q, results, visited);
      candidates := SortAscending(candidates);
      results := SortAscending(results);
    }

    /** Best-first search of one layer from the given entry points. */
    method SearchLayer(query: Vector, entryPoints: seq<string>, ef: int, layer: nat)
      returns (found: seq<Hit>, ghost visited: set<string>)
      ensures Descending(found) && (found == [] <==> Stored(nodes, entryPoints) == [])
      ensures Distinct(Stored(nodes, entryPoints))
              ==> Settled(nodes, similarity, query, layer, Max(ef, |Stored(nodes, entryPoints)|), found)
      ensures Distinct(Stored(nodes, entryPoints))
              ==> IsSearchResult(nodes, similarity, query, layer, Stored(nodes, entryPoints), ef, found, visited)
    {
      hide *;
      ghost var q := Query(nodes, similarity, query, layer, Stored(nodes, entryPoints), ef);
      var candidates, results, seen := StartLists(q, query, entryPoints);

      while candidates != []
        invariant q.entries == [] ==> candidates == results == [] && seen == {}
        invariant q.entries != [] ==> Running(q, candidates, results, seen, {})
        decreases nodes.Keys - seen, |candidates|
      {
        RunningHit(q, candidates, results, seen, {});
        PopCandidate(q, candidates, results, seen);
        var closest := candidates[0];
        var closestSim := -closest.score;
        if |results| >= ef && closestSim < results[0].score {
          BreakLeavesNoneWaiting(q, candidates, results, seen);
          candidates := [];
          break;
        }
        candidates := candidates[1..];
        if closest.id !in nodes {
          continue;
        }
        candidates, results, seen := Expand(q, query, ef, layer, closest.id, candidates, results, seen);
      }

      found := SortDescending(results);
      visited := seen;
      FinishSearch(q, results, seen);
      if Distinct(q.entries) {
        ResultIsSettled(nodes, similarity, query, layer, q.entries, ef, found, visited);
      }
    }

    /** The inner loop of the search: looks at every neighbour of the node taken from the candidates. */
    method Expand(ghost q: Query, query: Vector, ef: int, layer: nat, id: string,
                  candidates0: seq<Hit>, results0: seq<Hit>, visited0: set<string>)
      returns (candidates: seq<Hit>, results: seq<Hit>, visited: set<string>)
      requires q == Query(nodes, similarity, query, layer, q.entries, ef)
      requires Running(q, candidates0, results0, visited0, {id}) && id in nodes
               && (Distinct(q.entries) ==> id in visited0)
      ensures Running(q, candidates, results, visited, {})
      ensures visited == visited0 + Edges(nodes, layer, id)
      ensures nodes.Keys - visited == nodes.Keys - visited0 ==> candidates == candidates0
    {
      hide *;
      candidates, results, visited := candidates0, results0, visited0;
      var rest := Edges(nodes, layer, id);
      ghost var done: set<string> := {};
      while rest != {}
        invariant done !! rest && done + rest == Edges(nodes, layer, id)
        invariant visited == visited0 + done
        invariant Running(q, candidates, results, visited, {id})
        invariant nodes.Keys - visited == nodes.Keys - visited0 ==> candidates == candidates0
        decreases rest
      {
        var neighborId :| neighborId in rest;
        rest, done := rest - {neighborId}, done + {neighborId};
        candidates, results, visited := Visit(q, query, ef, layer, id, neighborId, candidates, results, visited);
      }
      CloseNode(q, candidates, results, visited, id);
    }

    /** One turn of the inner loop: a neighbour met for the first time is offered to both lists. */
    method Visit(ghost q: Query, query: Vector, ef: int, layer: nat, ghost open: string, neighborId: string,
                 candidates0: seq<Hit>, results0: seq<Hit>, visited0: set<string>)
      returns (candidates: seq<Hit>, results: seq<Hit>, visited: set<string>)
      requires q == Query(nodes, similarity, query, layer, q.entries, ef)
      requires Running(q, candidates0, results0, visited0, {open}) && open in nodes
               && (Distinct(q.entries) ==> open in visited0)
      requires neighborId in Edges(nodes, layer, open)
      ensures Running(q, candidates, results, visited, {open})
      ensures visited == visited0 + {neighborId}
      ensures neighborId in visited0 || neighborId !in nodes ==> candidates == candidates0
    {
      hide Running, Searching, SortAscending, Edges, Distinct;
      RunningHit(q, candidates0, results0, visited0, {open});
      candidates, results, visited := candidates0, results0, visited0;
      if neighborId in visited {
        assert visited == visited + {neighborId};
        return;
      }
      visited := visited + {neighborId};
      if neighborId !in nodes {
        VisitMissing(q, candidates, results, visited0, {open}, neighborId);
        return;
      }
      VisitStored(q, candidates, results, visited0, open, neighborId);
      var sim := similarity(query, nodes[neighborId].vector);
      if |results| < ef || sim > results[0].score {
        candidates := candidates + [Hit(neighborId, -sim)];
        results := results + [Hit(neighborId, sim)];
        SortAscendingSorts(results);
        candidates := SortAscending(candidates);
        results := SortAscending(results);
        if |results| > ef {
          results := results[1..];
        }
      }
    }

    /** Greedy descent: from layer `top` down to the layer above `stop`, always moving to the best node found. */
    method Descend(query: Vector, start: string, top: nat, stop: nat) returns (id: string, ghost trail: seq<string>)
      requires GraphOk(nodes, M) && start in nodes && nodes[start].level >= top
      ensures trail != [] && Descent(nodes, similarity, query, start, top, stop, trail) && id == trail[|trail| - 1]
      ensures id in nodes && nodes[id].level >= Min(top, stop)
      ensures similarity(query, nodes[id].vector) >= similarity(query, nodes[start].vector)
      ensures top > stop ==> LocallyBest(nodes, similarity, query, stop + 1, id)
      ensures id != start ==> exists n, l: nat :: id in Edges(nodes, l, n)
    {
      hide GraphOk, IsSearchResult, LocallyBest, Edges, Descent;
      id, trail := start, [start];
      var l := top;
      DescentStarts(nodes, similarity, query, start, top);
      while l > stop
        invariant id in nodes && nodes[id].level >= l
        invariant l >= Min(top, stop) && l <= top
        invariant Descent(nodes, similarity, query, start, top, l, trail) && trail != [] && id == trail[|trail| - 1]
        invariant similarity(query, nodes[id].vector) >= similarity(query, nodes[start].vector)
        invariant l < top ==> LocallyBest(nodes, similarity, query, l + 1, id)
        invariant id != start ==> exists n, k: nat :: id in Edges(nodes, k, n)
      {
        var results, visited := SearchLayer(query, [id], 1, l);
        GreedyStep(nodes, similarity, query, M, l, id, results, visited);
        DescentGrows(nodes, similarity, query, M, start, l, top, trail, results, visited);
        if |results| > 0 {
          id := results[0].id;
        }
        trail := trail + [id];
        l := l - 1;
      }
      DescentEnds(nodes, similarity, query, start, l, top, stop, trail);
    }

    /**
     The `topK` most similar nodes above the threshold that the bottom-layer search gets to see; a
     negative `topK` drops hits from the end.
     */
    method Search(query: Vector, topK: int, ef: Option<int>, threshold: real)
      returns (hits: seq<Hit>, ghost trail: seq<string>, ghost found: seq<Hit>, ghost visited: set<string>)
      requires Valid()
      modifies this`searchCount
      ensures RankedAbove(nodes, similarity, query, threshold, hits)
      ensures nodes == map[] ==> hits == [] && searchCount == old(searchCount)
      ensures nodes != map[] ==>
        var width := Max(topK, if ef.Some? then ef.value else efConstruction);
        && searchCount == old(searchCount) + 1
        && trail != [] && Descent(nodes, similarity, query, entryPoint.value, maxLevel, 0, trail)
        && var bottom := trail[|trail| - 1];
        && IsAnswer(nodes, similarity, query, bottom, width, threshold, topK, hits, found, visited)
        && bottom in nodes
        && similarity(query, nodes[bottom].vector) >= similarity(query, nodes[entryPoint.value].vector)
        && (maxLevel > 0 ==> LocallyBest(nodes, similarity, query, 1, bottom))
    {
      hide *;
      ValidParts();
      trail, found, visited := [], [], {};
      EntryKnown(nodes, entryPoint, maxLevel, M);
      if |nodes| == 0 || entryPoint == None {
        assert RankedAbove(nodes, similarity, query, threshold, []) by { NoHits(nodes, similarity, query, threshold); }
        return [], trail, found, visited;
      }
      var effectiveEf := Max(topK, match ef case Some(e) => e case None => efConstruction);
      var currentId;
      currentId, trail := Descend(query, entryPoint.value, maxLevel, 0);
      hits, found, visited := SearchBottom(query, currentId, effectiveEf, threshold, topK);
      searchCount := searchCount + 1;
    }

    /** The last part of a search: the bottom layer, the threshold and the slice. */
    method SearchBottom(query: Vector, currentId: string, effectiveEf: int, threshold: real, topK: int)
      returns (hits: seq<Hit>, ghost found: seq<Hit>, ghost visited: set<string>)
      requires currentId in nodes
      ensures RankedAbove(nodes, similarity, query, threshold, hits)
      ensures IsAnswer(nodes, similarity, query, currentId, effectiveEf, threshold, topK, hits, found, visited)
    {
      hide *;
      var results;
      StoredOne(nodes, currentId);
      results, visited := SearchLayer(query, [currentId], effectiveEf, 0);
      found := results;
      SearchIsBest(nodes, similarity, query, currentId, effectiveEf, results, visited, threshold, topK);
      var filtered := FilterAtLeast(results, threshold);
      hits := filtered[..SliceEnd(|filtered|, topK)];
      AnswerIsRanked(nodes, similarity, query, currentId, effectiveEf, threshold, topK, hits, found, visited);
    }

    /**
     Inserts a vector; `level` is the random level drawn for a new node. The new node's layers
     are linked from the top down, each from the best node of the layer above, the first from
     where the greedy descent ends.
     */
    method Insert(id: string, vector: Vector, level: nat)
      returns (ghost trail: seq<string>, ghost starts: map<int, string>)
      requires Valid()
      modifies this`nodes, this`entryPoint, this`maxLevel, this`insertCount
      ensures Valid()
      ensures IsInsertStep(old(View()), View(), similarity, M, efConstruction, id, vector, level, trail, starts)
      ensures nodes.Keys == old(nodes).Keys + {id} && nodes[id].vector == vector
      ensures nodes[id].level == if id in old(nodes) then old(nodes)[id].level else level
      ensures forall n | n in old(nodes) && n != id ::
              nodes[n].vector == old(nodes)[n].vector && nodes[n].level == old(nodes)[n].level
      ensures insertCount == old(insertCount) + if id in old(nodes) then 0 else 1
    {
      hide Valid, GraphOk, EntryOk, Edges, LayerInserted, Descent, LocallyBest, SameLayer, SameNodes, IsInserted,
        EmptyLayers;
      ValidParts();
      trail, starts := [], map[];
      if id in nodes {
        VectorUpdateOk(nodes, entryPoint, maxLevel, M, id, vector);
        nodes := nodes[id := nodes[id].(vector := vector)];
        PartsValid();
        InsertStores(old(View()), View(), similarity, M, efConstruction, id, vector, level, trail, starts);
        return;
      }
      EntryKnown(nodes, entryPoint, maxLevel, M);
      NewNodeIsolated(nodes, M, id, NewNode(vector, level), nodes[id := NewNode(vector, level)]);
      nodes := nodes[id := NewNode(vector, level)];
      insertCount := insertCount + 1;
      if entryPoint == None {
        FirstInserted(nodes, similarity, M, efConstruction, id, NewNode(vector, level), trail, starts);
        entryPoint, maxLevel := Some(id), level;
      } else {
        trail, starts := LinkIn(id, vector, level);
        EntryAfterInsert(old(nodes), entryPoint, maxLevel, id, NewNode(vector, level), nodes);
        if level > maxLevel {
          entryPoint, maxLevel := Some(id), level;
        }
      }
      PartsValid();
      InsertStores(old(View()), View(), similarity, M, efConstruction, id, vector, level, trail, starts);
    }

    lemma PartsValid()
      requires GraphOk(nodes, M) && EntryOk(nodes, entryPoint, maxLevel)
      ensures Valid()
    {
    }

    /** The way down and the links of a node that is stored but not linked yet. */
    method LinkIn(id: string, vector: Vector, level: nat)
      returns (ghost trail: seq<string>, ghost starts: map<int, string>)
      requires GraphOk(nodes, M) && id in nodes && nodes[id].level == level && nodes[id].vector == vector
      requires forall n, l: nat :: id !in Edges(nodes, l, n)
      requires entryPoint.Some? && entryPoint.value in nodes && entryPoint.value != id
               && nodes[entryPoint.value].level == maxLevel >= 0
      modifies this`nodes
      ensures GraphOk(nodes, M) && SameNodes(old(nodes), nodes)
      ensures IsInserted(old(nodes), nodes, similarity, M, efConstruction, entryPoint, maxLevel, id, trail, starts)
    {
      hide LayerInserted, Descent, LocallyBest, GraphOk, Edges, SameLayer, SameNodes;
      var currentId;
      currentId, trail := Descend(vector, entryPoint.value, maxLevel, level);
      starts := ConnectLayers(id, level, currentId);
    }

    /** The per-layer loop of an insertion, from the top shared layer down to the bottom. */
    method ConnectLayers(id: string, level: nat, start: string) returns (ghost starts: map<int, string>)
      requires GraphOk(nodes, M) && id in nodes && nodes[id].level == level
      requires forall n, l: nat :: id !in Edges(nodes, l, n)
      requires start in nodes && start != id && nodes[start].level >= Min(maxLevel, level) >= 0
      modifies this`nodes
      ensures GraphOk(nodes, M) && SameNodes(old(nodes), nodes)
      ensures (forall l: int | -1 <= l <= Min(level, maxLevel) :: l in starts) && starts[Min(level, maxLevel)] == start
      ensures forall l: nat | l <= Min(level, maxLevel) ::
        LayerInserted(old(nodes), nodes, similarity, M, efConstruction, l, id, starts[l], starts[l - 1])
      ensures forall l: nat | l > Min(level, maxLevel) :: SameLayer(old(nodes), nodes, l)
    {
      hide GraphOk, LayerInserted, Edges;
      ghost var before := nodes;
      var currentId := start;
      var top := Min(level, maxLevel);
      var l := top;
      NothingConnected(before, similarity, M, efConstruction, top, id, start);
      starts := map[top := start];
      while l >= 0
        invariant -1 <= l <= top
        invariant GraphOk(nodes, M) && SameNodes(before, nodes)
        invariant ConnectedAbove(before, nodes, similarity, M, efConstruction, l, top, id, starts)
        invariant starts[top] == start && currentId == starts[l]
        invariant currentId in before && currentId != id && before[currentId].level >= l
      {
        hide SameLayer, ConnectedAbove;
        ghost var previous := nodes;
        assert forall n :: id !in Edges(before, l, n);
        StillSame(before, nodes, similarity, M, efConstruction, l, top, id, starts);
        currentId := ConnectLayer(id, l, currentId, before);
        OneMoreConnected(before, previous, nodes, similarity, M, efConstruction, l, top, id, starts, currentId);
        starts := starts[l - 1 := currentId];
        l := l - 1;
      }
    }

    /** One layer of an insertion: search, link to the best, link back and prune. */
    method ConnectLayer(id: string, layer: nat, start: string, ghost before: Graph) returns (next: string)
      requires GraphOk(nodes, M) && SameNodes(before, nodes) && SameLayer(before, nodes, layer)
      requires id in nodes && nodes[id].level >= layer
      requires start in nodes && start != id && nodes[start].level >= layer
      requires forall n :: id !in Edges(before, layer, n)
      modifies this`nodes
      ensures GraphOk(nodes, M) && SameNodes(before, nodes) && SameNodes(old(nodes), nodes)
      ensures LayerInserted(before, nodes, similarity, M, efConstruction, layer, id, start, next)
      ensures forall l: nat | l != layer :: SameLayer(old(nodes), nodes, l)
      ensures next in nodes && next != id && nodes[next].level >= layer
    {
      hide IsSearchResult, ChosenBySearch, Linked, GraphOk, LayerInserted, Edges, DistinctIds, IsBest, Pruned;
      ghost var previous := nodes;
      var vector := nodes[id].vector;
      var results, visited := SearchLayer(vector, [start], efConstruction, layer);
      assert forall n :: id !in Edges(nodes, layer, n) by { SameLayerEverywhere(before, nodes, layer); }
      FoundInLayer(nodes, similarity, vector, M, layer, start, efConstruction, results, visited, id);
      var mMax := MaxDegree(M, layer);
      GraphHasLayer(nodes, M, id, layer);
      forall i | 0 <= i < |results|
        ensures layer in nodes[results[i].id].neighbors
      {
        GraphHasLayer(nodes, M, results[i].id, layer);
      }
      var neighbors := IdList(results[..SliceEnd(|results|, mMax)]);
      ghost var chosen := set n | n in neighbors;
      assert |chosen| == |neighbors| && Distinct(neighbors) by { FirstDistinct(results, SliceEnd(|results|, mMax)); }
      LinkAll(id, layer, neighbors);
      LayerIsDone(before, previous, nodes, similarity, M, efConstruction, layer, id, chosen, start, results, visited,
        SliceEnd(|results|, mMax));
      next := start;
      if |results| > 0 {
        next := results[0].id;
      }
    }

    /** Sets the links of `id` in the layer and adds a pruned back link to each of them. */
    method LinkAll(id: string, layer: nat, neighbors: seq<string>)
      requires id in nodes && layer in nodes[id].neighbors
      requires Distinct(neighbors) && id !in neighbors
      requires forall n | n in neighbors :: n in nodes && layer in nodes[n].neighbors
      modifies this`nodes
      ensures SameNodes(old(nodes), nodes)
      ensures Linked(old(nodes), nodes, similarity, M, layer, id, set n | n in neighbors)
      ensures forall l: nat | l != layer :: SameLayer(old(nodes), nodes, l)
    {
      hide LinkedSoFar, LinkedBack, Linked, SameLayer, Distinct;
      ghost var before := nodes;
      nodes := nodes[id := nodes[id].(neighbors := nodes[id].neighbors[layer := set n | n in neighbors])];
      StartLinking(before, nodes, similarity, M, layer, id, neighbors);
      for i := 0 to |neighbors|
        invariant SameNodes(before, nodes) && LinkedSoFar(before, nodes, similarity, M, layer, id, neighbors, i)
      {
        var neighborId := neighbors[i];
        ghost var previous := nodes;
        UntouchedYet(before, nodes, similarity, M, layer, id, neighbors, i);
        LinkBack(id, layer, neighborId, before);
        LinkNext(before, previous, nodes, similarity, M, layer, id, neighbors, i);
      }
      AllLinked(before, nodes, similarity, M, layer, id, neighbors);
    }

    /** Adds `id` to one neighbour's links and prunes them when there are too many. */
    method LinkBack(id: string, layer: nat, neighborId: string, ghost before: Graph)
      requires SameNodes(before, nodes)
      requires neighborId in nodes && layer in nodes[neighborId].neighbors
      requires Edges(nodes, layer, neighborId) == Edges(before, layer, neighborId)
      modifies this`nodes
      ensures SameNodes(old(nodes), nodes) && SameNodes(before, nodes)
      ensures LinkedBack(before, nodes, similarity, M, layer, id, neighborId)
      ensures forall n | n != neighborId :: n in old(nodes) ==> nodes[n] == old(nodes)[n]
      ensures forall l: nat | l != layer :: Edges(nodes, l, neighborId) == old(Edges(nodes, l, neighborId))
    {
      var neighbor := nodes[neighborId];
      var links := Edges(nodes, layer, neighborId) + {id};
      var kept := links;
      if |links| > MaxDegree(M, layer) {
        kept := Strongest(neighbor.vector, links, MaxDegree(M, layer));
      }
      assert Pruned(before, similarity, neighbor.vector, links, kept, MaxDegree(M, layer));
      nodes := nodes[neighborId := neighbor.(neighbors := neighbor.neighbors[layer := kept])];
    }

    /** The `count` of the given ids most similar to the vector. */
    method Strongest(vector: Vector, ids: set<string>, count: nat) returns (kept: set<string>)
      requires count <= |ids|
      ensures Pruned(nodes, similarity, vector, ids, kept, count)
    {
      var hits: seq<Hit> := [];
      var rest := ids;
      while rest != {}
        invariant rest <= ids && Ids(hits) == ids - rest && DistinctIds(hits)
        invariant forall i | 0 <= i < |hits| :: hits[i].score == similarity(vector, VectorOf(nodes, hits[i].id))
        decreases rest
      {
        var nid :| nid in rest;
        rest := rest - {nid};
        PushDistinct(hits, Hit(nid, similarity(vector, VectorOf(nodes, nid))));
        hits := hits + [Hit(nid, similarity(vector, VectorOf(nodes, nid)))];
      }
      BestIsPruned(nodes, similarity, vector, ids, hits, count);
      var sorted := SortDescending(hits)[..SliceEnd(|hits|, count)];
      kept := set i | 0 <= i < |sorted| :: sorted[i].id;
    }

    method Clear()
      modifies this`nodes, this`entryPoint, this`maxLevel
      ensures Valid() && View() == EMPTY_INDEX
    {
      nodes, entryPoint, maxLevel := map[], None, -1;
    }
  }
}
