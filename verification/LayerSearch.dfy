/**
 The state of a best-first search of one layer, and why each step of it keeps the state sound:
 the two work lists, the visited set and the node being expanded.
 */
module LayerSearch {
  import opened Basics
  import opened Ranking
  import opened LayerGraph

  // ----- the state of a layer search -----

  /** Candidates carry negated scores, closest first. */
  ghost predicate CandidatesOk(candidates: seq<Hit>, scores: map<string, real>) {
    && Ascending(candidates)
    && forall i | 0 <= i < |candidates| ::
       candidates[i].id in scores && candidates[i].score == -scores[candidates[i].id]
  }

  /** Every hit is still waiting to be expanded or has only visited neighbours. */
  ghost predicate WaitingOrExpanded(nodes: Graph, layer: nat, results: seq<Hit>, waiting: set<string>,
                                    visited: set<string>) {
    forall id | id in Ids(results) :: id in waiting || Edges(nodes, layer, id) <= visited
  }

  ghost predicate AllReached(nodes: Graph, layer: nat, sources: seq<string>, visited: set<string>) {
    forall id | id in visited && id in nodes :: ReachesFrom(nodes, layer, sources, id)
  }

  datatype Query = Query(nodes: Graph, sim: Similarity, vector: Vector, layer: nat, entries: seq<string>, ef: int) {
    ghost function Scores(visited: set<string>): map<string, real> {
      ScoreMap(nodes, sim, vector, visited)
    }

    function Score(id: string): real
      requires id in nodes
    {
      sim(vector, nodes[id].vector)
    }

    function Cap(): int {
      Max(ef, |entries|)
    }
  }

  /** What holds between two steps of the search; `open` is the node whose neighbours are being visited. */
  ghost predicate Searching(q: Query, candidates: seq<Hit>, results: seq<Hit>, visited: set<string>,
                            open: set<string>) {
    && q.entries != [] && |q.entries| <= |results|
    && Ranked(results, q.Scores(visited), q.Cap())
    && CandidatesOk(candidates, q.Scores(visited))
    && WaitingOrExpanded(q.nodes, q.layer, results, Ids(candidates) + open, visited)
    && AllReached(q.nodes, q.layer, q.entries, visited)
    && (forall i | 0 <= i < |q.entries| :: q.entries[i] in visited)
  }

  /** The invariant as the loops carry it: entry points that repeat void all but that there is a hit. */
  ghost predicate Running(q: Query, candidates: seq<Hit>, results: seq<Hit>, visited: set<string>, open: set<string>) {
    results != [] && (Distinct(q.entries) ==> Searching(q, candidates, results, visited, open))
  }

  function Stored(nodes: Graph, ids: seq<string>): (r: seq<string>)
    ensures |r| <= |ids|
    ensures forall id :: id in r <==> id in ids && id in nodes
    ensures Distinct(ids) ==> Distinct(r)
    ensures Present(nodes, ids) ==> r == ids
  {
    if ids == [] then []
    else
      var front := Stored(nodes, ids[..|ids| - 1]);
      var last := ids[|ids| - 1];
      assert ids == ids[..|ids| - 1] + [last];
      if last in nodes then front + [last] else front
  }

  /** The hits for those of the given ids that are stored. */
  function EntryHits(nodes: Graph, sim: Similarity, query: Vector, ids: seq<string>): (r: seq<Hit>)
    ensures |r| == |Stored(nodes, ids)|
    ensures forall i | 0 <= i < |r| ::
              Stored(nodes, ids)[i] in nodes
                && r[i] == Hit(Stored(nodes, ids)[i], sim(query, nodes[Stored(nodes, ids)[i]].vector))
  {
    if ids == [] then []
    else
      var front := EntryHits(nodes, sim, query, ids[..|ids| - 1]);
      var last := ids[|ids| - 1];
      if last in nodes then front + [Hit(last, sim(query, nodes[last].vector))] else front
  }

  lemma NextEntry(nodes: Graph, sim: Similarity, query: Vector, ids: seq<string>, i: nat)
    requires i < |ids|
    ensures EntryHits(nodes, sim, query, ids[..i + 1])
         == EntryHits(nodes, sim, query, ids[..i])
           + if ids[i] in nodes then [Hit(ids[i], sim(query, nodes[ids[i]].vector))] else []
  {
    assert ids[..i + 1][..i] == ids[..i];
  }

  lemma NegatedPush(s: seq<Hit>, h: Hit)
    ensures Negated(s + [h]) == Negated(s) + [Hit(h.id, -h.score)]
  {
  }

  ghost predicate AreEntryHits(q: Query, hits: seq<Hit>) {
    && |hits| == |q.entries|
    && forall i | 0 <= i < |hits| :: q.entries[i] in q.nodes && hits[i] == Hit(q.entries[i], q.Score(q.entries[i]))
  }

  lemma StoredHits(q: Query, ids: seq<string>)
    requires q.entries == Stored(q.nodes, ids)
    ensures AreEntryHits(q, EntryHits(q.nodes, q.sim, q.vector, ids))
  {
  }

  lemma SameHitsSameIds(a: seq<Hit>, b: seq<Hit>)
    requires forall h :: h in a ==> h in b
    ensures Ids(a) <= Ids(b)
  {
    forall i | 0 <= i < |a| ensures a[i].id in Ids(b) {
      assert a[i] in b;
      var j :| 0 <= j < |b| && b[j] == a[i];
      assert b[j].id in Ids(b);
    }
  }

  lemma EntriesRanked(q: Query, hits: seq<Hit>, visited: set<string>)
    requires Distinct(q.entries) && q.entries != []
    requires AreEntryHits(q, hits) && visited == set id | id in q.entries
    ensures Ranked(SortAscending(hits), q.Scores(visited), q.Cap())
    ensures Ids(SortAscending(hits)) == visited && |SortAscending(hits)| == |hits|
  {
    var results, scores := SortAscending(hits), q.Scores(visited);
    SortAscendingSorts(hits);
    SameHitsSameIds(results, hits);
    SameHitsSameIds(hits, results);
    forall id | id in visited ensures id in Ids(hits) {
      var i :| 0 <= i < |q.entries| && q.entries[i] == id;
      assert hits[i].id == id;
    }
    forall i | 0 <= i < |hits| ensures hits[i].id in visited {
      assert hits[i].id == q.entries[i];
    }
    assert scores.Keys == visited == Ids(results);
    IdsCount(results);
    assert |scores| == |scores.Keys| == |results| == |q.entries|;
    forall i | 0 <= i < |results| ensures results[i].id in scores && results[i].score == scores[results[i].id] {
      assert results[i] in hits;
    }
  }

  lemma EntriesAreCandidates(q: Query, hits: seq<Hit>, visited: set<string>)
    requires AreEntryHits(q, hits) && visited == set id | id in q.entries
    ensures CandidatesOk(SortAscending(Negated(hits)), q.Scores(visited))
    ensures Ids(SortAscending(Negated(hits))) == visited
  {
    var negated := Negated(hits);
    var candidates, scores := SortAscending(negated), q.Scores(visited);
    SortAscendingSorts(negated);
    SameHitsSameIds(candidates, negated);
    SameHitsSameIds(negated, candidates);
    forall id | id in visited ensures id in Ids(negated) {
      var i :| 0 <= i < |q.entries| && q.entries[i] == id;
      assert negated[i].id == id;
    }
    forall i | 0 <= i < |candidates|
      ensures candidates[i].id in scores && candidates[i].score == -scores[candidates[i].id] {
      assert candidates[i] in negated;
    }
  }

  lemma EntriesSearching(q: Query, hits: seq<Hit>, visited: set<string>)
    requires Distinct(q.entries) && q.entries != []
    requires AreEntryHits(q, hits) && visited == set id | id in q.entries
    ensures Searching(q, SortAscending(Negated(hits)), SortAscending(hits), visited, {})
  {
    EntriesRanked(q, hits, visited);
    EntriesAreCandidates(q, hits, visited);
    forall id | id in visited
      ensures ReachesFrom(q.nodes, q.layer, q.entries, id)
    {
      ReachesItself(q.nodes, q.layer, id);
    }
  }

  lemma StartSearch(q: Query, hits: seq<Hit>, visited: set<string>)
    requires AreEntryHits(q, hits) && visited == set id | id in q.entries
    ensures |SortAscending(Negated(hits))| == |SortAscending(hits)| == |q.entries|
    ensures q.entries != [] ==> Running(q, SortAscending(Negated(hits)), SortAscending(hits), visited, {})
  {
    SortAscendingSorts(hits);
    SortAscendingSorts(Negated(hits));
    hide SortAscending, Searching, Distinct;
    if q.entries != [] && Distinct(q.entries) { EntriesSearching(q, hits, visited); }
  }

  lemma RunningHit(q: Query, candidates: seq<Hit>, results: seq<Hit>, visited: set<string>, open: set<string>)
    requires Running(q, candidates, results, visited, open)
    ensures results != []
  {
  }

  /** The closest candidate is taken; one that is no longer stored is passed over. */
  lemma PopCandidate(q: Query, candidates: seq<Hit>, results: seq<Hit>, visited: set<string>)
    requires candidates != [] && Running(q, candidates, results, visited, {})
    ensures Running(q, candidates[1..], results, visited, {candidates[0].id})
    ensures Distinct(q.entries) ==> candidates[0].id in visited && candidates[0].id in q.nodes
    ensures candidates[0].id !in q.nodes ==> Running(q, candidates[1..], results, visited, {})
  {
    if Distinct(q.entries) {
      assert Ids(candidates) == {candidates[0].id} + Ids(candidates[1..]) by { IdsOfRest(candidates); }
      assert forall i | 0 <= i < |candidates| - 1 :: candidates[1..][i] == candidates[i + 1];
      assert candidates[0].id in q.Scores(visited);
    }
  }

  lemma IdsOfRest(s: seq<Hit>)
    requires s != []
    ensures Ids(s) == {s[0].id} + Ids(s[1..])
  {
    forall i | 0 < i < |s| ensures s[i].id in Ids(s[1..]) { assert s[1..][i - 1] == s[i]; }
    forall i | 0 <= i < |s| - 1 ensures s[1..][i].id in Ids(s) { assert s[1..][i] == s[i + 1]; }
    assert s[0].id in Ids(s);
  }

  lemma PushCandidate(candidates: seq<Hit>, scores: map<string, real>, h: Hit)
    requires CandidatesOk(candidates, scores) && h.id !in scores
    ensures CandidatesOk(SortAscending(candidates + [Hit(h.id, -h.score)]), scores[h.id := h.score])
    ensures Ids(SortAscending(candidates + [Hit(h.id, -h.score)])) == Ids(candidates) + {h.id}
  {
    var x := Hit(h.id, -h.score);
    var k := SortAfterPush(candidates, x);
    var sorted := SortAscending(candidates + [x]);
    InsertedIds(candidates, x, k, sorted);
    forall i | 0 <= i < |sorted| && i != k ensures sorted[i].id in scores && sorted[i].score == -scores[sorted[i].id] {
      assert sorted[i] == candidates[if i < k then i else i - 1];
    }
  }

  lemma InsertedIds(s: seq<Hit>, h: Hit, k: nat, inserted: seq<Hit>)
    requires k <= |s| && inserted == s[..k] + [h] + s[k..]
    ensures Ids(inserted) == Ids(s) + {h.id}
  {
    forall i | 0 <= i < |inserted| ensures inserted[i].id in Ids(s) + {h.id} {
      if i != k { assert inserted[i] == s[if i < k then i else i - 1]; }
    }
    forall i | 0 <= i < |s| ensures s[i].id in Ids(inserted) {
      assert inserted[if i < k then i else i + 1] == s[i];
    }
    assert inserted[k].id in Ids(inserted);
  }

  /** The work lists after looking at one unvisited stored neighbour. */
  function Offered(q: Query, candidates: seq<Hit>, results: seq<Hit>, id: string): (r: (seq<Hit>, seq<Hit>))
    requires id in q.nodes
  {
    var sim := q.Score(id);
    if |results| < q.ef || (results != [] && sim > results[0].score) then
      (SortAscending(candidates + [Hit(id, -sim)]), Offer(results, q.ef, Hit(id, sim)))
    else (candidates, results)
  }

  lemma OfferedLists(q: Query, candidates: seq<Hit>, results: seq<Hit>, scores: map<string, real>, id: string)
    requires 0 < |q.entries| <= |results| && id in q.nodes && id !in scores
    requires Ranked(results, scores, q.Cap()) && CandidatesOk(candidates, scores)
    ensures var (c, r) := Offered(q, candidates, results, id);
            && |results| <= |r|
            && Ranked(r, scores[id := q.Score(id)], q.Cap())
            && CandidatesOk(c, scores[id := q.Score(id)])
            && Ids(candidates) <= Ids(c)
            && Ids(r) - Ids(c) <= Ids(results)
  {
    hide Ranked, SortAscending, Ids;
    var h := Hit(id, q.Score(id));
    OfferKeepsRanked(results, scores, q.ef, |q.entries|, h);
    PushCandidate(candidates, scores, h);
  }

  lemma VisitStored(q: Query, candidates: seq<Hit>, results: seq<Hit>, visited: set<string>, open: string, id: string)
    requires Running(q, candidates, results, visited, {open}) && (Distinct(q.entries) ==> open in visited)
    requires open in q.nodes && id in Edges(q.nodes, q.layer, open)
    requires id !in visited && id in q.nodes
    ensures var (c, r) := Offered(q, candidates, results, id);
            r != [] ==> Running(q, c, r, visited + {id}, {open})
  {
    hide Ranked, CandidatesOk, SortAscending, Offered, Ids, Edges, AllReached, Distinct;
    if Distinct(q.entries) {
      OfferedLists(q, candidates, results, q.Scores(visited), id);
      VisitReached(q, visited, open, id);
      VisitedScores(q, visited, id);
    }
  }

  lemma VisitedScores(q: Query, visited: set<string>, id: string)
    ensures if id in q.nodes then q.Scores(visited + {id}) == q.Scores(visited)[id := q.Score(id)]
            else q.Scores(visited + {id}) == q.Scores(visited)
  {
  }

  lemma VisitReached(q: Query, visited: set<string>, open: string, id: string)
    requires AllReached(q.nodes, q.layer, q.entries, visited)
    requires open in visited && open in q.nodes && id in Edges(q.nodes, q.layer, open)
    ensures AllReached(q.nodes, q.layer, q.entries, visited + {id})
  {
    if id in q.nodes {
      var s :| s in q.entries && Reaches(q.nodes, q.layer, s, open);
      ReachesStep(q.nodes, q.layer, s, open, id);
    }
  }

  lemma VisitMissing(q: Query, candidates: seq<Hit>, results: seq<Hit>, visited: set<string>, open: set<string>,
                     id: string)
    requires Running(q, candidates, results, visited, open) && id !in q.nodes
    ensures Running(q, candidates, results, visited + {id}, open)
  {
    hide Distinct;
    VisitedScores(q, visited, id);
  }

  lemma CloseNode(q: Query, candidates: seq<Hit>, results: seq<Hit>, visited: set<string>, open: string)
    requires Running(q, candidates, results, visited, {open})
    requires Edges(q.nodes, q.layer, open) <= visited
    ensures Running(q, candidates, results, visited, {})
  {
    hide Distinct;
  }

  /** When the search breaks off, no hit is waiting any more: all of them beat every remaining candidate. */
  lemma BreakLeavesNoneWaiting(q: Query, candidates: seq<Hit>, results: seq<Hit>, visited: set<string>)
    requires Running(q, candidates, results, visited, {}) && candidates != []
    requires -candidates[0].score < results[0].score
    ensures Running(q, [], results, visited, {})
  {
    if Distinct(q.entries) {
      forall id | id in Ids(results) ensures Edges(q.nodes, q.layer, id) <= visited {
        var i :| 0 <= i < |results| && results[i].id == id;
        forall j | 0 <= j < |candidates| ensures candidates[j].id != id {
          assert candidates[0].score <= candidates[j].score;
          assert results[0].score <= results[i].score;
        }
      }
    }
  }

  /** A rearrangement of ranked hits, best first, is a best selection. */
  lemma RearrangedIsBest(found: seq<Hit>, results: seq<Hit>, scores: map<string, real>, cap: nat)
    requires Ranked(results, scores, cap)
    requires Descending(found) && DistinctIds(found) && |found| == |results|
    requires forall h :: h in found <==> h in results
    ensures IsBest(found, scores, Min(|scores|, cap)) && Ids(found) == Ids(results)
  {
    SameHitsSameIds(found, results);
    SameHitsSameIds(results, found);
    hide Ids, Ascending, Descending;
    assert forall i | 0 <= i < |found| :: found[i] in results;
    forall id, i | id in scores && id !in Ids(found) && 0 <= i < |found| ensures scores[id] <= found[i].score {
      var j :| 0 <= j < |results| && results[j] == found[i];
    }
  }

  lemma FinishSearch(q: Query, results: seq<Hit>, visited: set<string>)
    requires if q.entries == [] then results == [] && visited == {} else Running(q, [], results, visited, {})
    ensures var found := SortDescending(results);
            && Descending(found) && (found == [] <==> q.entries == [])
            && (Distinct(q.entries) ==> IsSearchResult(q.nodes, q.sim, q.vector, q.layer, q.entries, q.ef, found,
                visited))
  {
    var found, scores := SortDescending(results), q.Scores(visited);
    SortDescendingSorts(results);
    hide SortDescending, IsBest, Descending, CandidatesOk, Edges, ReachesFrom, Distinct;
    if Distinct(q.entries) && q.entries != [] {
      assert Ids([]) == {};
      hide Ids;
      assert DistinctIds(results);
      hide Ranked, DistinctIds;
      RearrangedIsBest(found, results, scores, q.Cap());
      forall i | 0 <= i < |found| ensures Edges(q.nodes, q.layer, found[i].id) <= visited { HasId(found, i); }
    } else if q.entries == [] {
      NothingToSearch(q);
    }
  }

  lemma HasId(s: seq<Hit>, i: nat)
    requires i < |s|
    ensures s[i].id in Ids(s)
  {
  }

  lemma StoredOne(nodes: Graph, id: string)
    requires id in nodes
    ensures Stored(nodes, [id]) == [id] && Distinct([id])
  {
    assert Present(nodes, [id]);
  }

  lemma NothingToSearch(q: Query)
    requires q.entries == []
    ensures IsSearchResult(q.nodes, q.sim, q.vector, q.layer, q.entries, q.ef, SortDescending([]), {})
  {
    SortDescendingSorts([]);
    assert |q.Scores({})| == 0;
  }
}
