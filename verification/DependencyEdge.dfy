/**
 Dependency edges of a repo-map query (repo_map.rs, `add_dependency_edges`): files that define a name the best-ranked
 files refer to get extra points, unless the name is defined in too many files to mean much.
 */
module DependencyEdges {
  import opened JsonValues
  import opened RepoIndexes
  import opened RepoMaps
  import opened ScoreBoards
  import opened StableSort

  const SEED_FILES: nat := 8
  const MAX_DEFINITION_SITES: nat := 3
  const DEPENDENCY_EDGE: nat := 2
  const COUNTED_EDGES: nat := 3

  // ---- the seeds ----

  datatype Ranked = Ranked(id: nat, points: nat)

  /** Most points first, then by id. */
  predicate RanksBefore(a: Ranked, b: Ranked) {
    a.points > b.points || (a.points == b.points && a.id <= b.id)
  }

  function RankOf(scores: map<nat, Score>, id: nat): Ranked
    requires id in scores
  {
    Ranked(id, scores[id].points)
  }

  /** The best eight of the scored entries, best first. */
  ghost predicate AreSeeds(scores: map<nat, Score>, seeds: seq<nat>) {
    && (forall id :: id in seeds ==> id in scores) && Distinct(seeds)
    && |seeds| == (if |scores| < SEED_FILES then |scores| else SEED_FILES)
    && (forall i, j :: 0 <= i < j < |seeds| ==> RanksBefore(RankOf(scores, seeds[i]), RankOf(scores, seeds[j])))
    && forall id, other :: id in seeds && other in scores && other !in seeds ==>
         RanksBefore(RankOf(scores, id), RankOf(scores, other))
  }

  /** Every key of the map, once each, in any order. */
  ghost predicate Enumerates(scores: map<nat, Score>, rows: seq<Ranked>) {
    && |rows| == |scores|
    && (forall i :: 0 <= i < |rows| ==> rows[i].id in scores && rows[i] == RankOf(scores, rows[i].id))
    && (forall i, j :: 0 <= i < j < |rows| ==> rows[i].id != rows[j].id)
    && forall id :: id in scores ==> RankOf(scores, id) in rows
  }

  method Enumerate(scores: map<nat, Score>) returns (rows: seq<Ranked>)
    ensures Enumerates(scores, rows)
  {
    rows := [];
    var rest := scores.Keys;
    while rest != {}
      invariant rest <= scores.Keys && |rows| + |rest| == |scores.Keys|
      invariant forall i :: 0 <= i < |rows| ==>
                  rows[i].id in scores && rows[i].id !in rest && rows[i] == RankOf(scores, rows[i].id)
      invariant forall i, j :: 0 <= i < j < |rows| ==> rows[i].id != rows[j].id
      invariant forall id :: id in scores && id !in rest ==> RankOf(scores, id) in rows
      decreases rest
    {
      var id :| id in rest;
      rows, rest := rows + [RankOf(scores, id)], rest - {id};
    }
  }

  lemma RankOrder()
    ensures TotalPreorder(RanksBefore)
  {
  }

  lemma SortedEnumerates(scores: map<nat, Score>, rows: seq<Ranked>)
    requires Enumerates(scores, rows)
    ensures Enumerates(scores, Sort(RanksBefore, rows)) && SortedBy(RanksBefore, Sort(RanksBefore, rows))
  {
    RankOrder();
    SortSorted(RanksBefore, rows);
    SortPermutes(RanksBefore, rows);
    var sorted := Sort(RanksBefore, rows);
    SameElements(rows, sorted);
    forall i | 0 <= i < |sorted| ensures sorted[i].id in scores && sorted[i] == RankOf(scores, sorted[i].id) {
      assert sorted[i] in rows;
    }
    forall i, j | 0 <= i < j < |sorted| ensures sorted[i].id != sorted[j].id {
      if sorted[i].id == sorted[j].id {
        assert sorted[i] == sorted[j];
        OnceOnly(rows, sorted[i]);
        TwiceCounted(sorted, i, j);
      }
    }
  }

  lemma {:induction false} OnceOnly(rows: seq<Ranked>, row: Ranked)
    requires forall i, j :: 0 <= i < j < |rows| ==> rows[i].id != rows[j].id
    ensures multiset(rows)[row] <= 1
  {
    if |rows| > 0 {
      var init := rows[..|rows| - 1];
      assert rows == init + [rows[|rows| - 1]];
      OnceOnly(init, row);
      assert forall i :: 0 <= i < |init| ==> init[i] == rows[i];
    }
  }

  lemma TwiceCounted(rows: seq<Ranked>, i: nat, j: nat)
    requires i < j < |rows| && rows[i] == rows[j]
    ensures multiset(rows)[rows[i]] >= 2
  {
    var a, b := rows[..j], rows[j..];
    assert rows == a + b && a[i] == rows[i] && b[0] == rows[i];
    assert multiset(rows) == multiset(a) + multiset(b);
    assert rows[i] in multiset(a) && rows[i] in multiset(b);
  }

  method BestSeeds(scores: map<nat, Score>) returns (seeds: seq<nat>)
    ensures AreSeeds(scores, seeds)
  {
    var rows := Enumerate(scores);
    SortedEnumerates(scores, rows);
    rows := Sort(RanksBefore, rows);
    var n := if |rows| < SEED_FILES then |rows| else SEED_FILES;
    seeds := seq(n, i requires 0 <= i < n => rows[i].id);
    FirstAreSeeds(scores, rows, seeds);
  }

  lemma FirstAreSeeds(scores: map<nat, Score>, rows: seq<Ranked>, seeds: seq<nat>)
    requires Enumerates(scores, rows) && SortedBy(RanksBefore, rows)
    requires |seeds| == if |rows| < SEED_FILES then |rows| else SEED_FILES
    requires forall j :: 0 <= j < |seeds| ==> seeds[j] == rows[j].id
    ensures AreSeeds(scores, seeds)
  {
    forall id, other | id in seeds && other in scores && other !in seeds
      ensures RanksBefore(RankOf(scores, id), RankOf(scores, other))
    {
      var i :| 0 <= i < |seeds| && seeds[i] == id;
      var j :| 0 <= j < |rows| && rows[j] == RankOf(scores, other);
    }
  }

  lemma SeedComesFirst(scores: map<nat, Score>, a: seq<nat>, b: seq<nat>, k: nat)
    requires AreSeeds(scores, a) && AreSeeds(scores, b) && k < |a| && k < |b| && a[..k] == b[..k]
    ensures RanksBefore(RankOf(scores, b[k]), RankOf(scores, a[k]))
  {
    assert forall j :: 0 <= j < k ==> b[j] == b[..k][j] == a[..k][j] == a[j];
    if a[k] in b {
      var j :| 0 <= j < |b| && b[j] == a[k];
      assert j >= k;
    }
  }

  /** The scores have one list of seeds, however the score map is iterated. */
  lemma {:induction false} SeedsUnique(scores: map<nat, Score>, a: seq<nat>, b: seq<nat>, k: nat)
    requires AreSeeds(scores, a) && AreSeeds(scores, b) && k <= |a|
    ensures |a| == |b| && a[..k] == b[..k]
  {
    if k > 0 {
      SeedsUnique(scores, a, b, k - 1);
      SeedComesFirst(scores, a, b, k - 1);
      SeedComesFirst(scores, b, a, k - 1);
      assert a[..k] == a[..k - 1] + [a[k - 1]] && b[..k] == b[..k - 1] + [b[k - 1]];
    }
  }

  // ---- the edges ----

  /** A name, as its hash, that a seed refers to. */
  datatype Link = Link(seed: nat, reference: nat)

  /** The references of the seeds that are defined in few enough files. */
  ghost function Links(holders: map<nat, EntryKeys>, seeds: seq<nat>): set<Link> {
    set seed, r | seed in seeds && seed in holders && r in holders[seed].references
      && |Having(holders, Definitions(), r)| <= MAX_DEFINITION_SITES :: Link(seed, r)
  }

  /** The other files that define the name. */
  ghost predicate LeadsTo(holders: map<nat, EntryKeys>, link: Link, id: nat) {
    id != link.seed && id in holders && link.reference in holders[id].definitions
  }

  ghost function LinksTo(holders: map<nat, EntryKeys>, links: set<Link>, id: nat): set<Link> {
    set l | l in links && LeadsTo(holders, l, id)
  }

  ghost predicate CountsExact(edges: map<nat, nat>, holders: map<nat, EntryKeys>, links: set<Link>) {
    && (forall id :: id in edges <==> LinksTo(holders, links, id) != {})
    && (forall id :: id in edges ==> edges[id] == |LinksTo(holders, links, id)|)
  }

  function Bumped(edges: map<nat, nat>, ids: set<nat>): map<nat, nat> {
    map id | id in edges.Keys + ids ::
      (if id in edges then edges[id] else 0) + if id in ids then 1 else 0
  }

  lemma OneMoreLink(edges: map<nat, nat>, holders: map<nat, EntryKeys>, links: set<Link>, link: Link, ids: set<nat>)
    requires CountsExact(edges, holders, links) && link !in links
    requires forall id :: id in ids <==> LeadsTo(holders, link, id)
    ensures CountsExact(Bumped(edges, ids), holders, links + {link})
  {
    forall id
      ensures LinksTo(holders, links + {link}, id)
              == LinksTo(holders, links, id) + if id in ids then {link} else {}
    {
    }
  }

  lemma IdSetStep(ids: seq<nat>, i: nat)
    requires Distinct(ids) && i < |ids|
    ensures IdSet(ids[..i + 1]) == IdSet(ids[..i]) + {ids[i]} && ids[i] !in IdSet(ids[..i])
  {
    assert ids[..i + 1] == ids[..i] + [ids[i]];
  }

  lemma BumpOneMore(edges: map<nat, nat>, done: set<nat>, id: nat)
    requires id !in done
    ensures var now := Bumped(edges, done);
            now[id := (if id in now then now[id] else 0) + 1] == Bumped(edges, done + {id})
  {
  }

  /** The innermost loop: one edge to every other file on the posting list. */
  method CountLink(edges: map<nat, nat>, ids: seq<nat>, seed: nat) returns (edges': map<nat, nat>)
    requires Distinct(ids)
    ensures edges' == Bumped(edges, IdSet(ids) - {seed})
  {
    edges' := edges;
    ghost var done: set<nat> := {};
    assert Bumped(edges, done) == edges;
    for i := 0 to |ids|
      invariant done == IdSet(ids[..i]) - {seed} && edges' == Bumped(edges, done)
    {
      var id := ids[i];
      IdSetStep(ids, i);
      if id != seed {
        BumpOneMore(edges, done, id);
        edges' := edges'[id := (if id in edges' then edges'[id] else 0) + 1];
        done := done + {id};
      }
    }
    assert ids[..|ids|] == ids;
  }

  lemma {:induction false} DistinctSize(ids: seq<nat>)
    requires Distinct(ids)
    ensures |IdSet(ids)| == |ids|
  {
    if |ids| > 0 {
      var init, last := ids[..|ids| - 1], ids[|ids| - 1];
      DistinctSize(init);
      assert ids == init + [last] && last !in init;
      assert IdSet(ids) == IdSet(init) + {last} && last !in IdSet(init);
    }
  }

  /** The link counts when few enough files define its name. */
  ghost function WithLink(holders: map<nat, EntryKeys>, links: set<Link>, link: Link): set<Link> {
    if |Having(holders, Definitions(), link.reference)| <= MAX_DEFINITION_SITES then links + {link} else links
  }

  /** One reference of a seed. */
  method CountReference(repo: RepoMap, edges: map<nat, nat>, seed: nat, reference: nat, ghost links: set<Link>)
    returns (edges': map<nat, nat>)
    requires repo.Valid()
    requires CountsExact(edges, Holders(repo.slots, repo.keyHash), links) && Link(seed, reference) !in links
    ensures CountsExact(edges', Holders(repo.slots, repo.keyHash),
                        WithLink(Holders(repo.slots, repo.keyHash), links, Link(seed, reference)))
  {
    ghost var holders := Holders(repo.slots, repo.keyHash);
    var ids := Posted(repo.definitionIndex, reference);
    PostedIsHaving(repo.definitionIndex, holders, Definitions(), reference);
    DistinctSize(ids);
    if |ids| > MAX_DEFINITION_SITES {
      return edges;
    }
    edges' := CountLink(edges, ids, seed);
    OneMoreLink(edges, holders, links, Link(seed, reference), IdSet(ids) - {seed});
  }

  /** The links of the seeds before, and of one more seed over the references done. */
  ghost function LinksSoFar(holders: map<nat, EntryKeys>, before: seq<nat>, seed: nat, done: set<nat>): set<Link> {
    Links(holders, before) + SeedLinks(holders, seed, done)
  }

  /** One reference more of a seed. */
  method CountOneMore(repo: RepoMap, edges: map<nat, nat>, seed: nat, reference: nat, ghost before: seq<nat>,
                      ghost done: set<nat>) returns (edges': map<nat, nat>)
    requires repo.Valid() && seed !in before && reference !in done
    requires CountsExact(edges, Holders(repo.slots, repo.keyHash),
                         LinksSoFar(Holders(repo.slots, repo.keyHash), before, seed, done))
    ensures CountsExact(edges', Holders(repo.slots, repo.keyHash),
                        LinksSoFar(Holders(repo.slots, repo.keyHash), before, seed, done + {reference}))
  {
    ghost var holders := Holders(repo.slots, repo.keyHash);
    LinkStep(holders, before, seed, done, reference);
    edges' := CountReference(repo, edges, seed, reference, LinksSoFar(holders, before, seed, done));
  }

  /** One seed: its references in any order. */
  method CountReferences(repo: RepoMap, edges: map<nat, nat>, seed: nat, references: set<nat>, ghost before: seq<nat>)
    returns (edges': map<nat, nat>)
    requires repo.Valid() && seed !in before
    requires CountsExact(edges, Holders(repo.slots, repo.keyHash),
                         LinksSoFar(Holders(repo.slots, repo.keyHash), before, seed, {}))
    ensures CountsExact(edges', Holders(repo.slots, repo.keyHash),
                        LinksSoFar(Holders(repo.slots, repo.keyHash), before, seed, references))
  {
    edges' := edges;
    var rest := references;
    ghost var done: set<nat> := {};
    while rest != {}
      invariant done + rest == references && done !! rest
      invariant CountsExact(edges', Holders(repo.slots, repo.keyHash),
                            LinksSoFar(Holders(repo.slots, repo.keyHash), before, seed, done))
      decreases rest
    {
      var reference :| reference in rest;
      edges' := CountOneMore(repo, edges', seed, reference, before, done);
      rest, done := rest - {reference}, done + {reference};
    }
    assert done == references;
  }

  method CountSeed(repo: RepoMap, edges: map<nat, nat>, seed: nat, ghost before: seq<nat>)
    returns (edges': map<nat, nat>)
    requires repo.Valid() && seed !in before
    requires CountsExact(edges, Holders(repo.slots, repo.keyHash), Links(Holders(repo.slots, repo.keyHash), before))
    ensures CountsExact(edges', Holders(repo.slots, repo.keyHash),
                        Links(Holders(repo.slots, repo.keyHash), before + [seed]))
  {
    ghost var holders := Holders(repo.slots, repo.keyHash);
    SeedExtends(holders, before, seed);
    if seed >= |repo.slots| || repo.slots[seed].None? {
      return edges;
    }
    edges' := CountReferences(repo, edges, seed, repo.slots[seed].value.outline.referenceKeys, before);
  }

  lemma SeedExtends(holders: map<nat, EntryKeys>, before: seq<nat>, seed: nat)
    ensures LinksSoFar(holders, before, seed, {}) == Links(holders, before)
    ensures Links(holders, before + [seed])
            == if seed in holders then LinksSoFar(holders, before, seed, holders[seed].references)
               else Links(holders, before)
  {
  }

  lemma LinkStep(holders: map<nat, EntryKeys>, before: seq<nat>, seed: nat, done: set<nat>, reference: nat)
    requires seed !in before && reference !in done
    ensures Link(seed, reference) !in LinksSoFar(holders, before, seed, done)
    ensures LinksSoFar(holders, before, seed, done + {reference})
            == WithLink(holders, LinksSoFar(holders, before, seed, done), Link(seed, reference))
  {
  }

  /** The links of one seed over some of its references. */
  ghost function SeedLinks(holders: map<nat, EntryKeys>, seed: nat, references: set<nat>): set<Link> {
    set r | r in references && |Having(holders, Definitions(), r)| <= MAX_DEFINITION_SITES :: Link(seed, r)
  }

  method CountEdges(repo: RepoMap, seeds: seq<nat>) returns (edges: map<nat, nat>)
    requires repo.Valid() && Distinct(seeds)
    ensures CountsExact(edges, Holders(repo.slots, repo.keyHash), Links(Holders(repo.slots, repo.keyHash), seeds))
  {
    ghost var holders := Holders(repo.slots, repo.keyHash);
    edges := map[];
    assert Links(holders, seeds[..0]) == {};
    for i := 0 to |seeds|
      invariant CountsExact(edges, holders, Links(holders, seeds[..i]))
    {
      assert seeds[..i + 1] == seeds[..i] + [seeds[i]];
      edges := CountSeed(repo, edges, seeds[i], seeds[..i]);
    }
    assert seeds[..|seeds|] == seeds;
  }

  function EdgePoints(count: nat): nat {
    DEPENDENCY_EDGE * if count < COUNTED_EDGES then count else COUNTED_EDGES
  }

  /**
   The points gained by an entry are those of a scan over all pairs of a seed and a name it refers to: two for each pair
   whose name the entry defines and few others do, up to three pairs.  Entries without such a pair keep their score.
   */
  method AddDependencyEdges(repo: RepoMap, scores: map<nat, Score>)
    returns (scores': map<nat, Score>, dependencies: set<nat>, seeds: seq<nat>)
    requires repo.Valid()
    ensures AreSeeds(scores, seeds)
    ensures var holders := Holders(repo.slots, repo.keyHash);
            var links := Links(holders, seeds);
            && (forall id :: id in dependencies <==> LinksTo(holders, links, id) != {})
            && scores'.Keys == scores.Keys + dependencies
            && (forall id :: id in scores' ==>
                  scores'[id].points == ScoreIn(scores, id).points + EdgePoints(|LinksTo(holders, links, id)|)
                  && scores'[id].terms == ScoreIn(scores, id).terms)
  {
    seeds := BestSeeds(scores);
    var edges := CountEdges(repo, seeds);
    dependencies := edges.Keys;
    scores' := WithEdges(scores, edges);
    PointsFromEdges(scores, edges, Holders(repo.slots, repo.keyHash), Links(Holders(repo.slots, repo.keyHash), seeds));
  }

  function WithEdges(scores: map<nat, Score>, edges: map<nat, nat>): map<nat, Score> {
    map id | id in scores.Keys + edges.Keys ::
      Score(ScoreIn(scores, id).points + EdgePoints(if id in edges then edges[id] else 0), ScoreIn(scores, id).terms)
  }

  lemma PointsFromEdges(scores: map<nat, Score>, edges: map<nat, nat>, holders: map<nat, EntryKeys>, links: set<Link>)
    requires CountsExact(edges, holders, links)
    ensures forall id :: id in WithEdges(scores, edges) ==>
              WithEdges(scores, edges)[id].points
              == ScoreIn(scores, id).points + EdgePoints(|LinksTo(holders, links, id)|)
  {
    forall id | id in WithEdges(scores, edges)
      ensures (if id in edges then edges[id] else 0) == |LinksTo(holders, links, id)|
    {
      if id !in edges {
        assert LinksTo(holders, links, id) == {};
      }
    }
  }
}
