/**
 A whole query against the repo map (repo_map.rs, `RepoMap::slice`): term scores, dependency edges and the bonus for
 recent changes feed the ranking that is cut to the token budget.

 What an entry displays (header, symbol lines for the terms, whether its file is unchanged) is a given function.
 */
module RepoQueries {
  import opened Names
  import opened JsonValues
  import opened RepoIndexes
  import opened RepoMaps
  import opened RepoSlices
  import opened ScoreBoards
  import opened StableSort
  import Edges = DependencyEdges

  const RECENT_CHANGE: nat := 2

  datatype Display = Display(header: string, symbolLines: seq<string>, current: bool)

  // ---- what an entry earns ----

  /** The scores of a scan of the live entries for all terms. */
  ghost function Matches(holders: map<nat, EntryKeys>, keyHash: Name -> nat, terms: seq<Name>): map<nat, Score> {
    map id | id in holders && BruteForce(holders[id], keyHash, terms, |terms|).terms != {} ::
      WithCoverage(BruteForce(holders[id], keyHash, terms, |terms|))
  }

  predicate Live(slots: seq<Option<Entry>>, id: nat) {
    id < |slots| && slots[id].Some?
  }

  /** Changed since the first sweep. */
  function Recency(slots: seq<Option<Entry>>, baseline: Option<nat>, id: nat): nat {
    if baseline.Some? && Live(slots, id) && slots[id].value.generation > baseline.value then RECENT_CHANGE else 0
  }

  /** The pairs of a seed and a name it refers to that lead to an entry. */
  ghost function LinksOf(holders: map<nat, EntryKeys>, seeds: seq<nat>, id: nat): set<Edges.Link> {
    Edges.LinksTo(holders, Edges.Links(holders, seeds), id)
  }

  /** An entry takes part in a query when it matches a term or a seed leads to it. */
  ghost predicate TakesPart(holders: map<nat, EntryKeys>, matches: map<nat, Score>, seeds: seq<nat>, id: nat) {
    id in matches || LinksOf(holders, seeds, id) != {}
  }

  ghost function Earned(slots: seq<Option<Entry>>, holders: map<nat, EntryKeys>, matches: map<nat, Score>,
                        seeds: seq<nat>, baseline: Option<nat>, id: nat): nat {
    ScoreIn(matches, id).points + Edges.EdgePoints(|LinksOf(holders, seeds, id)|) + Recency(slots, baseline, id)
  }

  function CandidateOf(entry: Entry, points: nat, display: Entry -> Display): Candidate {
    var shown := display(entry);
    Candidate(entry.relative, points, shown.header, shown.symbolLines, shown.current)
  }

  // ---- the bonus and the list of candidates ----

  function WithRecency(
      scores: map<nat, Score>, ids: set<nat>, slots: seq<Option<Entry>>, baseline: Option<nat>): map<nat, Score> {
    map id | id in scores ::
      if id in ids then scores[id].(points := scores[id].points + Recency(slots, baseline, id)) else scores[id]
  }

  /** The loop over all scores, in any order. */
  method AddRecency(slots: seq<Option<Entry>>, baseline: Option<nat>, scores: map<nat, Score>)
    returns (scores': map<nat, Score>)
    ensures scores' == WithRecency(scores, scores.Keys, slots, baseline)
  {
    scores' := scores;
    var rest := scores.Keys;
    ghost var done: set<nat> := {};
    while rest != {}
      invariant done + rest == scores.Keys && done !! rest
      invariant scores' == WithRecency(scores, done, slots, baseline)
      decreases rest
    {
      var id :| id in rest;
      scores' := scores'[id := scores'[id].(points := scores'[id].points + Recency(slots, baseline, id))];
      rest, done := rest - {id}, done + {id};
    }
    assert done == scores.Keys;
  }

  /** One candidate for each of the listed ids. */
  ghost predicate Gathers(slots: seq<Option<Entry>>, points: map<nat, nat>, display: Entry -> Display, ids: seq<nat>,
                          scored: seq<Candidate>) {
    && |ids| == |scored| && Distinct(ids)
    && (forall id :: id in ids <==> id in points)
    && forall i :: 0 <= i < |ids| ==>
         Live(slots, ids[i]) && ids[i] in points
         && scored[i] == CandidateOf(slots[ids[i]].value, points[ids[i]], display)
  }

  function Points(scores: map<nat, Score>): map<nat, nat> {
    map id | id in scores :: scores[id].points
  }

  /** The scored entries as candidates, in the order of the hash map. */
  method Gather(slots: seq<Option<Entry>>, scores: map<nat, Score>, display: Entry -> Display)
    returns (scored: seq<Candidate>, ghost ids: seq<nat>)
    requires forall id :: id in scores ==> Live(slots, id)
    ensures Gathers(slots, Points(scores), display, ids, scored)
  {
    scored, ids := [], [];
    var rest := scores.Keys;
    while rest != {}
      invariant |ids| == |scored| && Distinct(ids) && rest <= scores.Keys
      invariant forall id :: id in ids <==> id in scores && id !in rest
      invariant forall i :: 0 <= i < |ids| ==>
                  ids[i] in scores && scored[i] == CandidateOf(slots[ids[i]].value, scores[ids[i]].points, display)
      decreases rest
    {
      var id :| id in rest;
      ids, scored := ids + [id], scored + [CandidateOf(slots[id].value, scores[id].points, display)];
      rest := rest - {id};
    }
  }

  // ---- the query ----

  /** The points of all entries that take part. */
  ghost predicate EarnedBy(slots: seq<Option<Entry>>, holders: map<nat, EntryKeys>, matches: map<nat, Score>,
                           seeds: seq<nat>, baseline: Option<nat>, points: map<nat, nat>) {
    && (forall id :: id in points <==> TakesPart(holders, matches, seeds, id))
    && forall id :: id in points ==> points[id] == Earned(slots, holders, matches, seeds, baseline, id)
  }

  ghost predicate RanksFrom(slots: seq<Option<Entry>>, holders: map<nat, EntryKeys>, matches: map<nat, Score>,
                            baseline: Option<nat>, display: Entry -> Display, seeds: seq<nat>, points: map<nat, nat>,
                            ids: seq<nat>, scored: seq<Candidate>) {
    && Edges.AreSeeds(matches, seeds)
    && EarnedBy(slots, holders, matches, seeds, baseline, points)
    && Gathers(slots, points, display, ids, scored)
  }

  /** The list holds, once each and in any order, the entries that take part, with the points they earn. */
  ghost predicate Scores(slots: seq<Option<Entry>>, holders: map<nat, EntryKeys>, matches: map<nat, Score>,
                         baseline: Option<nat>, display: Entry -> Display, scored: seq<Candidate>) {
    exists seeds, points, ids :: RanksFrom(slots, holders, matches, baseline, display, seeds, points, ids, scored)
  }

  ghost predicate AnswersQuery(slots: seq<Option<Entry>>, holders: map<nat, EntryKeys>, matches: map<nat, Score>,
                               baseline: Option<nat>, display: Entry -> Display, budget: nat,
                               moreLine: nat -> string, slice: RepoSlice) {
    exists scored :: Scores(slots, holders, matches, baseline, display, scored)
                     && IsSlice(Ranked(scored), budget, moreLine, slice)
  }

  /** The scores after the dependency edges. */
  ghost predicate LinkedBy(
      holders: map<nat, EntryKeys>, matches: map<nat, Score>, seeds: seq<nat>, linked: map<nat, Score>) {
    && (forall id :: id in linked <==> TakesPart(holders, matches, seeds, id))
    && forall id :: id in linked ==>
         linked[id].points == ScoreIn(matches, id).points + Edges.EdgePoints(|LinksOf(holders, seeds, id)|)
  }

  lemma EarnedAfterAll(slots: seq<Option<Entry>>, holders: map<nat, EntryKeys>, matches: map<nat, Score>,
                       seeds: seq<nat>, baseline: Option<nat>, linked: map<nat, Score>)
    requires LinkedBy(holders, matches, seeds, linked)
    ensures EarnedBy(slots, holders, matches, seeds, baseline,
                     Points(WithRecency(linked, linked.Keys, slots, baseline)))
  {
  }

  /** Only live entries take part. */
  lemma PartakersLive(slots: seq<Option<Entry>>, keyHash: Name -> nat, terms: seq<Name>, seeds: seq<nat>, id: nat)
    requires var holders := Holders(slots, keyHash);
             TakesPart(holders, Matches(holders, keyHash, terms), seeds, id)
    ensures Live(slots, id)
  {
  }

  lemma AllLive(slots: seq<Option<Entry>>, keyHash: Name -> nat, terms: seq<Name>, seeds: seq<nat>,
                linked: map<nat, Score>)
    requires var holders := Holders(slots, keyHash);
             LinkedBy(holders, Matches(holders, keyHash, terms), seeds, linked)
    ensures forall id :: id in linked ==> Live(slots, id)
  {
    forall id | id in linked ensures Live(slots, id) {
      PartakersLive(slots, keyHash, terms, seeds, id);
    }
  }

  lemma MatchesExact(scores: map<nat, Score>, holders: map<nat, EntryKeys>, keyHash: Name -> nat, terms: seq<Name>)
    requires forall id :: id in scores <==>
               id in holders && BruteForce(holders[id], keyHash, terms, |terms|).terms != {}
    requires forall id :: id in scores ==>
               scores[id] == WithCoverage(BruteForce(holders[id], keyHash, terms, |terms|))
    ensures scores == Matches(holders, keyHash, terms)
  {
  }

  method Match(repo: RepoMap, terms: seq<Name>) returns (matches: map<nat, Score>)
    requires repo.Valid()
    ensures matches == Matches(Holders(repo.slots, repo.keyHash), repo.keyHash, terms)
  {
    matches := repo.ScoreTerms(terms);
    MatchesExact(matches, Holders(repo.slots, repo.keyHash), repo.keyHash, terms);
  }

  lemma EdgesLink(holders: map<nat, EntryKeys>, matches: map<nat, Score>, seeds: seq<nat>, dependencies: set<nat>,
                  linked: map<nat, Score>)
    requires forall id :: id in dependencies <==> LinksOf(holders, seeds, id) != {}
    requires linked.Keys == matches.Keys + dependencies
    requires forall id :: id in linked ==>
               linked[id].points == ScoreIn(matches, id).points + Edges.EdgePoints(|LinksOf(holders, seeds, id)|)
    ensures LinkedBy(holders, matches, seeds, linked)
  {
    assert forall id :: id in linked <==> id in matches || id in dependencies;
  }

  method Link(repo: RepoMap, matches: map<nat, Score>) returns (linked: map<nat, Score>, seeds: seq<nat>)
    requires repo.Valid()
    ensures Edges.AreSeeds(matches, seeds) && LinkedBy(Holders(repo.slots, repo.keyHash), matches, seeds, linked)
  {
    var dependencies;
    linked, dependencies, seeds := Edges.AddDependencyEdges(repo, matches);
    ghost var holders := Holders(repo.slots, repo.keyHash);
    EdgesLink(holders, matches, seeds, dependencies, linked);
  }

  /** The bonus, and the list of candidates. */
  method Rank(slots: seq<Option<Entry>>, baseline: Option<nat>, linked: map<nat, Score>, display: Entry -> Display,
              ghost holders: map<nat, EntryKeys>, ghost matches: map<nat, Score>, ghost seeds: seq<nat>)
    returns (scored: seq<Candidate>)
    requires Edges.AreSeeds(matches, seeds) && LinkedBy(holders, matches, seeds, linked)
    requires forall id :: id in linked ==> Live(slots, id)
    ensures Scores(slots, holders, matches, baseline, display, scored)
  {
    EarnedAfterAll(slots, holders, matches, seeds, baseline, linked);
    var scores := AddRecency(slots, baseline, linked);
    ghost var ids;
    scored, ids := Gather(slots, scores, display);
    assert RanksFrom(slots, holders, matches, baseline, display, seeds, Points(scores), ids, scored);
  }

  /** The candidates of a query. */
  method ScoreQuery(repo: RepoMap, terms: seq<Name>, display: Entry -> Display) returns (scored: seq<Candidate>)
    requires repo.Valid()
    ensures var holders := Holders(repo.slots, repo.keyHash);
            Scores(repo.slots, holders, Matches(holders, repo.keyHash, terms), repo.sweptGeneration, display, scored)
  {
    var matches := Match(repo, terms);
    var linked, seeds := Link(repo, matches);
    ghost var holders := Holders(repo.slots, repo.keyHash);
    AllLive(repo.slots, repo.keyHash, terms, seeds, linked);
    scored := Rank(repo.slots, repo.sweptGeneration, linked, display, holders, matches, seeds);
  }

  /**
   Without terms or budget the slice is empty; otherwise it is the greedy slice of the entries that match a term or that
   a seed leads to, ranked by the points a scan of the live entries gives them.
   */
  method Slice(repo: RepoMap, terms: seq<Name>, budget: nat, display: Entry -> Display, moreLine: nat -> string)
    returns (slice: RepoSlice)
    requires repo.Valid()
    ensures terms == [] || budget == 0 ==> slice == RepoSlice([], 0, 0, [], 0)
    ensures terms != [] && budget > 0 ==>
              var holders := Holders(repo.slots, repo.keyHash);
              AnswersQuery(repo.slots, holders, Matches(holders, repo.keyHash, terms), repo.sweptGeneration, display,
                           budget, moreLine, slice)
  {
    if terms == [] || budget == 0 {
      return RepoSlice([], 0, 0, [], 0);
    }
    var scored := ScoreQuery(repo, terms, display);
    slice := SliceRanked(Ranked(scored), budget, moreLine);
  }

  // ---- one answer ----

  /** Different ids hold different paths, so no two candidates of a list are equal. */
  lemma GatheredDiffer(ids: map<Name, nat>, slots: seq<Option<Entry>>, points: map<nat, nat>,
                       display: Entry -> Display, listed: seq<nat>, scored: seq<Candidate>, i: nat, j: nat)
    requires Bijection(ids, slots) && Gathers(slots, points, display, listed, scored)
    requires i < |scored| && j < |scored| && scored[i].relative == scored[j].relative
    ensures i == j
  {
    assert ids[slots[listed[i]].value.relative] == listed[i];
    assert ids[slots[listed[j]].value.relative] == listed[j];
  }

  lemma GatheredSame(slots: seq<Option<Entry>>, points: map<nat, nat>, display: Entry -> Display, a: seq<nat>,
                     x: seq<Candidate>, b: seq<nat>, y: seq<Candidate>, c: Candidate)
    requires Gathers(slots, points, display, a, x) && Gathers(slots, points, display, b, y) && c in x
    ensures c in y
  {
    var i :| 0 <= i < |x| && x[i] == c;
    assert a[i] in b;
    var j :| 0 <= j < |b| && b[j] == a[i];
    assert y[j] == c;
  }

  lemma {:induction false} CountedOnce(scored: seq<Candidate>, c: Candidate)
    requires forall i, j :: 0 <= i < j < |scored| ==> scored[i] != scored[j]
    ensures multiset(scored)[c] == if c in scored then 1 else 0
  {
    if |scored| > 0 {
      var init, last := scored[..|scored| - 1], scored[|scored| - 1];
      assert scored == init + [last];
      CountedOnce(init, c);
      assert forall i :: 0 <= i < |init| ==> init[i] == scored[i] != last;
    }
  }

  lemma GatheredBag(ids: map<Name, nat>, slots: seq<Option<Entry>>, points: map<nat, nat>, display: Entry -> Display,
                    a: seq<nat>, x: seq<Candidate>, b: seq<nat>, y: seq<Candidate>)
    requires Bijection(ids, slots)
    requires Gathers(slots, points, display, a, x) && Gathers(slots, points, display, b, y)
    ensures multiset(x) == multiset(y)
    ensures forall c, d :: c in x && d in x && c.relative == d.relative ==> c == d
  {
    GatheredApart(ids, slots, points, display, a, x);
    GatheredApart(ids, slots, points, display, b, y);
    forall c ensures multiset(x)[c] == multiset(y)[c] {
      CountedOnce(x, c);
      CountedOnce(y, c);
      if c in x {
        GatheredSame(slots, points, display, a, x, b, y, c);
      } else if c in y {
        GatheredSame(slots, points, display, b, y, a, x, c);
      }
    }
  }

  lemma GatheredApart(ids: map<Name, nat>, slots: seq<Option<Entry>>, points: map<nat, nat>,
                      display: Entry -> Display, listed: seq<nat>, scored: seq<Candidate>)
    requires Bijection(ids, slots) && Gathers(slots, points, display, listed, scored)
    ensures forall i, j :: 0 <= i < j < |scored| ==> scored[i] != scored[j]
    ensures forall c, d :: c in scored && d in scored && c.relative == d.relative ==> c == d
  {
    forall i, j | 0 <= i < |scored| && 0 <= j < |scored| && scored[i].relative == scored[j].relative
      ensures i == j
    {
      GatheredDiffer(ids, slots, points, display, listed, scored, i, j);
    }
  }

  lemma SameSeeds(matches: map<nat, Score>, a: seq<nat>, b: seq<nat>)
    requires Edges.AreSeeds(matches, a) && Edges.AreSeeds(matches, b)
    ensures a == b
  {
    Edges.SeedsUnique(matches, a, b, |a|);
    assert a == a[..|a|] == b[..|b|] == b;
  }

  lemma SamePoints(slots: seq<Option<Entry>>, holders: map<nat, EntryKeys>, matches: map<nat, Score>, seeds: seq<nat>,
                   baseline: Option<nat>, x: map<nat, nat>, y: map<nat, nat>)
    requires EarnedBy(slots, holders, matches, seeds, baseline, x)
    requires EarnedBy(slots, holders, matches, seeds, baseline, y)
    ensures x == y
  {
    assert forall id :: id in x <==> id in y;
    assert forall id :: id in x ==> x[id] == y[id];
  }

  lemma RankedAlike(ids: map<Name, nat>, slots: seq<Option<Entry>>, points: map<nat, nat>, display: Entry -> Display,
                    a: seq<nat>, x: seq<Candidate>, b: seq<nat>, y: seq<Candidate>)
    requires Bijection(ids, slots)
    requires Gathers(slots, points, display, a, x) && Gathers(slots, points, display, b, y)
    ensures Ranked(x) == Ranked(y)
  {
    GatheredBag(ids, slots, points, display, a, x, b, y);
    RankingDeterministic(x, y);
  }

  /** The ranking is the same however the hash maps are iterated. */
  lemma RankingUnique(ids: map<Name, nat>, slots: seq<Option<Entry>>, holders: map<nat, EntryKeys>,
                      matches: map<nat, Score>, baseline: Option<nat>, display: Entry -> Display, x: seq<Candidate>,
                      y: seq<Candidate>)
    requires Bijection(ids, slots)
    requires Scores(slots, holders, matches, baseline, display, x)
    requires Scores(slots, holders, matches, baseline, display, y)
    ensures Ranked(x) == Ranked(y)
  {
    var seeds, points, a :| RanksFrom(slots, holders, matches, baseline, display, seeds, points, a, x);
    var seeds', points', b :| RanksFrom(slots, holders, matches, baseline, display, seeds', points', b, y);
    SameSeeds(matches, seeds, seeds');
    SamePoints(slots, holders, matches, seeds, baseline, points, points');
    RankedAlike(ids, slots, points, display, a, x, b, y);
  }

  /** A query has one answer: no iteration order of a hash map shows in it. */
  lemma AnswerUnique(c: Core, keyHash: Name -> nat, terms: seq<Name>, baseline: Option<nat>, display: Entry -> Display,
                     budget: nat, moreLine: nat -> string, x: RepoSlice, y: RepoSlice)
    requires Coherent(c, keyHash)
    requires var holders := Holders(c.slots, keyHash);
             && AnswersQuery(c.slots, holders, Matches(holders, keyHash, terms), baseline, display, budget, moreLine, x)
             && AnswersQuery(c.slots, holders, Matches(holders, keyHash, terms), baseline, display, budget, moreLine, y)
    ensures x == y
  {
    var holders := Holders(c.slots, keyHash);
    var matches := Matches(holders, keyHash, terms);
    var a :| Scores(c.slots, holders, matches, baseline, display, a) && IsSlice(Ranked(a), budget, moreLine, x);
    var b :| Scores(c.slots, holders, matches, baseline, display, b) && IsSlice(Ranked(b), budget, moreLine, y);
    RankingUnique(c.ids, c.slots, holders, matches, baseline, display, a, b);
    SliceUnique(Ranked(a), budget, moreLine, x, y);
  }

  /** A live entry, current on disk, that the query reaches. */
  ghost predicate Reached(slots: seq<Option<Entry>>, holders: map<nat, EntryKeys>, matches: map<nat, Score>,
                          display: Entry -> Display, seeds: seq<nat>, relative: Name) {
    exists id: nat :: TakesPart(holders, matches, seeds, id) && Live(slots, id)
                 && slots[id].value.relative == relative && display(slots[id].value).current
  }

  lemma RankedReached(slots: seq<Option<Entry>>, holders: map<nat, EntryKeys>, matches: map<nat, Score>,
                      baseline: Option<nat>, display: Entry -> Display, seeds: seq<nat>, points: map<nat, nat>,
                      ids: seq<nat>, scored: seq<Candidate>, relative: Name)
    requires RanksFrom(slots, holders, matches, baseline, display, seeds, points, ids, scored)
    requires OfCurrent(Ranked(scored), relative)
    ensures Reached(slots, holders, matches, display, seeds, relative)
  {
    var c :| c in Ranked(scored) && c.current && c.relative == relative;
    RankedMembers(scored, c);
    var i :| 0 <= i < |scored| && scored[i] == c;
    assert ids[i] in points;
  }

  /** Every file a query shows is current and matches a term or is led to from one of the best matches. */
  lemma ShownIsReached(slots: seq<Option<Entry>>, holders: map<nat, EntryKeys>, matches: map<nat, Score>,
                       baseline: Option<nat>, display: Entry -> Display, budget: nat, moreLine: nat -> string,
                       slice: RepoSlice, i: nat)
    requires AnswersQuery(slots, holders, matches, baseline, display, budget, moreLine, slice)
    requires i < |slice.entries|
    ensures exists seeds :: Edges.AreSeeds(matches, seeds)
                            && Reached(slots, holders, matches, display, seeds, slice.entries[i].relative)
  {
    var scored :| Scores(slots, holders, matches, baseline, display, scored)
                  && IsSlice(Ranked(scored), budget, moreLine, slice);
    var seeds, points, ids :| RanksFrom(slots, holders, matches, baseline, display, seeds, points, ids, scored);
    SliceIsMaximal(Ranked(scored), budget, moreLine, slice);
    RankedReached(slots, holders, matches, baseline, display, seeds, points, ids, scored, slice.entries[i].relative);
  }
}
