/**
 The score accumulation of a repo-map query (repo_map.rs, `score_terms`): hit cells per entry for one term, and points
 and matched terms per entry over all terms, both kept in hash maps that loops fill in any order.
 */
module ScoreBoards {

  function Max(a: nat, b: nat): nat {
    if a < b then b else a
  }

  /** Points of one entry for one term: symbol, path and reference hits. */
  datatype Cell = Cell(symbol: nat, path: nat, reference: nat) {
    function Total(): nat { symbol + path + reference }
  }

  datatype HitField = SymbolField | PathField | ReferenceField

  function Raise(cell: Cell, field: HitField, points: nat): Cell {
    match field
    case SymbolField => cell.(symbol := Max(cell.symbol, points))
    case PathField => cell.(path := Max(cell.path, points))
    case ReferenceField => cell.(reference := Max(cell.reference, points))
  }

  datatype Score = Score(points: nat, terms: set<nat>)

  type Hits = map<nat, Cell>

  function CellIn(hits: Hits, id: nat): Cell {
    if id in hits then hits[id] else Cell(0, 0, 0)
  }

  function TotalIn(hits: Hits, id: nat): nat {
    if id in hits then hits[id].Total() else 0
  }

  function HitAll(hits: Hits, ids: set<nat>, field: HitField, points: nat): Hits {
    map id | id in hits.Keys + ids :: if id in ids then Raise(CellIn(hits, id), field, points) else hits[id]
  }

  function IdSet<T>(ids: seq<T>): set<T> {
    set id | id in ids
  }

  /** The `hit` closure: every listed entry's cell is raised to the points. */
  method Hit(hits: Hits, ids: seq<nat>, field: HitField, points: nat) returns (hits': Hits)
    ensures hits' == HitAll(hits, IdSet(ids), field, points)
  {
    hits' := hits;
    assert hits == HitAll(hits, {}, field, points);
    assert ids[..0] == [];
    for i := 0 to |ids|
      invariant hits' == HitAll(hits, IdSet(ids[..i]), field, points)
    {
      assert ids[..i + 1] == ids[..i] + [ids[i]];
      assert IdSet(ids[..i + 1]) == IdSet(ids[..i]) + {ids[i]};
      HitOneMore(hits, IdSet(ids[..i]), ids[i], field, points);
      hits' := hits'[ids[i] := Raise(CellIn(hits', ids[i]), field, points)];
    }
    assert ids[..|ids|] == ids;
  }

  lemma HitOneMore(hits: Hits, done: set<nat>, id: nat, field: HitField, points: nat)
    ensures var now := HitAll(hits, done, field, points);
            now[id := Raise(CellIn(now, id), field, points)] == HitAll(hits, done + {id}, field, points)
  {
  }

  function ScoreIn(scores: map<nat, Score>, id: nat): Score {
    if id in scores then scores[id] else Score(0, {})
  }

  function Bump(score: Score, total: nat, index: nat): Score {
    Score(score.points + total, score.terms + {index})
  }

  function AddHits(scores: map<nat, Score>, hits: Hits, ids: set<nat>, index: nat): map<nat, Score> {
    map id | id in scores.Keys + ids ::
      if id in ids then Bump(ScoreIn(scores, id), TotalIn(hits, id), index) else scores[id]
  }

  function AddHit(scores: map<nat, Score>, hits: Hits, id: nat, index: nat): map<nat, Score> {
    scores[id := Bump(ScoreIn(scores, id), TotalIn(hits, id), index)]
  }

  lemma AddHitsOneMore(scores: map<nat, Score>, hits: Hits, done: set<nat>, id: nat, index: nat)
    requires id !in done
    ensures AddHit(AddHits(scores, hits, done, index), hits, id, index) == AddHits(scores, hits, done + {id}, index)
  {
    assert ScoreIn(AddHits(scores, hits, done, index), id) == ScoreIn(scores, id);
  }

  lemma AddNoHits(scores: map<nat, Score>, hits: Hits, index: nat)
    ensures AddHits(scores, hits, {}, index) == scores
  {
  }

  method Accumulate(scores: map<nat, Score>, hits: Hits, index: nat) returns (scores': map<nat, Score>)
    ensures scores' == AddHits(scores, hits, hits.Keys, index)
  {
    scores' := scores;
    var rest := hits.Keys;
    ghost var done: set<nat> := {};
    AddNoHits(scores, hits, index);
    while rest != {}
      invariant done + rest == hits.Keys && done !! rest
      invariant scores' == AddHits(scores, hits, done, index)
      decreases rest
    {
      var id :| id in rest;
      AddHitsOneMore(scores, hits, done, id, index);
      scores' := AddHit(scores', hits, id, index);
      rest, done := rest - {id}, done + {id};
    }
    assert done == hits.Keys;
  }

  lemma HitAllAt(hits: Hits, ids: set<nat>, field: HitField, points: nat, id: nat)
    ensures id in HitAll(hits, ids, field, points) <==> id in hits || id in ids
    ensures CellIn(HitAll(hits, ids, field, points), id)
            == if id in ids then Raise(CellIn(hits, id), field, points) else CellIn(hits, id)
  {
  }
}
