/**
 The repo map (repo_map.rs, `RepoMap`): applying changes, sweeping the file list and scoring query terms, in place.

 What each operation does is stated on the plain map of entries by path.
 */
module RepoMaps {
  import opened Names
  import opened JsonValues
  import opened RepoIndexes
  import opened RepoChanges
  import opened RepoSweeps
  import opened ScoreBoards

  const APPLY_BATCH: nat := 64

  // ---- scoring ----

  const SYMBOL_EXACT: nat := 12
  const SYMBOL_PARTIAL: nat := 4
  const PATH_EXACT: nat := 6
  const PATH_PARTIAL: nat := 2
  const REFERENCE_EXACT: nat := 2
  const TERM_COVERAGE: nat := 3
  const MIN_PARTIAL_TERM: nat := 4

  /** What a scan of one entry gives a term: the best symbol hit, the best path hit, and a reference hit. */
  function CellOf(keys: EntryKeys, keyHash: Name -> nat, term: Name): Cell {
    var partial := |term.text| >= MIN_PARTIAL_TERM;
    Cell(Max(if term in keys.symbols then SYMBOL_EXACT else 0,
             if partial && term in keys.symbolSegments then SYMBOL_PARTIAL else 0),
         Max(if term in keys.paths then PATH_EXACT else 0,
             if partial && term in keys.pathSegments then PATH_PARTIAL else 0),
         if keyHash(term) in keys.references then REFERENCE_EXACT else 0)
  }

  /** Points and matched terms of one entry for the first `n` terms, without the coverage bonus. */
  function BruteForce(keys: EntryKeys, keyHash: Name -> nat, terms: seq<Name>, n: nat): Score
    requires n <= |terms|
  {
    if n == 0 then Score(0, {})
    else AddTerm(BruteForce(keys, keyHash, terms, n - 1), CellOf(keys, keyHash, terms[n - 1]).Total(), n - 1)
  }

  function AddTerm(before: Score, total: nat, index: nat): Score {
    Score(before.points + total, if total > 0 then before.terms + {index} else before.terms)
  }

  function WithCoverage(score: Score): Score {
    score.(points := score.points + TERM_COVERAGE * (if |score.terms| == 0 then 0 else |score.terms| - 1))
  }

  /** The hits of one term over all live entries. */
  ghost predicate HitsExact(hits: Hits, holders: map<nat, EntryKeys>, keyHash: Name -> nat, term: Name) {
    && (forall id :: id in hits <==> id in holders && CellOf(holders[id], keyHash, term).Total() > 0)
    && (forall id :: id in hits ==> hits[id] == CellOf(holders[id], keyHash, term))
  }

  /** The scores of the first `n` terms over all live entries. */
  ghost predicate ScoresExact(scores: map<nat, Score>, holders: map<nat, EntryKeys>, keyHash: Name -> nat,
                              terms: seq<Name>, n: nat)
    requires n <= |terms|
  {
    && (forall id :: id in scores <==> id in holders && BruteForce(holders[id], keyHash, terms, n).terms != {})
    && (forall id :: id in scores ==> scores[id] == BruteForce(holders[id], keyHash, terms, n))
  }

  lemma {:induction false} NoTermsNoPoints(keys: EntryKeys, keyHash: Name -> nat, terms: seq<Name>, n: nat)
    requires n <= |terms|
    ensures BruteForce(keys, keyHash, terms, n).terms == {} ==> BruteForce(keys, keyHash, terms, n).points == 0
    decreases n
  {
    if n > 0 {
      NoTermsNoPoints(keys, keyHash, terms, n - 1);
      AddTermMatches(BruteForce(keys, keyHash, terms, n - 1), CellOf(keys, keyHash, terms[n - 1]).Total(), n - 1);
    }
  }

  lemma AddTermMatches(before: Score, total: nat, index: nat)
    ensures before.terms == {} && before.points == 0 && AddTerm(before, total, index).terms == {}
            ==> AddTerm(before, total, index).points == 0
    ensures AddTerm(before, total, index).terms == {} ==> before.terms == {}
  {
    if total > 0 {
      assert index in AddTerm(before, total, index).terms;
    }
  }

  lemma AccumulateAt(scores: map<nat, Score>, hits: Hits, keys: EntryKeys, id: nat, keyHash: Name -> nat,
                     terms: seq<Name>, n: nat)
    requires n < |terms|
    requires id in scores <==> BruteForce(keys, keyHash, terms, n).terms != {}
    requires id in scores ==> scores[id] == BruteForce(keys, keyHash, terms, n)
    requires id in hits <==> CellOf(keys, keyHash, terms[n]).Total() > 0
    requires id in hits ==> hits[id] == CellOf(keys, keyHash, terms[n])
    ensures var scores' := AddHits(scores, hits, hits.Keys, n);
            && (id in scores' <==> BruteForce(keys, keyHash, terms, n + 1).terms != {})
            && (id in scores' ==> scores'[id] == BruteForce(keys, keyHash, terms, n + 1))
  {
    NoTermsNoPoints(keys, keyHash, terms, n);
    if id in hits {
      assert n in BruteForce(keys, keyHash, terms, n + 1).terms;
    }
  }

  lemma AccumulateExact(scores: map<nat, Score>, hits: Hits, holders: map<nat, EntryKeys>, keyHash: Name -> nat,
                        terms: seq<Name>, n: nat)
    requires n < |terms| && ScoresExact(scores, holders, keyHash, terms, n)
    requires HitsExact(hits, holders, keyHash, terms[n])
    ensures ScoresExact(AddHits(scores, hits, hits.Keys, n), holders, keyHash, terms, n + 1)
  {
    forall id | id in holders
      ensures var scores' := AddHits(scores, hits, hits.Keys, n);
              && (id in scores' <==> BruteForce(holders[id], keyHash, terms, n + 1).terms != {})
              && (id in scores' ==> scores'[id] == BruteForce(holders[id], keyHash, terms, n + 1))
    {
      AccumulateAt(scores, hits, holders[id], id, keyHash, terms, n);
    }
  }

  /** The ids posted under a key are exactly the live entries that have it. */
  ghost function Having<K(!new)>(holders: map<nat, EntryKeys>, kind: EntryKeys -> set<K>, key: K): set<nat> {
    set id | id in holders && key in kind(holders[id])
  }

  lemma PostedIsHaving<K(!new)>(index: Postings<K>, holders: map<nat, EntryKeys>, kind: EntryKeys -> set<K>, key: K)
    requires Agrees(index, Kind(holders, kind))
    ensures IdSet(Posted(index, key)) == Having(holders, kind, key)
  {
    forall id ensures id in Posted(index, key) <==> id in Having(holders, kind, key) {
      assert id in Posted(index, key) <==> id in Kind(holders, kind) && key in Kind(holders, kind)[id];
    }
  }

  /** The cell of one entry after one probe, stated on the probed key. */
  lemma ProbeAt<K(!new)>(hits: Hits, holders: map<nat, EntryKeys>, kind: EntryKeys -> set<K>, key: K, field: HitField,
                         points: nat, id: nat)
    requires id in holders
    ensures CellIn(HitAll(hits, Having(holders, kind, key), field, points), id)
         == if key in kind(holders[id]) then Raise(CellIn(hits, id), field, points) else CellIn(hits, id)
  {
    HitAllAt(hits, Having(holders, kind, key), field, points, id);
  }

  ghost function ProbedExactly(holders: map<nat, EntryKeys>, term: Name): Hits {
    HitAll(HitAll(map[], Having(holders, Symbols(), term), SymbolField, SYMBOL_EXACT),
           Having(holders, Paths(), term), PathField, PATH_EXACT)
  }

  ghost function ProbedPartly(holders: map<nat, EntryKeys>, term: Name): Hits {
    if |term.text| < MIN_PARTIAL_TERM then ProbedExactly(holders, term)
    else
      HitAll(HitAll(ProbedExactly(holders, term), Having(holders, SymbolSegments(), term), SymbolField, SYMBOL_PARTIAL),
             Having(holders, PathSegments(), term), PathField, PATH_PARTIAL)
  }

  /** The five probes of one term, in order. */
  ghost function Probed(holders: map<nat, EntryKeys>, keyHash: Name -> nat, term: Name): Hits {
    HitAll(ProbedPartly(holders, term), Having(holders, References(), keyHash(term)), ReferenceField, REFERENCE_EXACT)
  }

  lemma ExactCell(holders: map<nat, EntryKeys>, term: Name, id: nat)
    requires id in holders
    ensures CellIn(ProbedExactly(holders, term), id)
         == Cell(if term in holders[id].symbols then SYMBOL_EXACT else 0,
                 if term in holders[id].paths then PATH_EXACT else 0, 0)
  {
    var first := HitAll(map[], Having(holders, Symbols(), term), SymbolField, SYMBOL_EXACT);
    ProbeAt(map[], holders, Symbols(), term, SymbolField, SYMBOL_EXACT, id);
    ProbeAt(first, holders, Paths(), term, PathField, PATH_EXACT, id);
  }

  lemma PartialCell(holders: map<nat, EntryKeys>, term: Name, id: nat)
    requires id in holders
    ensures var keys, partial := holders[id], |term.text| >= MIN_PARTIAL_TERM;
            CellIn(ProbedPartly(holders, term), id)
            == Cell(Max(if term in keys.symbols then SYMBOL_EXACT else 0,
                        if partial && term in keys.symbolSegments then SYMBOL_PARTIAL else 0),
                    Max(if term in keys.paths then PATH_EXACT else 0,
                        if partial && term in keys.pathSegments then PATH_PARTIAL else 0), 0)
  {
    ExactCell(holders, term, id);
    if |term.text| >= MIN_PARTIAL_TERM {
      var exact := ProbedExactly(holders, term);
      var third := HitAll(exact, Having(holders, SymbolSegments(), term), SymbolField, SYMBOL_PARTIAL);
      ProbeAt(exact, holders, SymbolSegments(), term, SymbolField, SYMBOL_PARTIAL, id);
      ProbeAt(third, holders, PathSegments(), term, PathField, PATH_PARTIAL, id);
    }
  }

  lemma ProbedCell(holders: map<nat, EntryKeys>, keyHash: Name -> nat, term: Name, id: nat)
    requires id in holders
    ensures CellIn(Probed(holders, keyHash, term), id) == CellOf(holders[id], keyHash, term)
  {
    PartialCell(holders, term, id);
    ProbeAt(ProbedPartly(holders, term), holders, References(), keyHash(term), ReferenceField, REFERENCE_EXACT, id);
  }

  /** No cell of a probe is empty, and only live entries have one. */
  ghost predicate Hitting(hits: Hits, holders: map<nat, EntryKeys>) {
    forall id :: id in hits ==> id in holders && hits[id].Total() > 0
  }

  lemma ProbeHits(hits: Hits, holders: map<nat, EntryKeys>, ids: set<nat>, field: HitField, points: nat)
    requires Hitting(hits, holders) && ids <= holders.Keys && points > 0
    ensures Hitting(HitAll(hits, ids, field, points), holders)
  {
    forall id | id in HitAll(hits, ids, field, points)
      ensures id in holders && HitAll(hits, ids, field, points)[id].Total() > 0
    {
      RaisedTotal(CellIn(hits, id), field, points);
    }
  }

  lemma RaisedTotal(cell: Cell, field: HitField, points: nat)
    ensures Raise(cell, field, points).Total() >= points
  {
  }

  lemma ProbedHits(holders: map<nat, EntryKeys>, keyHash: Name -> nat, term: Name)
    ensures Hitting(Probed(holders, keyHash, term), holders)
  {
    var none: Hits := map[];
    var first := HitAll(none, Having(holders, Symbols(), term), SymbolField, SYMBOL_EXACT);
    ProbeHits(none, holders, Having(holders, Symbols(), term), SymbolField, SYMBOL_EXACT);
    ProbeHits(first, holders, Having(holders, Paths(), term), PathField, PATH_EXACT);
    if |term.text| >= MIN_PARTIAL_TERM {
      var exact := ProbedExactly(holders, term);
      var third := HitAll(exact, Having(holders, SymbolSegments(), term), SymbolField, SYMBOL_PARTIAL);
      ProbeHits(exact, holders, Having(holders, SymbolSegments(), term), SymbolField, SYMBOL_PARTIAL);
      ProbeHits(third, holders, Having(holders, PathSegments(), term), PathField, PATH_PARTIAL);
    }
    ProbeHits(ProbedPartly(holders, term), holders, Having(holders, References(), keyHash(term)), ReferenceField,
              REFERENCE_EXACT);
  }

  lemma ProbedExact(holders: map<nat, EntryKeys>, keyHash: Name -> nat, term: Name)
    ensures HitsExact(Probed(holders, keyHash, term), holders, keyHash, term)
  {
    ProbedHits(holders, keyHash, term);
    forall id | id in holders
      ensures CellIn(Probed(holders, keyHash, term), id) == CellOf(holders[id], keyHash, term)
    {
      ProbedCell(holders, keyHash, term, id);
    }
  }

  lemma PlacedInSlot(slots: seq<Option<Entry>>, entry: Entry)
    ensures (slots + [None])[|slots| := Some(entry)] == slots + [Some(entry)]
  {
  }

  lemma SlotDigests(c: Core)
    requires Bijection(c.ids, c.slots)
    ensures (set slot | slot in c.slots && slot.Some? :: slot.value.digest) == Digests(Files(c))
  {
    forall d | d in Digests(Files(c)) ensures exists slot :: slot in c.slots && slot.Some? && slot.value.digest == d {
      var r :| r in Files(c) && Files(c)[r].digest == d;
      assert c.slots[c.ids[r]] in c.slots;
    }
    forall slot | slot in c.slots && slot.Some? ensures slot.value.digest in Digests(Files(c)) {
      var i :| 0 <= i < |c.slots| && c.slots[i] == slot;
      assert slot.value.relative in Files(c);
    }
  }

  lemma MatchErased(files: FileMap, table: Outlines)
    ensures OutlinesMatch(Erased(files), table) <==> OutlinesMatch(files, table)
  {
    forall r | r in files
      ensures Erased(files)[r].digest == files[r].digest && Erased(files)[r].outline == files[r].outline
    {
    }
  }

  function Listed(files: seq<Name>, maxFiles: nat): seq<Name> {
    if |files| > maxFiles then files[..maxFiles] else files
  }

  lemma SweptKeys(known: FileMap, table: Outlines, disk: Disk, files: seq<Name>, entries: FileMap)
    requires Erased(entries) == SweepResult(known, table, disk, files)
    ensures forall r :: r in entries <==> r in files && !Skips(known, disk, r)
  {
    assert entries.Keys == Erased(entries).Keys == Kept(known, disk, files);
  }

  lemma SweptMatches(known: FileMap, table: Outlines, disk: Disk, files: seq<Name>)
    ensures OutlinesMatch(known, table) ==>
              OutlinesMatch(SweepResult(known, table, disk, files), LearnedAll(known, table, disk, files))
  {
    if OutlinesMatch(known, table) {
      SweepMatches(known, table, disk, files);
    }
  }

  class RepoMap {
    const keyHash: Name -> nat
    var ids: map<Name, nat>
    var slots: seq<Option<Entry>>
    var free: seq<nat>
    var symbolIndex: Postings<Name>
    var definitionIndex: Postings<nat>
    var referenceIndex: Postings<nat>
    var pathIndex: Postings<Name>
    var symbolSegmentIndex: Postings<Name>
    var pathSegmentIndex: Postings<Name>
    var generation: nat
    var sweptGeneration: Option<nat>
    var truncated: bool
    var byDigest: Outlines

    ghost function Value(): Core
      reads this
    {
      Core(ids, slots, free, Postings())
    }

    /** Indexes, slots, free list and path map agree, and the generation bounds every entry's. */
    ghost predicate Valid()
      reads this
    {
      Coherent(Value(), keyHash) && BoundedBy(Files(Value()), generation)
    }

    ghost function Entries(): FileMap
      reads this
      requires Valid()
    {
      Files(Value())
    }

    constructor (keyHash: Name -> nat)
      ensures Valid() && Entries() == map[] && generation == 0 && this.keyHash == keyHash && byDigest == map[]
    {
      this.keyHash := keyHash;
      ids, slots, free := map[], [], [];
      symbolIndex, definitionIndex, referenceIndex := map[], map[], map[];
      pathIndex, symbolSegmentIndex, pathSegmentIndex := map[], map[], map[];
      generation, sweptGeneration, truncated, byDigest := 0, None, false, map[];
      new;
      EmptyCoherent(keyHash);
    }

    ghost function Postings(): Indexes
      reads this
    {
      Indexes(symbolIndex, definitionIndex, referenceIndex, pathIndex, symbolSegmentIndex, pathSegmentIndex)
    }

    method PostKeys(keys: EntryKeys, id: nat)
      modifies this`symbolIndex, this`definitionIndex, this`referenceIndex, this`pathIndex, this`symbolSegmentIndex,
               this`pathSegmentIndex
      ensures Postings() == AddKeys(old(Postings()), keys, id)
    {
      symbolIndex := AddPostings(symbolIndex, keys.symbols, id);
      definitionIndex := AddPostings(definitionIndex, keys.definitions, id);
      referenceIndex := AddPostings(referenceIndex, keys.references, id);
      pathIndex := AddPostings(pathIndex, keys.paths, id);
      symbolSegmentIndex := AddPostings(symbolSegmentIndex, keys.symbolSegments, id);
      pathSegmentIndex := AddPostings(pathSegmentIndex, keys.pathSegments, id);
    }

    method UnpostKeys(keys: EntryKeys, id: nat)
      modifies this`symbolIndex, this`definitionIndex, this`referenceIndex, this`pathIndex, this`symbolSegmentIndex,
               this`pathSegmentIndex
      ensures Postings() == RemoveKeys(old(Postings()), keys, id)
    {
      symbolIndex := RemovePostings(symbolIndex, keys.symbols, id);
      definitionIndex := RemovePostings(definitionIndex, keys.definitions, id);
      referenceIndex := RemovePostings(referenceIndex, keys.references, id);
      pathIndex := RemovePostings(pathIndex, keys.paths, id);
      symbolSegmentIndex := RemovePostings(symbolSegmentIndex, keys.symbolSegments, id);
      pathSegmentIndex := RemovePostings(pathSegmentIndex, keys.pathSegments, id);
    }

    /** The last free slot, or a new one. */
    method TakeSlot() returns (id: nat)
      requires FreeExact(slots, free)
      modifies this`slots, this`free
      ensures id == InsertId(old(Value())) && id < |slots|
      ensures slots == if |old(free)| > 0 then old(slots) else old(slots) + [None]
      ensures free == if |old(free)| > 0 then old(free)[..|old(free)| - 1] else old(free)
    {
      InsertTarget(Value());
      id := |slots|;
      if |free| > 0 {
        id := free[|free| - 1];
        free := free[..|free| - 1];
      } else {
        slots := slots + [None];
      }
    }

    method InsertEntry(entry: Entry)
      requires FreeExact(slots, free)
      modifies this`ids, this`slots, this`free, this`symbolIndex, this`definitionIndex, this`referenceIndex,
               this`pathIndex,
               this`symbolSegmentIndex, this`pathSegmentIndex, this`byDigest
      ensures Value() == Insert(old(Value()), entry, keyHash)
      ensures byDigest == FiledOne(old(byDigest), Upsert(entry))
    {
      PlacedInSlot(slots, entry);
      var id := TakeSlot();
      PostKeys(KeysOf(entry, keyHash), id);
      FileOutline(entry);
      ids := ids[entry.relative := id];
      slots := slots[id := Some(entry)];
    }

    method FileOutline(entry: Entry)
      modifies this`byDigest
      ensures byDigest == FiledOne(old(byDigest), Upsert(entry))
    {
      if entry.digest != NO_DIGEST {
        byDigest := byDigest[entry.digest := entry.outline];
      }
    }

    method RemoveEntry(relative: Name) returns (removed: bool)
      requires Bijection(ids, slots)
      modifies this`ids, this`slots, this`free, this`symbolIndex, this`definitionIndex, this`referenceIndex,
               this`pathIndex,
               this`symbolSegmentIndex, this`pathSegmentIndex
      ensures Value() == Remove(old(Value()), relative, keyHash)
      ensures removed <==> relative in old(ids)
    {
      if relative !in ids {
        return false;
      }
      var id := ids[relative];
      ids := ids - {relative};
      UnpostKeys(KeysOf(slots[id].value, keyHash), id);
      slots := slots[id := None];
      free := free + [id];
      return true;
    }

    /** Updates the stored times of one entry in its slot; its keys stay. */
    method TouchEntry(relative: Name, modified: Option<nat>, hashedAt: nat)
      requires Coherent(Value(), keyHash)
      modifies this`slots
      ensures Coherent(Value(), keyHash)
      ensures Files(Value()) == ApplyOne(old(Files(Value())), Touch(relative, modified, hashedAt), 0)
    {
      if relative in ids {
        var id := ids[relative];
        ghost var before := slots;
        slots := slots[id := Some(slots[id].value.(modified := modified, hashedAt := hashedAt))];
        assert Holders(slots, keyHash) == Holders(before, keyHash);
        assert forall i: nat :: i < |slots| ==> (slots[i].None? <==> before[i].None?);
      }
    }

    method DropEntry(relative: Name) returns (removed: bool)
      requires Coherent(Value(), keyHash)
      modifies this`ids, this`slots, this`free, this`symbolIndex, this`definitionIndex, this`referenceIndex,
               this`pathIndex, this`symbolSegmentIndex, this`pathSegmentIndex
      ensures Coherent(Value(), keyHash) && Files(Value()) == old(Files(Value())) - {relative}
      ensures removed <==> relative in old(Files(Value()))
    {
      RemoveCoherent(Value(), relative, keyHash);
      removed := RemoveEntry(relative);
    }

    method AddEntry(entry: Entry)
      requires Coherent(Value(), keyHash) && entry.relative !in Files(Value())
      modifies this`ids, this`slots, this`free, this`symbolIndex, this`definitionIndex, this`referenceIndex,
               this`pathIndex, this`symbolSegmentIndex, this`pathSegmentIndex, this`byDigest
      ensures Coherent(Value(), keyHash) && Files(Value()) == old(Files(Value()))[entry.relative := entry]
      ensures byDigest == FiledOne(old(byDigest), Upsert(entry))
    {
      InsertCoherent(Value(), entry, keyHash);
      InsertEntry(entry);
    }

    method ReplaceEntry(entry: Entry)
      requires Coherent(Value(), keyHash)
      modifies this`ids, this`slots, this`free, this`symbolIndex, this`definitionIndex, this`referenceIndex,
               this`pathIndex, this`symbolSegmentIndex, this`pathSegmentIndex, this`byDigest
      ensures Coherent(Value(), keyHash) && Files(Value()) == old(Files(Value()))[entry.relative := entry]
      ensures byDigest == FiledOne(old(byDigest), Upsert(entry))
    {
      DropThenAdd(Files(Value()), entry);
      var _ := DropEntry(entry.relative);
      AddEntry(entry);
    }

    /** One change; says whether content changed. */
    method ApplyChange(change: Change, next: nat) returns (changed: bool)
      requires Coherent(Value(), keyHash)
      modifies this`ids, this`slots, this`free, this`symbolIndex, this`definitionIndex, this`referenceIndex,
               this`pathIndex, this`symbolSegmentIndex, this`pathSegmentIndex, this`byDigest
      ensures Coherent(Value(), keyHash)
      ensures Files(Value()) == ApplyOne(old(Files(Value())), change, next)
      ensures changed <==> change.Upsert? || (change.RemovePath? && change.relative in old(Files(Value())))
      ensures byDigest == FiledOne(old(byDigest), change)
    {
      match change
      case Upsert(entry) =>
        ReplaceEntry(entry.(generation := next));
        return true;
      case Touch(relative, modified, hashedAt) =>
        TouchEntry(relative, modified, hashedAt);
        return false;
      case RemovePath(relative) =>
        changed := DropEntry(relative);
    }

    /** Applies the changes in order; says whether some content changed. */
    method ApplyEach(changes: seq<Change>, next: nat) returns (contentChanged: bool)
      requires Coherent(Value(), keyHash)
      modifies this`ids, this`slots, this`free, this`symbolIndex, this`definitionIndex, this`referenceIndex,
               this`pathIndex, this`symbolSegmentIndex, this`pathSegmentIndex, this`byDigest
      ensures Coherent(Value(), keyHash)
      ensures Files(Value()) == ApplyAll(old(Files(Value())), changes, next)
      ensures contentChanged == ContentChanged(old(Files(Value())), changes, next)
      ensures byDigest == Filed(old(byDigest), changes)
    {
      ghost var before := Files(Value());
      contentChanged := false;
      for i := 0 to |changes|
        invariant Coherent(Value(), keyHash)
        invariant Files(Value()) == ApplyAll(before, changes[..i], next)
        invariant contentChanged == ContentChanged(before, changes[..i], next)
        invariant byDigest == Filed(old(byDigest), changes[..i])
      {
        ApplyOneMore(before, old(byDigest), changes, i, next);
        var changed := ApplyChange(changes[i], next);
        contentChanged := contentChanged || changed;
      }
      assert changes[..|changes|] == changes;
    }

    /** A batch of changes takes one new generation, and only when content changed. */
    method Apply(changes: seq<Change>)
      requires Valid()
      modifies this`ids, this`slots, this`free, this`symbolIndex, this`definitionIndex, this`referenceIndex,
               this`pathIndex, this`symbolSegmentIndex, this`pathSegmentIndex, this`byDigest, this`generation
      ensures Valid()
      ensures Entries() == ApplyAll(old(Entries()), changes, old(generation) + 1)
      ensures generation == NextGeneration(old(Entries()), changes, old(generation))
      ensures byDigest == Filed(old(byDigest), changes)
    {
      ApplyKeepsBound(Entries(), changes, generation);
      var next := generation + 1;
      ghost var after := ApplyAll(Entries(), changes, next);
      ghost var last := NextGeneration(Entries(), changes, generation);
      var contentChanged := ApplyEach(changes, next);
      if contentChanged {
        TakeGeneration(next);
      }
      assert Coherent(Value(), keyHash) && Files(Value()) == after && generation == last;
    }

    method TakeGeneration(next: nat)
      modifies this`generation
      ensures generation == next && Value() == old(Value())
    {
      generation := next;
    }

    /** Applies a batch; generations aside, the entries change as if it were applied to the plain map. */
    method Flush(batch: seq<Change>)
      requires Valid()
      modifies this`ids, this`slots, this`free, this`symbolIndex, this`definitionIndex, this`referenceIndex,
               this`pathIndex, this`symbolSegmentIndex, this`pathSegmentIndex, this`byDigest, this`generation
      ensures Valid() && generation >= old(generation)
      ensures Erased(Entries()) == ApplyAll(Erased(old(Entries())), batch, 0)
      ensures byDigest == Filed(old(byDigest), batch)
    {
      ErasedApplyAll(Entries(), batch, generation + 1);
      ghost var after, last := ApplyAll(Entries(), batch, generation + 1), NextGeneration(Entries(), batch, generation);
      assert last >= generation && Erased(after) == ApplyAll(Erased(Entries()), batch, 0);
      Apply(batch);
      assert Entries() == after && generation == last;
    }

    /** What applying the pending batch would leave: the entries, generations aside, and the outlines on file. */
    ghost predicate Pending(batch: seq<Change>, staged: FileMap, table: Outlines)
      requires Valid()
      reads this
    {
      ApplyAll(Erased(Entries()), batch, 0) == staged && Filed(byDigest, batch) == table
    }

    /** After some listed files: what was seen, the outlines known, and what applying the pending batch would leave. */
    ghost predicate SweptSoFar(known: FileMap, disk: Disk, before: Outlines, done: seq<Name>, table: Outlines,
                               batch: seq<Change>, seen: set<Name>)
      requires Valid()
      reads this
    {
      && seen == Kept(known, disk, done) && table == LearnedAll(known, before, disk, done)
      && Pending(batch, Staged(known, before, disk, done), table)
    }

    lemma StartSweep(known: FileMap, disk: Disk)
      requires Valid() && known == Entries()
      ensures SweptSoFar(known, disk, byDigest, [], byDigest, [], {})
    {
      NothingSwept(known, byDigest, disk);
    }

    /** Inspects the listed files in order, applying the changes in small batches. */
    method SweepListed(known: FileMap, disk: Disk, files: seq<Name>)
      returns (batch: seq<Change>, seen: set<Name>, table: Outlines)
      requires Valid() && known == Entries()
      modifies this`ids, this`slots, this`free, this`symbolIndex, this`definitionIndex, this`referenceIndex,
               this`pathIndex, this`symbolSegmentIndex, this`pathSegmentIndex, this`byDigest, this`generation
      ensures Valid() && generation >= old(generation)
      ensures SweptSoFar(known, disk, old(byDigest), files, table, batch, seen)
    {
      batch, seen, table := [], {}, byDigest;
      ghost var before, done: seq<Name> := byDigest, [];
      StartSweep(known, disk);
      for i := 0 to |files|
        invariant Valid() && generation >= old(generation)
        invariant done == files[..i] && SweptSoFar(known, disk, before, done, table, batch, seen)
      {
        batch, seen, table := SweepFile(known, disk, before, done, table, files[i], batch, seen);
        done := done + [files[i]];
        assert done == files[..i + 1];
      }
      assert done == files;
    }

    /** Inspects one file; `table` holds the outlines on file before the sweep and those parsed in it. */
    method SweepFile(known: FileMap, disk: Disk, ghost before: Outlines, ghost done: seq<Name>, table: Outlines,
                     r: Name, batch: seq<Change>, seen: set<Name>)
      returns (batch': seq<Change>, seen': set<Name>, table': Outlines)
      requires Valid() && SweptSoFar(known, disk, before, done, table, batch, seen)
      modifies this`ids, this`slots, this`free, this`symbolIndex, this`definitionIndex, this`referenceIndex,
               this`pathIndex, this`symbolSegmentIndex, this`pathSegmentIndex, this`byDigest, this`generation
      ensures Valid() && generation >= old(generation)
      ensures SweptSoFar(known, disk, before, done + [r], table', batch', seen')
    {
      LearnedAppend(known, before, disk, done, r);
      table' := Learned(known, table, disk, r);
      StageOne(known, before, disk, done, r);
      FilesWhatItLearns(known, table, disk, r);
      KeptOneMore(known, disk, done, r);
      InspectAlike(known, table, disk, r);
      batch', seen' := batch, seen;
      match Inspect(known, table, disk, r)
      case Unchanged =>
        seen' := seen + {r};
      case Changed(change) =>
        seen' := seen + {r};
        batch' := Push(batch, change, Staged(known, before, disk, done), table);
      case Skipped =>
    }

    /** Adds a change to the pending batch and applies the batch when it is full. */
    method Push(batch: seq<Change>, change: Change, ghost staged: FileMap, ghost table: Outlines)
      returns (batch': seq<Change>)
      requires Valid() && Pending(batch, staged, table)
      modifies this`ids, this`slots, this`free, this`symbolIndex, this`definitionIndex, this`referenceIndex,
               this`pathIndex, this`symbolSegmentIndex, this`pathSegmentIndex, this`byDigest, this`generation
      ensures Valid() && generation >= old(generation)
      ensures Pending(batch', ApplyOne(staged, change, 0), FiledOne(table, change))
    {
      PushChange(Erased(Entries()), batch, change);
      FiledAppend(byDigest, batch, change);
      batch' := batch + [change];
      if |batch'| >= APPLY_BATCH {
        Flush(batch');
        batch' := [];
      }
    }

    /** Applies what is pending together with the removal of every known path that was not seen, in any order. */
    method SweepVanished(pending: seq<Change>, vanished: set<Name>, ghost staged: FileMap, ghost table: Outlines)
      requires Valid() && Pending(pending, staged, table)
      modifies this`ids, this`slots, this`free, this`symbolIndex, this`definitionIndex, this`referenceIndex,
               this`pathIndex, this`symbolSegmentIndex, this`pathSegmentIndex, this`byDigest, this`generation
      ensures Valid() && generation >= old(generation)
      ensures Erased(Entries()) == staged - vanished && byDigest == table
    {
      var batch := AddRemovals(pending, vanished, Erased(Entries()), staged, byDigest, table);
      if |batch| > 0 {
        Flush(batch);
      }
    }

    static method AddRemovals(pending: seq<Change>, vanished: set<Name>, ghost erased: FileMap, ghost staged: FileMap,
                              ghost filed: Outlines, ghost table: Outlines) returns (batch: seq<Change>)
      requires ApplyAll(erased, pending, 0) == staged && Filed(filed, pending) == table
      ensures ApplyAll(erased, batch, 0) == staged - vanished && Filed(filed, batch) == table
    {
      batch := pending;
      var rest := vanished;
      ghost var done: set<Name> := {};
      assert staged - {} == staged;
      while rest != {}
        invariant done + rest == vanished && done !! rest
        invariant ApplyAll(erased, batch, 0) == staged - done && Filed(filed, batch) == table
        decreases rest
      {
        var r :| r in rest;
        PushChange(erased, batch, RemovePath(r));
        FiledAppend(filed, batch, RemovePath(r));
        assert staged - done - {r} == staged - (done + {r});
        batch := batch + [RemovePath(r)];
        rest, done := rest - {r}, done + {r};
      }
      assert done == vanished;
    }

    /** A sweep over the listed files, before what is unused is dropped. */
    method SweepFiles(files: seq<Name>, disk: Disk)
      requires Valid()
      modifies this`ids, this`slots, this`free, this`symbolIndex, this`definitionIndex, this`referenceIndex,
               this`pathIndex, this`symbolSegmentIndex, this`pathSegmentIndex, this`byDigest, this`generation
      ensures Valid() && generation >= old(generation)
      ensures Erased(Entries()) == SweepResult(old(Entries()), old(byDigest), disk, files)
      ensures byDigest == LearnedAll(old(Entries()), old(byDigest), disk, files)
    {
      var known := map r | r in ids :: slots[ids[r]].value;
      ghost var before := byDigest;
      StagedWithoutVanished(known, before, disk, files);
      var batch, seen, table := SweepListed(known, disk, files);
      SweepVanished(batch, known.Keys - seen, Staged(known, before, disk, files), table);
    }

    /**
     A full sweep over the listed files, at most `maxFiles` of them.  Afterwards the paths are exactly those that were
     not skipped, and a new outline is on file as the first file that needed it parsed it.  Outlines stay on file as
     long as an entry uses them or, with a digest in `held`, something outside the map does.
     */
    method Sweep(listed: seq<Name>, disk: Disk, maxFiles: nat, held: set<Name>)
      requires Valid()
      modifies this
      ensures Valid() && generation >= old(generation)
      ensures var files := Listed(listed, maxFiles);
              && Erased(Entries()) == SweepResult(old(Entries()), old(byDigest), disk, files)
              && byDigest == InUse(LearnedAll(old(Entries()), old(byDigest), disk, files), Digests(Entries()) + held)
      ensures forall r :: r in Entries() <==> r in Listed(listed, maxFiles) && !Skips(old(Entries()), disk, r)
      ensures old(OutlinesMatch(Entries(), byDigest)) ==> OutlinesMatch(Entries(), byDigest)
      ensures truncated == (|listed| > maxFiles)
      ensures sweptGeneration == if old(sweptGeneration).None? then Some(generation) else old(sweptGeneration)
    {
      var files := Listed(listed, maxFiles);
      ghost var known, table := Entries(), byDigest;
      SweptMatches(known, table, disk, files);
      SweepFiles(files, disk);
      ghost var entries, after := Entries(), byDigest;
      FinishSweep(|listed| > maxFiles, held);
      SweptKeys(known, table, disk, files, entries);
      MatchErased(entries, after);
      if OutlinesMatch(entries, after) {
        InUseMatches(entries, after, held);
      }
    }

    /** Drops the outlines nothing uses, and notes the generation of the first sweep. */
    method FinishSweep(truncated: bool, held: set<Name>)
      requires Valid()
      modifies this`truncated, this`byDigest, this`sweptGeneration
      ensures Valid() && Entries() == old(Entries()) && this.truncated == truncated
      ensures byDigest == InUse(old(byDigest), Digests(Entries()) + held)
      ensures sweptGeneration == if old(sweptGeneration).None? then Some(generation) else old(sweptGeneration)
    {
      ghost var core := Value();
      SlotDigests(core);
      this.truncated := truncated;
      byDigest := InUse(byDigest, (set slot | slot in slots && slot.Some? :: slot.value.digest) + held);
      if sweptGeneration.None? {
        sweptGeneration := Some(generation);
      }
      assert Value() == core;
    }

    /**
     The sweep that keeps its copy of the outlines until it is finished: none that was on file before it is dropped, and
     what no entry uses is left to the next sweep.
     */
    method Refresh(listed: seq<Name>, disk: Disk, maxFiles: nat)
      requires Valid()
      modifies this
      ensures Valid() && generation >= old(generation)
      ensures Erased(Entries()) == SweepResult(old(Entries()), old(byDigest), disk, Listed(listed, maxFiles))
      ensures forall d :: d in old(byDigest) ==> d in byDigest && byDigest[d] == old(byDigest)[d]
      ensures forall d :: d in byDigest ==> d in old(byDigest) || d in Digests(Entries())
      ensures old(OutlinesMatch(Entries(), byDigest)) ==> OutlinesMatch(Entries(), byDigest)
    {
      ghost var known, table := Entries(), byDigest;
      AllLearnedKeep(known, table, disk, Listed(listed, maxFiles));
      Sweep(listed, disk, maxFiles, byDigest.Keys);
    }

    /** Scores by probing the indexes: the same as scanning every live entry, and no dead slot is scored. */
    method ScoreTerms(terms: seq<Name>) returns (scores: map<nat, Score>)
      requires Valid()
      ensures var holders := Holders(slots, keyHash);
              && (forall id :: id in scores <==>
                    id in holders && BruteForce(holders[id], keyHash, terms, |terms|).terms != {})
              && (forall id :: id in scores ==>
                    scores[id] == WithCoverage(BruteForce(holders[id], keyHash, terms, |terms|)))
    {
      ghost var holders := Holders(slots, keyHash);
      var raw: map<nat, Score> := map[];
      for index := 0 to |terms|
        invariant ScoresExact(raw, holders, keyHash, terms, index)
      {
        var hits := TermHits(terms[index]);
        AccumulateExact(raw, hits, holders, keyHash, terms, index);
        raw := Accumulate(raw, hits, index);
      }
      scores := map id | id in raw :: WithCoverage(raw[id]);
    }

    method TermHits(term: Name) returns (hits: Hits)
      requires AllAgree(Value().indexes, Holders(slots, keyHash))
      ensures HitsExact(hits, Holders(slots, keyHash), keyHash, term)
    {
      ghost var holders := Holders(slots, keyHash);
      PostedIsHaving(symbolIndex, holders, Symbols(), term);
      PostedIsHaving(pathIndex, holders, Paths(), term);
      PostedIsHaving(symbolSegmentIndex, holders, SymbolSegments(), term);
      PostedIsHaving(pathSegmentIndex, holders, PathSegments(), term);
      PostedIsHaving(referenceIndex, holders, References(), keyHash(term));
      hits := Hit(map[], Posted(symbolIndex, term), SymbolField, SYMBOL_EXACT);
      hits := Hit(hits, Posted(pathIndex, term), PathField, PATH_EXACT);
      if |term.text| >= MIN_PARTIAL_TERM {
        hits := Hit(hits, Posted(symbolSegmentIndex, term), SymbolField, SYMBOL_PARTIAL);
        hits := Hit(hits, Posted(pathSegmentIndex, term), PathField, PATH_PARTIAL);
      }
      hits := Hit(hits, Posted(referenceIndex, keyHash(term)), ReferenceField, REFERENCE_EXACT);
      assert hits == Probed(holders, keyHash, term);
      ProbedExact(holders, keyHash, term);
    }
  }
}
