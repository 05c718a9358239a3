/**
 The inverted indexes of the repo map and the slot table they point into (repo_map.rs), as values.

 `Core` holds the path-to-id map, the slot array, its free list and the six posting indexes.  `Coherent` says that
 they agree with the plain set of live entries; inserting and removing an entry keep it.
 */
module RepoIndexes {
  import opened Names
  import opened JsonValues

  // ---- postings ----

  type Postings<!K> = map<K, seq<nat>>

  function Posted<K>(index: Postings<K>, key: K): seq<nat> {
    if key in index then index[key] else []
  }

  predicate Distinct(ids: seq<nat>) {
    forall i, j :: 0 <= i < j < |ids| ==> ids[i] != ids[j]
  }

  /** `index.entry(key).or_default().push(id)`, for every key. */
  function AddAll<K>(index: Postings<K>, keys: set<K>, id: nat): Postings<K> {
    map k | k in index.Keys + keys :: if k in keys then Posted(index, k) + [id] else index[k]
  }

  function AddPosting<K>(index: Postings<K>, key: K, id: nat): Postings<K> {
    index[key := Posted(index, key) + [id]]
  }

  function PositionOf(ids: seq<nat>, id: nat): (r: nat)
    ensures r <= |ids| && (r < |ids| ==> ids[r] == id) && (r == |ids| ==> id !in ids)
  {
    if |ids| == 0 || ids[0] == id then 0 else
      assert ids == [ids[0]] + ids[1..];
      1 + PositionOf(ids[1..], id)
  }

  /** Removes the first occurrence by moving the last element into its place. */
  function SwapRemove(ids: seq<nat>, id: nat): seq<nat> {
    var position := PositionOf(ids, id);
    if position == |ids| then ids else ids[position := ids[|ids| - 1]][..|ids| - 1]
  }

  /** `remove_posting`: an emptied list is dropped with its key. */
  function RemovePosting<K>(index: Postings<K>, key: K, id: nat): Postings<K> {
    if key !in index then index
    else if SwapRemove(index[key], id) == [] then index - {key}
    else index[key := SwapRemove(index[key], id)]
  }

  function RemoveAll<K>(index: Postings<K>, keys: set<K>, id: nat): Postings<K> {
    map k | k in index && !(k in keys && SwapRemove(index[k], id) == []) ::
      if k in keys then SwapRemove(index[k], id) else index[k]
  }

  lemma SwapRemoveMembers(ids: seq<nat>, id: nat)
    requires Distinct(ids)
    ensures Distinct(SwapRemove(ids, id))
    ensures forall x :: x in SwapRemove(ids, id) <==> x in ids && x != id
  {
    var position, r := PositionOf(ids, id), SwapRemove(ids, id);
    if position < |ids| {
      forall x | x in ids && x != id ensures x in r {
        var k :| 0 <= k < |ids| && ids[k] == x;
        assert r[if k == |ids| - 1 then position else k] == x;
      }
    }
  }

  /** The index lists an id once under a key iff the holder with that id has the key, and lists nothing else. */
  ghost predicate Agrees<K(!new)>(index: Postings<K>, holders: map<nat, set<K>>) {
    && (forall k :: k in index ==> index[k] != [] && Distinct(index[k]))
    && (forall k, id :: id in Posted(index, k) <==> id in holders && k in holders[id])
  }

  lemma AddAgrees<K(!new)>(index: Postings<K>, holders: map<nat, set<K>>, keys: set<K>, id: nat)
    requires Agrees(index, holders) && id !in holders
    ensures Agrees(AddAll(index, keys, id), holders[id := keys])
  {
    var index' := AddAll(index, keys, id);
    forall k | k in index' ensures index'[k] != [] && Distinct(index'[k]) {
      assert id !in Posted(index, k);
    }
    forall k, x ensures x in Posted(index', k) <==> x in holders[id := keys] && k in holders[id := keys][x] {
      assert x in Posted(index, k) <==> x in holders && k in holders[x];
      assert id !in Posted(index, k);
    }
  }

  lemma PostedAfterRemove<K>(index: Postings<K>, keys: set<K>, id: nat, k: K)
    ensures Posted(RemoveAll(index, keys, id), k)
            == if k in keys then SwapRemove(Posted(index, k), id) else Posted(index, k)
  {
  }

  lemma RemoveAgreesAt<K(!new)>(index: Postings<K>, holders: map<nat, set<K>>, keys: set<K>, id: nat, k: K, x: nat)
    requires Agrees(index, holders) && id in holders && holders[id] == keys
    ensures x in Posted(RemoveAll(index, keys, id), k) <==> x in holders - {id} && k in (holders - {id})[x]
  {
    PostedAfterRemove(index, keys, id, k);
    SwapRemoveMembers(Posted(index, k), id);
    assert x in Posted(index, k) <==> x in holders && k in holders[x];
    assert id in Posted(index, k) <==> k in keys;
  }

  lemma RemoveAgrees<K(!new)>(index: Postings<K>, holders: map<nat, set<K>>, keys: set<K>, id: nat)
    requires Agrees(index, holders) && id in holders && holders[id] == keys
    ensures Agrees(RemoveAll(index, keys, id), holders - {id})
  {
    var index', holders' := RemoveAll(index, keys, id), holders - {id};
    forall k | k in index' ensures index'[k] != [] && Distinct(index'[k]) {
      SwapRemoveMembers(index[k], id);
    }
    forall k, x ensures x in Posted(index', k) <==> x in holders' && k in holders'[x] {
      RemoveAgreesAt(index, holders, keys, id, k, x);
    }
  }

  /** The order in which the keys are taken does not matter, so a loop over a hash set computes `AddAll`. */
  lemma AddOneMore<K>(index: Postings<K>, done: set<K>, key: K, id: nat)
    requires key !in done
    ensures AddPosting(AddAll(index, done, id), key, id) == AddAll(index, done + {key}, id)
  {
    var now := AddAll(index, done, id);
    assert Posted(now, key) == Posted(index, key);
  }

  lemma RemoveOneMore<K>(index: Postings<K>, done: set<K>, key: K, id: nat)
    requires key !in done
    ensures RemovePosting(RemoveAll(index, done, id), key, id) == RemoveAll(index, done + {key}, id)
  {
    var now := RemoveAll(index, done, id);
    assert key in now <==> key in index;
  }

  lemma AddNone<K>(index: Postings<K>, id: nat)
    ensures AddAll(index, {}, id) == index
  {
  }

  method AddPostings<K(==)>(index: Postings<K>, keys: set<K>, id: nat) returns (index': Postings<K>)
    ensures index' == AddAll(index, keys, id)
  {
    index' := index;
    var rest := keys;
    ghost var done: set<K> := {};
    AddNone(index, id);
    while rest != {}
      invariant done + rest == keys && done !! rest
      invariant index' == AddAll(index, done, id)
      decreases rest
    {
      var key :| key in rest;
      AddOneMore(index, done, key, id);
      index' := AddPosting(index', key, id);
      rest, done := rest - {key}, done + {key};
    }
    assert done == keys;
  }

  method RemovePostings<K(==)>(index: Postings<K>, keys: set<K>, id: nat) returns (index': Postings<K>)
    ensures index' == RemoveAll(index, keys, id)
  {
    index' := index;
    var rest := keys;
    ghost var done: set<K> := {};
    assert index == RemoveAll(index, {}, id);
    while rest != {}
      invariant done + rest == keys && done !! rest
      invariant index' == RemoveAll(index, done, id)
      decreases rest
    {
      var key :| key in rest;
      RemoveOneMore(index, done, key, id);
      index' := RemovePosting(index', key, id);
      rest, done := rest - {key}, done + {key};
    }
    assert done == keys;
  }

  // ---- entries and their keys ----

  datatype Extraction = TreeSitter | Lexical | LargeFile | Binary

  /** An outline; reference names are kept as hashes only. */
  datatype FileSymbols = FileSymbols(
    extraction: Extraction,
    symbolKeys: seq<Name>,
    segmentKeys: set<Name>,
    referenceKeys: set<nat>)

  datatype Entry = Entry(
    relative: Name,
    digest: Name,
    bytes: nat,
    generation: nat,
    outline: FileSymbols,
    modified: Option<nat>,
    hashedAt: nat,
    pathKeys: set<Name>,
    pathSegments: set<Name>)

  datatype EntryKeys = EntryKeys(
    symbols: set<Name>,
    definitions: set<nat>,
    references: set<nat>,
    paths: set<Name>,
    symbolSegments: set<Name>,
    pathSegments: set<Name>)

  /** `EntryKeys::of`; `keyHash` stands for the hash of a key. */
  function KeysOf(entry: Entry, keyHash: Name -> nat): EntryKeys {
    var symbols := set k | k in entry.outline.symbolKeys && k.text != "";
    EntryKeys(symbols, set k | k in symbols :: keyHash(k), entry.outline.referenceKeys,
              entry.pathKeys, entry.outline.segmentKeys, entry.pathSegments)
  }

  datatype Indexes = Indexes(
    symbol: Postings<Name>,
    definition: Postings<nat>,
    reference: Postings<nat>,
    path: Postings<Name>,
    symbolSegment: Postings<Name>,
    pathSegment: Postings<Name>)

  function AddKeys(ix: Indexes, keys: EntryKeys, id: nat): Indexes {
    Indexes(AddAll(ix.symbol, keys.symbols, id), AddAll(ix.definition, keys.definitions, id),
            AddAll(ix.reference, keys.references, id), AddAll(ix.path, keys.paths, id),
            AddAll(ix.symbolSegment, keys.symbolSegments, id), AddAll(ix.pathSegment, keys.pathSegments, id))
  }

  function RemoveKeys(ix: Indexes, keys: EntryKeys, id: nat): Indexes {
    Indexes(RemoveAll(ix.symbol, keys.symbols, id), RemoveAll(ix.definition, keys.definitions, id),
            RemoveAll(ix.reference, keys.references, id), RemoveAll(ix.path, keys.paths, id),
            RemoveAll(ix.symbolSegment, keys.symbolSegments, id), RemoveAll(ix.pathSegment, keys.pathSegments, id))
  }

  /** One key kind of every holder. */
  function Kind<K>(holders: map<nat, EntryKeys>, kind: EntryKeys -> set<K>): map<nat, set<K>> {
    map id | id in holders :: kind(holders[id])
  }

  function Symbols(): EntryKeys -> set<Name> { (keys: EntryKeys) => keys.symbols }
  function Definitions(): EntryKeys -> set<nat> { (keys: EntryKeys) => keys.definitions }
  function References(): EntryKeys -> set<nat> { (keys: EntryKeys) => keys.references }
  function Paths(): EntryKeys -> set<Name> { (keys: EntryKeys) => keys.paths }
  function SymbolSegments(): EntryKeys -> set<Name> { (keys: EntryKeys) => keys.symbolSegments }
  function PathSegments(): EntryKeys -> set<Name> { (keys: EntryKeys) => keys.pathSegments }

  /** All six indexes agree with the live entries' keys. */
  ghost predicate AllAgree(ix: Indexes, holders: map<nat, EntryKeys>) {
    && Agrees(ix.symbol, Kind(holders, Symbols()))
    && Agrees(ix.definition, Kind(holders, Definitions()))
    && Agrees(ix.reference, Kind(holders, References()))
    && Agrees(ix.path, Kind(holders, Paths()))
    && Agrees(ix.symbolSegment, Kind(holders, SymbolSegments()))
    && Agrees(ix.pathSegment, Kind(holders, PathSegments()))
  }

  lemma AddKindAgrees<K(!new)>(
    index: Postings<K>, holders: map<nat, EntryKeys>, keys: EntryKeys, id: nat, kind: EntryKeys -> set<K>)
    requires Agrees(index, Kind(holders, kind)) && id !in holders
    ensures Agrees(AddAll(index, kind(keys), id), Kind(holders[id := keys], kind))
  {
    AddAgrees(index, Kind(holders, kind), kind(keys), id);
    assert Kind(holders[id := keys], kind) == Kind(holders, kind)[id := kind(keys)];
  }

  lemma RemoveKindAgrees<K(!new)>(index: Postings<K>, holders: map<nat, EntryKeys>, id: nat, kind: EntryKeys -> set<K>)
    requires Agrees(index, Kind(holders, kind)) && id in holders
    ensures Agrees(RemoveAll(index, kind(holders[id]), id), Kind(holders - {id}, kind))
  {
    RemoveAgrees(index, Kind(holders, kind), kind(holders[id]), id);
    assert Kind(holders - {id}, kind) == Kind(holders, kind) - {id};
  }

  lemma AddKeysAgrees(ix: Indexes, holders: map<nat, EntryKeys>, keys: EntryKeys, id: nat)
    requires AllAgree(ix, holders) && id !in holders
    ensures AllAgree(AddKeys(ix, keys, id), holders[id := keys])
  {
    AddKindAgrees(ix.symbol, holders, keys, id, Symbols());
    AddKindAgrees(ix.definition, holders, keys, id, Definitions());
    AddKindAgrees(ix.reference, holders, keys, id, References());
    AddKindAgrees(ix.path, holders, keys, id, Paths());
    AddKindAgrees(ix.symbolSegment, holders, keys, id, SymbolSegments());
    AddKindAgrees(ix.pathSegment, holders, keys, id, PathSegments());
  }

  lemma RemoveKeysAgrees(ix: Indexes, holders: map<nat, EntryKeys>, id: nat)
    requires AllAgree(ix, holders) && id in holders
    ensures AllAgree(RemoveKeys(ix, holders[id], id), holders - {id})
  {
    RemoveKindAgrees(ix.symbol, holders, id, Symbols());
    RemoveKindAgrees(ix.definition, holders, id, Definitions());
    RemoveKindAgrees(ix.reference, holders, id, References());
    RemoveKindAgrees(ix.path, holders, id, Paths());
    RemoveKindAgrees(ix.symbolSegment, holders, id, SymbolSegments());
    RemoveKindAgrees(ix.pathSegment, holders, id, PathSegments());
  }

  // ---- the slot table ----

  datatype Core = Core(ids: map<Name, nat>, slots: seq<Option<Entry>>, free: seq<nat>, indexes: Indexes)

  function EmptyCore(): Core {
    Core(map[], [], [], Indexes(map[], map[], map[], map[], map[], map[]))
  }

  /** The keys of every occupied slot. */
  ghost function Holders(slots: seq<Option<Entry>>, keyHash: Name -> nat): map<nat, EntryKeys> {
    map id: nat | id < |slots| && slots[id].Some? :: KeysOf(slots[id].value, keyHash)
  }

  /** Paths and occupied slots correspond one to one. */
  ghost predicate Bijection(ids: map<Name, nat>, slots: seq<Option<Entry>>) {
    && (forall r :: r in ids ==> ids[r] < |slots| && slots[ids[r]].Some? && slots[ids[r]].value.relative == r)
    && (forall i: nat :: i < |slots| && slots[i].Some? ==>
          slots[i].value.relative in ids && ids[slots[i].value.relative] == i)
  }

  /** The free list holds exactly the empty slots, once each. */
  ghost predicate FreeExact(slots: seq<Option<Entry>>, free: seq<nat>) {
    Distinct(free) && forall i: nat :: i in free <==> i < |slots| && slots[i].None?
  }

  ghost predicate Coherent(c: Core, keyHash: Name -> nat) {
    && Bijection(c.ids, c.slots)
    && FreeExact(c.slots, c.free)
    && AllAgree(c.indexes, Holders(c.slots, keyHash))
  }

  /** The plain set of entries the indexes speed up. */
  ghost function Files(c: Core): map<Name, Entry>
    requires Bijection(c.ids, c.slots)
  {
    map r | r in c.ids :: c.slots[c.ids[r]].value
  }

  function InsertId(c: Core): nat {
    if |c.free| > 0 then c.free[|c.free| - 1] else |c.slots|
  }

  function Insert(c: Core, entry: Entry, keyHash: Name -> nat): Core {
    var id := InsertId(c);
    Core(c.ids[entry.relative := id],
         if id < |c.slots| then c.slots[id := Some(entry)] else c.slots + [Some(entry)],
         if |c.free| > 0 then c.free[..|c.free| - 1] else c.free,
         AddKeys(c.indexes, KeysOf(entry, keyHash), id))
  }

  function Remove(c: Core, relative: Name, keyHash: Name -> nat): Core {
    if relative !in c.ids then c
    else
      var id := c.ids[relative];
      if id >= |c.slots| || c.slots[id].None? then c.(ids := c.ids - {relative})
      else
        Core(c.ids - {relative}, c.slots[id := None], c.free + [id],
             RemoveKeys(c.indexes, KeysOf(c.slots[id].value, keyHash), id))
  }

  lemma EmptyCoherent(keyHash: Name -> nat)
    ensures Coherent(EmptyCore(), keyHash) && Files(EmptyCore()) == map[]
  {
  }

  lemma InsertTarget(c: Core)
    requires FreeExact(c.slots, c.free)
    ensures InsertId(c) <= |c.slots| && (InsertId(c) < |c.slots| ==> c.slots[InsertId(c)].None?)
    ensures |c.free| > 0 ==> InsertId(c) < |c.slots|
  {
    if |c.free| > 0 {
      assert InsertId(c) in c.free;
    }
  }

  lemma TakesLast(free: seq<nat>, rest: seq<nat>, id: nat)
    requires Distinct(free) && free == rest + [id]
    ensures Distinct(rest) && forall i :: i in rest <==> i in free && i != id
  {
    forall i | 0 <= i < |rest| ensures rest[i] == free[i] && rest[i] != id {
      assert free[|free| - 1] == id;
    }
  }

  lemma InsertFree(c: Core, entry: Entry, keyHash: Name -> nat)
    requires FreeExact(c.slots, c.free)
    ensures FreeExact(Insert(c, entry, keyHash).slots, Insert(c, entry, keyHash).free)
  {
    InsertTarget(c);
    var id, c' := InsertId(c), Insert(c, entry, keyHash);
    if |c.free| > 0 {
      assert c.free == c'.free + [id];
      TakesLast(c.free, c'.free, id);
      forall i: nat ensures i in c'.free <==> i < |c'.slots| && c'.slots[i].None? {
        assert i in c.free <==> i < |c.slots| && c.slots[i].None?;
        assert i < |c.slots| && i != id ==> c'.slots[i] == c.slots[i];
      }
    } else {
      forall i: nat ensures i in c'.free <==> i < |c'.slots| && c'.slots[i].None? {
        assert i < |c.slots| ==> c'.slots[i] == c.slots[i];
      }
    }
  }

  /** An empty slot, or the one behind the last, takes the entry. */
  ghost predicate TakesSlot(slots: seq<Option<Entry>>, id: nat, entry: Entry, slots': seq<Option<Entry>>) {
    && id <= |slots| && (id < |slots| ==> slots[id].None?)
    && |slots'| == (if id < |slots| then |slots| else |slots| + 1) && slots'[id] == Some(entry)
    && forall i: nat :: i < |slots| && i != id ==> slots'[i] == slots[i]
  }

  lemma InsertTakesSlot(c: Core, entry: Entry, keyHash: Name -> nat)
    requires InsertId(c) <= |c.slots| && (InsertId(c) < |c.slots| ==> c.slots[InsertId(c)].None?)
    ensures TakesSlot(c.slots, InsertId(c), entry, Insert(c, entry, keyHash).slots)
  {
  }

  lemma SlotBijection(ids: map<Name, nat>, slots: seq<Option<Entry>>, id: nat, entry: Entry,
                      slots': seq<Option<Entry>>)
    requires Bijection(ids, slots) && entry.relative !in ids && TakesSlot(slots, id, entry, slots')
    ensures Bijection(ids[entry.relative := id], slots')
    ensures forall r :: r in ids ==> slots'[ids[r]] == slots[ids[r]]
  {
    assert forall r :: r in ids ==> ids[r] != id;
  }

  lemma InsertSlots(c: Core, entry: Entry, keyHash: Name -> nat)
    requires Bijection(c.ids, c.slots) && entry.relative !in c.ids
    requires InsertId(c) <= |c.slots| && (InsertId(c) < |c.slots| ==> c.slots[InsertId(c)].None?)
    ensures var c' := Insert(c, entry, keyHash);
            Bijection(c'.ids, c'.slots) && Files(c') == Files(c)[entry.relative := entry]
  {
    InsertTakesSlot(c, entry, keyHash);
    SlotBijection(c.ids, c.slots, InsertId(c), entry, Insert(c, entry, keyHash).slots);
  }

  lemma InsertHolders(c: Core, entry: Entry, keyHash: Name -> nat)
    requires InsertId(c) <= |c.slots| && (InsertId(c) < |c.slots| ==> c.slots[InsertId(c)].None?)
    ensures Holders(Insert(c, entry, keyHash).slots, keyHash)
            == Holders(c.slots, keyHash)[InsertId(c) := KeysOf(entry, keyHash)]
    ensures InsertId(c) !in Holders(c.slots, keyHash)
  {
  }

  lemma InsertCoherent(c: Core, entry: Entry, keyHash: Name -> nat)
    requires Coherent(c, keyHash) && entry.relative !in c.ids
    ensures Coherent(Insert(c, entry, keyHash), keyHash)
    ensures Files(Insert(c, entry, keyHash)) == Files(c)[entry.relative := entry]
  {
    InsertTarget(c);
    InsertFree(c, entry, keyHash);
    InsertSlots(c, entry, keyHash);
    InsertHolders(c, entry, keyHash);
    AddKeysAgrees(c.indexes, Holders(c.slots, keyHash), KeysOf(entry, keyHash), InsertId(c));
  }

  lemma RemoveSlots(c: Core, relative: Name, keyHash: Name -> nat)
    requires Bijection(c.ids, c.slots) && FreeExact(c.slots, c.free) && relative in c.ids
    ensures var c' := Remove(c, relative, keyHash);
            && Bijection(c'.ids, c'.slots) && FreeExact(c'.slots, c'.free)
            && Files(c') == Files(c) - {relative}
  {
    var id, c' := c.ids[relative], Remove(c, relative, keyHash);
    assert id !in c.free;
    assert c'.free == c.free + [id];
    forall i ensures i in c'.free <==> i in c.free || i == id {
    }
  }

  lemma RemoveHolders(c: Core, relative: Name, keyHash: Name -> nat)
    requires Bijection(c.ids, c.slots) && relative in c.ids
    ensures var id := c.ids[relative];
            && id in Holders(c.slots, keyHash) && Holders(c.slots, keyHash)[id] == KeysOf(c.slots[id].value, keyHash)
            && Holders(Remove(c, relative, keyHash).slots, keyHash) == Holders(c.slots, keyHash) - {id}
  {
  }

  lemma RemoveCoherent(c: Core, relative: Name, keyHash: Name -> nat)
    requires Coherent(c, keyHash)
    ensures Coherent(Remove(c, relative, keyHash), keyHash)
    ensures Files(Remove(c, relative, keyHash)) == Files(c) - {relative}
  {
    if relative in c.ids {
      RemoveSlots(c, relative, keyHash);
      RemoveHolders(c, relative, keyHash);
      RemoveKeysAgrees(c.indexes, Holders(c.slots, keyHash), c.ids[relative]);
    } else {
      assert Files(c) - {relative} == Files(c);
    }
  }
}
