/**
 Changes to the repo map's entries (repo_map.rs, `Change` and `RepoMap::apply`), stated on the plain map of entries by
 path and on the table of outlines by digest.
 */
module RepoChanges {
  import opened Names
  import opened JsonValues
  import opened RepoIndexes

  // ---- changes ----

  datatype Change =
    | Upsert(entry: Entry)
    | Touch(relative: Name, modified: Option<nat>, hashedAt: nat)
    | RemovePath(relative: Name)

  type FileMap = map<Name, Entry>

  function ApplyOne(files: FileMap, change: Change, next: nat): FileMap {
    match change
    case Upsert(entry) => files[entry.relative := entry.(generation := next)]
    case Touch(r, modified, hashedAt) =>
      if r in files then files[r := files[r].(modified := modified, hashedAt := hashedAt)] else files
    case RemovePath(r) => files - {r}
  }

  function ApplyAll(files: FileMap, changes: seq<Change>, next: nat): FileMap {
    if |changes| == 0 then files
    else ApplyOne(ApplyAll(files, changes[..|changes| - 1], next), changes[|changes| - 1], next)
  }

  /** Some change altered the set of entries or the content of one. */
  predicate ContentChanged(files: FileMap, changes: seq<Change>, next: nat) {
    |changes| > 0 &&
    var init, last := changes[..|changes| - 1], changes[|changes| - 1];
    || ContentChanged(files, init, next)
    || last.Upsert?
    || (last.RemovePath? && last.relative in ApplyAll(files, init, next))
  }

  function NextGeneration(files: FileMap, changes: seq<Change>, generation: nat): nat {
    if ContentChanged(files, changes, generation + 1) then generation + 1 else generation
  }

  ghost predicate BoundedBy(files: FileMap, generation: nat) {
    forall r :: r in files ==> files[r].generation <= generation
  }

  /** Without content changes no entry carries the new generation, so the map's generation bounds every entry's. */
  lemma {:induction false} ApplyKeepsBound(files: FileMap, changes: seq<Change>, generation: nat)
    requires BoundedBy(files, generation)
    ensures BoundedBy(ApplyAll(files, changes, generation + 1), NextGeneration(files, changes, generation))
  {
    if |changes| > 0 {
      ApplyKeepsBound(files, changes[..|changes| - 1], generation);
    }
  }

  /** Entries with their generation numbers wiped. */
  function Erased(files: FileMap): FileMap {
    map r | r in files :: files[r].(generation := 0)
  }

  lemma DropThenAdd(files: FileMap, entry: Entry)
    ensures (files - {entry.relative})[entry.relative := entry] == files[entry.relative := entry]
    ensures entry.relative !in files - {entry.relative}
  {
  }

  lemma ErasedApply(files: FileMap, change: Change, next: nat)
    ensures Erased(ApplyOne(files, change, next)) == ApplyOne(Erased(files), change, 0)
  {
  }

  lemma {:induction false} ErasedApplyAll(files: FileMap, changes: seq<Change>, next: nat)
    ensures Erased(ApplyAll(files, changes, next)) == ApplyAll(Erased(files), changes, 0)
  {
    if |changes| > 0 {
      ErasedApplyAll(files, changes[..|changes| - 1], next);
      ErasedApply(ApplyAll(files, changes[..|changes| - 1], next), changes[|changes| - 1], next);
    }
  }

  lemma {:induction false} ApplyAllAppend(files: FileMap, a: seq<Change>, b: seq<Change>, next: nat)
    ensures ApplyAll(files, a + b, next) == ApplyAll(ApplyAll(files, a, next), b, next)
  {
    if |b| == 0 {
      assert a + b == a;
    } else {
      assert (a + b)[..|a + b| - 1] == a + b[..|b| - 1];
      ApplyAllAppend(files, a, b[..|b| - 1], next);
    }
  }

  function Concat(batches: seq<seq<Change>>): seq<Change> {
    if |batches| == 0 then [] else Concat(batches[..|batches| - 1]) + batches[|batches| - 1]
  }

  /** One apply per batch, each with its own generation number. */
  function ApplyBatches(files: FileMap, batches: seq<seq<Change>>, generation: nat): (FileMap, nat) {
    if |batches| == 0 then (files, generation)
    else
      var (before, g) := ApplyBatches(files, batches[..|batches| - 1], generation);
      (ApplyAll(before, batches[|batches| - 1], g + 1), NextGeneration(before, batches[|batches| - 1], g))
  }

  /**
   However a change list is cut into batches, the entries come out the same apart from generation numbers, and the
   generation never decreases and bounds every entry's.
   */
  lemma {:induction false} BatchingIrrelevant(files: FileMap, batches: seq<seq<Change>>, generation: nat)
    requires BoundedBy(files, generation)
    ensures var (after, g) := ApplyBatches(files, batches, generation);
            && Erased(after) == ApplyAll(Erased(files), Concat(batches), 0)
            && g >= generation && BoundedBy(after, g)
  {
    if |batches| > 0 {
      var init, last := batches[..|batches| - 1], batches[|batches| - 1];
      BatchingIrrelevant(files, init, generation);
      var (before, g) := ApplyBatches(files, init, generation);
      ErasedApplyAll(before, last, g + 1);
      ApplyAllAppend(Erased(files), Concat(init), last, 0);
      ApplyKeepsBound(before, last, g);
    }
  }

  // ---- outlines by digest ----

  type Outlines = map<Name, FileSymbols>

  const NO_DIGEST: Name := Name("")

  function FiledOne(table: Outlines, change: Change): Outlines {
    if change.Upsert? && change.entry.digest != NO_DIGEST then table[change.entry.digest := change.entry.outline]
    else table
  }

  /** An inserted entry files its outline under its digest. */
  function Filed(table: Outlines, changes: seq<Change>): Outlines {
    if |changes| == 0 then table else FiledOne(Filed(table, changes[..|changes| - 1]), changes[|changes| - 1])
  }

  lemma FiledAppend(table: Outlines, changes: seq<Change>, change: Change)
    ensures Filed(table, changes + [change]) == FiledOne(Filed(table, changes), change)
  {
    assert (changes + [change])[..|changes|] == changes;
  }

  /** `collect_unused_outlines`: the outlines with a digest something still holds. */
  function InUse(table: Outlines, digests: set<Name>): Outlines {
    map d | d in table && d in digests :: table[d]
  }

  function Digests(files: FileMap): set<Name> {
    set r | r in files :: files[r].digest
  }

  /** Every entry with a digest has the outline filed under it; so equal digests mean equal outlines. */
  ghost predicate OutlinesMatch(files: FileMap, table: Outlines) {
    forall r :: r in files && files[r].digest != NO_DIGEST ==>
      files[r].digest in table && table[files[r].digest] == files[r].outline
  }

  lemma InUseMatches(files: FileMap, table: Outlines, held: set<Name>)
    requires OutlinesMatch(files, table)
    ensures OutlinesMatch(files, InUse(table, Digests(files) + held))
  {
  }

  /** One more change of a batch. */
  lemma ApplyOneMore(files: FileMap, table: Outlines, changes: seq<Change>, i: nat, next: nat)
    requires i < |changes|
    ensures ApplyAll(files, changes[..i + 1], next) == ApplyOne(ApplyAll(files, changes[..i], next), changes[i], next)
    ensures ContentChanged(files, changes[..i + 1], next)
            <==> ContentChanged(files, changes[..i], next) || changes[i].Upsert?
                 || (changes[i].RemovePath? && changes[i].relative in ApplyAll(files, changes[..i], next))
    ensures Filed(table, changes[..i + 1]) == FiledOne(Filed(table, changes[..i]), changes[i])
  {
    assert changes[..i + 1][..i] == changes[..i];
  }
}
