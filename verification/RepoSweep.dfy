/**
 Inspecting the listed files in one sweep (repo_map.rs, `Scanner::inspect` and `sweep`), and what the sweep leaves.

 An outline is looked up by the digest of the content before anything is parsed, so files of equal content share the
 outline of the one that was parsed first, whatever their own language would give.
 */
module RepoSweeps {
  import opened Names
  import opened JsonValues
  import opened RepoIndexes
  import opened RepoChanges

  datatype Stat = Stat(symlink: bool, regular: bool, length: nat, modified: Option<nat>)

  /** A digest is never empty. */
  type Digest = d: Name | d != NO_DIGEST witness Name("0")

  /** What a confined read returns: the bytes' length, one past the limit at most, and their digest. */
  datatype Content = Content(length: nat, digest: Digest)

  datatype DiskFile = DiskFile(denied: bool, stat: Option<Stat>, content: Option<Content>)

  /**
   The disk during one sweep.  Path splitting is a function of the path; parsing is one of the path, which gives the
   language, and of the content, which its digest stands for.
   */
  datatype Disk = Disk(
    file: Name -> DiskFile,
    parse: (Name, Name) -> FileSymbols,
    pathKeys: Name -> set<Name>,
    pathSegments: Name -> set<Name>,
    now: nat,
    maxFileBytes: nat)

  datatype Inspection = Unchanged | Changed(change: Change) | Skipped

  const RACY_WINDOW_MS: nat := 2000

  predicate IsRacy(modified: Option<nat>, hashedAt: nat) {
    match modified
    case Some(at) => at + RACY_WINDOW_MS >= hashedAt
    case None => true
  }

  function PathOnly(): FileSymbols {
    FileSymbols(LargeFile, [], {}, {})
  }

  function NewEntry(disk: Disk, r: Name, digest: Name, bytes: nat, modified: Option<nat>, outline: FileSymbols): Entry {
    Entry(r, digest, bytes, 0, outline, modified, disk.now, disk.pathKeys(r), disk.pathSegments(r))
  }

  /** The outline of a content: the one on file, or else the parse in the language of the path. */
  function OutlineOf(table: Outlines, disk: Disk, r: Name, digest: Name): FileSymbols {
    if digest in table then table[digest] else disk.parse(r, digest)
  }

  /** `Scanner::inspect`, the counters left out; `table` holds the outlines known so far. */
  function Inspect(known: FileMap, table: Outlines, disk: Disk, r: Name): Inspection {
    var file := disk.file(r);
    if file.denied || file.stat.None? then Skipped
    else
      var stat := file.stat.value;
      if stat.symlink || !stat.regular then Skipped
      else if stat.length > disk.maxFileBytes then
        if r in known && known[r].outline.extraction == LargeFile && known[r].bytes == stat.length
           && known[r].modified == stat.modified then Unchanged
        else Changed(Upsert(NewEntry(disk, r, NO_DIGEST, stat.length, stat.modified, PathOnly())))
      else if r in known && known[r].outline.extraction != LargeFile && known[r].bytes == stat.length
              && known[r].modified == stat.modified && !IsRacy(stat.modified, known[r].hashedAt) then Unchanged
      else if file.content.None? then Skipped
      else
        var content := file.content.value;
        if content.length > disk.maxFileBytes then
          Changed(Upsert(NewEntry(disk, r, NO_DIGEST, content.length, stat.modified, PathOnly())))
        else if r in known && known[r].digest == content.digest then
          Changed(Touch(r, stat.modified, disk.now))
        else
          Changed(Upsert(NewEntry(disk, r, content.digest, content.length, stat.modified,
                                  OutlineOf(table, disk, r, content.digest))))
  }

  /** The digest whose outline the file needs, if it is read and is new or changed. */
  function Wanted(known: FileMap, disk: Disk, r: Name): Option<Name> {
    match Inspect(known, map[], disk, r)
    case Changed(Upsert(entry)) => if entry.digest == NO_DIGEST then None else Some(entry.digest)
    case _ => None
  }

  predicate Skips(known: FileMap, disk: Disk, r: Name) {
    Inspect(known, map[], disk, r).Skipped?
  }

  /** Which outlines are known does not decide what is read, only which outline an inserted entry gets. */
  lemma InspectAlike(known: FileMap, table: Outlines, disk: Disk, r: Name)
    ensures var i, none := Inspect(known, table, disk, r), Inspect(known, map[], disk, r);
            && (i.Skipped? <==> Skips(known, disk, r))
            && (Wanted(known, disk, r).None? ==> i == none)
            && (Wanted(known, disk, r).Some? ==>
                  var d := Wanted(known, disk, r).value;
                  && none.Changed? && none.change.Upsert? && none.change.entry.digest == d != NO_DIGEST
                  && i == Changed(Upsert(none.change.entry.(outline := OutlineOf(table, disk, r, d)))))
  {
  }

  // ---- the outlines a sweep comes to know ----

  function Learned(known: FileMap, table: Outlines, disk: Disk, r: Name): Outlines {
    match Wanted(known, disk, r)
    case Some(d) => table[d := OutlineOf(table, disk, r, d)]
    case None => table
  }

  /** The outlines known after the listed files, in order. */
  function LearnedAll(known: FileMap, table: Outlines, disk: Disk, listed: seq<Name>): Outlines {
    if |listed| == 0 then table
    else Learned(known, LearnedAll(known, table, disk, listed[..|listed| - 1]), disk, listed[|listed| - 1])
  }

  lemma LearnedAppend(known: FileMap, table: Outlines, disk: Disk, listed: seq<Name>, r: Name)
    ensures LearnedAll(known, table, disk, listed + [r])
            == Learned(known, LearnedAll(known, table, disk, listed), disk, r)
  {
    assert (listed + [r])[..|listed|] == listed;
  }

  /** What is known stays known, unchanged. */
  lemma {:induction false} LearnedKeeps(known: FileMap, table: Outlines, disk: Disk, listed: seq<Name>, d: Name)
    requires d in table
    ensures d in LearnedAll(known, table, disk, listed) && LearnedAll(known, table, disk, listed)[d] == table[d]
  {
    if |listed| > 0 {
      LearnedKeeps(known, table, disk, listed[..|listed| - 1], d);
    }
  }

  /** Before the first file. */
  lemma NothingSwept(known: FileMap, table: Outlines, disk: Disk)
    ensures Kept(known, disk, []) == {} && LearnedAll(known, table, disk, []) == table
    ensures Staged(known, table, disk, []) == Erased(known)
  {
  }

  /** What is on file stays on file, as it is. */
  lemma AllLearnedKeep(known: FileMap, table: Outlines, disk: Disk, listed: seq<Name>)
    ensures forall d :: d in table ==>
              d in LearnedAll(known, table, disk, listed) && LearnedAll(known, table, disk, listed)[d] == table[d]
  {
    forall d | d in table
      ensures d in LearnedAll(known, table, disk, listed) && LearnedAll(known, table, disk, listed)[d] == table[d]
    {
      LearnedKeeps(known, table, disk, listed, d);
    }
  }

  lemma {:induction false} WantedIsLearned(known: FileMap, table: Outlines, disk: Disk, listed: seq<Name>, r: Name)
    requires r in listed && Wanted(known, disk, r).Some?
    ensures Wanted(known, disk, r).value in LearnedAll(known, table, disk, listed)
  {
    var init, last := listed[..|listed| - 1], listed[|listed| - 1];
    assert listed == init + [last];
    if r != last {
      WantedIsLearned(known, table, disk, init, r);
    }
  }

  /** The file at position `i` is the first listed one that needs the outline of the digest. */
  ghost predicate WantsFirst(known: FileMap, disk: Disk, listed: seq<Name>, d: Name, i: nat) {
    i < |listed| && Wanted(known, disk, listed[i]) == Some(d)
    && forall j :: 0 <= j < i ==> Wanted(known, disk, listed[j]) != Some(d)
  }

  /** A new outline is the parse of the first listed file that needed it. */
  lemma {:induction false} LearnedFromFirst(
      known: FileMap, table: Outlines, disk: Disk, listed: seq<Name>, d: Name, i: nat)
    requires d !in table && WantsFirst(known, disk, listed, d, i)
    ensures d in LearnedAll(known, table, disk, listed)
    ensures LearnedAll(known, table, disk, listed)[d] == disk.parse(listed[i], d)
  {
    var init := listed[..|listed| - 1];
    if i < |init| {
      LearnedFromFirst(known, table, disk, init, d, i);
    } else {
      NotYetLearned(known, table, disk, init, d);
    }
  }

  lemma {:induction false} NotYetLearned(known: FileMap, table: Outlines, disk: Disk, listed: seq<Name>, d: Name)
    requires d !in table && forall j :: 0 <= j < |listed| ==> Wanted(known, disk, listed[j]) != Some(d)
    ensures d !in LearnedAll(known, table, disk, listed)
  {
    if |listed| > 0 {
      NotYetLearned(known, table, disk, listed[..|listed| - 1], d);
    }
  }

  // ---- what the map should hold ----

  /** The entry of a listed path that was not skipped. */
  function Expected(known: FileMap, table: Outlines, disk: Disk, r: Name): Entry
    requires !Skips(known, disk, r)
  {
    InspectAlike(known, table, disk, r);
    match Inspect(known, table, disk, r)
    case Unchanged => known[r].(generation := 0)
    case Changed(Upsert(entry)) => entry
    case Changed(Touch(_, modified, hashedAt)) => known[r].(generation := 0, modified := modified, hashedAt := hashedAt)
  }

  function Kept(known: FileMap, disk: Disk, listed: seq<Name>): set<Name> {
    set r | r in listed && !Skips(known, disk, r)
  }

  /** The outcome of a sweep, however it was batched: exactly the listed paths that were not skipped. */
  function SweepResult(known: FileMap, table: Outlines, disk: Disk, listed: seq<Name>): FileMap {
    var after := LearnedAll(known, table, disk, listed);
    map r | r in Kept(known, disk, listed) :: Expected(known, after, disk, r)
  }

  /** The entries while the sweep is under way: the new ones laid over the old ones. */
  function Overlay(known: FileMap, fresher: FileMap): FileMap {
    map r | r in known.Keys + fresher.Keys :: if r in fresher then fresher[r] else known[r].(generation := 0)
  }

  /** The entries after the changes for the listed paths, before the vanished ones are removed. */
  function Staged(known: FileMap, table: Outlines, disk: Disk, listed: seq<Name>): FileMap {
    Overlay(known, SweepResult(known, table, disk, listed))
  }

  /** One more file does not change what is expected of the files before it. */
  lemma ExpectedStays(known: FileMap, table: Outlines, disk: Disk, listed: seq<Name>, r: Name, x: Name)
    requires x in Kept(known, disk, listed)
    ensures Expected(known, LearnedAll(known, table, disk, listed + [r]), disk, x)
         == Expected(known, LearnedAll(known, table, disk, listed), disk, x)
  {
    var before := LearnedAll(known, table, disk, listed);
    LearnedAppend(known, table, disk, listed, r);
    InspectAlike(known, before, disk, x);
    InspectAlike(known, LearnedAll(known, table, disk, listed + [r]), disk, x);
    if Wanted(known, disk, x).Some? {
      WantedIsLearned(known, table, disk, listed, x);
    }
  }

  lemma ExpectedOfLast(known: FileMap, before: Outlines, disk: Disk, r: Name)
    ensures Inspect(known, Learned(known, before, disk, r), disk, r) == Inspect(known, before, disk, r)
  {
    InspectAlike(known, before, disk, r);
    InspectAlike(known, Learned(known, before, disk, r), disk, r);
  }

  lemma KeptOneMore(known: FileMap, disk: Disk, listed: seq<Name>, r: Name)
    ensures Kept(known, disk, listed + [r])
         == Kept(known, disk, listed) + if Skips(known, disk, r) then {} else {r}
  {
  }

  lemma SameExpectations(known: FileMap, table: Outlines, disk: Disk, listed: seq<Name>, r: Name)
    ensures var before, after := LearnedAll(known, table, disk, listed), LearnedAll(known, table, disk, listed + [r]);
            && (forall x :: x in Kept(known, disk, listed) ==>
                  Expected(known, after, disk, x) == Expected(known, before, disk, x))
            && (!Skips(known, disk, r) ==> Expected(known, after, disk, r) == Expected(known, before, disk, r))
  {
    var before, after := LearnedAll(known, table, disk, listed), LearnedAll(known, table, disk, listed + [r]);
    LearnedAppend(known, table, disk, listed, r);
    ExpectedOfLast(known, before, disk, r);
    forall x | x in Kept(known, disk, listed)
      ensures Expected(known, after, disk, x) == Expected(known, before, disk, x)
    {
      ExpectedStays(known, table, disk, listed, r, x);
    }
  }

  lemma ResultOneMore(known: FileMap, table: Outlines, disk: Disk, listed: seq<Name>, r: Name)
    ensures var before, result := LearnedAll(known, table, disk, listed), SweepResult(known, table, disk, listed);
            && SweepResult(known, table, disk, listed + [r])
               == (if Skips(known, disk, r) then result else result[r := Expected(known, before, disk, r)])
            && (r in result ==> result[r] == Expected(known, before, disk, r))
  {
    KeptOneMore(known, disk, listed, r);
    SameExpectations(known, table, disk, listed, r);
  }

  lemma OverlayOneMore(known: FileMap, fresher: FileMap, table: Outlines, disk: Disk, r: Name)
    requires !Skips(known, disk, r) && (r in fresher ==> fresher[r] == Expected(known, table, disk, r))
    ensures var i := Inspect(known, table, disk, r);
            Overlay(known, fresher[r := Expected(known, table, disk, r)])
            == if i.Changed? then ApplyOne(Overlay(known, fresher), i.change, 0) else Overlay(known, fresher)
  {
    InspectAlike(known, table, disk, r);
  }

  /** Inspecting one more file changes what is staged by the change it reports. */
  lemma StageOne(known: FileMap, table: Outlines, disk: Disk, listed: seq<Name>, r: Name)
    ensures var before := LearnedAll(known, table, disk, listed);
            var i := Inspect(known, before, disk, r);
            Staged(known, table, disk, listed + [r])
            == if i.Changed? then ApplyOne(Staged(known, table, disk, listed), i.change, 0)
               else Staged(known, table, disk, listed)
  {
    var before := LearnedAll(known, table, disk, listed);
    InspectAlike(known, before, disk, r);
    ResultOneMore(known, table, disk, listed, r);
    if !Skips(known, disk, r) {
      OverlayOneMore(known, SweepResult(known, table, disk, listed), before, disk, r);
    }
  }

  /** The change reported for a file files exactly the outline it learned. */
  lemma FilesWhatItLearns(known: FileMap, before: Outlines, disk: Disk, r: Name)
    ensures var i := Inspect(known, before, disk, r);
            Learned(known, before, disk, r) == if i.Changed? then FiledOne(before, i.change) else before
  {
    InspectAlike(known, before, disk, r);
  }

  /** Removing what the sweep did not see leaves exactly the sweep's result. */
  lemma StagedWithoutVanished(known: FileMap, table: Outlines, disk: Disk, listed: seq<Name>)
    ensures Staged(known, table, disk, listed) - (known.Keys - Kept(known, disk, listed))
         == SweepResult(known, table, disk, listed)
  {
  }

  lemma PushChange(files: FileMap, batch: seq<Change>, change: Change)
    ensures ApplyAll(files, batch + [change], 0) == ApplyOne(ApplyAll(files, batch, 0), change, 0)
  {
    assert (batch + [change])[..|batch|] == batch;
  }

  // ---- shared outlines ----

  /** If entries had the outlines on file before the sweep, they do after it. */
  lemma SweepMatches(known: FileMap, table: Outlines, disk: Disk, listed: seq<Name>)
    requires OutlinesMatch(known, table)
    ensures OutlinesMatch(SweepResult(known, table, disk, listed), LearnedAll(known, table, disk, listed))
  {
    var after := LearnedAll(known, table, disk, listed);
    forall r | r in Kept(known, disk, listed) && Expected(known, after, disk, r).digest != NO_DIGEST
      ensures var e := Expected(known, after, disk, r); e.digest in after && after[e.digest] == e.outline
    {
      InspectAlike(known, after, disk, r);
      if Wanted(known, disk, r).Some? {
        WantedIsLearned(known, table, disk, listed, r);
      } else {
        LearnedKeeps(known, table, disk, listed, Expected(known, after, disk, r).digest);
      }
    }
  }

  /**
   A new or changed file gets the outline of its own language exactly if that is what is on file for its content, or
   what the first listed file of the same content parses to.
   */
  lemma OwnOutlineIff(known: FileMap, table: Outlines, disk: Disk, listed: seq<Name>, r: Name, i: nat)
    requires r in listed && Wanted(known, disk, r).Some?
    requires WantsFirst(known, disk, listed, Wanted(known, disk, r).value, i)
    ensures var d := Wanted(known, disk, r).value;
            SweepResult(known, table, disk, listed)[r].outline == disk.parse(r, d)
            <==> (if d in table then table[d] else disk.parse(listed[i], d)) == disk.parse(r, d)
  {
    var d, after := Wanted(known, disk, r).value, LearnedAll(known, table, disk, listed);
    InspectAlike(known, after, disk, r);
    if d in table {
      LearnedKeeps(known, table, disk, listed, d);
    } else {
      LearnedFromFirst(known, table, disk, listed, d, i);
    }
  }

  /**
   So a refresh and a rebuild can give one file different outlines: of two new files of equal content whose languages
   parse it differently, both get the outline of the one listed first.
   */
  lemma OrderDecidesOutline(known: FileMap, table: Outlines, disk: Disk, a: Name, b: Name, d: Name)
    requires Wanted(known, disk, a) == Wanted(known, disk, b) == Some(d) && d !in table
    ensures SweepResult(known, table, disk, [a, b])[b].outline == disk.parse(a, d)
    ensures SweepResult(known, table, disk, [b, a])[b].outline == disk.parse(b, d)
  {
    FirstOfTwo(known, table, disk, a, b, d, b);
    FirstOfTwo(known, table, disk, b, a, d, b);
  }

  lemma FirstOfTwo(known: FileMap, table: Outlines, disk: Disk, a: Name, b: Name, d: Name, r: Name)
    requires Wanted(known, disk, a) == Wanted(known, disk, b) == Some(d) && d !in table && r in [a, b]
    ensures SweepResult(known, table, disk, [a, b])[r].outline == disk.parse(a, d)
  {
    var listed := [a, b];
    assert listed[0] == a && listed[1] == b;
    assert WantsFirst(known, disk, listed, d, 0);
    LearnedFromFirst(known, table, disk, listed, d, 0);
    InspectAlike(known, LearnedAll(known, table, disk, listed), disk, r);
  }

  /** Two files of one byte that two languages parse differently. */
  function TwoLanguages(a: Name): Disk {
    var outline := (path: Name, digest: Name) =>
      FileSymbols(if path == a then TreeSitter else Lexical, [], {}, {});
    Disk((path: Name) => DiskFile(false, Some(Stat(false, true, 1, Some(0))), Some(Content(1, Name("0")))), outline,
         (path: Name) => {}, (path: Name) => {}, 0, 10)
  }

  /** On an empty map the order of the listing alone decides the outline of `b`. */
  lemma OrderMatters(a: Name, b: Name)
    requires a != b
    ensures SweepResult(map[], map[], TwoLanguages(a), [a, b])[b].outline
            != SweepResult(map[], map[], TwoLanguages(a), [b, a])[b].outline
  {
    var disk := TwoLanguages(a);
    OrderDecidesOutline(map[], map[], disk, a, b, Name("0"));
    assert disk.parse(a, Name("0")).extraction != disk.parse(b, Name("0")).extraction;
  }
}
