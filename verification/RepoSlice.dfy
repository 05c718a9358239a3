/**
 The token-budgeted slice of the repo map (repo_map.rs, `RepoMap::slice`), from its ranked candidates on.

 Headers and symbol lines are given as text; `current` says whether the file on disk still matches the index;
 `moreLine(n)` is the line that counts the symbols left out.
 */
module RepoSlices {
  import opened Names
  import opened StableSort

  const MAX_SLICE_CANDIDATES: nat := 200
  const MAX_SYMBOLS_PER_ENTRY: nat := 12

  datatype Candidate =
    Candidate(relative: Name, points: nat, header: string, symbolLines: seq<string>, current: bool)

  datatype SliceEntry = SliceEntry(relative: Name, text: string, omittedSymbols: nat)

  datatype RepoSlice = RepoSlice(
    entries: seq<SliceEntry>,
    tokens: nat,
    candidates: nat,
    staleExcluded: seq<Name>,
    budgetExcluded: nat)

  /** `HeuristicTokenEstimator`: a quarter of the characters, rounded up. */
  function Estimate(characters: nat): nat {
    (characters + 3) / 4
  }

  function LineCost(line: string): nat {
    Estimate(|line + "\n"|)
  }

  /** `join("\n")`. */
  function Join(lines: seq<string>): string {
    if |lines| == 0 then ""
    else if |lines| == 1 then lines[0]
    else Join(lines[..|lines| - 1]) + "\n" + lines[|lines| - 1]
  }

  function Cost(lines: seq<string>): nat {
    if |lines| == 0 then 0 else Cost(lines[..|lines| - 1]) + LineCost(lines[|lines| - 1])
  }

  function Texts(entries: seq<SliceEntry>): seq<string> {
    seq(|entries|, i requires 0 <= i < |entries| => entries[i].text)
  }

  function Render(entries: seq<SliceEntry>): string {
    Join(Texts(entries))
  }

  /** Rounding up part by part never undershoots rounding up the whole. */
  lemma EstimateSubadditive(a: nat, b: nat)
    ensures Estimate(a + b) <= Estimate(a) + Estimate(b)
  {
  }

  lemma EstimateMonotone(a: nat, b: nat)
    requires a <= b
    ensures Estimate(a) <= Estimate(b)
  {
  }

  lemma JoinAppend(lines: seq<string>, line: string)
    requires |lines| > 0
    ensures Join(lines + [line]) == Join(lines) + "\n" + line
  {
    assert (lines + [line])[..|lines|] == lines;
  }

  lemma CostAppend(lines: seq<string>, line: string)
    ensures Cost(lines + [line]) == Cost(lines) + LineCost(line)
  {
    assert (lines + [line])[..|lines|] == lines;
  }

  /** The estimate of the joined lines, with a final newline, is at most the sum of the lines' estimates. */
  lemma {:induction false} JoinWithinCost(lines: seq<string>)
    requires |lines| > 0
    ensures Estimate(|Join(lines)| + 1) <= Cost(lines)
  {
    var init, last := lines[..|lines| - 1], lines[|lines| - 1];
    assert lines == init + [last];
    CostAppend(init, last);
    if |init| > 0 {
      JoinWithinCost(init);
      JoinAppend(init, last);
      EstimateSubadditive(|Join(init)| + 1, |last| + 1);
    }
  }

  // ---- one entry ----

  function SymbolLimit(candidate: Candidate): nat {
    if |candidate.symbolLines| < MAX_SYMBOLS_PER_ENTRY then |candidate.symbolLines| else MAX_SYMBOLS_PER_ENTRY
  }

  /** The lines of an entry showing its header and `shown` symbols, and the count of the rest when it fits too. */
  function EntryLines(candidate: Candidate, shown: nat, room: nat, moreLine: nat -> string): seq<string>
    requires shown <= |candidate.symbolLines|
  {
    var lines := [candidate.header] + candidate.symbolLines[..shown];
    var omitted := |candidate.symbolLines| - shown;
    if omitted > 0 && Cost(lines) + LineCost(moreLine(omitted)) <= room then lines + [moreLine(omitted)] else lines
  }

  /** Showing `shown` symbols fits the room, and one more would not. */
  predicate ShowsMost(candidate: Candidate, shown: nat, room: nat) {
    && shown <= SymbolLimit(candidate)
    && Cost([candidate.header] + candidate.symbolLines[..shown]) <= room
    && (shown < SymbolLimit(candidate) ==> Cost([candidate.header] + candidate.symbolLines[..shown + 1]) > room)
  }

  lemma CostGrows(candidate: Candidate, shown: nat)
    requires shown < |candidate.symbolLines|
    ensures Cost([candidate.header] + candidate.symbolLines[..shown + 1])
         == Cost([candidate.header] + candidate.symbolLines[..shown]) + LineCost(candidate.symbolLines[shown])
  {
    var lines := [candidate.header] + candidate.symbolLines[..shown];
    assert [candidate.header] + candidate.symbolLines[..shown + 1] == lines + [candidate.symbolLines[shown]];
    CostAppend(lines, candidate.symbolLines[shown]);
  }

  /** Every line costs something, so the number of shown symbols is determined. */
  lemma {:induction false} CostMonotone(candidate: Candidate, a: nat, b: nat)
    requires a <= b <= |candidate.symbolLines|
    ensures Cost([candidate.header] + candidate.symbolLines[..a])
            <= Cost([candidate.header] + candidate.symbolLines[..b])
  {
    if a < b {
      CostMonotone(candidate, a, b - 1);
      CostGrows(candidate, b - 1);
    }
  }

  lemma ShownUnique(candidate: Candidate, a: nat, b: nat, room: nat)
    requires ShowsMost(candidate, a, room) && ShowsMost(candidate, b, room)
    ensures a == b
  {
    if a < b {
      CostMonotone(candidate, a + 1, b);
    } else if b < a {
      CostMonotone(candidate, b + 1, a);
    }
  }

  /** The count of shown symbols, by trying one after the other. */
  method CountShown(candidate: Candidate, room: nat) returns (shown: nat)
    requires LineCost(candidate.header) <= room
    ensures ShowsMost(candidate, shown, room)
  {
    shown := 0;
    var cost := LineCost(candidate.header);
    assert [candidate.header] + candidate.symbolLines[..0] == [candidate.header];
    CostAppend([], candidate.header);
    assert [] + [candidate.header] == [candidate.header];
    while shown < SymbolLimit(candidate)
      invariant shown <= SymbolLimit(candidate)
      invariant cost == Cost([candidate.header] + candidate.symbolLines[..shown]) <= room
    {
      CostGrows(candidate, shown);
      if cost + LineCost(candidate.symbolLines[shown]) > room {
        break;
      }
      cost := cost + LineCost(candidate.symbolLines[shown]);
      shown := shown + 1;
    }
  }

  predicate RendersShown(
      candidate: Candidate, shown: nat, room: nat, entry: SliceEntry, cost: nat, moreLine: nat -> string) {
    ShowsMost(candidate, shown, room) &&
    var lines := EntryLines(candidate, shown, room, moreLine);
    && entry == SliceEntry(candidate.relative, Join(lines), |candidate.symbolLines| - shown)
    && cost == Cost(lines)
  }

  /** The entry that shows the most in `room` tokens. */
  ghost predicate Renders(candidate: Candidate, room: nat, entry: SliceEntry, cost: nat, moreLine: nat -> string) {
    exists shown: nat :: RendersShown(candidate, shown, room, entry, cost, moreLine)
  }

  lemma RenderedOnce(
      candidate: Candidate, room: nat, a: SliceEntry, b: SliceEntry, costA: nat, costB: nat, moreLine: nat -> string)
    requires Renders(candidate, room, a, costA, moreLine) && Renders(candidate, room, b, costB, moreLine)
    ensures a == b && costA == costB
  {
    var x: nat :| RendersShown(candidate, x, room, a, costA, moreLine);
    var y: nat :| RendersShown(candidate, y, room, b, costB, moreLine);
    ShownUnique(candidate, x, y, room);
  }

  method RenderEntry(candidate: Candidate, room: nat, moreLine: nat -> string) returns (entry: SliceEntry, cost: nat)
    requires LineCost(candidate.header) <= room
    ensures Renders(candidate, room, entry, cost, moreLine)
  {
    var shown := CountShown(candidate, room);
    var lines := EntryLines(candidate, shown, room, moreLine);
    entry, cost := SliceEntry(candidate.relative, Join(lines), |candidate.symbolLines| - shown), Cost(lines);
    assert RendersShown(candidate, shown, room, entry, cost, moreLine);
  }

  lemma LinesWithinRoom(candidate: Candidate, shown: nat, room: nat, moreLine: nat -> string)
    requires ShowsMost(candidate, shown, room)
    ensures |EntryLines(candidate, shown, room, moreLine)| > 0
    ensures Cost(EntryLines(candidate, shown, room, moreLine)) <= room
  {
    CostAppend([candidate.header] + candidate.symbolLines[..shown], moreLine(|candidate.symbolLines| - shown));
  }

  /** An entry stays within its room and is paid for by its cost. */
  lemma RenderedWithinRoom(candidate: Candidate, room: nat, entry: SliceEntry, cost: nat, moreLine: nat -> string)
    requires Renders(candidate, room, entry, cost, moreLine)
    ensures cost <= room && Estimate(|entry.text| + 1) <= cost && entry.relative == candidate.relative
  {
    var shown: nat :| RendersShown(candidate, shown, room, entry, cost, moreLine);
    var lines := EntryLines(candidate, shown, room, moreLine);
    LinesWithinRoom(candidate, shown, room, moreLine);
    JoinWithinCost(lines);
  }

  // ---- the budget ----

  /** The greedy pass after some candidates: what was shown, what it cost, and which candidates are shown. */
  datatype Fill = Fill(entries: seq<SliceEntry>, used: nat, stale: seq<Name>, excluded: nat)

  ghost predicate Fills(before: Fill, c: Candidate, after: Fill, budget: nat, moreLine: nat -> string)
    requires before.used <= budget
  {
    if !c.current then after == before.(stale := before.stale + [c.relative])
    else if before.used + LineCost(c.header) > budget then after == before.(excluded := before.excluded + 1)
    else
      && |after.entries| > 0 && after.used >= before.used
      && Renders(c, budget - before.used, after.entries[|after.entries| - 1], after.used - before.used, moreLine)
      && after == Fill(before.entries + [after.entries[|after.entries| - 1]], after.used, before.stale, before.excluded)
  }

  /** The passes after 0, 1, 2, … candidates. */
  ghost predicate Passes(ranked: seq<Candidate>, fills: seq<Fill>, budget: nat, moreLine: nat -> string) {
    && 0 < |fills| <= |ranked| + 1 && fills[0] == Fill([], 0, [], 0)
    && forall k :: 0 <= k < |fills| - 1 ==>
         fills[k].used <= budget && Fills(fills[k], ranked[k], fills[k + 1], budget, moreLine)
  }

  /** The pass ends behind the last candidate, after 200 of them, or when the budget is used up; not earlier. */
  ghost predicate EndsAt(ranked: seq<Candidate>, fills: seq<Fill>, budget: nat) {
    var last := |fills| - 1;
    && last >= 0
    && (last == |ranked| || last >= MAX_SLICE_CANDIDATES || fills[last].used >= budget)
    && forall k :: 0 <= k < last ==> k < MAX_SLICE_CANDIDATES && fills[k].used < budget
  }

  ghost predicate SliceFrom(
      ranked: seq<Candidate>, fills: seq<Fill>, budget: nat, moreLine: nat -> string, slice: RepoSlice) {
    && Passes(ranked, fills, budget, moreLine) && EndsAt(ranked, fills, budget)
    && var last := fills[|fills| - 1];
       slice == RepoSlice(last.entries, last.used, |ranked|, last.stale, last.excluded + |ranked| + 1 - |fills|)
  }

  ghost predicate IsSlice(ranked: seq<Candidate>, budget: nat, moreLine: nat -> string, slice: RepoSlice) {
    exists fills :: SliceFrom(ranked, fills, budget, moreLine, slice)
  }

  /** One round of the loop over the candidates. */
  method Take(before: Fill, candidate: Candidate, budget: nat, moreLine: nat -> string) returns (after: Fill)
    requires before.used <= budget
    ensures Fills(before, candidate, after, budget, moreLine) && after.used <= budget
  {
    if !candidate.current {
      return before.(stale := before.stale + [candidate.relative]);
    }
    if before.used + LineCost(candidate.header) > budget {
      return before.(excluded := before.excluded + 1);
    }
    var entry, cost := RenderEntry(candidate, budget - before.used, moreLine);
    RenderedWithinRoom(candidate, budget - before.used, entry, cost, moreLine);
    after := Fill(before.entries + [entry], before.used + cost, before.stale, before.excluded);
  }

  lemma PassesExtend(ranked: seq<Candidate>, fills: seq<Fill>, after: Fill, budget: nat, moreLine: nat -> string)
    requires Passes(ranked, fills, budget, moreLine) && |fills| <= |ranked| && fills[|fills| - 1].used <= budget
    requires Fills(fills[|fills| - 1], ranked[|fills| - 1], after, budget, moreLine)
    ensures Passes(ranked, fills + [after], budget, moreLine)
  {
    var longer := fills + [after];
    forall k | 0 <= k < |longer| - 1
      ensures longer[k].used <= budget && Fills(longer[k], ranked[k], longer[k + 1], budget, moreLine)
    {
      assert longer[k] == fills[k];
      if k < |fills| - 1 {
        assert longer[k + 1] == fills[k + 1];
      }
    }
  }

  method SliceRanked(ranked: seq<Candidate>, budget: nat, moreLine: nat -> string) returns (slice: RepoSlice)
    ensures IsSlice(ranked, budget, moreLine, slice)
  {
    var fill := Fill([], 0, [], 0);
    var index := 0;
    ghost var fills := [fill];
    while index < |ranked| && index < MAX_SLICE_CANDIDATES && fill.used < budget
      invariant index <= |ranked| && fill.used <= budget
      invariant |fills| == index + 1 && fills[index] == fill
      invariant Passes(ranked, fills, budget, moreLine)
      invariant forall k :: 0 <= k < index ==> k < MAX_SLICE_CANDIDATES && fills[k].used < budget
    {
      var after := Take(fill, ranked[index], budget, moreLine);
      PassesExtend(ranked, fills, after, budget, moreLine);
      fills := fills + [after];
      fill, index := after, index + 1;
    }
    slice := RepoSlice(fill.entries, fill.used, |ranked|, fill.stale, fill.excluded + |ranked| - index);
    assert fills[|fills| - 1] == fill;
    assert EndsAt(ranked, fills, budget);
    assert SliceFrom(ranked, fills, budget, moreLine, slice);
  }

  /** The entries so far are paid for by the tokens so far. */
  ghost predicate Paid(entries: seq<SliceEntry>, used: nat) {
    |entries| > 0 ==> Estimate(|Render(entries)| + 1) <= used
  }

  lemma PayOne(entries: seq<SliceEntry>, used: nat, entry: SliceEntry, cost: nat)
    requires Paid(entries, used) && Estimate(|entry.text| + 1) <= cost
    ensures Paid(entries + [entry], used + cost)
  {
    assert Texts(entries + [entry]) == Texts(entries) + [entry.text];
    if |entries| > 0 {
      JoinAppend(Texts(entries), entry.text);
      EstimateSubadditive(|Render(entries)| + 1, |entry.text| + 1);
    } else {
      assert Texts(entries) == [];
    }
  }

  lemma StepKeepsBudget(before: Fill, c: Candidate, after: Fill, budget: nat, moreLine: nat -> string)
    requires before.used <= budget && Fills(before, c, after, budget, moreLine) && Paid(before.entries, before.used)
    ensures before.used <= after.used <= budget && Paid(after.entries, after.used)
    ensures |after.entries| + |after.stale| + after.excluded == |before.entries| + |before.stale| + before.excluded + 1
  {
    if c.current && before.used + LineCost(c.header) <= budget {
      var entry := after.entries[|after.entries| - 1];
      RenderedWithinRoom(c, budget - before.used, entry, after.used - before.used, moreLine);
      PayOne(before.entries, before.used, entry, after.used - before.used);
    }
  }

  /** What a prefix of the pass keeps: the budget, its payment, and the count of candidates. */
  ghost predicate KeepsBudget(fill: Fill, budget: nat, k: nat) {
    && fill.used <= budget && Paid(fill.entries, fill.used)
    && |fill.entries| + |fill.stale| + fill.excluded == k
  }

  lemma {:induction false} PassKeepsBudget(
      ranked: seq<Candidate>, fills: seq<Fill>, budget: nat, moreLine: nat -> string, k: nat)
    requires Passes(ranked, fills, budget, moreLine) && k < |fills|
    ensures KeepsBudget(fills[k], budget, k)
  {
    if k > 0 {
      var i := k - 1;
      PassKeepsBudget(ranked, fills, budget, moreLine, i);
      assert Fills(fills[i], ranked[i], fills[i + 1], budget, moreLine);
      StepKeepsBudget(fills[i], ranked[i], fills[k], budget, moreLine);
    }
  }

  /** A round never gives tokens back. */
  lemma RoundGrows(ranked: seq<Candidate>, fills: seq<Fill>, budget: nat, moreLine: nat -> string, k: nat)
    requires Passes(ranked, fills, budget, moreLine) && 0 < k < |fills|
    ensures fills[k - 1].used <= fills[k].used <= budget
  {
    var i := k - 1;
    PassKeepsBudget(ranked, fills, budget, moreLine, i);
    assert Fills(fills[i], ranked[i], fills[i + 1], budget, moreLine);
    StepKeepsBudget(fills[i], ranked[i], fills[k], budget, moreLine);
  }

  /**
   The tokens stay within the budget and pay for the whole rendered text, newlines included, and every candidate is
   shown, stale or out of budget, exactly one of the three.
   */
  lemma SliceWithinBudget(ranked: seq<Candidate>, budget: nat, moreLine: nat -> string, slice: RepoSlice)
    requires IsSlice(ranked, budget, moreLine, slice)
    ensures slice.tokens <= budget && Estimate(|Render(slice.entries)|) <= slice.tokens
    ensures slice.candidates == |ranked| == |slice.entries| + |slice.staleExcluded| + slice.budgetExcluded
  {
    var fills :| SliceFrom(ranked, fills, budget, moreLine, slice);
    PassKeepsBudget(ranked, fills, budget, moreLine, |fills| - 1);
    if |slice.entries| > 0 {
      EstimateMonotone(|Render(slice.entries)|, |Render(slice.entries)| + 1);
    } else {
      assert Texts(slice.entries) == [];
    }
  }

  predicate Shows(entries: seq<SliceEntry>, relative: Name) {
    exists i :: 0 <= i < |entries| && entries[i].relative == relative
  }

  lemma StepKeepsShown(
      before: Fill, c: Candidate, after: Fill, budget: nat, moreLine: nat -> string, relative: Name)
    requires before.used <= budget && Fills(before, c, after, budget, moreLine) && Shows(before.entries, relative)
    ensures Shows(after.entries, relative)
  {
    var i :| 0 <= i < |before.entries| && before.entries[i].relative == relative;
    assert after.entries[i] == before.entries[i];
  }

  lemma StepShows(before: Fill, c: Candidate, after: Fill, budget: nat, moreLine: nat -> string)
    requires before.used <= budget && Fills(before, c, after, budget, moreLine)
    requires c.current && before.used + LineCost(c.header) <= budget
    ensures Shows(after.entries, c.relative)
  {
    var i := |after.entries| - 1;
    RenderedWithinRoom(c, budget - before.used, after.entries[i], after.used - before.used, moreLine);
    assert after.entries[i].relative == c.relative;
  }

  /** A current candidate that a pass left out did not fit; one it took is shown and stays shown. */
  lemma {:induction false} PassShows(
      ranked: seq<Candidate>, fills: seq<Fill>, budget: nat, moreLine: nat -> string, j: nat, k: nat)
    requires Passes(ranked, fills, budget, moreLine) && j < k < |fills| && ranked[j].current
    ensures Shows(fills[k].entries, ranked[j].relative) || fills[k].used + LineCost(ranked[j].header) > budget
    decreases k
  {
    RoundGrows(ranked, fills, budget, moreLine, k);
    var before, after := fills[k - 1], fills[k];
    assert before.used <= after.used;
    if j == k - 1 {
      if before.used + LineCost(ranked[j].header) <= budget {
        StepShows(before, ranked[j], after, budget, moreLine);
      }
    } else {
      PassShows(ranked, fills, budget, moreLine, j, k - 1);
      if Shows(before.entries, ranked[j].relative) {
        StepKeepsShown(before, ranked[k - 1], after, budget, moreLine, ranked[j].relative);
      }
    }
  }

  ghost predicate OfCurrent(ranked: seq<Candidate>, relative: Name) {
    exists c :: c in ranked && c.current && c.relative == relative
  }

  lemma {:induction false} PassShowsCurrent(
      ranked: seq<Candidate>, fills: seq<Fill>, budget: nat, moreLine: nat -> string, k: nat, i: nat)
    requires Passes(ranked, fills, budget, moreLine) && k < |fills| && i < |fills[k].entries|
    ensures OfCurrent(ranked, fills[k].entries[i].relative)
    decreases k
  {
    if k > 0 {
      var before, c, after := fills[k - 1], ranked[k - 1], fills[k];
      assert Fills(before, c, after, budget, moreLine);
      if i < |before.entries| {
        assert after.entries[i] == before.entries[i];
        PassShowsCurrent(ranked, fills, budget, moreLine, k - 1, i);
      } else {
        RenderedWithinRoom(c, budget - before.used, after.entries[i], after.used - before.used, moreLine);
        assert c in ranked;
      }
    }
  }

  /**
   Greedy to the end: a current candidate among the first 200 that is not shown has a header that does not fit in what
   is left of the budget; and only current candidates are shown.
   */
  lemma SliceIsMaximal(ranked: seq<Candidate>, budget: nat, moreLine: nat -> string, slice: RepoSlice)
    requires IsSlice(ranked, budget, moreLine, slice)
    ensures forall j :: 0 <= j < |ranked| && j < MAX_SLICE_CANDIDATES && ranked[j].current ==>
              Shows(slice.entries, ranked[j].relative) || slice.tokens + LineCost(ranked[j].header) > budget
    ensures forall i :: 0 <= i < |slice.entries| ==> OfCurrent(ranked, slice.entries[i].relative)
  {
    var fills :| SliceFrom(ranked, fills, budget, moreLine, slice);
    var last := |fills| - 1;
    forall j | 0 <= j < |ranked| && j < MAX_SLICE_CANDIDATES && ranked[j].current
      ensures Shows(slice.entries, ranked[j].relative) || slice.tokens + LineCost(ranked[j].header) > budget
    {
      if j < last {
        PassShows(ranked, fills, budget, moreLine, j, last);
      }
    }
    forall i | 0 <= i < |slice.entries|
      ensures OfCurrent(ranked, slice.entries[i].relative)
    {
      PassShowsCurrent(ranked, fills, budget, moreLine, last, i);
    }
  }

  // ---- the ranking ----

  /** Most points first, then by path. */
  predicate RanksBefore(a: Candidate, b: Candidate) {
    a.points > b.points || (a.points == b.points && (a.relative == b.relative || Below(a.relative, b.relative)))
  }

  lemma RankIsPreorder()
    ensures TotalPreorder(RanksBefore)
  {
    forall x, y ensures RanksBefore(x, y) || RanksBefore(y, x) {
      Trichotomy(x.relative, y.relative);
    }
    forall x, y, z | RanksBefore(x, y) && RanksBefore(y, z) ensures RanksBefore(x, z) {
      if Below(x.relative, y.relative) && Below(y.relative, z.relative) {
        Transitive(x.relative, y.relative, z.relative);
      }
    }
  }

  function Relevant(scored: seq<Candidate>): seq<Candidate> {
    if |scored| == 0 then []
    else
      var last := scored[|scored| - 1];
      Relevant(scored[..|scored| - 1]) + if last.points > 0 then [last] else []
  }

  function Ranked(scored: seq<Candidate>): seq<Candidate> {
    Sort(RanksBefore, Relevant(scored))
  }

  lemma {:induction false} RelevantMultiset(scored: seq<Candidate>, c: Candidate)
    ensures multiset(Relevant(scored))[c] == if c.points > 0 then multiset(scored)[c] else 0
  {
    if |scored| > 0 {
      var init, last := scored[..|scored| - 1], scored[|scored| - 1];
      RelevantMultiset(init, c);
      assert scored == init + [last];
      assert multiset(scored)[c] == multiset(init)[c] + multiset{last}[c];
      var kept := if last.points > 0 then [last] else [];
      assert Relevant(scored) == Relevant(init) + kept;
      assert multiset(Relevant(scored))[c] == multiset(Relevant(init))[c] + multiset(kept)[c];
    }
  }

  lemma RelevantMembers(scored: seq<Candidate>, c: Candidate)
    ensures c in Relevant(scored) <==> c in scored && c.points > 0
  {
    RelevantMultiset(scored, c);
    assert c in Relevant(scored) <==> c in multiset(Relevant(scored));
    assert c in scored <==> c in multiset(scored);
  }

  lemma RankedMembers(scored: seq<Candidate>, c: Candidate)
    requires c in Ranked(scored)
    ensures c in scored
  {
    SortPermutes(RanksBefore, Relevant(scored));
    SameElements(Relevant(scored), Ranked(scored));
    RelevantMembers(scored, c);
  }

  /** The ranking is by points and then path, and it does not depend on the order of the hash map. */
  lemma RankingDeterministic(a: seq<Candidate>, b: seq<Candidate>)
    requires multiset(a) == multiset(b)
    requires forall x, y :: x in a && y in a && x.relative == y.relative ==> x == y
    ensures Ranked(a) == Ranked(b) && SortedBy(RanksBefore, Ranked(a))
    ensures multiset(Ranked(a)) == multiset(Relevant(a))
  {
    RankIsPreorder();
    forall c ensures multiset(Relevant(a))[c] == multiset(Relevant(b))[c] {
      RelevantMultiset(a, c);
      RelevantMultiset(b, c);
    }
    assert multiset(Relevant(a)) == multiset(Relevant(b));
    forall x, y | x in Relevant(a) && y in Relevant(a) && RanksBefore(x, y) && RanksBefore(y, x) ensures x == y {
      Trichotomy(x.relative, y.relative);
      RelevantMembers(a, x);
      RelevantMembers(a, y);
    }
    SortForgetsOrder(RanksBefore, Relevant(a), Relevant(b));
    SortSorted(RanksBefore, Relevant(a));
    SortPermutes(RanksBefore, Relevant(a));
  }

  lemma StepUnique(before: Fill, c: Candidate, x: Fill, y: Fill, budget: nat, moreLine: nat -> string)
    requires before.used <= budget
    requires Fills(before, c, x, budget, moreLine) && Fills(before, c, y, budget, moreLine)
    ensures x == y
  {
    if c.current && before.used + LineCost(c.header) <= budget {
      ShownUniquely(before, c, x, y, budget - before.used, moreLine);
    }
  }

  lemma ShownUniquely(before: Fill, c: Candidate, x: Fill, y: Fill, room: nat, moreLine: nat -> string)
    requires |x.entries| > 0 && x.used >= before.used && |y.entries| > 0 && y.used >= before.used
    requires Renders(c, room, x.entries[|x.entries| - 1], x.used - before.used, moreLine)
    requires Renders(c, room, y.entries[|y.entries| - 1], y.used - before.used, moreLine)
    ensures x.entries[|x.entries| - 1] == y.entries[|y.entries| - 1] && x.used == y.used
  {
    RenderedOnce(c, room, x.entries[|x.entries| - 1], y.entries[|y.entries| - 1], x.used - before.used,
                 y.used - before.used, moreLine);
  }

  lemma {:induction false} FillsUnique(
      ranked: seq<Candidate>, a: seq<Fill>, b: seq<Fill>, budget: nat, moreLine: nat -> string, k: nat)
    requires Passes(ranked, a, budget, moreLine) && Passes(ranked, b, budget, moreLine)
    requires k < |a| && k < |b|
    ensures a[k] == b[k]
  {
    if k > 0 {
      var i := k - 1;
      FillsUnique(ranked, a, b, budget, moreLine, i);
      assert Fills(a[i], ranked[i], a[i + 1], budget, moreLine);
      assert Fills(b[i], ranked[i], b[i + 1], budget, moreLine);
      StepUnique(a[i], ranked[i], a[k], b[k], budget, moreLine);
    }
  }

  /** A ranking and a budget have one slice. */
  lemma SliceUnique(ranked: seq<Candidate>, budget: nat, moreLine: nat -> string, x: RepoSlice, y: RepoSlice)
    requires IsSlice(ranked, budget, moreLine, x) && IsSlice(ranked, budget, moreLine, y)
    ensures x == y
  {
    var a :| SliceFrom(ranked, a, budget, moreLine, x);
    var b :| SliceFrom(ranked, b, budget, moreLine, y);
    var least := if |a| < |b| then |a| - 1 else |b| - 1;
    FillsUnique(ranked, a, b, budget, moreLine, least);
    assert |a| == |b|;
  }
}
