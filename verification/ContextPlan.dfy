/**
 The context planner (termior-ai context_engine.rs, `ContextAssembler::plan`): required items first, then by priority,
 each taken whole, cut short or left out.

 `inline` says that the content travels with the item; a referenced item is never cut short.
 */
module ContextPlans {
  import opened JsonValues
  import opened Names
  import opened StableSort

  datatype Category = Invariant | Rules | Unresolved | Evidence | Code | Skill | Attachment | History

  datatype Item =
    Item(id: Name, category: Category, estimatedTokens: nat, priority: nat, required: bool, inline: bool)

  datatype Disposition = Included | Truncated | Excluded

  datatype Entry = Entry(id: Name, category: Category, tokens: nat, disposition: Disposition)

  datatype Plan = Plan(totalTokens: nat, entries: seq<Entry>)

  function RequiredTotal(items: seq<Item>): nat {
    if |items| == 0 then 0
    else
      var last := items[|items| - 1];
      RequiredTotal(items[..|items| - 1]) + if last.required then last.estimatedTokens else 0
  }

  /** Required before optional, then higher priority, then by id. */
  predicate Before(a: Item, b: Item) {
    if a.required != b.required then a.required
    else if a.priority != b.priority then a.priority > b.priority
    else a.id == b.id || Below(a.id, b.id)
  }

  function TokensOf(entries: seq<Entry>): nat {
    if |entries| == 0 then 0 else TokensOf(entries[..|entries| - 1]) + entries[|entries| - 1].tokens
  }

  /** What the entries of one category use. */
  function CategoryTokens(entries: seq<Entry>, category: Category): nat {
    if |entries| == 0 then 0
    else
      var last := entries[|entries| - 1];
      CategoryTokens(entries[..|entries| - 1], category) + if last.category == category then last.tokens else 0
  }

  function CategoryLimit(hardLimit: nat, budgets: map<Category, nat>, category: Category): nat {
    if category in budgets then budgets[category] else hardLimit
  }

  /** How one item is entered behind the entries chosen so far. */
  function Choose(hardLimit: nat, budgets: map<Category, nat>, chosen: seq<Entry>, item: Item): (e: Entry)
    requires TokensOf(chosen) <= hardLimit
  {
    var used := TokensOf(chosen);
    if used + item.estimatedTokens <= hardLimit
       && (item.required || CategoryTokens(chosen, item.category) + item.estimatedTokens
                              <= CategoryLimit(hardLimit, budgets, item.category)) then
      Entry(item.id, item.category, item.estimatedTokens, Included)
    else if item.inline && used < hardLimit then
      Entry(item.id, item.category,
            if hardLimit - used < item.estimatedTokens then hardLimit - used else item.estimatedTokens, Truncated)
    else Entry(item.id, item.category, 0, Excluded)
  }

  /** The entries follow from the ordered items one by one. */
  ghost predicate Chosen(hardLimit: nat, budgets: map<Category, nat>, ordered: seq<Item>, entries: seq<Entry>) {
    && |entries| == |ordered|
    && forall k :: 0 <= k < |ordered| ==>
         TokensOf(entries[..k]) <= hardLimit && entries[k] == Choose(hardLimit, budgets, entries[..k], ordered[k])
  }

  lemma TokensAppend(entries: seq<Entry>, e: Entry, category: Category)
    ensures TokensOf(entries + [e]) == TokensOf(entries) + e.tokens
    ensures CategoryTokens(entries + [e], category)
         == CategoryTokens(entries, category) + if e.category == category then e.tokens else 0
  {
    assert (entries + [e])[..|entries|] == entries;
  }

  lemma ChosenExtends(hardLimit: nat, budgets: map<Category, nat>, ordered: seq<Item>, entries: seq<Entry>, k: nat)
    requires k < |ordered| && Chosen(hardLimit, budgets, ordered[..k], entries) && TokensOf(entries) <= hardLimit
    ensures var e := Choose(hardLimit, budgets, entries, ordered[k]);
            && Chosen(hardLimit, budgets, ordered[..k + 1], entries + [e])
            && TokensOf(entries + [e]) <= hardLimit
  {
    var e := Choose(hardLimit, budgets, entries, ordered[k]);
    var longer := entries + [e];
    TokensAppend(entries, e, e.category);
    forall j | 0 <= j <= k
      ensures TokensOf(longer[..j]) <= hardLimit
      ensures longer[j] == Choose(hardLimit, budgets, longer[..j], ordered[..k + 1][j])
    {
      assert longer[..j] == entries[..j];
      if j == k {
        assert entries[..j] == entries;
      } else {
        assert ordered[..k][j] == ordered[j];
      }
    }
  }

  class ContextAssembler {
    const hardLimit: nat
    const categoryBudgets: map<Category, nat>

    constructor (hardLimit: nat, categoryBudgets: map<Category, nat>)
      ensures this.hardLimit == hardLimit && this.categoryBudgets == categoryBudgets
    {
      this.hardLimit, this.categoryBudgets := hardLimit, categoryBudgets;
    }

    /** Fails exactly when the required items alone are over the limit. */
    method MakePlan(items: seq<Item>) returns (plan: Option<Plan>)
      ensures plan.None? <==> RequiredTotal(items) > hardLimit
      ensures plan.Some? ==> Chosen(hardLimit, categoryBudgets, Sort(Before, items), plan.value.entries)
      ensures plan.Some? ==> plan.value.totalTokens == TokensOf(plan.value.entries) <= hardLimit
    {
      var requiredTotal := SumRequired(items);
      if requiredTotal > hardLimit {
        return None;
      }
      var ordered := Sort(Before, items);
      var used: nat := 0;
      var categoryUsed: map<Category, nat> := map[];
      var entries: seq<Entry> := [];
      for i := 0 to |ordered|
        invariant Chosen(hardLimit, categoryBudgets, ordered[..i], entries)
        invariant used == TokensOf(entries) <= hardLimit && UsageTracked(entries, categoryUsed)
      {
        ChosenExtends(hardLimit, categoryBudgets, ordered, entries, i);
        var entry := EnterItem(ordered[i], used, categoryUsed, entries);
        UsageExtends(entries, categoryUsed, entry);
        used := used + entry.tokens;
        categoryUsed := WithUsage(categoryUsed, entry);
        entries := entries + [entry];
      }
      assert ordered[..|ordered|] == ordered;
      return Some(Plan(used, entries));
    }

    method SumRequired(items: seq<Item>) returns (total: nat)
      ensures total == RequiredTotal(items)
    {
      total := 0;
      for i := 0 to |items|
        invariant total == RequiredTotal(items[..i])
      {
        assert items[..i + 1][..i] == items[..i];
        if items[i].required {
          total := total + items[i].estimatedTokens;
        }
      }
      assert items[..|items|] == items;
    }

    /** One round of the loop over the ordered items, from the running totals. */
    method EnterItem(item: Item, used: nat, categoryUsed: map<Category, nat>, ghost entries: seq<Entry>)
      returns (entry: Entry)
      requires used == TokensOf(entries) <= hardLimit && UsageTracked(entries, categoryUsed)
      ensures entry == Choose(hardLimit, categoryBudgets, entries, item)
    {
      var categoryLimit := if item.category in categoryBudgets then categoryBudgets[item.category] else hardLimit;
      var inCategory := if item.category in categoryUsed then categoryUsed[item.category] else 0;
      var fits := used + item.estimatedTokens <= hardLimit
                  && (item.required || inCategory + item.estimatedTokens <= categoryLimit);
      var disposition :=
        if fits then Included else if item.inline && used < hardLimit then Truncated else Excluded;
      var tokens: nat :=
        if disposition == Included then item.estimatedTokens
        else if disposition == Truncated then
          if hardLimit - used < item.estimatedTokens then hardLimit - used else item.estimatedTokens
        else 0;
      entry := Entry(item.id, item.category, tokens, disposition);
    }
  }

  /** The map holds what each category uses. */
  ghost predicate UsageTracked(entries: seq<Entry>, categoryUsed: map<Category, nat>) {
    forall c :: CategoryTokens(entries, c) == if c in categoryUsed then categoryUsed[c] else 0
  }

  function WithUsage(categoryUsed: map<Category, nat>, entry: Entry): map<Category, nat> {
    categoryUsed[entry.category :=
      (if entry.category in categoryUsed then categoryUsed[entry.category] else 0) + entry.tokens]
  }

  lemma UsageExtends(entries: seq<Entry>, categoryUsed: map<Category, nat>, entry: Entry)
    requires UsageTracked(entries, categoryUsed)
    ensures UsageTracked(entries + [entry], WithUsage(categoryUsed, entry))
    ensures TokensOf(entries + [entry]) == TokensOf(entries) + entry.tokens
  {
    forall c ensures CategoryTokens(entries + [entry], c)
        == CategoryTokens(entries, c) + if c == entry.category then entry.tokens else 0 {
      TokensAppend(entries, entry, c);
    }
    TokensAppend(entries, entry, entry.category);
  }

  // ---- the order ----

  lemma BeforeIsPreorder()
    ensures TotalPreorder(Before)
  {
    forall x, y ensures Before(x, y) || Before(y, x) {
      Trichotomy(x.id, y.id);
    }
    forall x, y, z | Before(x, y) && Before(y, z) ensures Before(x, z) {
      if Below(x.id, y.id) && Below(y.id, z.id) {
        Transitive(x.id, y.id, z.id);
      }
    }
  }

  lemma {:induction false} InsertRequiredTotal(items: seq<Item>, x: Item)
    ensures RequiredTotal(Insert(Before, items, x))
         == RequiredTotal(items) + if x.required then x.estimatedTokens else 0
  {
    if |items| > 0 {
      var init, last := items[..|items| - 1], items[|items| - 1];
      if Before(last, x) {
        assert (items + [x])[..|items|] == items;
      } else {
        InsertRequiredTotal(init, x);
        var r := Insert(Before, init, x);
        assert (r + [last])[..|r|] == r;
      }
    }
  }

  lemma {:induction false} SortRequiredTotal(items: seq<Item>)
    ensures RequiredTotal(Sort(Before, items)) == RequiredTotal(items)
  {
    if |items| > 0 {
      SortRequiredTotal(items[..|items| - 1]);
      InsertRequiredTotal(Sort(Before, items[..|items| - 1]), items[|items| - 1]);
    }
  }

  lemma {:induction false} ChosenUnique(
      hardLimit: nat, budgets: map<Category, nat>, ordered: seq<Item>, a: seq<Entry>, b: seq<Entry>, k: nat)
    requires Chosen(hardLimit, budgets, ordered, a) && Chosen(hardLimit, budgets, ordered, b) && k <= |ordered|
    ensures a[..k] == b[..k]
  {
    if k > 0 {
      ChosenUnique(hardLimit, budgets, ordered, a, b, k - 1);
      assert a[..k] == a[..k - 1] + [a[k - 1]] && b[..k] == b[..k - 1] + [b[k - 1]];
    }
  }

  predicate DistinctIds(items: seq<Item>) {
    forall i, j :: 0 <= i < j < |items| ==> items[i].id != items[j].id
  }

  lemma NoTies(items: seq<Item>)
    requires DistinctIds(items)
    ensures forall x, y :: x in items && y in items && Before(x, y) && Before(y, x) ==> x == y
  {
    forall x, y | x in items && y in items && Before(x, y) && Before(y, x) ensures x == y {
      Trichotomy(x.id, y.id);
      var i :| 0 <= i < |items| && items[i] == x;
      var j :| 0 <= j < |items| && items[j] == y;
    }
  }

  /**
   With distinct ids the plan does not depend on the order in which the items are given, nor does the refusal.
   */
  lemma PlanForgetsOrder(
      hardLimit: nat, budgets: map<Category, nat>, items: seq<Item>, shuffled: seq<Item>, a: seq<Entry>, b: seq<Entry>)
    requires DistinctIds(items) && multiset(items) == multiset(shuffled)
    requires Chosen(hardLimit, budgets, Sort(Before, items), a) && Chosen(hardLimit, budgets, Sort(Before, shuffled), b)
    ensures a == b && RequiredTotal(items) == RequiredTotal(shuffled)
  {
    BeforeIsPreorder();
    NoTies(items);
    SortForgetsOrder(Before, items, shuffled);
    SortRequiredTotal(items);
    SortRequiredTotal(shuffled);
    ChosenUnique(hardLimit, budgets, Sort(Before, items), a, b, |a|);
    assert a[..|a|] == a && b[..|b|] == b;
  }

  // ---- what a plan contains ----

  function IdsOf(items: seq<Item>): multiset<Name> {
    if |items| == 0 then multiset{} else IdsOf(items[..|items| - 1]) + multiset{items[|items| - 1].id}
  }

  function EntryIds(entries: seq<Entry>): multiset<Name> {
    if |entries| == 0 then multiset{} else EntryIds(entries[..|entries| - 1]) + multiset{entries[|entries| - 1].id}
  }

  lemma {:induction false} InsertIds(items: seq<Item>, x: Item)
    ensures IdsOf(Insert(Before, items, x)) == IdsOf(items) + multiset{x.id}
  {
    if |items| > 0 {
      var init, last := items[..|items| - 1], items[|items| - 1];
      if Before(last, x) {
        assert (items + [x])[..|items|] == items;
      } else {
        InsertIds(init, x);
        var r := Insert(Before, init, x);
        assert (r + [last])[..|r|] == r;
      }
    }
  }

  lemma {:induction false} SortIds(items: seq<Item>)
    ensures IdsOf(Sort(Before, items)) == IdsOf(items)
  {
    if |items| > 0 {
      SortIds(items[..|items| - 1]);
      InsertIds(Sort(Before, items[..|items| - 1]), items[|items| - 1]);
    }
  }

  lemma {:induction false} SameIds(ordered: seq<Item>, entries: seq<Entry>)
    requires |entries| == |ordered| && forall k :: 0 <= k < |ordered| ==> entries[k].id == ordered[k].id
    ensures EntryIds(entries) == IdsOf(ordered)
  {
    if |ordered| > 0 {
      SameIds(ordered[..|ordered| - 1], entries[..|entries| - 1]);
    }
  }

  lemma ChosenIds(hardLimit: nat, budgets: map<Category, nat>, ordered: seq<Item>, entries: seq<Entry>)
    requires Chosen(hardLimit, budgets, ordered, entries)
    ensures EntryIds(entries) == IdsOf(ordered)
  {
    SameIds(ordered, entries);
  }

  /** Every item is entered exactly once, an id as often as it was given. */
  lemma PlanCoversItems(hardLimit: nat, budgets: map<Category, nat>, items: seq<Item>, entries: seq<Entry>)
    requires Chosen(hardLimit, budgets, Sort(Before, items), entries)
    ensures EntryIds(entries) == IdsOf(items) && |entries| == |items|
  {
    SortIds(items);
    SortPermutes(Before, items);
    ChosenIds(hardLimit, budgets, Sort(Before, items), entries);
  }

  lemma {:induction false} RequiredTotalMonotone(items: seq<Item>, k: nat)
    requires k <= |items|
    ensures RequiredTotal(items[..k]) <= RequiredTotal(items)
    decreases |items| - k
  {
    if k == |items| {
      assert items[..k] == items;
    } else {
      assert items[..k + 1][..k] == items[..k];
      RequiredTotalMonotone(items, k + 1);
    }
  }

  /** While only required items have come, the plan uses what they need. */
  lemma {:induction false} RequiredPrefix(
      hardLimit: nat, budgets: map<Category, nat>, ordered: seq<Item>, entries: seq<Entry>, k: nat)
    requires Chosen(hardLimit, budgets, ordered, entries) && RequiredTotal(ordered) <= hardLimit
    requires k <= |ordered| && forall j :: 0 <= j < k ==> ordered[j].required
    ensures TokensOf(entries[..k]) == RequiredTotal(ordered[..k])
    ensures forall j :: 0 <= j < k ==> entries[j].disposition == Included
  {
    if k > 0 {
      RequiredPrefix(hardLimit, budgets, ordered, entries, k - 1);
      RequiredTotalMonotone(ordered, k);
      RequiredStep(ordered, entries, k);
      ChosenWhole(hardLimit, budgets, entries[..k - 1], ordered[k - 1], entries[k - 1]);
    }
  }

  lemma ChosenWhole(hardLimit: nat, budgets: map<Category, nat>, chosen: seq<Entry>, item: Item, e: Entry)
    requires item.required && TokensOf(chosen) + item.estimatedTokens <= hardLimit
    requires e == Choose(hardLimit, budgets, chosen, item)
    ensures e.disposition == Included && e.tokens == item.estimatedTokens
  {
  }

  lemma RequiredStep(ordered: seq<Item>, entries: seq<Entry>, k: nat)
    requires 0 < k <= |ordered| == |entries| && ordered[k - 1].required
    ensures RequiredTotal(ordered[..k]) == RequiredTotal(ordered[..k - 1]) + ordered[k - 1].estimatedTokens
    ensures TokensOf(entries[..k]) == TokensOf(entries[..k - 1]) + entries[k - 1].tokens
  {
    assert ordered[..k][..k - 1] == ordered[..k - 1];
    assert entries[..k][..k - 1] == entries[..k - 1];
  }

  /** When the required items fit together, each of them is included whole, whatever the category budgets say. */
  lemma RequiredAreIncluded(hardLimit: nat, budgets: map<Category, nat>, items: seq<Item>, entries: seq<Entry>)
    requires Chosen(hardLimit, budgets, Sort(Before, items), entries) && RequiredTotal(items) <= hardLimit
    ensures forall k :: 0 <= k < |entries| && Sort(Before, items)[k].required ==>
              entries[k].disposition == Included && entries[k].tokens == Sort(Before, items)[k].estimatedTokens
  {
    BeforeIsPreorder();
    SortSorted(Before, items);
    SortRequiredTotal(items);
    var ordered := Sort(Before, items);
    forall k | 0 <= k < |entries| && ordered[k].required
      ensures entries[k].disposition == Included && entries[k].tokens == ordered[k].estimatedTokens
    {
      forall j | 0 <= j < k ensures ordered[j].required {
        assert Before(ordered[j], ordered[k]);
      }
      RequiredPrefix(hardLimit, budgets, ordered, entries, k + 1);
    }
  }

  lemma {:induction false} TokensMonotone(entries: seq<Entry>, k: nat)
    requires k <= |entries|
    ensures TokensOf(entries[..k]) <= TokensOf(entries)
    decreases |entries| - k
  {
    if k == |entries| {
      assert entries[..k] == entries;
    } else {
      assert entries[..k + 1][..k] == entries[..k];
      TokensMonotone(entries, k + 1);
    }
  }

  /**
   Nothing that could be cut short is left out while there is room: an inline item is excluded only when the plan is
   full, and a cut item uses up the limit unless its category was what stopped it.
   */
  lemma InlineExcludedOnlyWhenFull(
      hardLimit: nat, budgets: map<Category, nat>, ordered: seq<Item>, entries: seq<Entry>, k: nat)
    requires Chosen(hardLimit, budgets, ordered, entries) && TokensOf(entries) <= hardLimit
    requires k < |ordered| && ordered[k].inline
    ensures entries[k].disposition == Excluded ==> TokensOf(entries) == hardLimit
    ensures entries[k].tokens < ordered[k].estimatedTokens ==> TokensOf(entries) == hardLimit
  {
    TokensMonotone(entries, k);
    TokensMonotone(entries, k + 1);
    assert entries[..k + 1][..k] == entries[..k];
  }

  /** An optional item is included whole only while its category, up to and with this item, is within its budget. */
  lemma IncludedWithinCategory(
      hardLimit: nat, budgets: map<Category, nat>, ordered: seq<Item>, entries: seq<Entry>, k: nat)
    requires Chosen(hardLimit, budgets, ordered, entries)
    requires k < |ordered| && !ordered[k].required && entries[k].disposition == Included
    ensures CategoryTokens(entries[..k + 1], ordered[k].category)
         <= CategoryLimit(hardLimit, budgets, ordered[k].category)
  {
    assert entries[..k + 1][..k] == entries[..k];
  }

  /**
   From the running totals before an item: a required item that fits the hard limit but not its category, or an inline
   item that is cut to what the hard limit leaves and is too much for its category even so.
   */
  predicate TakesOver(hardLimit: nat, limit: nat, used: nat, inCategory: nat, item: Item) {
    var whole := item.estimatedTokens;
    var fits := used + whole <= hardLimit;
    if fits && item.required then inCategory + whole > limit
    else if fits && inCategory + whole <= limit then false
    else item.inline && used < hardLimit && inCategory + (if fits then whole else hardLimit - used) > limit
  }

  /** An item takes its category over the budget exactly in those two cases. */
  lemma StepOverIff(hardLimit: nat, budgets: map<Category, nat>, ordered: seq<Item>, entries: seq<Entry>, k: nat)
    requires Chosen(hardLimit, budgets, ordered, entries) && k < |ordered|
    ensures var c := ordered[k].category;
            var limit := CategoryLimit(hardLimit, budgets, c);
            CategoryTokens(entries[..k], c) <= limit ==>
              (CategoryTokens(entries[..k + 1], c) > limit
               <==> TakesOver(hardLimit, limit, TokensOf(entries[..k]), CategoryTokens(entries[..k], c), ordered[k]))
  {
    assert entries[..k + 1][..k] == entries[..k];
    assert entries[k] == Choose(hardLimit, budgets, entries[..k], ordered[k]);
  }

  /** Item `k` finds its category within the budget and takes it over. */
  ghost predicate OverAt(
      hardLimit: nat, budgets: map<Category, nat>, ordered: seq<Item>, entries: seq<Entry>, category: Category, k: nat)
    requires |entries| == |ordered|
  {
    && k < |ordered| && ordered[k].category == category
    && CategoryTokens(entries[..k], category) <= CategoryLimit(hardLimit, budgets, category)
    && TakesOver(hardLimit, CategoryLimit(hardLimit, budgets, category), TokensOf(entries[..k]),
                 CategoryTokens(entries[..k], category), ordered[k])
  }

  lemma CategoryStep(entries: seq<Entry>, category: Category, k: nat)
    requires k < |entries|
    ensures CategoryTokens(entries[..k + 1], category)
         == CategoryTokens(entries[..k], category) + if entries[k].category == category then entries[k].tokens else 0
  {
    assert entries[..k + 1][..k] == entries[..k];
  }

  lemma {:induction false} CategoryMonotone(entries: seq<Entry>, category: Category, j: nat, k: nat)
    requires j <= k <= |entries|
    ensures CategoryTokens(entries[..j], category) <= CategoryTokens(entries[..k], category)
    decreases k
  {
    if j < k {
      CategoryMonotone(entries, category, j, k - 1);
      CategoryStep(entries, category, k - 1);
    }
  }

  lemma {:induction false} CrossingOf(
      hardLimit: nat, budgets: map<Category, nat>, ordered: seq<Item>, entries: seq<Entry>, category: Category, n: nat)
      returns (k: nat)
    requires Chosen(hardLimit, budgets, ordered, entries) && n <= |ordered|
    requires CategoryTokens(entries[..n], category) > CategoryLimit(hardLimit, budgets, category)
    ensures k < n && OverAt(hardLimit, budgets, ordered, entries, category, k)
  {
    k := n - 1;
    CategoryStep(entries, category, k);
    if CategoryTokens(entries[..k], category) > CategoryLimit(hardLimit, budgets, category) {
      k := CrossingOf(hardLimit, budgets, ordered, entries, category, k);
    } else {
      assert entries[k].category == ordered[k].category == category;
      StepOverIff(hardLimit, budgets, ordered, entries, k);
    }
  }

  lemma CrossingStays(
      hardLimit: nat, budgets: map<Category, nat>, ordered: seq<Item>, entries: seq<Entry>, category: Category, k: nat,
      n: nat)
    requires Chosen(hardLimit, budgets, ordered, entries) && k < n <= |ordered|
    requires OverAt(hardLimit, budgets, ordered, entries, category, k)
    ensures CategoryTokens(entries[..n], category) > CategoryLimit(hardLimit, budgets, category)
  {
    StepOverIff(hardLimit, budgets, ordered, entries, k);
    CategoryMonotone(entries, category, k + 1, n);
  }

  /** A category ends over its budget exactly when some item of it takes it over. */
  lemma CategoryOverIff(
      hardLimit: nat, budgets: map<Category, nat>, ordered: seq<Item>, entries: seq<Entry>, category: Category)
    requires Chosen(hardLimit, budgets, ordered, entries)
    ensures CategoryTokens(entries, category) > CategoryLimit(hardLimit, budgets, category)
       <==> exists k: nat :: k < |ordered| && OverAt(hardLimit, budgets, ordered, entries, category, k)
  {
    var n := |ordered|;
    assert entries[..n] == entries;
    if CategoryTokens(entries, category) > CategoryLimit(hardLimit, budgets, category) {
      var k := CrossingOf(hardLimit, budgets, ordered, entries, category, n);
    } else if k: nat :| k < n && OverAt(hardLimit, budgets, ordered, entries, category, k) {
      CrossingStays(hardLimit, budgets, ordered, entries, category, k, n);
    }
  }

  /**
   Before planning: a category keeps its budget, whatever else there is, when none of its items is required or inline.
   */
  lemma CategoryKeepsBudget(
      hardLimit: nat, budgets: map<Category, nat>, items: seq<Item>, entries: seq<Entry>, category: Category)
    requires Chosen(hardLimit, budgets, Sort(Before, items), entries)
    requires forall i :: 0 <= i < |items| && items[i].category == category ==> !items[i].inline && !items[i].required
    ensures CategoryTokens(entries, category) <= CategoryLimit(hardLimit, budgets, category)
  {
    var ordered := Sort(Before, items);
    SortPermutes(Before, items);
    SameElements(items, ordered);
    CategoryOverIff(hardLimit, budgets, ordered, entries, category);
    forall k: nat | k < |ordered| && ordered[k].category == category
      ensures !ordered[k].inline && !ordered[k].required
    {
      assert ordered[k] in items;
    }
  }

  /** A cut item ignores its category's budget: a budget of zero, a limit of ten, one inline item of five tokens. */
  lemma CutItemIgnoresCategory(id: Name)
    ensures var items := [Item(id, Code, 5, 0, false, true)];
            var budgets: map<Category, nat> := map[Code := 0];
            var entries := [Entry(id, Code, 5, Truncated)];
            Chosen(10, budgets, Sort(Before, items), entries) && CategoryTokens(entries, Code) > budgets[Code]
  {
    var items := [Item(id, Code, 5, 0, false, true)];
    var entries := [Entry(id, Code, 5, Truncated)];
    var none: seq<Entry> := [];
    assert items[..0] == [] && Sort(Before, items[..0]) == [];
    assert Sort(Before, items) == items;
    assert entries[..0] == none;
    TokensAppend(none, entries[0], Code);
    assert none + [entries[0]] == entries;
  }

  // ---- the text of an inline entry ----

  const TRUNCATION_MARK := "\n[context truncated at the selected token budget]"

  /** The estimator: a quarter of the characters, rounded up. */
  function Estimate(text: string): nat {
    (|text| + 3) / 4
  }

  function Materialized(content: string, entry: Entry): string {
    if entry.disposition == Included || |content| <= 4 * entry.tokens then content
    else content[..4 * entry.tokens] + TRUNCATION_MARK
  }

  /**
   A cut text stays within its entry's tokens exactly when nothing was cut off after all: the mark behind a cut costs
   13 tokens that no entry counts.
   */
  lemma CutTextWithinTokens(content: string, entry: Entry)
    requires entry.disposition == Truncated
    ensures Estimate(Materialized(content, entry)) <= entry.tokens <==> |content| <= 4 * entry.tokens
    ensures |content| > 4 * entry.tokens ==> Estimate(Materialized(content, entry)) == entry.tokens + 13
  {
    assert |TRUNCATION_MARK| == 49;
  }
}
