/**
 Granting a subset of a requested permission profile (termior-agent-host codex.rs).

 An entry is an array element, or a value without arrays; its id spells the keys leading to it.  Selecting ids prunes
 the profile: unselected entries go, and so do the arrays and objects this empties.
 */
module Permissions {
  import opened JsonValues
  import opened Digits
  import opened Names
  import opened StableSort

  predicate ContainsArray(value: Json) {
    match value
    case Array(_) => true
    case Object(fields) => exists i :: 0 <= i < |fields| && ContainsArray(fields[i].value)
    case _ => false
  }

  /** An object that is entered field by field. */
  predicate Grouping(value: Json) {
    value.Object? && ContainsArray(value)
  }

  function ItemId(path: string, index: nat): string {
    path + "[" + Decimal(index) + "]"
  }

  function ChildPath(path: string, key: string): string {
    path + "." + key
  }

  // ---- entries ----

  function ItemIds(path: string, count: nat): seq<string> {
    seq(count, i requires 0 <= i < count => ItemId(path, i))
  }

  /** The entry ids below a path, in visiting order. */
  function EntryIds(path: string, value: Json): seq<string>
    decreases value, 1
  {
    match value
    case Array(items) => ItemIds(path, |items|)
    case Object(fields) => if ContainsArray(value) then FieldIds(path + ".", fields) else [path]
    case _ => [path]
  }

  function FieldIds(prefix: string, fields: seq<Field>): seq<string>
    decreases fields, 0
  {
    if |fields| == 0 then []
    else EntryIds(prefix + fields[0].key, fields[0].value) + FieldIds(prefix, fields[1..])
  }

  /** `collect_permission_entries`, the labels left out: appends to the list it is given. */
  method CollectEntries(path: string, value: Json, entries: seq<string>) returns (entries': seq<string>)
    ensures entries' == entries + EntryIds(path, value)
    decreases value, 1
  {
    entries' := entries;
    match value
    case Array(items) =>
      for i := 0 to |items|
        invariant entries' == entries + ItemIds(path, |items|)[..i]
      {
        assert ItemIds(path, |items|)[..i + 1] == ItemIds(path, |items|)[..i] + [ItemId(path, i)];
        entries' := entries' + [ItemId(path, i)];
      }
      assert ItemIds(path, |items|)[..|items|] == ItemIds(path, |items|);
    case Object(fields) =>
      if ContainsArray(value) {
        entries' := CollectFields(path + ".", fields, entries');
      } else {
        entries' := entries' + [path];
      }
    case _ =>
      entries' := entries' + [path];
  }

  method CollectFields(prefix: string, fields: seq<Field>, entries: seq<string>) returns (entries': seq<string>)
    ensures entries' == entries + FieldIds(prefix, fields)
    decreases fields, 0
  {
    entries' := entries;
    if |fields| > 0 {
      entries' := CollectEntries(prefix + fields[0].key, fields[0].value, entries');
      ghost var first := EntryIds(prefix + fields[0].key, fields[0].value);
      assert entries + first + FieldIds(prefix, fields[1..]) == entries + (first + FieldIds(prefix, fields[1..]));
      entries' := CollectFields(prefix, fields[1..], entries');
    }
  }

  // ---- pruning ----

  /** The selected ones among the first `n` items. */
  function KeptItems(path: string, items: seq<Json>, n: nat, selected: set<string>): seq<Json>
    requires n <= |items|
  {
    if n == 0 then []
    else KeptItems(path, items, n - 1, selected) + if ItemId(path, n - 1) in selected then [items[n - 1]] else []
  }

  function NonEmptyArray(items: seq<Json>): Option<Json> {
    if |items| == 0 then None else Some(Array(items))
  }

  function NonEmptyObject(fields: seq<Field>): Option<Json> {
    if |fields| == 0 then None else Some(Object(fields))
  }

  /** `retain_permission`. */
  function Retain(path: string, value: Json, selected: set<string>): Option<Json>
    decreases value, 1
  {
    match value
    case Array(items) => NonEmptyArray(KeptItems(path, items, |items|, selected))
    case Object(fields) =>
      if ContainsArray(value) then NonEmptyObject(RetainFields(path + ".", fields, selected))
      else if path in selected then Some(value) else None
    case _ => if path in selected then Some(value) else None
  }

  function RetainFields(prefix: string, fields: seq<Field>, selected: set<string>): seq<Field>
    decreases fields, 0
  {
    if |fields| == 0 then []
    else
      var rest := RetainFields(prefix, fields[1..], selected);
      match Retain(prefix + fields[0].key, fields[0].value, selected)
      case Some(kept) => [Field(fields[0].key, kept)] + rest
      case None => rest
  }

  // ---- what a grant contains ----

  /** The value reached by following object keys. */
  function At(value: Option<Json>, keys: seq<string>): Option<Json>
    decreases |keys|
  {
    if |keys| == 0 || value.None? then value else At(Get(value.value, keys[0]), keys[1..])
  }

  function PathOf(path: string, keys: seq<string>): string
    decreases |keys|
  {
    if |keys| == 0 then path else PathOf(ChildPath(path, keys[0]), keys[1..])
  }

  /** The keys lead through grouping objects to a value that is not one: an array, or a value without arrays. */
  predicate IsUnit(value: Json, keys: seq<string>)
    decreases |keys|
  {
    if |keys| == 0 then !Grouping(value)
    else Grouping(value) && Get(value, keys[0]).Some? && IsUnit(Get(value, keys[0]).value, keys[1..])
  }

  lemma {:induction false} RetainedField(prefix: string, fields: seq<Field>, selected: set<string>, key: string)
    requires DistinctKeys(fields)
    ensures FieldOf(RetainFields(prefix, fields, selected), key)
            == match FieldOf(fields, key)
               case None => None
               case Some(child) => Retain(prefix + key, child, selected)
    ensures forall i :: 0 <= i < |RetainFields(prefix, fields, selected)| ==>
              exists j :: 0 <= j < |fields| && fields[j].key == RetainFields(prefix, fields, selected)[i].key
  {
    if |fields| > 0 {
      assert forall i :: 0 <= i < |fields[1..]| ==> fields[1..][i] == fields[i + 1];
      RetainedField(prefix, fields[1..], selected, key);
      var first, rest := fields[0], RetainFields(prefix, fields[1..], selected);
      var all := RetainFields(prefix, fields, selected);
      var kept := Retain(prefix + first.key, first.value, selected);
      if kept.Some? {
        assert all[1..] == rest;
      }
      forall i | 0 <= i < |all| ensures exists j :: 0 <= j < |fields| && fields[j].key == all[i].key {
        if kept.Some? && i == 0 {
          assert fields[0].key == all[i].key;
        } else {
          var r := if kept.Some? then i - 1 else i;
          var j :| 0 <= j < |fields[1..]| && fields[1..][j].key == rest[r].key;
          assert fields[j + 1].key == all[i].key;
        }
      }
    }
  }

  /**
   What a grant keeps of a unit: the selected items of an array, or the whole of another value if its id is selected.
   */
  function KeptUnit(path: string, value: Json, selected: set<string>): Option<Json> {
    match value
    case Array(items) => NonEmptyArray(KeptItems(path, items, |items|, selected))
    case _ => if path in selected then Some(value) else None
  }

  /**
   At every place of the profile the grant holds exactly the selected entries: following the same keys in request and
   grant reaches the request's unit and what selection leaves of it.
   */
  lemma {:induction false} GrantAt(path: string, value: Json, selected: set<string>, keys: seq<string>)
    requires WellKeyed(value) && IsUnit(value, keys)
    ensures At(Some(value), keys).Some?
    ensures At(Retain(path, value, selected), keys)
            == KeptUnit(PathOf(path, keys), At(Some(value), keys).value, selected)
    decreases |keys|
  {
    if |keys| > 0 {
      var child := Get(value, keys[0]).value;
      ChildWellKeyed(value, keys[0]);
      GrantAt(ChildPath(path, keys[0]), child, selected, keys[1..]);
      RetainedField(path + ".", value.fields, selected, keys[0]);
    }
  }

  lemma ChildWellKeyed(value: Json, key: string)
    requires WellKeyed(value) && value.Object? && Get(value, key).Some?
    ensures WellKeyed(Get(value, key).value)
  {
    var i :| 0 <= i < |value.fields| && value.fields[i] == Field(key, Get(value, key).value);
  }

  lemma {:induction false} KeptItemsMeaning(path: string, items: seq<Json>, n: nat, selected: set<string>)
    requires n <= |items|
    ensures KeptItems(path, items, n, selected) == [] <==> forall i :: 0 <= i < n ==> ItemId(path, i) !in selected
  {
    if n > 0 {
      KeptItemsMeaning(path, items, n - 1, selected);
      var init, kept := KeptItems(path, items, n - 1, selected), ItemId(path, n - 1) in selected;
      assert KeptItems(path, items, n, selected) == init + if kept then [items[n - 1]] else [];
    }
  }

  // ---- only listed ids matter ----

  ghost predicate SameOn(ids: seq<string>, a: set<string>, b: set<string>) {
    forall id :: id in ids ==> (id in a <==> id in b)
  }

  lemma {:induction false} KeptItemsAgree(path: string, items: seq<Json>, n: nat, a: set<string>, b: set<string>)
    requires n <= |items| && forall i :: 0 <= i < n ==> (ItemId(path, i) in a <==> ItemId(path, i) in b)
    ensures KeptItems(path, items, n, a) == KeptItems(path, items, n, b)
  {
    if n > 0 {
      KeptItemsAgree(path, items, n - 1, a, b);
    }
  }

  lemma {:induction false} RetainAgrees(path: string, value: Json, a: set<string>, b: set<string>)
    requires SameOn(EntryIds(path, value), a, b)
    ensures Retain(path, value, a) == Retain(path, value, b)
    decreases value, 1
  {
    match value
    case Array(items) =>
      forall i | 0 <= i < |items| ensures ItemId(path, i) in a <==> ItemId(path, i) in b {
        assert ItemIds(path, |items|)[i] == ItemId(path, i);
      }
      KeptItemsAgree(path, items, |items|, a, b);
    case Object(fields) =>
      if ContainsArray(value) {
        RetainFieldsAgree(path + ".", fields, a, b);
      }
    case _ =>
  }

  lemma {:induction false} RetainFieldsAgree(prefix: string, fields: seq<Field>, a: set<string>, b: set<string>)
    requires SameOn(FieldIds(prefix, fields), a, b)
    ensures RetainFields(prefix, fields, a) == RetainFields(prefix, fields, b)
    decreases fields, 0
  {
    if |fields| > 0 {
      var head, tail := EntryIds(prefix + fields[0].key, fields[0].value), FieldIds(prefix, fields[1..]);
      assert FieldIds(prefix, fields) == head + tail;
      RetainAgrees(prefix + fields[0].key, fields[0].value, a, b);
      RetainFieldsAgree(prefix, fields[1..], a, b);
    }
  }

  /** Nothing is granted exactly when no entry is selected. */
  lemma {:induction false} NothingGrantedIff(path: string, value: Json, selected: set<string>)
    ensures Retain(path, value, selected).None? <==> forall id :: id in EntryIds(path, value) ==> id !in selected
    decreases value, 1
  {
    match value
    case Array(items) =>
      KeptItemsMeaning(path, items, |items|, selected);
      assert forall i :: 0 <= i < |items| ==> ItemIds(path, |items|)[i] == ItemId(path, i);
    case Object(fields) =>
      if ContainsArray(value) {
        NoFieldGrantedIff(path + ".", fields, selected);
      }
    case _ =>
  }

  lemma {:induction false} NoFieldGrantedIff(prefix: string, fields: seq<Field>, selected: set<string>)
    ensures RetainFields(prefix, fields, selected) == []
            <==> forall id :: id in FieldIds(prefix, fields) ==> id !in selected
    decreases fields, 0
  {
    if |fields| > 0 {
      var head, tail := EntryIds(prefix + fields[0].key, fields[0].value), FieldIds(prefix, fields[1..]);
      assert forall id :: id in FieldIds(prefix, fields) <==> id in head || id in tail;
      NothingGrantedIff(prefix + fields[0].key, fields[0].value, selected);
      NoFieldGrantedIff(prefix, fields[1..], selected);
    }
  }

  // ---- embedding and monotonicity ----

  /** `small` is `large` with some elements left out. */
  ghost predicate SubSequence(small: seq<Json>, large: seq<Json>) {
    if |small| == 0 then true
    else
      && |large| > 0
      && var m, n := |small| - 1, |large| - 1;
         (small[m] == large[n] && SubSequence(small[..m], large[..n])) || SubSequence(small, large[..n])
  }

  /** `small` is `large` with array elements and fields left out. */
  ghost predicate Embedded(small: Json, large: Json)
    decreases large, 1
  {
    match large
    case Array(items) => small.Array? && SubSequence(small.items, items)
    case Object(fields) => small == large || (small.Object? && EmbeddedFields(small.fields, fields))
    case _ => small == large
  }

  ghost predicate EmbeddedFields(small: seq<Field>, large: seq<Field>)
    decreases large, 0
  {
    if |small| == 0 then true
    else
      && |large| > 0
      && ((small[0].key == large[0].key && Embedded(small[0].value, large[0].value)
           && EmbeddedFields(small[1..], large[1..]))
          || EmbeddedFields(small, large[1..]))
  }

  ghost predicate EmbeddedOption(small: Option<Json>, large: Option<Json>) {
    small.Some? ==> large.Some? && Embedded(small.value, large.value)
  }

  lemma {:induction false} SubSequenceSelf(xs: seq<Json>)
    ensures SubSequence(xs, xs)
  {
    if |xs| > 0 {
      SubSequenceSelf(xs[..|xs| - 1]);
    }
  }

  lemma {:induction false} KeptItemsMonotone(path: string, items: seq<Json>, n: nat, a: set<string>, b: set<string>)
    requires n <= |items| && a <= b
    ensures SubSequence(KeptItems(path, items, n, a), KeptItems(path, items, n, b))
    ensures SubSequence(KeptItems(path, items, n, a), items[..n])
  {
    if n > 0 {
      KeptItemsMonotone(path, items, n - 1, a, b);
      var x, y := KeptItems(path, items, n - 1, a), KeptItems(path, items, n - 1, b);
      var x', y' := KeptItems(path, items, n, a), KeptItems(path, items, n, b);
      assert items[..n][..n - 1] == items[..n - 1];
      if ItemId(path, n - 1) in a {
        assert x' == x + [items[n - 1]] && x'[..|x|] == x;
      } else {
        assert x' == x;
      }
      if ItemId(path, n - 1) in b {
        assert y' == y + [items[n - 1]] && y'[..|y|] == y;
      } else {
        assert y' == y;
      }
    }
  }

  lemma EmbeddedSelf(value: Json)
    ensures Embedded(value, value)
  {
    if value.Array? {
      SubSequenceSelf(value.items);
    }
  }

  /** A grant is part of the request. */
  lemma {:induction false} GrantIsEmbedded(path: string, value: Json, selected: set<string>)
    ensures EmbeddedOption(Retain(path, value, selected), Some(value))
    decreases value, 1
  {
    match value
    case Array(items) =>
      KeptItemsMonotone(path, items, |items|, selected, selected);
      assert items[..|items|] == items;
    case Object(fields) =>
      if ContainsArray(value) {
        GrantedFieldsEmbedded(path + ".", fields, selected);
      }
    case _ =>
  }

  lemma {:induction false} GrantedFieldsEmbedded(prefix: string, fields: seq<Field>, selected: set<string>)
    ensures EmbeddedFields(RetainFields(prefix, fields, selected), fields)
    decreases fields, 0
  {
    if |fields| > 0 {
      GrantIsEmbedded(prefix + fields[0].key, fields[0].value, selected);
      GrantedFieldsEmbedded(prefix, fields[1..], selected);
      var all, rest := RetainFields(prefix, fields, selected), RetainFields(prefix, fields[1..], selected);
      if Retain(prefix + fields[0].key, fields[0].value, selected).Some? {
        assert all[1..] == rest;
      }
    }
  }

  /** Selecting more ids grants more. */
  lemma {:induction false} GrantIsMonotone(path: string, value: Json, a: set<string>, b: set<string>)
    requires a <= b
    ensures EmbeddedOption(Retain(path, value, a), Retain(path, value, b))
    decreases value, 1
  {
    match value
    case Array(items) =>
      KeptItemsMonotone(path, items, |items|, a, b);
      KeptItemsMeaning(path, items, |items|, a);
      KeptItemsMeaning(path, items, |items|, b);
    case Object(fields) =>
      if ContainsArray(value) {
        FieldsMonotone(path + ".", fields, a, b);
      }
    case _ => EmbeddedSelf(value);
  }

  lemma {:induction false} FieldsMonotone(prefix: string, fields: seq<Field>, a: set<string>, b: set<string>)
    requires a <= b
    ensures EmbeddedFields(RetainFields(prefix, fields, a), RetainFields(prefix, fields, b))
    decreases fields, 0
  {
    if |fields| > 0 {
      var p := prefix + fields[0].key;
      GrantIsMonotone(p, fields[0].value, a, b);
      FieldsMonotone(prefix, fields[1..], a, b);
      var x, y := RetainFields(prefix, fields, a), RetainFields(prefix, fields, b);
      if Retain(p, fields[0].value, a).Some? {
        assert x[1..] == RetainFields(prefix, fields[1..], a);
      }
      if Retain(p, fields[0].value, b).Some? {
        assert y[1..] == RetainFields(prefix, fields[1..], b);
      }
    }
  }

  // ---- selecting everything ----

  /** The value without empty arrays, and without the objects that held nothing else. */
  function WithoutEmpty(value: Json): Option<Json>
    decreases value, 1
  {
    match value
    case Array(items) => NonEmptyArray(items)
    case Object(fields) => if ContainsArray(value) then NonEmptyObject(WithoutEmptyFields(fields)) else Some(value)
    case _ => Some(value)
  }

  function WithoutEmptyFields(fields: seq<Field>): seq<Field>
    decreases fields, 0
  {
    if |fields| == 0 then []
    else
      match WithoutEmpty(fields[0].value)
      case Some(kept) => [Field(fields[0].key, kept)] + WithoutEmptyFields(fields[1..])
      case None => WithoutEmptyFields(fields[1..])
  }

  lemma {:induction false} KeptItemsAll(path: string, items: seq<Json>, n: nat, selected: set<string>)
    requires n <= |items| && forall i :: 0 <= i < n ==> ItemId(path, i) in selected
    ensures KeptItems(path, items, n, selected) == items[..n]
  {
    if n > 0 {
      KeptItemsAll(path, items, n - 1, selected);
    }
  }

  /** Selecting every entry grants the request without its empty arrays and the objects they emptied. */
  lemma {:induction false} EverythingSelected(path: string, value: Json, selected: set<string>)
    requires forall id :: id in EntryIds(path, value) ==> id in selected
    ensures Retain(path, value, selected) == WithoutEmpty(value)
    decreases value, 1
  {
    match value
    case Array(items) =>
      forall i | 0 <= i < |items| ensures ItemId(path, i) in selected {
        assert ItemIds(path, |items|)[i] == ItemId(path, i);
      }
      KeptItemsAll(path, items, |items|, selected);
      assert items[..|items|] == items;
    case Object(fields) =>
      if ContainsArray(value) {
        EveryFieldSelected(path + ".", fields, selected);
      }
    case _ =>
  }

  lemma {:induction false} EveryFieldSelected(prefix: string, fields: seq<Field>, selected: set<string>)
    requires forall id :: id in FieldIds(prefix, fields) ==> id in selected
    ensures RetainFields(prefix, fields, selected) == WithoutEmptyFields(fields)
    decreases fields, 0
  {
    if |fields| > 0 {
      var head, tail := EntryIds(prefix + fields[0].key, fields[0].value), FieldIds(prefix, fields[1..]);
      assert FieldIds(prefix, fields) == head + tail;
      EverythingSelected(prefix + fields[0].key, fields[0].value, selected);
      EveryFieldSelected(prefix, fields[1..], selected);
    }
  }

  // ---- the profile ----

  /** The entry ids of a whole profile: the top level has no path in front of its keys. */
  function ProfileIds(requested: Json): seq<string> {
    if requested.Object? then FieldIds("", requested.fields) else []
  }

  predicate TextLeq(a: string, b: string) {
    a == b || TextBelow(a, b)
  }

  lemma TextOrder()
    ensures TotalPreorder(TextLeq)
  {
    forall x, y ensures TextLeq(x, y) || TextLeq(y, x) {
      TextTrichotomy(x, y);
    }
    forall x, y, z | TextLeq(x, y) && TextLeq(y, z) ensures TextLeq(x, z) {
      if TextBelow(x, y) && TextBelow(y, z) {
        TextTransitive(x, y, z);
      }
    }
  }

  /** `permission_entries`, the labels left out: every entry id, in order. */
  method PermissionEntries(requested: Json) returns (entries: seq<string>)
    ensures multiset(entries) == multiset(ProfileIds(requested)) && SortedBy(TextLeq, entries)
  {
    entries := [];
    if requested.Object? {
      entries := CollectFields("", requested.fields, []);
    }
    TextOrder();
    SortSorted(TextLeq, entries);
    SortPermutes(TextLeq, entries);
    entries := Sort(TextLeq, entries);
  }

  function SelectedIds(ids: seq<string>): set<string> {
    set id | id in ids
  }

  /** `permissions_approval_result`, the scope left out. */
  function Granted(requested: Json, approved: bool, grantedIds: Option<seq<string>>): Json {
    if !approved || !requested.Object? then Object([])
    else
      match grantedIds
      case None => requested
      case Some(ids) => Object(RetainFields("", requested.fields, SelectedIds(ids)))
  }

  /** A denial, a profile that is no object, or a choice of none of the entries grants the empty profile; only these. */
  lemma EmptyGrantIff(requested: Json, approved: bool, ids: seq<string>)
    ensures Granted(requested, approved, Some(ids)) == Object([])
       <==> !approved || forall id :: id in ProfileIds(requested) ==> id !in ids
  {
    if requested.Object? && approved {
      NoFieldGrantedIff("", requested.fields, SelectedIds(ids));
      var kept := RetainFields("", requested.fields, SelectedIds(ids));
      assert Granted(requested, approved, Some(ids)) == Object(kept);
      assert forall id :: id in SelectedIds(ids) <==> id in ids;
    }
  }

  /** A grant is part of the request, whatever was chosen. */
  lemma GrantWithinRequest(requested: Json, approved: bool, ids: Option<seq<string>>)
    requires requested.Object?
    ensures Embedded(Granted(requested, approved, ids), requested)
  {
    if ids.Some? {
      GrantedFieldsEmbedded("", requested.fields, SelectedIds(ids.value));
    }
  }

  /** Choosing more grants more, and choosing ids that are not on the list changes nothing. */
  lemma MoreIdsGrantMore(requested: Json, ids: seq<string>, more: seq<string>)
    requires forall id :: id in ids && id in ProfileIds(requested) ==> id in more
    ensures Embedded(Granted(requested, true, Some(ids)), Granted(requested, true, Some(more)))
    ensures (forall id :: id in more && id in ProfileIds(requested) ==> id in ids) ==>
              Granted(requested, true, Some(ids)) == Granted(requested, true, Some(more))
  {
    if requested.Object? {
      var a, b := SelectedIds(ids), SelectedIds(more);
      RetainFieldsAgree("", requested.fields, b, a + b);
      FieldsMonotone("", requested.fields, a, a + b);
      if forall id :: id in more && id in ProfileIds(requested) ==> id in ids {
        RetainFieldsAgree("", requested.fields, a, b);
      }
    }
  }

  /** Choosing every listed entry grants the request without its empty arrays and the objects these emptied. */
  lemma AllIdsGrantAll(requested: Json, ids: seq<string>)
    requires requested.Object? && forall id :: id in ProfileIds(requested) ==> id in ids
    ensures Granted(requested, true, Some(ids)) == Object(WithoutEmptyFields(requested.fields))
  {
    EveryFieldSelected("", requested.fields, SelectedIds(ids));
  }

  /** An approved subset grants, at every unit of the profile, exactly what the chosen ids leave of it. */
  lemma ProfileGrantAt(requested: Json, ids: seq<string>, key: string, keys: seq<string>)
    requires WellKeyed(requested) && requested.Object? && Get(requested, key).Some?
    requires IsUnit(Get(requested, key).value, keys)
    ensures At(Some(requested), [key] + keys).Some?
    ensures At(Some(Granted(requested, true, Some(ids))), [key] + keys)
            == KeptUnit(PathOf(key, keys), At(Some(requested), [key] + keys).value, SelectedIds(ids))
  {
    ChildWellKeyed(requested, key);
    assert ([key] + keys)[1..] == keys && "" + key == key;
    RetainedField("", requested.fields, SelectedIds(ids), key);
    GrantAt(key, Get(requested, key).value, SelectedIds(ids), keys);
  }

  // ---- ids that collide ----

  /** `{"a.b": [x], "a": {"b": [y]}}`. */
  function Colliding(x: Json, y: Json): Json {
    Object([Field("a.b", Array([x])), Field("a", Object([Field("b", Array([y]))]))])
  }

  lemma SingleItemIds(path: string, x: Json)
    ensures EntryIds(path, Array([x])) == [ItemId(path, 0)]
  {
    assert ItemIds(path, 1) == [ItemId(path, 0)];
  }

  lemma GroupedItemIds(path: string, key: string, y: Json)
    ensures EntryIds(path, Object([Field(key, Array([y]))])) == [ItemId(ChildPath(path, key), 0)]
  {
    var fields := [Field(key, Array([y]))];
    assert ContainsArray(fields[0].value);
    SingleItemIds(ChildPath(path, key), y);
    assert |fields[1..]| == 0;
    assert FieldIds(path + ".", fields)
           == EntryIds(path + "." + key, fields[0].value) + FieldIds(path + ".", fields[1..]);
  }

  /**
   Two different entries may share one id, since a key may contain the separator: in this well-formed profile both
   arrays have the same single id, so a choice can never tell them apart.
   */
  lemma IdsCanCollide(x: Json, y: Json)
    requires WellKeyed(x) && WellKeyed(y)
    ensures WellKeyed(Colliding(x, y))
    ensures exists id :: ProfileIds(Colliding(x, y)) == [id, id]
  {
    var first, second := Field("a.b", Array([x])), Field("a", Object([Field("b", Array([y]))]));
    assert |first.key| == 3 && |second.key| == 1;
    assert second.value.fields[0].value.items[0] == y && first.value.items[0] == x;
    var fields := Colliding(x, y).fields;
    assert fields == [first, second] && fields[1..] == [second] && fields[1..][1..] == [];
    SingleItemIds("a.b", x);
    GroupedItemIds("a", "b", y);
    assert "a" + "." + "b" == "a.b" && "" + "a" == "a" && "" + "a.b" == "a.b";
    assert FieldIds("", fields[1..]) == EntryIds("" + "a", second.value) + FieldIds("", fields[1..][1..]);
    assert ProfileIds(Colliding(x, y)) == [ItemId("a.b", 0), ItemId("a.b", 0)];
  }

  // ---- when ids do not collide ----

  predicate Mark(c: char) {
    c == '.' || c == '['
  }

  /** The longer key spells an entry that may stand below the shorter one: a child of it, or one of its items. */
  ghost predicate Extends(a: string, b: string) {
    a < b && (b[|a|] == '.' || exists i: nat :: b == ItemId(a, i))
  }

  ghost predicate NoneExtends(fields: seq<Field>) {
    forall i, j :: 0 <= i < |fields| && 0 <= j < |fields| && i != j ==> !Extends(fields[i].key, fields[j].key)
  }

  /** In every object that is listed field by field, no key extends another. */
  ghost predicate Unmixed(value: Json) {
    match value
    case Object(fields) =>
      ContainsArray(value) ==> NoneExtends(fields) && forall i :: 0 <= i < |fields| ==> Unmixed(fields[i].value)
    case _ => true
  }

  /** The fields of a profile are always listed one by one. */
  ghost predicate UnmixedProfile(requested: Json) {
    requested.Object? ==>
      NoneExtends(requested.fields) && forall i :: 0 <= i < |requested.fields| ==> Unmixed(requested.fields[i].value)
  }

  predicate DistinctIds(ids: seq<string>) {
    forall i, j :: 0 <= i < j < |ids| ==> ids[i] != ids[j]
  }

  /** An id continues its path with nothing or with a mark. */
  ghost predicate Continues(path: string, id: string) {
    path <= id && (|id| == |path| || Mark(id[|path|]))
  }

  lemma ContinuesChild(path: string, key: string, id: string)
    requires Continues(ChildPath(path, key), id)
    ensures Continues(path, id)
  {
    assert path <= ChildPath(path, key);
    assert id[|path|] == ChildPath(path, key)[|path|] == '.';
  }

  lemma {:induction false} IdsContinue(path: string, value: Json)
    ensures forall id :: id in EntryIds(path, value) ==> Continues(path, id)
    decreases value, 1
  {
    match value
    case Array(items) =>
      forall id | id in EntryIds(path, value) ensures Continues(path, id) {
        var i :| 0 <= i < |items| && ItemIds(path, |items|)[i] == id;
        assert id[|path|] == '[';
      }
    case Object(fields) =>
      if ContainsArray(value) {
        FieldIdsContinue(path + ".", fields);
        forall id | id in FieldIds(path + ".", fields) ensures Continues(path, id) {
          var k :| 0 <= k < |fields| && Continues(ChildPath(path, fields[k].key), id);
          ContinuesChild(path, fields[k].key, id);
        }
      }
    case _ =>
  }

  lemma {:induction false} FieldIdsContinue(prefix: string, fields: seq<Field>)
    ensures forall id :: id in FieldIds(prefix, fields) ==>
              exists k :: 0 <= k < |fields| && Continues(prefix + fields[k].key, id)
    decreases fields, 0
  {
    if |fields| > 0 {
      IdsContinue(prefix + fields[0].key, fields[0].value);
      FieldIdsContinue(prefix, fields[1..]);
      forall id | id in FieldIds(prefix, fields)
        ensures exists k :: 0 <= k < |fields| && Continues(prefix + fields[k].key, id)
      {
        if id in EntryIds(prefix + fields[0].key, fields[0].value) {
          assert Continues(prefix + fields[0].key, id);
        } else {
          assert id in FieldIds(prefix, fields[1..]);
          var k :| 0 <= k < |fields[1..]| && Continues(prefix + fields[1..][k].key, id);
          assert Continues(prefix + fields[k + 1].key, id);
        }
      }
    }
  }

  lemma ChildIdsGoOnWithDot(path: string, fields: seq<Field>, id: string)
    requires id in FieldIds(path + ".", fields)
    ensures |id| > |path| && id[|path|] == '.'
  {
    FieldIdsContinue(path + ".", fields);
    var k :| 0 <= k < |fields| && Continues(ChildPath(path, fields[k].key), id);
    assert id[|path|] == ChildPath(path, fields[k].key)[|path|];
  }

  /** Only an item of the path itself goes on with a bracket. */
  lemma BracketIsItem(path: string, value: Json, id: string) returns (i: nat)
    requires id in EntryIds(path, value) && |id| > |path| && id[|path|] == '['
    ensures id == ItemId(path, i)
  {
    i := 0;
    if value.Array? {
      i :| 0 <= i < |value.items| && ItemIds(path, |value.items|)[i] == id;
    } else if Grouping(value) {
      ChildIdsGoOnWithDot(path, value.fields, id);
    }
  }

  /** Behind its bracket an item id holds no mark. */
  lemma ItemHasOneMark(path: string, i: nat, n: nat)
    requires |path| < n < |ItemId(path, i)|
    ensures !Mark(ItemId(path, i)[n])
  {
    DecimalIsDigits(i);
    var id := ItemId(path, i);
    if n < |id| - 1 {
      assert id[n] == Decimal(i)[n - |path| - 1];
    } else {
      assert id[n] == ']';
    }
  }

  /** An entry below two keys, one no longer than the other: the longer key extends the shorter. */
  lemma SharedIdExtends(prefix: string, a: string, b: string, x: Json, y: Json, id: string)
    requires a != b && |a| <= |b| && id in EntryIds(prefix + a, x) && id in EntryIds(prefix + b, y)
    ensures Extends(a, b)
  {
    IdsContinue(prefix + a, x);
    IdsContinue(prefix + b, y);
    var path := prefix + a;
    assert a == id[|prefix|..|prefix| + |a|] && b == id[|prefix|..|prefix| + |b|];
    assert a < b && b[|a|] == id[|path|];
    if b[|a|] == '[' {
      var i := BracketIsItem(path, x, id);
      if |id| > |prefix + b| {
        ItemHasOneMark(path, i, |prefix + b|);
      }
      assert b == id[|prefix|..] == ItemId(a, i);
    }
  }

  lemma SharedIdMixes(prefix: string, a: string, b: string, x: Json, y: Json, id: string)
    requires a != b && id in EntryIds(prefix + a, x) && id in EntryIds(prefix + b, y)
    ensures Extends(a, b) || Extends(b, a)
  {
    if |a| <= |b| {
      SharedIdExtends(prefix, a, b, x, y, id);
    } else {
      SharedIdExtends(prefix, b, a, y, x, id);
    }
  }

  lemma {:induction false} FieldOfId(prefix: string, fields: seq<Field>, id: string) returns (k: nat)
    requires id in FieldIds(prefix, fields)
    ensures k < |fields| && id in EntryIds(prefix + fields[k].key, fields[k].value)
    decreases |fields|
  {
    if id in EntryIds(prefix + fields[0].key, fields[0].value) {
      k := 0;
    } else {
      k := FieldOfId(prefix, fields[1..], id);
      k := k + 1;
    }
  }

  lemma JoinDistinct(a: seq<string>, b: seq<string>)
    requires DistinctIds(a) && DistinctIds(b) && forall id :: id in a ==> id !in b
    ensures DistinctIds(a + b)
  {
    var ids := a + b;
    forall i, j | 0 <= i < j < |ids| ensures ids[i] != ids[j] {
      if i < |a| <= j {
        assert ids[i] in a && ids[j] == b[j - |a|] && b[j - |a|] in b;
      }
    }
  }

  lemma ItemIdsDistinct(path: string, count: nat)
    ensures DistinctIds(ItemIds(path, count))
  {
    forall i, j | 0 <= i < j < count ensures ItemId(path, i) != ItemId(path, j) {
      var a, b := ItemId(path, i), ItemId(path, j);
      if a == b {
        assert Decimal(i) == a[|path| + 1..|a| - 1] && Decimal(j) == b[|path| + 1..|b| - 1];
        DecimalInjective(i, j);
      }
    }
  }

  /** When no listed key extends another, no two entries share an id. */
  lemma {:induction false} UnmixedIdsDistinct(path: string, value: Json)
    requires WellKeyed(value) && Unmixed(value)
    ensures DistinctIds(EntryIds(path, value))
    decreases value, 1
  {
    match value
    case Array(items) => ItemIdsDistinct(path, |items|);
    case Object(fields) =>
      if ContainsArray(value) {
        UnmixedFieldIdsDistinct(path + ".", fields);
      }
    case _ =>
  }

  lemma {:induction false} UnmixedFieldIdsDistinct(prefix: string, fields: seq<Field>)
    requires DistinctKeys(fields) && NoneExtends(fields)
    requires forall i :: 0 <= i < |fields| ==> Unmixed(fields[i].value) && WellKeyed(fields[i].value)
    ensures DistinctIds(FieldIds(prefix, fields))
    decreases fields, 0
  {
    if |fields| > 0 {
      var first, tail := EntryIds(prefix + fields[0].key, fields[0].value), FieldIds(prefix, fields[1..]);
      assert forall i :: 0 <= i < |fields[1..]| ==> fields[1..][i] == fields[i + 1];
      UnmixedIdsDistinct(prefix + fields[0].key, fields[0].value);
      UnmixedFieldIdsDistinct(prefix, fields[1..]);
      forall id | id in first ensures id !in tail {
        if id in tail {
          var k := FieldOfId(prefix, fields[1..], id);
          SharedIdMixes(prefix, fields[0].key, fields[k + 1].key, fields[0].value, fields[k + 1].value, id);
        }
      }
      JoinDistinct(first, tail);
    }
  }

  /** The same for the entries of a whole profile. */
  lemma ProfileIdsDistinct(requested: Json)
    requires WellKeyed(requested) && UnmixedProfile(requested)
    ensures DistinctIds(ProfileIds(requested))
  {
    if requested.Object? {
      UnmixedFieldIdsDistinct("", requested.fields);
    }
  }

  // ---- and when they may ----

  function Pair(a: string, x: Json, b: string, y: Json): Json {
    Object([Field(a, x), Field(b, y)])
  }

  lemma PairIds(a: string, x: Json, b: string, y: Json)
    ensures ProfileIds(Pair(a, x, b, y)) == EntryIds(a, x) + EntryIds(b, y)
  {
    var fields := Pair(a, x, b, y).fields;
    assert fields[1..] == [Field(b, y)] && fields[1..][1..] == [];
    assert "" + a == a && "" + b == b;
    assert FieldIds("", fields[1..]) == EntryIds("" + b, y) + FieldIds("", fields[1..][1..]);
  }

  /** A shared id collides, whichever key comes first. */
  lemma SharedIdCollides(a: string, x: Json, b: string, y: Json, id: string)
    requires id in EntryIds(a, x) && id in EntryIds(b, y)
    ensures !DistinctIds(ProfileIds(Pair(a, x, b, y)))
  {
    PairIds(a, x, b, y);
    var first, second := EntryIds(a, x), EntryIds(b, y);
    var i :| 0 <= i < |first| && first[i] == id;
    var j :| 0 <= j < |second| && second[j] == id;
    assert (first + second)[i] == (first + second)[|first| + j];
  }

  /** Below a key and one that extends it there are values with a shared id. */
  lemma ExtendingKeysShare(a: string, b: string) returns (x: Json, y: Json, id: string)
    requires Extends(a, b)
    ensures WellKeyed(x) && WellKeyed(y) && Unmixed(x) && Unmixed(y)
    ensures id in EntryIds(a, x) && id in EntryIds(b, y)
  {
    if b[|a|] == '.' {
      var c := b[|a| + 1..];
      x, y, id := Object([Field(c, Array([Null]))]), Array([Null]), ItemId(b, 0);
      assert b == ChildPath(a, c);
      GroupedItemIds(a, c, Null);
      SingleItemIds(b, Null);
    } else {
      var i: nat :| b == ItemId(a, i);
      x, y, id := Array(seq(i + 1, _ => Null)), Null, b;
      assert ItemIds(a, i + 1)[i] == b;
    }
  }

  /**
   Exactly the keys that do not extend each other are safe side by side, whatever stands below them without mixing keys
   itself.
   */
  lemma SafeKeysIff(a: string, b: string)
    requires a != b
    ensures (forall x, y :: WellKeyed(x) && WellKeyed(y) && Unmixed(x) && Unmixed(y) ==>
               DistinctIds(ProfileIds(Pair(a, x, b, y))))
       <==> !Extends(a, b) && !Extends(b, a)
  {
    if !Extends(a, b) && !Extends(b, a) {
      forall x, y | WellKeyed(x) && WellKeyed(y) && Unmixed(x) && Unmixed(y)
        ensures DistinctIds(ProfileIds(Pair(a, x, b, y)))
      {
        ProfileIdsDistinct(Pair(a, x, b, y));
      }
    } else if Extends(a, b) {
      var x, y, id := ExtendingKeysShare(a, b);
      SharedIdCollides(a, x, b, y, id);
    } else {
      var y, x, id := ExtendingKeysShare(b, a);
      SharedIdCollides(a, x, b, y, id);
    }
  }
}
