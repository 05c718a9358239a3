/**
 The dedupe window of the automation engine (automation.rs, `remember` and `prune`): a bounded map from keys to the time
 they were last seen.
 */
module DedupeWindows {
  import opened Names

  const DEDUPE_WINDOW_MS: nat := 3_600_000
  const DEDUPE_MAX_ENTRIES: nat := 2_000

  /** Keys at or before the cutoff are forgotten; before a full window has passed nothing is. */
  function Pruned(seen: map<Name, nat>, now: nat): map<Name, nat> {
    if now < DEDUPE_WINDOW_MS then seen
    else map k | k in seen && seen[k] > now - DEDUPE_WINDOW_MS :: seen[k]
  }

  /** The eviction order: by time, equally old keys by name, which is the order the map is iterated in. */
  predicate Older(seen: map<Name, nat>, a: Name, b: Name)
    requires a in seen && b in seen
  {
    seen[a] < seen[b] || (seen[a] == seen[b] && Below(a, b))
  }

  predicate IsOldest(seen: map<Name, nat>, key: Name) {
    key in seen && forall other :: other in seen && other != key ==> Older(seen, key, other)
  }

  lemma OlderTransitive(seen: map<Name, nat>, a: Name, b: Name, c: Name)
    requires a in seen && b in seen && c in seen && Older(seen, a, b) && Older(seen, b, c)
    ensures Older(seen, a, c)
  {
    if Below(a, b) && Below(b, c) {
      Transitive(a, b, c);
    }
  }

  lemma {:induction false} OldestAmong(seen: map<Name, nat>, keys: set<Name>) returns (oldest: Name)
    requires keys != {} && keys <= seen.Keys
    ensures oldest in keys && forall other :: other in keys && other != oldest ==> Older(seen, oldest, other)
    decreases |keys|
  {
    var x :| x in keys;
    var rest := keys - {x};
    if rest == {} {
      assert keys == {x};
      return x;
    }
    var y := OldestAmong(seen, rest);
    Trichotomy(x, y);
    oldest := if Older(seen, x, y) then x else y;
    forall other | other in keys && other != oldest ensures Older(seen, oldest, other) {
      if oldest == x && other != y {
        OlderTransitive(seen, x, y, other);
      }
    }
  }

  lemma OldestUnique(seen: map<Name, nat>, a: Name, b: Name)
    requires IsOldest(seen, a) && IsOldest(seen, b)
    ensures a == b
  {
    Trichotomy(a, b);
  }

  /** `min_by_key`: the first of the oldest. */
  function Oldest(seen: map<Name, nat>): (key: Name)
    requires seen != map[]
    ensures IsOldest(seen, key)
  {
    assert exists key :: IsOldest(seen, key) by {
      assert seen.Keys != {};
      var key := OldestAmong(seen, seen.Keys);
      assert IsOldest(seen, key);
    }
    assert forall a, b :: IsOldest(seen, a) && IsOldest(seen, b) ==> a == b by {
      forall a, b | IsOldest(seen, a) && IsOldest(seen, b) ensures a == b {
        OldestUnique(seen, a, b);
      }
    }
    var key :| IsOldest(seen, key);
    key
  }

  lemma OneFewer(seen: map<Name, nat>, key: Name)
    requires key in seen
    ensures |seen - {key}| == |seen| - 1
  {
    assert (seen - {key}).Keys == seen.Keys - {key};
  }

  /** The oldest keys go, one by one, until the map fits. */
  function Evicted(seen: map<Name, nat>): map<Name, nat>
    decreases |seen|
  {
    if |seen| <= DEDUPE_MAX_ENTRIES then seen
    else
      OneFewer(seen, Oldest(seen));
      Evicted(seen - {Oldest(seen)})
  }

  /** A repeated key moves to the present; a new one is added, and what is too much is evicted. */
  function Remembered(seen: map<Name, nat>, key: Name, now: nat): map<Name, nat> {
    var window := Pruned(seen, now);
    if key in window then window[key := now] else Evicted(window[key := now])
  }

  /** The kept keys have their times, and every dropped key is older than each of them. */
  ghost predicate KeepsNewest(full: map<Name, nat>, kept: map<Name, nat>) {
    && kept.Keys <= full.Keys && (forall k :: k in kept ==> kept[k] == full[k])
    && forall k, gone :: k in kept && gone in full && gone !in kept ==> Older(full, gone, k)
  }

  /** Eviction keeps exactly the newest keys, as many as fit. */
  lemma {:induction false} EvictedKeepsNewest(full: map<Name, nat>)
    ensures KeepsNewest(full, Evicted(full))
    ensures |Evicted(full)| == if |full| < DEDUPE_MAX_ENTRIES then |full| else DEDUPE_MAX_ENTRIES
    decreases |full|
  {
    if |full| > DEDUPE_MAX_ENTRIES {
      var oldest := Oldest(full);
      var rest := full - {oldest};
      OneFewer(full, oldest);
      EvictedKeepsNewest(rest);
      var kept := Evicted(rest);
      forall k, gone | k in kept && gone in full && gone !in kept ensures Older(full, gone, k) {
        if gone != oldest {
          assert Older(rest, gone, k);
        }
      }
    }
  }

  lemma RememberedWithin(seen: map<Name, nat>, key: Name, now: nat)
    ensures Remembered(seen, key, now).Keys <= seen.Keys + {key}
  {
    EvictedKeepsNewest(Pruned(seen, now)[key := now]);
  }

  /** As long as the clock moves on, a key just remembered is found again: it is never what eviction takes. */
  lemma RememberedAgain(seen: map<Name, nat>, key: Name, now: nat)
    requires forall k :: k in seen ==> seen[k] < now
    ensures key in Pruned(Remembered(seen, key, now), now)
  {
    var full := Pruned(seen, now)[key := now];
    EvictedKeepsNewest(full);
    if key !in Pruned(seen, now) {
      NewestStays(full, key);
    }
  }

  lemma NewestStays(full: map<Name, nat>, key: Name)
    requires key in full && forall k :: k in full && k != key ==> full[k] < full[key]
    ensures key in Evicted(full)
  {
    EvictedKeepsNewest(full);
    var kept := Evicted(full);
    assert |full.Keys| > 0 by {
      assert key in full.Keys;
    }
    assert |kept.Keys| == |kept| > 0;
    var k :| k in kept.Keys;
    assert key in kept || Older(full, key, k);
  }
}
