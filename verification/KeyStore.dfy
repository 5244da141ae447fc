/**
 The master keyring and the secrets sealed under it. Rotation writes the new keyring before the
 transaction that seals every row again, and keeps a bounded list of retired keys. Encryption is
 abstract: a sealed value opens only under its own key.
 */
module KeyStore {
  import opened Sequences
  import opened Wrappers

  type Key = nat

  const MAX_PREVIOUS_KEYS := 16

  datatype Ring = Ring(active: Key, previous: seq<Key>)

  /** A stored value: plain text, or text sealed under a key. */
  datatype Stored = Plain(text: string) | Sealed(key: Key, text: string)

  datatype StoreError = Undecryptable | ExternallyManaged | WriteFailed | TransactionFailed

  // ---------------------------------------------------------------- keys

  function Keys(ring: Ring): seq<Key> {
    [ring.active] + ring.previous
  }

  function Take(keys: seq<Key>, limit: nat): seq<Key> {
    if |keys| <= limit then keys else keys[..limit]
  }

  /** The keys not seen before, each at its first occurrence. */
  function Distinct(keys: seq<Key>, seen: set<Key>): seq<Key> {
    if keys == [] then
      []
    else if keys[0] in seen then
      Distinct(keys[1..], seen)
    else
      [keys[0]] + Distinct(keys[1..], seen + {keys[0]})
  }

  predicate NoRepeats(keys: seq<Key>) {
    forall i, j | 0 <= i < j < |keys| :: keys[i] != keys[j]
  }

  function Elements(keys: seq<Key>): set<Key> {
    set k | k in keys
  }

  method UniqueKeys(keys: seq<Key>) returns (unique: seq<Key>)
    ensures unique == Distinct(keys, {})
  {
    unique := [];
    var seen: set<Key> := {};
    for i := 0 to |keys|
      invariant unique + Distinct(keys[i..], seen) == Distinct(keys, {})
    {
      assert keys[i..][1..] == keys[i + 1..];
      if keys[i] !in seen {
        unique, seen := unique + [keys[i]], seen + {keys[i]};
      }
    }
  }

  method Without(keys: seq<Key>, removed: Key) returns (rest: seq<Key>)
    ensures rest == Dropped(keys, removed)
  {
    rest := [];
    for i := 0 to |keys|
      invariant rest + Dropped(keys[i..], removed) == Dropped(keys, removed)
    {
      DroppedNext(keys, i, removed);
      if keys[i] != removed {
        Regroup(rest, [keys[i]], Dropped(keys[i + 1..], removed));
        rest := rest + [keys[i]];
      }
    }
  }

  function Dropped(keys: seq<Key>, removed: Key): seq<Key> {
    if keys == [] then
      []
    else
      (if keys[0] == removed then [] else [keys[0]]) + Dropped(keys[1..], removed)
  }

  lemma DroppedNext(keys: seq<Key>, i: nat, removed: Key)
    requires i < |keys|
    ensures
      var later := Dropped(keys[i + 1..], removed);
      Dropped(keys[i..], removed) == if keys[i] == removed then later else [keys[i]] + later
  {
    assert keys[i..][1..] == keys[i + 1..];
  }

  lemma {:induction false} DistinctOfConcat(a: seq<Key>, b: seq<Key>, seen: set<Key>)
    ensures Distinct(a + b, seen) == Distinct(a, seen) + Distinct(b, seen + Elements(a))
  {
    if a == [] {
      assert a + b == b && seen + Elements(a) == seen;
    } else {
      assert (a + b)[1..] == a[1..] + b;
      assert Elements(a) == {a[0]} + Elements(a[1..]);
      if a[0] in seen {
        assert seen + Elements(a[1..]) == seen + Elements(a);
        DistinctOfConcat(a[1..], b, seen);
      } else {
        assert seen + {a[0]} + Elements(a[1..]) == seen + Elements(a);
        DistinctOfConcat(a[1..], b, seen + {a[0]});
      }
    }
  }

  lemma {:induction false} DistinctIsDistinct(keys: seq<Key>, seen: set<Key>)
    ensures Elements(Distinct(keys, seen)) == Elements(keys) - seen
    ensures NoRepeats(Distinct(keys, seen))
  {
    if keys != [] {
      assert Elements(keys) == {keys[0]} + Elements(keys[1..]);
      if keys[0] in seen {
        DistinctIsDistinct(keys[1..], seen);
      } else {
        var seen' := seen + {keys[0]};
        DistinctIsDistinct(keys[1..], seen');
        var rest := Distinct(keys[1..], seen');
        assert forall k | k in rest :: k in Elements(rest);
        assert Elements([keys[0]] + rest) == {keys[0]} + Elements(rest);
      }
    }
  }

  /** A list of new, distinct keys is left as it is. */
  lemma {:induction false} DistinctOfNew(keys: seq<Key>, seen: set<Key>)
    requires Elements(keys) !! seen
    requires NoRepeats(keys)
    ensures Distinct(keys, seen) == keys
  {
    if keys != [] {
      assert keys[0] in Elements(keys);
      forall k | k in Elements(keys[1..]) ensures k !in seen + {keys[0]} {
        assert k in Elements(keys);
      }
      DistinctOfNew(keys[1..], seen + {keys[0]});
    }
  }

  lemma {:induction false} DistinctOfSeen(keys: seq<Key>, seen: set<Key>)
    requires Elements(keys) <= seen
    ensures Distinct(keys, seen) == []
  {
    if keys != [] {
      assert keys[0] in Elements(keys);
      assert Elements(keys[1..]) <= Elements(keys);
      DistinctOfSeen(keys[1..], seen);
    }
  }

  lemma {:induction false} DroppedOfDistinct(keys: seq<Key>, removed: Key, seen: set<Key>)
    ensures Dropped(Distinct(keys, seen), removed) == Distinct(keys, seen + {removed})
  {
    if keys != [] {
      if keys[0] in seen {
        DroppedOfDistinct(keys[1..], removed, seen);
      } else {
        DroppedOfDistinct(keys[1..], removed, seen + {keys[0]});
        assert seen + {keys[0]} + {removed} == seen + {removed} + {keys[0]};
        if keys[0] == removed {
          assert seen + {keys[0]} + {removed} == seen + {removed};
        }
      }
    }
  }

  // ---------------------------------------------------------------- the keys in front of a key

  /** The keys before the first occurrence of `k`. */
  function Front(keys: seq<Key>, k: Key): set<Key> {
    if keys == [] || keys[0] == k then {} else {keys[0]} + Front(keys[1..], k)
  }

  lemma {:induction false} FrontOfConcat(a: seq<Key>, b: seq<Key>, k: Key)
    ensures Front(a + b, k) == if k in a then Front(a, k) else Elements(a) + Front(b, k)
  {
    if a == [] {
      assert a + b == b && Elements(a) + Front(b, k) == Front(b, k);
    } else {
      assert (a + b)[1..] == a[1..] + b;
      assert Elements(a) == {a[0]} + Elements(a[1..]);
      FrontOfConcat(a[1..], b, k);
    }
  }

  lemma {:induction false} FrontOfDistinct(keys: seq<Key>, seen: set<Key>, k: Key)
    requires k !in seen
    ensures Front(Distinct(keys, seen), k) == Front(keys, k) - seen
  {
    if keys != [] && keys[0] != k {
      FrontOfDistinct(keys[1..], if keys[0] in seen then seen else seen + {keys[0]}, k);
    }
  }

  lemma {:induction false} ElementsCount(keys: seq<Key>)
    requires NoRepeats(keys)
    ensures |Elements(keys)| == |keys|
  {
    if keys != [] {
      ElementsCount(keys[1..]);
      assert Elements(keys) == {keys[0]} + Elements(keys[1..]);
      assert keys[0] !in Elements(keys[1..]);
    }
  }

  /** Among distinct keys, a key stands behind as many as are in front of it. */
  lemma {:induction false} FrontIndex(keys: seq<Key>, k: Key) returns (i: nat)
    requires NoRepeats(keys) && k in keys
    ensures i < |keys| && keys[i] == k && |Front(keys, k)| == i
  {
    if keys[0] == k {
      i := 0;
    } else {
      var j := FrontIndex(keys[1..], k);
      FrontIsAmong(keys[1..], k);
      assert keys[0] !in Front(keys[1..], k);
      i := j + 1;
    }
  }

  lemma FrontCounts(keys: seq<Key>, k: Key, limit: nat)
    requires NoRepeats(keys) && k in keys
    ensures k in Take(keys, limit) <==> |Front(keys, k)| < limit
    ensures Front(keys, k) == {} <==> keys[0] == k
  {
    var i := FrontIndex(keys, k);
    if i < limit {
      assert Take(keys, limit)[i] == k;
    }
  }

  lemma {:induction false} FrontIsAmong(keys: seq<Key>, k: Key)
    ensures forall other | other in Front(keys, k) :: other in keys
  {
    if keys != [] && keys[0] != k {
      FrontIsAmong(keys[1..], k);
    }
  }

  lemma {:induction false} DistinctOfDistinct(keys: seq<Key>, seen: set<Key>, more: set<Key>)
    requires seen <= more
    ensures Distinct(Distinct(keys, seen), more) == Distinct(keys, more)
  {
    if keys != [] {
      if keys[0] in seen {
        DistinctOfDistinct(keys[1..], seen, more);
      } else {
        DistinctOfDistinct(keys[1..], seen + {keys[0]}, if keys[0] in more then more else more + {keys[0]});
      }
    }
  }

  // ---------------------------------------------------------------- secrets

  function Opened(ring: Ring, value: Stored): Result<string, StoreError> {
    if value.Plain? then Ok(value.text)
    else if value.key in Keys(ring) then Ok(value.text)
    else Err(Undecryptable)
  }

  /** Try the active key and then each retired one. */
  method Decrypt(ring: Ring, value: Stored) returns (r: Result<string, StoreError>)
    ensures r == Opened(ring, value)
  {
    if value.Plain? {
      return Ok(value.text);
    }
    var keys := Keys(ring);
    for i := 0 to |keys|
      invariant forall j | 0 <= j < i :: keys[j] != value.key
    {
      if keys[i] == value.key {
        return Ok(value.text);
      }
    }
    r := Err(Undecryptable);
  }

  /** The ring after a rotation: the old keys are retired behind the new one, as far as there is room. */
  function Rotated(ring: Ring, next: Key): Ring {
    Ring(next, Take(Distinct(Keys(ring), {}), MAX_PREVIOUS_KEYS))
  }

  /** What the rows say, whichever keys they are sealed under. */
  function Texts(rows: map<string, Stored>): map<string, string> {
    map id | id in rows :: rows[id].text
  }

  function SealedAgain(rows: map<string, Stored>, next: Key): map<string, Stored> {
    map id | id in rows :: if rows[id].Sealed? then Sealed(next, rows[id].text) else rows[id]
  }

  // ---------------------------------------------------------------- merging

  /** The ring after merging another one, given the ring on file if there is one. */
  function Merged(incoming: Ring, current: Option<Ring>): Ring {
    match current
    case Some(ring) =>
      Ring(ring.active, Take(Distinct(Keys(incoming) + ring.previous, {ring.active}), MAX_PREVIOUS_KEYS))
    case None =>
      Ring(incoming.active, Take(Distinct(incoming.previous, {incoming.active}), MAX_PREVIOUS_KEYS))
  }

  lemma MergingTwiceAddsNothing(first: seq<Key>, second: seq<Key>, seen: set<Key>)
    ensures
      var kept := Take(Distinct(first + second, seen), MAX_PREVIOUS_KEYS);
      Take(Distinct(first + kept, seen), MAX_PREVIOUS_KEYS) == kept
  {
    var known := seen + Elements(first);
    var p, q := Distinct(first, seen), Distinct(second, known);
    var kept := Take(Distinct(first + second, seen), MAX_PREVIOUS_KEYS);
    DistinctOfConcat(first, second, seen);
    DistinctOfConcat(first, kept, seen);
    DistinctIsDistinct(first, seen);
    DistinctIsDistinct(second, known);
    if |p| >= MAX_PREVIOUS_KEYS {
      assert kept == Take(p, MAX_PREVIOUS_KEYS);
      PartHasSameKeys(p, kept);
      DistinctOfSeen(kept, known);
    } else {
      var q' := Take(q, MAX_PREVIOUS_KEYS - |p|);
      PartHasSameKeys(q, q');
      DistinctOfKnownThenNew(p, q', known);
      assert kept == p + q';
    }
  }

  lemma PartHasSameKeys(keys: seq<Key>, part: seq<Key>)
    requires part <= keys
    ensures Elements(part) <= Elements(keys)
  {
  }

  lemma DistinctOfKnownThenNew(repeated: seq<Key>, added: seq<Key>, known: set<Key>)
    requires Elements(repeated) <= known && Elements(added) !! known && NoRepeats(added)
    ensures Distinct(repeated + added, known) == added
  {
    DistinctOfConcat(repeated, added, known);
    DistinctOfSeen(repeated, known);
    assert known + Elements(repeated) == known;
    DistinctOfNew(added, known);
  }

  /**
   Merging never changes an active key and is idempotent. A merged key can be used exactly if it is the
   active one or has fewer than 16 others in front of it, so that all can be used if there are at most 16.
   */
  lemma MergingIsSafe(incoming: Ring, current: Option<Ring>)
    ensures current.Some? ==> Merged(incoming, current).active == current.value.active
    ensures Merged(incoming, Some(Merged(incoming, current))) == Merged(incoming, current)
    ensures
      var merged := Merged(incoming, current);
      forall k | k in Keys(incoming) ::
        k in Keys(merged) <==>
        k == merged.active || |Front(Keys(incoming), k) - {merged.active}| < MAX_PREVIOUS_KEYS
    ensures |Keys(incoming)| <= MAX_PREVIOUS_KEYS ==>
      forall k | k in Keys(incoming) :: k in Keys(Merged(incoming, current))
  {
    var merged := Merged(incoming, current);
    var first := Keys(incoming);
    if current.Some? {
      MergingTwiceAddsNothing(first, current.value.previous, {current.value.active});
    } else {
      var active := incoming.active;
      assert incoming.previous + [] == incoming.previous;
      MergingTwiceAddsNothing(incoming.previous, [], {active});
      assert (first + merged.previous)[1..] == incoming.previous + merged.previous;
    }
    forall k | k in first
      ensures k in Keys(merged) <==> k == merged.active || |Front(first, k) - {merged.active}| < MAX_PREVIOUS_KEYS
    {
      KeyIsUsableIff(incoming, current, k);
      FrontOfConcat(first, if current.Some? then current.value.previous else [], k);
    }
    if |first| <= MAX_PREVIOUS_KEYS {
      MergedKeysAreUsable(incoming, current);
    }
  }

  /** Which keys a merge leaves usable, of the merged ones and of those that were retired before. */
  lemma KeyIsUsableIff(incoming: Ring, current: Option<Ring>, k: Key)
    requires k in Keys(incoming) + if current.Some? then current.value.previous else []
    ensures
      var merged := Merged(incoming, current);
      var all := Keys(incoming) + if current.Some? then current.value.previous else [];
      k in Keys(merged) <==> k == merged.active || |Front(all, k) - {merged.active}| < MAX_PREVIOUS_KEYS
  {
    var merged := Merged(incoming, current);
    var all := Keys(incoming) + if current.Some? then current.value.previous else [];
    var others := Distinct(all, {merged.active});
    assert current.None? ==> all[1..] == incoming.previous;
    assert merged.previous == Take(others, MAX_PREVIOUS_KEYS);
    if k != merged.active {
      FrontOfDistinct(all, {merged.active}, k);
      DistinctIsDistinct(all, {merged.active});
      assert k in Elements(others);
      FrontCounts(others, k, MAX_PREVIOUS_KEYS);
    }
  }

  /** A keyring with 16 retired keys cannot be merged in full. */
  lemma FullKeyringLosesItsOldest(incoming: Ring, active: Key)
    requires NoRepeats(Keys(incoming)) && |incoming.previous| == MAX_PREVIOUS_KEYS && active !in Keys(incoming)
    ensures incoming.previous[15] !in Keys(Merged(incoming, Some(Ring(active, []))))
  {
    var keys, k := Keys(incoming), incoming.previous[15];
    assert keys[16] == k;
    var i := FrontIndex(keys, k);
    FrontIsAmong(keys, k);
    assert Front(keys, k) - {active} == Front(keys, k);
    MergingIsSafe(incoming, Some(Ring(active, [])));
  }

  lemma {:induction false} DistinctIsNoLonger(keys: seq<Key>, seen: set<Key>)
    ensures |Distinct(keys, seen)| <= |keys|
  {
    if keys != [] {
      DistinctIsNoLonger(keys[1..], if keys[0] in seen then seen else seen + {keys[0]});
    }
  }

  lemma MergedKeysAreUsable(incoming: Ring, current: Option<Ring>)
    requires |Keys(incoming)| <= MAX_PREVIOUS_KEYS
    ensures forall k | k in Keys(incoming) :: k in Keys(Merged(incoming, current))
  {
    var merged := Merged(incoming, current);
    var others := if current.Some? then current.value.previous else [];
    var first := if current.Some? then Keys(incoming) else incoming.previous;
    DistinctOfConcat(first, others, {merged.active});
    assert current.None? ==> first + others == first;
    DistinctIsNoLonger(first, {merged.active});
    DistinctIsDistinct(first, {merged.active});
    var p := Distinct(first, {merged.active});
    forall k | k in Keys(incoming) ensures k in Keys(merged) {
      if k != merged.active {
        assert k in Elements(first);
        assert k in Elements(p);
        var i :| 0 <= i < |p| && p[i] == k;
        assert merged.previous[i] == k;
      }
    }
  }

  // ---------------------------------------------------------------- rotations and merges in any order

  /** What can happen to a keyring. */
  datatype Change = Rotates(next: Key) | Merges(incoming: Ring)

  function Changed(ring: Ring, c: Change): Ring {
    match c
    case Rotates(next) => Rotated(ring, next)
    case Merges(incoming) => Merged(incoming, Some(ring))
  }

  function RingAfter(ring: Ring, changes: seq<Change>): Ring {
    if changes == [] then ring else Changed(RingAfter(ring, changes[..|changes| - 1]), changes[|changes| - 1])
  }

  function ActiveAfter(ring: Ring, changes: seq<Change>): Key {
    if changes == [] then ring.active
    else
      var last := changes[|changes| - 1];
      if last.Rotates? then last.next else ActiveAfter(ring, changes[..|changes| - 1])
  }

  function KeysOf(c: Change): set<Key> {
    match c
    case Rotates(next) => {next}
    case Merges(incoming) => Elements(Keys(incoming))
  }

  /** Every key that was ever in the keyring. */
  function Known(ring: Ring, changes: seq<Change>): set<Key> {
    if changes == [] then Elements(Keys(ring))
    else Known(ring, changes[..|changes| - 1]) + KeysOf(changes[|changes| - 1])
  }

  /** Rotation draws its keys at random, so that no key is drawn twice. */
  predicate Fresh(ring: Ring, changes: seq<Change>) {
    forall i | 0 <= i < |changes| && changes[i].Rotates? :: changes[i].next !in Known(ring, changes[..i])
  }

  /** The keys that a change leaves in front of `k`, given the active key and the keys in front of `k` before. */
  function AheadAfter(k: Key, active: Key, ahead: set<Key>, c: Change): set<Key> {
    match c
    case Rotates(next) =>
      if k == next then {} else ahead + {next}
    case Merges(incoming) =>
      if k == active then {}
      else if k in Keys(incoming) then {active} + Front(Keys(incoming), k)
      else ahead + Elements(Keys(incoming))
  }

  /** The keys that were put in front of `k`, whether the keyring still has room for them or not. */
  function Ahead(k: Key, ring: Ring, changes: seq<Change>): set<Key> {
    if changes == [] then Front(Keys(ring), k)
    else
      var before := changes[..|changes| - 1];
      AheadAfter(k, ActiveAfter(ring, before), Ahead(k, ring, before), changes[|changes| - 1])
  }

  predicate InReach(k: Key, ring: Ring, changes: seq<Change>) {
    |Ahead(k, ring, changes)| <= MAX_PREVIOUS_KEYS
  }

  /** The keyring as it would be without a limit on retired keys, which starts with the real one. */
  function Unbounded(keys: seq<Key>, c: Change): seq<Key>
    requires keys != []
  {
    match c
    case Rotates(next) => [next] + keys
    case Merges(incoming) => [keys[0]] + Distinct(Keys(incoming) + keys[1..], {keys[0]})
  }

  function UnboundedAfter(ring: Ring, changes: seq<Change>): (keys: seq<Key>)
    ensures keys != []
  {
    if changes == [] then Distinct(Keys(ring), {})
    else Unbounded(UnboundedAfter(ring, changes[..|changes| - 1]), changes[|changes| - 1])
  }

  /** The ring holds as many of the keys as it has room for, from the front. */
  predicate Fits(ring: Ring, keys: seq<Key>) {
    && keys != [] && NoRepeats(keys) && keys[0] == ring.active
    && Distinct(Keys(ring), {}) == Take(keys, MAX_PREVIOUS_KEYS + 1)
  }

  lemma RotationFits(ring: Ring, keys: seq<Key>, next: Key)
    requires Fits(ring, keys) && next !in keys
    ensures Fits(Rotated(ring, next), [next] + keys)
  {
    var rotated := Rotated(ring, next);
    assert Keys(rotated) == Take([next] + keys, MAX_PREVIOUS_KEYS + 1);
    DistinctOfNew(Keys(rotated), {});
  }

  lemma TakeOfLonger(keys: seq<Key>, more: seq<Key>, limit: nat)
    requires |keys| >= limit
    ensures Take(keys + more, limit) == Take(keys, limit)
  {
    assert (keys + more)[..limit] == keys[..limit];
  }

  /** What a full keyring has dropped would be dropped by the merge as well. */
  lemma MergeKeepsFront(first: seq<Key>, retired: seq<Key>, active: Key)
    requires NoRepeats(retired) && active !in retired && |retired| > MAX_PREVIOUS_KEYS
    ensures
      var kept := Take(retired, MAX_PREVIOUS_KEYS);
      Take(Distinct(first + kept, {active}), MAX_PREVIOUS_KEYS)
        == Take(Distinct(first + retired, {active}), MAX_PREVIOUS_KEYS)
  {
    var kept, dropped := retired[..MAX_PREVIOUS_KEYS], retired[MAX_PREVIOUS_KEYS..];
    var x := Distinct(first + kept, {active});
    assert first + retired == (first + kept) + dropped;
    DistinctOfConcat(first + kept, dropped, {active});
    DistinctIsDistinct(first + kept, {active});
    ElementsCount(kept);
    ElementsCount(x);
    assert Elements(kept) <= Elements(x);
    SubsetIsNoLarger(Elements(kept), Elements(x));
    TakeOfLonger(x, Distinct(dropped, {active} + Elements(first + kept)), MAX_PREVIOUS_KEYS);
  }

  lemma MergeFits(ring: Ring, keys: seq<Key>, incoming: Ring)
    requires Fits(ring, keys)
    ensures Fits(Merged(incoming, Some(ring)), Unbounded(keys, Merges(incoming)))
  {
    var active, retired, first := keys[0], keys[1..], Keys(incoming);
    var kept := Take(retired, MAX_PREVIOUS_KEYS);
    var merged, all := Merged(incoming, Some(ring)), Unbounded(keys, Merges(incoming));
    RetiredFits(ring, keys);
    DistinctIsDistinct(first + retired, {active});
    assert forall k | k in all[1..] :: k in Elements(all[1..]);
    SameDistinctOthers(first, ring.previous, kept, {active});
    if |retired| > MAX_PREVIOUS_KEYS {
      MergeKeepsFront(first, retired, active);
    }
    assert Keys(merged) == Take(all, MAX_PREVIOUS_KEYS + 1);
    FrontFits(merged, all);
  }

  lemma FrontFits(ring: Ring, keys: seq<Key>)
    requires keys != [] && NoRepeats(keys) && Keys(ring) == Take(keys, MAX_PREVIOUS_KEYS + 1)
    ensures Fits(ring, keys)
  {
    DistinctOfNew(Keys(ring), {});
  }

  lemma RetiredFits(ring: Ring, keys: seq<Key>)
    requires Fits(ring, keys)
    ensures Distinct(ring.previous, {ring.active}) == Take(keys[1..], MAX_PREVIOUS_KEYS)
    ensures Distinct(Take(keys[1..], MAX_PREVIOUS_KEYS), {ring.active}) == Take(keys[1..], MAX_PREVIOUS_KEYS)
  {
    assert Keys(ring)[1..] == ring.previous && {} + {ring.active} == {ring.active};
    assert Take(keys, MAX_PREVIOUS_KEYS + 1)[1..] == Take(keys[1..], MAX_PREVIOUS_KEYS);
    assert Distinct(Keys(ring), {})[1..] == Distinct(ring.previous, {ring.active});
    DistinctOfNew(Take(keys[1..], MAX_PREVIOUS_KEYS), {ring.active});
  }

  /** Lists with the same distinct keys are the same to a merge. */
  lemma SameDistinctOthers(first: seq<Key>, a: seq<Key>, b: seq<Key>, seen: set<Key>)
    requires Distinct(a, seen) == Distinct(b, seen)
    ensures Distinct(first + a, seen) == Distinct(first + b, seen)
  {
    var more := seen + Elements(first);
    DistinctOfConcat(first, a, seen);
    DistinctOfConcat(first, b, seen);
    DistinctOfDistinct(a, seen, more);
    DistinctOfDistinct(b, seen, more);
  }

  /** The real keyring is the front of the unbounded one, which never forgets a key. */
  lemma {:induction false} RingIsFront(ring: Ring, changes: seq<Change>)
    requires |ring.previous| <= MAX_PREVIOUS_KEYS && Fresh(ring, changes)
    ensures Fits(RingAfter(ring, changes), UnboundedAfter(ring, changes))
    ensures Elements(UnboundedAfter(ring, changes)) == Known(ring, changes)
    ensures RingAfter(ring, changes).active == ActiveAfter(ring, changes)
    decreases |changes|
  {
    if changes == [] {
      DistinctIsDistinct(Keys(ring), {});
      DistinctIsNoLonger(Keys(ring), {});
    } else {
      var before, c := changes[..|changes| - 1], changes[|changes| - 1];
      FreshBefore(ring, changes);
      RingIsFront(ring, before);
      var keys := UnboundedAfter(ring, before);
      match c {
        case Rotates(next) =>
          assert next !in Elements(keys);
          RotationFits(RingAfter(ring, before), keys, next);
          assert Elements([next] + keys) == Elements(keys) + {next};
        case Merges(incoming) =>
          MergeFits(RingAfter(ring, before), keys, incoming);
          UnboundedMergeAdds(keys, incoming);
      }
    }
  }

  lemma FreshBefore(ring: Ring, changes: seq<Change>)
    requires changes != [] && Fresh(ring, changes)
    ensures Fresh(ring, changes[..|changes| - 1])
    ensures changes[|changes| - 1].Rotates? ==> changes[|changes| - 1].next !in Known(ring, changes[..|changes| - 1])
  {
    var before := changes[..|changes| - 1];
    assert forall i | 0 <= i < |before| :: before[i] == changes[i] && before[..i] == changes[..i];
  }

  lemma UnboundedMergeAdds(keys: seq<Key>, incoming: Ring)
    requires keys != []
    ensures Elements(Unbounded(keys, Merges(incoming))) == Elements(keys) + Elements(Keys(incoming))
  {
    var others := Distinct(Keys(incoming) + keys[1..], {keys[0]});
    DistinctIsDistinct(Keys(incoming) + keys[1..], {keys[0]});
    assert Elements(Keys(incoming) + keys[1..]) == Elements(Keys(incoming)) + Elements(keys[1..]);
    assert Elements(keys) == {keys[0]} + Elements(keys[1..]);
    assert Elements([keys[0]] + others) == {keys[0]} + Elements(others);
  }

  lemma MergeMovesFront(keys: seq<Key>, incoming: Ring, k: Key)
    requires keys != [] && NoRepeats(keys) && (k in keys || k in Keys(incoming))
    ensures Front(Unbounded(keys, Merges(incoming)), k) == AheadAfter(k, keys[0], Front(keys, k), Merges(incoming))
  {
    var active, first := keys[0], Keys(incoming);
    if k != active {
      var others := Distinct(first + keys[1..], {active});
      FrontOfDistinct(first + keys[1..], {active}, k);
      FrontOfConcat(first, keys[1..], k);
      assert ([active] + others)[1..] == others;
    }
  }

  /** The keys put in front of a key are those in front of it in the unbounded keyring. */
  lemma {:induction false} AheadIsFront(ring: Ring, changes: seq<Change>, k: Key)
    requires |ring.previous| <= MAX_PREVIOUS_KEYS && Fresh(ring, changes) && k in Known(ring, changes)
    ensures Ahead(k, ring, changes) == Front(UnboundedAfter(ring, changes), k)
    decreases |changes|
  {
    if changes == [] {
      FrontOfDistinct(Keys(ring), {}, k);
    } else {
      var before, c := changes[..|changes| - 1], changes[|changes| - 1];
      FreshBefore(ring, changes);
      RingIsFront(ring, before);
      var keys := UnboundedAfter(ring, before);
      if k in Known(ring, before) {
        AheadIsFront(ring, before, k);
        assert k in Elements(keys);
      }
      match c {
        case Rotates(next) =>
          assert ([next] + keys)[1..] == keys;
        case Merges(incoming) =>
          assert k in Known(ring, before) || k in Elements(Keys(incoming));
          MergeMovesFront(keys, incoming, k);
      }
    }
  }

  /**
   Which secrets stay readable, after rotations without a commit and merges in any order: exactly
   those sealed under a key with at most 16 keys put in front of it.
   */
  lemma ReadableIffInReach(ring: Ring, changes: seq<Change>, k: Key, text: string)
    requires |ring.previous| <= MAX_PREVIOUS_KEYS && Fresh(ring, changes) && k in Known(ring, changes)
    ensures Opened(RingAfter(ring, changes), Sealed(k, text))
            == if InReach(k, ring, changes) then Ok(text) else Err(Undecryptable)
  {
    var keys, now := UnboundedAfter(ring, changes), RingAfter(ring, changes);
    RingIsFront(ring, changes);
    AheadIsFront(ring, changes, k);
    assert k in Elements(keys);
    FrontCounts(keys, k, MAX_PREVIOUS_KEYS + 1);
    DistinctIsDistinct(Keys(now), {});
    assert k in Keys(now) <==> k in Elements(Distinct(Keys(now), {}));
  }

  function Rotations(nexts: seq<Key>): (changes: seq<Change>)
    ensures |changes| == |nexts|
  {
    if nexts == [] then [] else Rotations(nexts[..|nexts| - 1]) + [Rotates(nexts[|nexts| - 1])]
  }

  predicate NewKeys(ring: Ring, nexts: seq<Key>) {
    NoRepeats(nexts) && forall i | 0 <= i < |nexts| :: nexts[i] !in Keys(ring)
  }

  lemma LastRotation(ring: Ring, nexts: seq<Key>)
    requires NewKeys(ring, nexts) && nexts != []
    ensures
      var others, changes := nexts[..|nexts| - 1], Rotations(nexts);
      && NewKeys(ring, others) && changes[..|changes| - 1] == Rotations(others)
      && changes[|changes| - 1] == Rotates(nexts[|nexts| - 1])
      && Elements(nexts) == Elements(others) + {nexts[|nexts| - 1]}
      && nexts[|nexts| - 1] !in Elements(Keys(ring)) + Elements(others)
  {
    assert nexts == nexts[..|nexts| - 1] + [nexts[|nexts| - 1]];
  }

  lemma {:induction false} RotationsAreFresh(ring: Ring, nexts: seq<Key>)
    requires NewKeys(ring, nexts)
    ensures Fresh(ring, Rotations(nexts)) && Known(ring, Rotations(nexts)) == Elements(Keys(ring)) + Elements(nexts)
  {
    if nexts != [] {
      LastRotation(ring, nexts);
      RotationsAreFresh(ring, nexts[..|nexts| - 1]);
      FreshAfter(ring, Rotations(nexts));
    }
  }

  lemma FreshAfter(ring: Ring, changes: seq<Change>)
    requires changes != [] && Fresh(ring, changes[..|changes| - 1])
    requires changes[|changes| - 1].Rotates? ==> changes[|changes| - 1].next !in Known(ring, changes[..|changes| - 1])
    ensures Fresh(ring, changes)
  {
    var before := changes[..|changes| - 1];
    forall i | 0 <= i < |changes| && changes[i].Rotates? ensures changes[i].next !in Known(ring, changes[..i]) {
      if i < |before| {
        assert before[i] == changes[i] && before[..i] == changes[..i];
      }
    }
  }

  lemma {:induction false} RotationsStayInFront(ring: Ring, nexts: seq<Key>, k: Key)
    requires NewKeys(ring, nexts) && k in Keys(ring)
    ensures Ahead(k, ring, Rotations(nexts)) == Front(Keys(ring), k) + Elements(nexts)
  {
    if nexts == [] {
      assert Front(Keys(ring), k) + Elements(nexts) == Front(Keys(ring), k);
    } else {
      LastRotation(ring, nexts);
      RotationsStayInFront(ring, nexts[..|nexts| - 1], k);
    }
  }

  /**
   How many rotations without a commit a row survives, whatever keys were retired before: one sealed
   under the active key stays decryptable exactly as long as no more than 16 of them have gone by.
   */
  lemma SixteenFailuresAndNoMore(ring: Ring, text: string, nexts: seq<Key>)
    requires |ring.previous| <= MAX_PREVIOUS_KEYS && NewKeys(ring, nexts)
    ensures Opened(RingAfter(ring, Rotations(nexts)), Sealed(ring.active, text)).Ok? <==> |nexts| <= MAX_PREVIOUS_KEYS
  {
    var changes := Rotations(nexts);
    RotationsAreFresh(ring, nexts);
    RotationsStayInFront(ring, nexts, ring.active);
    assert Ahead(ring.active, ring, changes) == Elements(nexts);
    ElementsCount(nexts);
    assert ring.active in Elements(Keys(ring));
    ReadableIffInReach(ring, changes, ring.active, text);
  }

  lemma MergingBuries(key: Key, next: Key, incoming: Ring, text: string)
    requires key != next && key !in Keys(incoming) && NoRepeats(Keys(incoming))
    requires |Keys(incoming)| > MAX_PREVIOUS_KEYS
    ensures Opened(RingAfter(Ring(key, []), [Rotates(next), Merges(incoming)]), Sealed(key, text)) == Err(Undecryptable)
  {
    var ring, changes := Ring(key, []), [Rotates(next), Merges(incoming)];
    assert changes[..1] == [Rotates(next)] && changes[..0] == [] && [Rotates(next)][..0] == [];
    assert Ahead(key, ring, []) == {} && ActiveAfter(ring, [Rotates(next)]) == next;
    assert Ahead(key, ring, [Rotates(next)]) == {next};
    assert Ahead(key, ring, changes) == {next} + Elements(Keys(incoming));
    ElementsCount(Keys(incoming));
    SubsetIsNoLarger(Elements(Keys(incoming)), Ahead(key, ring, changes));
    assert key in Known(ring, []);
    ReadableIffInReach(ring, changes, key, text);
  }

  /** One failed rotation and one merge of a full keyring are enough to lose a secret. */
  lemma MergingCanLoseASecret(text: string)
    ensures
      var incoming := Ring(3, seq(16, i => 4 + i));
      Opened(RingAfter(Ring(1, []), [Rotates(2), Merges(incoming)]), Sealed(1, text)) == Err(Undecryptable)
  {
    MergingBuries(1, 2, Ring(3, seq(16, i => 4 + i)), text);
  }

  // ---------------------------------------------------------------- the store

  /** How far a rotation gets. */
  datatype Fate = FailsToWrite | DiesBeforeCommit | FailsToCommit | Commits

  class Store {
    var file: Option<Ring>
    var loaded: Option<Ring>
    var rows: map<string, Stored>

    /** The keyring on file, of which no more than the limit of retired keys is read. */
    function OnFile(): Option<Ring>
      reads this
    {
      if file.None? then None else Some(Ring(file.value.active, Take(file.value.previous, MAX_PREVIOUS_KEYS)))
    }

    /** A loaded keyring is the one on file. */
    ghost predicate Valid()
      reads this
    {
      loaded.Some? ==> loaded == OnFile()
    }

    constructor (file: Option<Ring>, rows: map<string, Stored>)
      ensures Valid() && this.file == file && loaded.None? && this.rows == rows
    {
      this.file, loaded, this.rows := file, None, rows;
    }

    /** The keyring, read from file if need be; without a file one is made around the key that was drawn. */
    method LoadKeyring(drawn: Key) returns (ring: Ring)
      requires Valid()
      modifies this`loaded, this`file
      ensures Valid() && Some(ring) == OnFile() == loaded
      ensures OnFile() == if old(file).None? then Some(Ring(drawn, [])) else old(OnFile())
    {
      if loaded.Some? {
        return loaded.value;
      }
      if file.None? {
        file := Some(Ring(drawn, []));
      }
      loaded := OnFile();
      ring := loaded.value;
    }

    method Save(id: string, text: string, drawn: Key)
      requires Valid()
      modifies this
      ensures Valid() && OnFile() == if old(file).None? then Some(Ring(drawn, [])) else old(OnFile())
      ensures rows == old(rows)[id := if text == "" then Plain("") else Sealed(OnFile().value.active, text)]
    {
      var ring := LoadKeyring(drawn);
      rows := rows[id := if text == "" then Plain("") else Sealed(ring.active, text)];
    }

    /** Seal every sealed row again under the next key; one undecryptable row stops the transaction. */
    method SealAgain(ring: Ring, next: Key) returns (r: Result<map<string, Stored>, StoreError>)
      ensures r.Ok? <==> forall id | id in rows :: Opened(ring, rows[id]).Ok?
      ensures r.Ok? ==> r.value == SealedAgain(rows, next)
    {
      var result, rest := rows, rows.Keys;
      while rest != {}
        invariant rest <= rows.Keys && result.Keys == rows.Keys
        invariant forall id | id in rows && id !in rest ::
          Opened(ring, rows[id]).Ok? && result[id] == if rows[id].Sealed? then Sealed(next, rows[id].text) else rows[id]
        invariant forall id | id in rest :: result[id] == rows[id]
        decreases rest
      {
        var id :| id in rest;
        var row := result[id];
        if row.Sealed? {
          var text := Decrypt(ring, row);
          if text.Err? {
            return Err(text.error);
          }
          result := result[id := Sealed(next, text.value)];
        }
        rest := rest - {id};
      }
      r := Ok(result);
    }

    /** Rotate to a new key: first the keyring, then the rows, in one transaction. */
    method RotateMasterKey(next: Key, fate: Fate, drawn: Key) returns (r: Result<(), StoreError>)
      requires Valid()
      modifies this
      ensures Valid()
      ensures
        var ring := if old(file).None? then Ring(drawn, []) else old(OnFile()).value;
        var rotated := Rotated(ring, next);
        if fate.FailsToWrite? then
          OnFile() == Some(ring) && rows == old(rows) && r == Err(WriteFailed)
        else
          && OnFile() == Some(rotated)
          && rows == (if r.Ok? then SealedAgain(old(rows), next) else old(rows))
          && (r.Ok? <==> fate.Commits? && forall id | id in old(rows) :: Opened(rotated, old(rows)[id]).Ok?)
      ensures fate.DiesBeforeCommit? ==> loaded.None?
    {
      var ring := LoadKeyring(drawn);
      var unique := UniqueKeys(Keys(ring));
      var retired := Take(unique, MAX_PREVIOUS_KEYS);
      if fate.FailsToWrite? {
        return Err(WriteFailed);
      }
      file := Some(Ring(next, retired));
      loaded := Some(Ring(next, retired));
      if fate.DiesBeforeCommit? {
        loaded := None;
        return Err(TransactionFailed);
      }
      var sealedAgain := SealAgain(Ring(next, retired), next);
      if sealedAgain.Err? {
        return Err(sealedAgain.error);
      }
      if fate.FailsToCommit? {
        return Err(TransactionFailed);
      }
      rows := sealedAgain.value;
      r := Ok(());
    }

    /** Add another keyring's keys as decrypt-only keys; without a keyring on file the other one is adopted. */
    method MergeKeyringMaterial(incoming: Ring) returns (added: int)
      requires Valid()
      modifies this`file, this`loaded
      ensures Valid() && loaded.None? && file == Some(Merged(incoming, old(OnFile())))
    {
      var current := OnFile();
      var active := if current.Some? then current.value.active else incoming.active;
      var known := if current.Some? then current.value.previous else [];
      var all := if current.Some? then Keys(incoming) + known else incoming.previous;
      var unique := UniqueKeys(all);
      var previous := Without(unique, active);
      DroppedOfDistinct(all, active, {});
      assert {} + {active} == {active};
      file := Some(Ring(active, Take(previous, MAX_PREVIOUS_KEYS)));
      loaded := None;
      added := |previous| - |known|;
    }

    /** The process restarts: only the file and the rows remain. */
    method Restart()
      requires Valid()
      modifies this`loaded
      ensures Valid() && loaded.None?
    {
      loaded := None;
    }
  }

  // ---------------------------------------------------------------- whole runs

  /** Where the first keyring comes from: drawn, taken over from a backup, or found on file. */
  datatype Origin = Drawn(key: Key) | Adopted(incoming: Ring) | Found(ring: Ring)

  function FirstRing(origin: Origin): (ring: Ring)
    ensures |ring.previous| <= MAX_PREVIOUS_KEYS
  {
    match origin
    case Drawn(key) => Ring(key, [])
    case Adopted(incoming) => Merged(incoming, None)
    case Found(ring) => Ring(ring.active, Take(ring.previous, MAX_PREVIOUS_KEYS))
  }

  datatype Event =
    | Saved(id: string, text: string)
    | Rotation(next: Key, fate: Fate)
    | Merging(incoming: Ring)
    | Restarted

  /** What the events do to the keyring. */
  function Changes(events: seq<Event>): seq<Change> {
    if events == [] then []
    else
      var before := Changes(events[..|events| - 1]);
      match events[|events| - 1]
      case Rotation(next, fate) => if fate.FailsToWrite? then before else before + [Rotates(next)]
      case Merging(incoming) => before + [Merges(incoming)]
      case _ => before
  }

  function KeysUnder(rows: map<string, Stored>): map<string, Option<Key>> {
    map id | id in rows :: if rows[id].Sealed? then Some(rows[id].key) else None
  }

  function MovedUnder(under: map<string, Option<Key>>, next: Key): map<string, Option<Key>> {
    map id | id in under :: if under[id].Some? then Some(next) else None
  }

  /** The key that each row lies under, if any: a commit takes place only if every row is in reach. */
  function LiesUnder(found: map<string, Stored>, ring: Ring, events: seq<Event>): (under: map<string, Option<Key>>)
    ensures under.Keys == Written(found, events).Keys
  {
    if events == [] then KeysUnder(found)
    else
      var before := events[..|events| - 1];
      var rows := LiesUnder(found, ring, before);
      match events[|events| - 1]
      case Saved(id, text) => rows[id := if text == "" then None else Some(ActiveAfter(ring, Changes(before)))]
      case Rotation(next, fate) =>
        if fate.Commits? && AllInReach(rows, ring, Changes(events))
        then MovedUnder(rows, next)
        else rows
      case _ => rows
  }

  /** The key was once in the keyring and has not been pushed out of it. */
  predicate Usable(k: Key, ring: Ring, changes: seq<Change>) {
    k in Known(ring, changes) && InReach(k, ring, changes)
  }

  predicate AllInReach(rows: map<string, Option<Key>>, ring: Ring, changes: seq<Change>) {
    forall id | id in rows && rows[id].Some? :: Usable(rows[id].value, ring, changes)
  }

  function Written(found: map<string, Stored>, events: seq<Event>): map<string, string> {
    if events == [] then
      Texts(found)
    else
      var last, before := events[|events| - 1], Written(found, events[..|events| - 1]);
      if last.Saved? then before[last.id := last.text] else before
  }

  function Row(under: Option<Key>, text: string): Stored {
    if under.Some? then Sealed(under.value, text) else Plain(text)
  }

  /** The rows as the events leave them. */
  function RowsAfter(found: map<string, Stored>, ring: Ring, events: seq<Event>): map<string, Stored> {
    map id | id in Written(found, events) :: Row(LiesUnder(found, ring, events)[id], Written(found, events)[id])
  }

  lemma ChangesGrow(events: seq<Event>)
    requires events != []
    ensures
      var before, changes := Changes(events[..|events| - 1]), Changes(events);
      changes == before || (changes != [] && changes[..|changes| - 1] == before)
  {
  }

  lemma FreshEarlier(ring: Ring, events: seq<Event>)
    requires events != [] && Fresh(ring, Changes(events))
    ensures Fresh(ring, Changes(events[..|events| - 1]))
  {
    ChangesGrow(events);
    if Changes(events) != Changes(events[..|events| - 1]) {
      FreshBefore(ring, Changes(events));
    }
  }

  lemma {:induction false} FreshPrefix(ring: Ring, events: seq<Event>, i: nat)
    requires i <= |events| && Fresh(ring, Changes(events))
    ensures Fresh(ring, Changes(events[..i]))
    decreases |events|
  {
    if i == |events| {
      assert events[..i] == events;
    } else {
      FreshEarlier(ring, events);
      assert events[..|events| - 1][..i] == events[..i];
      FreshPrefix(ring, events[..|events| - 1], i);
    }
  }

  lemma ActiveIsKnown(ring: Ring, changes: seq<Change>)
    requires |ring.previous| <= MAX_PREVIOUS_KEYS && Fresh(ring, changes)
    ensures ActiveAfter(ring, changes) in Known(ring, changes)
    ensures Ahead(ActiveAfter(ring, changes), ring, changes) == {}
  {
    RingIsFront(ring, changes);
    assert UnboundedAfter(ring, changes)[0] in Elements(UnboundedAfter(ring, changes));
    AheadIsFront(ring, changes, ActiveAfter(ring, changes));
  }

  predicate AllAmong(under: map<string, Option<Key>>, keys: set<Key>) {
    forall id | id in under && under[id].Some? :: under[id].value in keys
  }

  /** If every row found lies under a key that was found, every row lies under a key that was once in the keyring. */
  lemma {:induction false} LiesUnderKnown(found: map<string, Stored>, ring: Ring, events: seq<Event>)
    requires |ring.previous| <= MAX_PREVIOUS_KEYS && Fresh(ring, Changes(events))
    requires AllAmong(KeysUnder(found), Elements(Keys(ring)))
    ensures AllAmong(LiesUnder(found, ring, events), Known(ring, Changes(events)))
  {
    if events != [] {
      FreshEarlier(ring, events);
      var before := events[..|events| - 1];
      var under, known := LiesUnder(found, ring, before), Known(ring, Changes(events));
      LiesUnderKnown(found, ring, before);
      KnownGrows(ring, events);
      assert AllAmong(under, known);
      ActiveIsKnown(ring, Changes(before));
    }
  }

  lemma KnownGrows(ring: Ring, events: seq<Event>)
    requires events != []
    ensures Known(ring, Changes(events[..|events| - 1])) <= Known(ring, Changes(events))
    ensures
      var last := events[|events| - 1];
      last.Rotation? && !last.fate.FailsToWrite? ==> last.next in Known(ring, Changes(events))
  {
    var before, changes := Changes(events[..|events| - 1]), Changes(events);
    if changes != before {
      assert changes[..|changes| - 1] == before;
    }
  }

  lemma UnknownKeysStayOut(ring: Ring, changes: seq<Change>, k: Key)
    requires |ring.previous| <= MAX_PREVIOUS_KEYS && Fresh(ring, changes) && k !in Known(ring, changes)
    ensures k !in Keys(RingAfter(ring, changes))
  {
    var now := RingAfter(ring, changes);
    RingIsFront(ring, changes);
    DistinctIsDistinct(Keys(now), {});
    if k in Keys(now) {
      assert k in Elements(Distinct(Keys(now), {}));
      assert k in Elements(UnboundedAfter(ring, changes));
    }
  }

  /** What the keyring makes of one row, after some changes. */
  lemma RowOpens(ring: Ring, changes: seq<Change>, under: Option<Key>, text: string)
    requires |ring.previous| <= MAX_PREVIOUS_KEYS && Fresh(ring, changes)
    ensures Opened(RingAfter(ring, changes), Row(under, text))
            == if under.Some? && !Usable(under.value, ring, changes) then Err(Undecryptable) else Ok(text)
  {
    if under.Some? {
      if under.value in Known(ring, changes) {
        ReadableIffInReach(ring, changes, under.value, text);
      } else {
        UnknownKeysStayOut(ring, changes, under.value);
      }
    }
  }

  lemma RowsOpenIffInReach(found: map<string, Stored>, ring: Ring, events: seq<Event>, changes: seq<Change>)
    requires |ring.previous| <= MAX_PREVIOUS_KEYS && Fresh(ring, changes)
    ensures
      var under, rows, now := LiesUnder(found, ring, events), RowsAfter(found, ring, events), RingAfter(ring, changes);
      forall id | id in rows ::
        Opened(now, rows[id])
        == if under[id].Some? && !Usable(under[id].value, ring, changes) then Err(Undecryptable)
          else Ok(Written(found, events)[id])
  {
    var under := LiesUnder(found, ring, events);
    forall id | id in RowsAfter(found, ring, events)
      ensures Opened(RingAfter(ring, changes), RowsAfter(found, ring, events)[id])
              == if under[id].Some? && !Usable(under[id].value, ring, changes) then Err(Undecryptable)
                 else Ok(Written(found, events)[id])
    {
      RowOpens(ring, changes, under[id], Written(found, events)[id]);
    }
  }

  /** What one event makes of a keyring. */
  function RingNext(now: Ring, event: Event): Ring {
    match event
    case Rotation(next, fate) => if fate.FailsToWrite? then now else Rotated(now, next)
    case Merging(incoming) => Merged(incoming, Some(now))
    case _ => now
  }

  /** What one event makes of the rows, given the keyring before it. */
  function RowsNext(now: Ring, rows: map<string, Stored>, event: Event): map<string, Stored> {
    match event
    case Saved(id, text) => rows[id := if text == "" then Plain("") else Sealed(now.active, text)]
    case Rotation(next, fate) =>
      if fate.Commits? && forall id | id in rows :: Opened(Rotated(now, next), rows[id]).Ok?
      then SealedAgain(rows, next)
      else rows
    case _ => rows
  }

  lemma RingSteps(ring: Ring, events: seq<Event>)
    requires events != []
    ensures
      var before, last := events[..|events| - 1], events[|events| - 1];
      RingAfter(ring, Changes(events)) == RingNext(RingAfter(ring, Changes(before)), last)
  {
    ChangesGrow(events);
  }

  lemma SavedRows(found: map<string, Stored>, ring: Ring, events: seq<Event>)
    requires events != [] && events[|events| - 1].Saved?
    ensures
      var before, last := events[..|events| - 1], events[|events| - 1];
      var under := if last.text == "" then None else Some(ActiveAfter(ring, Changes(before)));
      RowsAfter(found, ring, events) == RowsAfter(found, ring, before)[last.id := Row(under, last.text)]
  {
  }

  lemma RowsStep(found: map<string, Stored>, ring: Ring, events: seq<Event>)
    requires events != [] && |ring.previous| <= MAX_PREVIOUS_KEYS && Fresh(ring, Changes(events))
    ensures
      var before, last := events[..|events| - 1], events[|events| - 1];
      RowsAfter(found, ring, events) == RowsNext(RingAfter(ring, Changes(before)), RowsAfter(found, ring, before), last)
  {
    var before := events[..|events| - 1];
    match events[|events| - 1]
    case Saved(id, text) =>
      FreshEarlier(ring, events);
      RingIsFront(ring, Changes(before));
      SavedRows(found, ring, events);
    case Rotation(next, fate) =>
      if fate.FailsToWrite? {
        ResealedRows(found, ring, events);
      } else {
        RingSteps(ring, events);
        RotationCommits(found, ring, events);
      }
    case _ =>
  }

  /** Whether a rotation's transaction goes through is what the events say. */
  lemma RotationCommits(found: map<string, Stored>, ring: Ring, events: seq<Event>)
    requires events != [] && events[|events| - 1].Rotation? && !events[|events| - 1].fate.FailsToWrite?
    requires |ring.previous| <= MAX_PREVIOUS_KEYS && Fresh(ring, Changes(events))
    ensures
      var before, last := events[..|events| - 1], events[|events| - 1];
      var rows, now := RowsAfter(found, ring, before), RingAfter(ring, Changes(events));
      var commits := last.fate.Commits? && forall id | id in rows :: Opened(now, rows[id]).Ok?;
      RowsAfter(found, ring, events) == if commits then SealedAgain(rows, last.next) else rows
  {
    var before, last := events[..|events| - 1], events[|events| - 1];
    var under := LiesUnder(found, ring, before);
    var rows, now := RowsAfter(found, ring, before), RingAfter(ring, Changes(events));
    RowsOpenIffInReach(found, ring, before, Changes(events));
    if AllInReach(under, ring, Changes(events)) {
      forall id | id in rows ensures Opened(now, rows[id]).Ok? {
      }
    } else {
      var id :| id in under && under[id].Some? && !Usable(under[id].value, ring, Changes(events));
      assert id in rows && Opened(now, rows[id]).Err?;
    }
    ResealedRows(found, ring, events);
  }

  lemma ResealedRows(found: map<string, Stored>, ring: Ring, events: seq<Event>)
    requires events != [] && events[|events| - 1].Rotation?
    ensures
      var before, last := events[..|events| - 1], events[|events| - 1];
      RowsAfter(found, ring, events)
      == if last.fate.Commits? && AllInReach(LiesUnder(found, ring, before), ring, Changes(events))
         then SealedAgain(RowsAfter(found, ring, before), last.next)
         else RowsAfter(found, ring, before)
  {
  }

  // ---------------------------------------------------------------- how many keys can stand in front

  /**
   From the depth of the rows found: the row transactions that failed to commit since the last one that
   did, and the keys merged while one had failed. After 16 the next transaction cannot commit either:
   its rotation has just dropped the key that rows may still need.
   */
  function Depth(start: nat, events: seq<Event>): nat {
    if events == [] then start
    else
      var before := Depth(start, events[..|events| - 1]);
      match events[|events| - 1]
      case Rotation(_, fate) =>
        if fate.FailsToWrite? then before
        else if fate.Commits? && before < MAX_PREVIOUS_KEYS then 0
        else before + 1
      case Merging(incoming) => if before == 0 then 0 else before + |Elements(Keys(incoming))|
      case _ => before
  }

  predicate AllWithin(under: map<string, Option<Key>>, ring: Ring, changes: seq<Change>, depth: nat) {
    forall id | id in under && under[id].Some? :: |Ahead(under[id].value, ring, changes)| <= depth
  }

  lemma UnionIsNoLarger(a: set<Key>, b: set<Key>)
    ensures |a + b| <= |a| + |b|
  {
    assert |a + b| == |a| + |b| - |a * b|;
  }

  /** How many keys one change puts in front of a key. */
  lemma AheadGrows(ring: Ring, before: seq<Change>, c: Change, k: Key)
    requires |ring.previous| <= MAX_PREVIOUS_KEYS && Fresh(ring, before) && k in Known(ring, before)
    ensures
      var ahead := Ahead(k, ring, before);
      var later := AheadAfter(k, ActiveAfter(ring, before), ahead, c);
      match c
      case Rotates(_) => |later| <= |ahead| + 1
      case Merges(incoming) => |later| <= if ahead == {} then 0 else |ahead| + |Elements(Keys(incoming))|
  {
    var ahead, active := Ahead(k, ring, before), ActiveAfter(ring, before);
    match c {
      case Rotates(next) =>
        UnionIsNoLarger(ahead, {next});
      case Merges(incoming) =>
        var keys := UnboundedAfter(ring, before);
        RingIsFront(ring, before);
        AheadIsFront(ring, before, k);
        assert k in Elements(keys);
        FrontCounts(keys, k, 0);
        FrontIsAmong(Keys(incoming), k);
        SubsetIsNoLarger(Front(Keys(incoming), k), Elements(Keys(incoming)));
        UnionIsNoLarger({active}, Front(Keys(incoming), k));
        UnionIsNoLarger(ahead, Elements(Keys(incoming)));
    }
  }

  lemma AllWithinGrows(ring: Ring, before: seq<Change>, c: Change, under: map<string, Option<Key>>, depth: nat)
    requires |ring.previous| <= MAX_PREVIOUS_KEYS && Fresh(ring, before)
    requires AllAmong(under, Known(ring, before)) && AllWithin(under, ring, before, depth)
    ensures AllWithin(under, ring, before + [c], match c
      case Rotates(_) => depth + 1
      case Merges(incoming) => if depth == 0 then 0 else depth + |Elements(Keys(incoming))|)
  {
    assert (before + [c])[..|before|] == before;
    forall id | id in under && under[id].Some?
      ensures |Ahead(under[id].value, ring, before + [c])| <= match c
        case Rotates(_) => depth + 1
        case Merges(incoming) => if depth == 0 then 0 else depth + |Elements(Keys(incoming))|
    {
      AheadGrows(ring, before, c, under[id].value);
    }
  }

  /** Every row lies under a key of the ring with no more than so many keys in front of it. */
  predicate NoDeeper(rows: map<string, Stored>, ring: Ring, depth: nat) {
    AllAmong(KeysUnder(rows), Elements(Keys(ring))) && AllWithin(KeysUnder(rows), ring, [], depth)
  }

  /** After a rotation every row lies under the new key, or at most one key deeper. */
  lemma RotationWithin(found: map<string, Stored>, ring: Ring, events: seq<Event>, depth: nat)
    requires events != [] && events[|events| - 1].Rotation? && !events[|events| - 1].fate.FailsToWrite?
    requires |ring.previous| <= MAX_PREVIOUS_KEYS && Fresh(ring, Changes(events))
    requires AllAmong(LiesUnder(found, ring, events[..|events| - 1]), Known(ring, Changes(events[..|events| - 1])))
    requires AllWithin(LiesUnder(found, ring, events[..|events| - 1]), ring, Changes(events[..|events| - 1]), depth)
    ensures
      var commits := events[|events| - 1].fate.Commits? && depth < MAX_PREVIOUS_KEYS;
      AllWithin(LiesUnder(found, ring, events), ring, Changes(events), if commits then 0 else depth + 1)
  {
    var before, next := events[..|events| - 1], events[|events| - 1].next;
    FreshEarlier(ring, events);
    assert Changes(events) == Changes(before) + [Rotates(next)];
    RotatedWithin(ring, Changes(before), next, LiesUnder(found, ring, before), depth);
  }

  lemma RotatedWithin(ring: Ring, before: seq<Change>, next: Key, under: map<string, Option<Key>>, depth: nat)
    requires |ring.previous| <= MAX_PREVIOUS_KEYS && Fresh(ring, before)
    requires AllAmong(under, Known(ring, before)) && AllWithin(under, ring, before, depth)
    ensures AllWithin(under, ring, before + [Rotates(next)], depth + 1)
    ensures depth < MAX_PREVIOUS_KEYS ==> AllInReach(under, ring, before + [Rotates(next)])
    ensures AllWithin(MovedUnder(under, next), ring, before + [Rotates(next)], 0)
  {
    assert (before + [Rotates(next)])[..|before|] == before;
    AllWithinGrows(ring, before, Rotates(next), under, depth);
    assert Known(ring, before) <= Known(ring, before + [Rotates(next)]);
    assert Ahead(next, ring, before + [Rotates(next)]) == {};
  }

  /** No row lies deeper than the run has gone. */
  lemma {:induction false} DepthBounds(found: map<string, Stored>, ring: Ring, events: seq<Event>, start: nat)
    requires |ring.previous| <= MAX_PREVIOUS_KEYS && Fresh(ring, Changes(events))
    requires NoDeeper(found, ring, start)
    ensures AllWithin(LiesUnder(found, ring, events), ring, Changes(events), Depth(start, events))
  {
    if events != [] {
      var before, last := events[..|events| - 1], events[|events| - 1];
      var under, changes := LiesUnder(found, ring, before), Changes(before);
      FreshEarlier(ring, events);
      DepthBounds(found, ring, before, start);
      LiesUnderKnown(found, ring, before);
      match last {
        case Saved(_, _) =>
          ActiveIsKnown(ring, changes);
        case Rotation(next, fate) =>
          if !fate.FailsToWrite? {
            RotationWithin(found, ring, events, Depth(start, before));
          }
        case Merging(incoming) =>
          AllWithinGrows(ring, changes, Merges(incoming), under, Depth(start, before));
        case Restarted =>
      }
    }
  }

  /**
   Every run of saves, rotations cut short anywhere, merges and restarts, from any rows. No text is
   ever changed, and a secret opens to what was last saved exactly as long as the key it lies under is
   in reach. So it is as long as the run has gone no deeper than 16, from the depth of the rows found.
   */
  method Keep(origin: Origin, found: map<string, Stored>, events: seq<Event>, ghost start: nat)
    returns (store: Store)
    requires Fresh(FirstRing(origin), Changes(events))
    ensures fresh(store) && store.Valid()
    ensures
      var ring := FirstRing(origin);
      && store.OnFile() == Some(RingAfter(ring, Changes(events)))
      && store.rows == RowsAfter(found, ring, events) && Texts(store.rows) == Written(found, events)
      && forall id | id in store.rows ::
           var under := LiesUnder(found, ring, events)[id];
           Opened(store.OnFile().value, store.rows[id])
           == if under.Some? && !Usable(under.value, ring, Changes(events)) then Err(Undecryptable)
              else Ok(Written(found, events)[id])
    ensures NoDeeper(found, FirstRing(origin), start) && Depth(start, events) <= MAX_PREVIOUS_KEYS ==>
      forall id | id in store.rows :: Opened(store.OnFile().value, store.rows[id]) == Ok(Written(found, events)[id])
  {
    ghost var ring := FirstRing(origin);
    store := Begin(origin, found);
    RowsFound(found, ring);
    for i := 0 to |events|
      invariant fresh(store) && store.Valid()
      invariant store.OnFile() == Some(RingAfter(ring, Changes(events[..i])))
      invariant store.rows == RowsAfter(found, ring, events[..i])
    {
      EventSteps(found, ring, events, i);
      Handle(store, events[i]);
    }
    assert events[..|events|] == events;
    KeptRows(found, ring, events, start);
  }

  lemma RowsFound(found: map<string, Stored>, ring: Ring)
    ensures RowsAfter(found, ring, []) == found
  {
  }

  /** The keyring and the rows after one event more. */
  lemma EventSteps(found: map<string, Stored>, ring: Ring, events: seq<Event>, i: nat)
    requires i < |events| && |ring.previous| <= MAX_PREVIOUS_KEYS && Fresh(ring, Changes(events))
    ensures
      var now, rows := RingAfter(ring, Changes(events[..i])), RowsAfter(found, ring, events[..i]);
      && RingAfter(ring, Changes(events[..i + 1])) == RingNext(now, events[i])
      && RowsAfter(found, ring, events[..i + 1]) == RowsNext(now, rows, events[i])
  {
    assert events[..i + 1][..i] == events[..i];
    FreshPrefix(ring, events, i + 1);
    RingSteps(ring, events[..i + 1]);
    RowsStep(found, ring, events[..i + 1]);
  }

  lemma KeptRows(found: map<string, Stored>, ring: Ring, events: seq<Event>, start: nat)
    requires |ring.previous| <= MAX_PREVIOUS_KEYS && Fresh(ring, Changes(events))
    ensures
      var rows, now := RowsAfter(found, ring, events), RingAfter(ring, Changes(events));
      && Texts(rows) == Written(found, events)
      && (forall id | id in rows ::
            var under := LiesUnder(found, ring, events)[id];
            Opened(now, rows[id])
            == if under.Some? && !Usable(under.value, ring, Changes(events)) then Err(Undecryptable)
               else Ok(Written(found, events)[id]))
      && (NoDeeper(found, ring, start) && Depth(start, events) <= MAX_PREVIOUS_KEYS ==>
            forall id | id in rows :: Opened(now, rows[id]) == Ok(Written(found, events)[id]))
  {
    RowsOpenIffInReach(found, ring, events, Changes(events));
    if NoDeeper(found, ring, start) {
      LiesUnderKnown(found, ring, events);
      DepthBounds(found, ring, events, start);
    }
  }

  method Begin(origin: Origin, found: map<string, Stored>) returns (store: Store)
    ensures fresh(store) && store.Valid() && store.OnFile() == Some(FirstRing(origin)) && store.rows == found
  {
    match origin
    case Drawn(key) =>
      store := new Store(None, found);
      var _ := store.LoadKeyring(key);
    case Adopted(incoming) =>
      store := new Store(None, found);
      var _ := store.MergeKeyringMaterial(incoming);
    case Found(ring) =>
      store := new Store(Some(ring), found);
  }

  method Handle(store: Store, event: Event)
    requires store.Valid() && store.OnFile().Some?
    modifies store
    ensures store.Valid() && store.OnFile() == Some(RingNext(old(store.OnFile()).value, event))
    ensures store.rows == RowsNext(old(store.OnFile()).value, old(store.rows), event)
  {
    match event
    case Saved(id, text) =>
      store.Save(id, text, 0);
    case Rotation(next, fate) =>
      var _ := store.RotateMasterKey(next, fate, 0);
    case Merging(incoming) =>
      var _ := store.MergeKeyringMaterial(incoming);
    case Restarted =>
      store.Restart();
  }
}
