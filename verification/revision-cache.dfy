/** The bounded cache of immutable reads, least recently used entries first out. */
module RevisionCaches {
  import opened Wrappers
  import opened Repository

  datatype Listed = Listed(name: string, path: string, kind: Kind)

  datatype Value = CachedFile(content: Bytes) | CachedDirectory(entries: seq<Listed>)

  /** An entry under its key, with the bytes it is charged for. */
  datatype Slot = Slot(key: string, value: Value, weight: nat)

  function Key(revision: string, path: string): string {
    revision + "\0" + path
  }

  /** Two reads share a key only when they are the same read. */
  lemma KeyIsInjective(r1: string, p1: string, r2: string, p2: string)
    requires '\0' !in r1 && '\0' !in r2 && Key(r1, p1) == Key(r2, p2)
    ensures r1 == r2 && p1 == p2
  {
    var k1, k2 := Key(r1, p1), Key(r2, p2);
    assert k1[|r1|] == '\0' && k2[|r2|] == '\0';
    assert forall i | 0 <= i < |r1| :: k1[i] == r1[i] && r1[i] in r1;
    assert forall i | 0 <= i < |r2| :: k2[i] == r2[i] && r2[i] in r2;
    assert r1 == k1[..|r1|] && r2 == k2[..|r2|];
    assert p1 == k1[|r1| + 1..] && p2 == k2[|r2| + 1..];
  }

  function DirectoryWeight(entries: seq<Listed>): nat {
    if entries == [] then 64
    else
      var last := entries[|entries| - 1];
      DirectoryWeight(entries[..|entries| - 1]) + 96 + 2 * |last.name| + 2 * |last.path|
  }

  function Weight(key: string, value: Value): nat {
    64 + 2 * |key| +
    match value
    case CachedFile(content) => |content|
    case CachedDirectory(entries) => DirectoryWeight(entries)
  }

  /** A listing is charged for itself and entry by entry, whatever the order. */
  lemma {:induction false} WeightIsAdditive(a: seq<Listed>, b: seq<Listed>)
    ensures DirectoryWeight(a + b) + 64 == DirectoryWeight(a) + DirectoryWeight(b)
    ensures |a| == 1 ==> DirectoryWeight(a) == 160 + 2 * |a[0].name| + 2 * |a[0].path|
    ensures DirectoryWeight([]) == 64
  {
    if b == [] {
      assert a + b == a;
      assert |a| == 1 ==> a[..0] == [];
    } else {
      WeightIsAdditive(a, b[..|b| - 1]);
      assert (a + b)[..|a + b| - 1] == a + b[..|b| - 1];
    }
  }

  // ---------------------------------------------------------------- the map in insertion order

  function Total(slots: seq<Slot>): nat {
    if slots == [] then 0 else slots[0].weight + Total(slots[1..])
  }

  function Without(slots: seq<Slot>, key: string): seq<Slot> {
    if slots == [] then []
    else if slots[0].key == key then slots[1..]
    else [slots[0]] + Without(slots[1..], key)
  }

  function Find(slots: seq<Slot>, key: string): Option<Slot> {
    if slots == [] then None else if slots[0].key == key then Some(slots[0]) else Find(slots[1..], key)
  }

  predicate Distinct(slots: seq<Slot>) {
    forall i, j | 0 <= i < j < |slots| :: slots[i].key != slots[j].key
  }

  /** Oldest use first. */
  predicate InOrderOfUse(slots: seq<Slot>, used: map<string, nat>) {
    && (forall i | 0 <= i < |slots| :: slots[i].key in used)
    && (forall i, j | 0 <= i < j < |slots| :: used[slots[i].key] < used[slots[j].key])
  }

  predicate Fits(slots: seq<Slot>, maxBytes: nat, maxEntries: Option<nat>) {
    Total(slots) <= maxBytes && (maxEntries.Some? ==> |slots| <= maxEntries.value)
  }

  /** Every entry holds the value last set under its key, at that value's weight. */
  predicate Faithful(slots: seq<Slot>, lastSet: map<string, Value>) {
    forall s | s in slots :: s.key in lastSet && lastSet[s.key] == s.value && s.weight == Weight(s.key, s.value)
  }

  /** Exactly the oldest entries are dropped that have to be. */
  predicate LeastDropped(slots: seq<Slot>, kept: seq<Slot>, maxBytes: nat, maxEntries: Option<nat>) {
    && |kept| <= |slots| && kept == slots[|slots| - |kept|..]
    && Fits(kept, maxBytes, maxEntries)
    && (|kept| < |slots| ==> !Fits(slots[|slots| - |kept| - 1..], maxBytes, maxEntries))
  }

  lemma {:induction false} TotalConcat(a: seq<Slot>, b: seq<Slot>)
    ensures Total(a + b) == Total(a) + Total(b)
  {
    if a == [] {
      assert a + b == b;
    } else {
      TotalConcat(a[1..], b);
      assert (a + b)[1..] == a[1..] + b;
    }
  }

  lemma {:induction false} FindFacts(slots: seq<Slot>, key: string)
    ensures Find(slots, key).Some? <==> exists i :: 0 <= i < |slots| && slots[i].key == key
    ensures Find(slots, key).Some? ==> Find(slots, key).value in slots && Find(slots, key).value.key == key
    ensures Total(Without(slots, key)) ==
      Total(slots) - if Find(slots, key).Some? then Find(slots, key).value.weight else 0
    ensures |Without(slots, key)| == |slots| - if Find(slots, key).Some? then 1 else 0
  {
    if slots != [] && slots[0].key != key {
      FindFacts(slots[1..], key);
      assert Without(slots, key)[1..] == Without(slots[1..], key);
    }
  }

  lemma {:induction false} WithoutMembers(slots: seq<Slot>, key: string)
    requires Distinct(slots)
    ensures forall s :: s in Without(slots, key) <==> s in slots && s.key != key
    ensures Distinct(Without(slots, key))
  {
    if slots != [] {
      var rest := slots[1..];
      assert slots == [slots[0]] + rest;
      if slots[0].key != key {
        WithoutMembers(rest, key);
        var w := Without(slots, key);
        assert w[1..] == Without(rest, key);
        forall j | 0 < j < |w| ensures w[0].key != w[j].key {
          assert w[j] in rest;
        }
      }
    }
  }

  lemma WithoutFacts(slots: seq<Slot>, key: string)
    requires Distinct(slots)
    ensures Total(Without(slots, key)) ==
      Total(slots) - if Find(slots, key).Some? then Find(slots, key).value.weight else 0
    ensures |Without(slots, key)| == |slots| - if Find(slots, key).Some? then 1 else 0
    ensures Find(slots, key).Some? <==> exists i :: 0 <= i < |slots| && slots[i].key == key
    ensures Find(slots, key).Some? ==> Find(slots, key).value in slots && Find(slots, key).value.key == key
    ensures forall s :: s in Without(slots, key) <==> s in slots && s.key != key
    ensures Distinct(Without(slots, key))
  {
    hide Total, Find, Without, Distinct;
    FindFacts(slots, key);
    WithoutMembers(slots, key);
  }

  lemma TailInOrder(slots: seq<Slot>, used: map<string, nat>)
    requires slots != [] && InOrderOfUse(slots, used)
    ensures InOrderOfUse(slots[1..], used) && slots[0].key in used
    ensures forall s | s in slots[1..] :: s.key in used && used[slots[0].key] < used[s.key]
  {
  }

  lemma ConsInOrder(slot: Slot, rest: seq<Slot>, used: map<string, nat>)
    requires InOrderOfUse(rest, used) && slot.key in used
    requires forall s | s in rest :: s.key in used && used[slot.key] < used[s.key]
    ensures InOrderOfUse([slot] + rest, used)
  {
    assert forall i | 0 <= i < |rest| :: rest[i] in rest;
  }

  lemma {:induction false} WithoutKeepsOrder(slots: seq<Slot>, key: string, used: map<string, nat>)
    requires InOrderOfUse(slots, used)
    ensures InOrderOfUse(Without(slots, key), used)
    ensures forall s | s in Without(slots, key) :: s in slots
  {
    hide InOrderOfUse;
    if slots != [] {
      TailInOrder(slots, used);
      if slots[0].key != key {
        WithoutKeepsOrder(slots[1..], key, used);
        ConsInOrder(slots[0], Without(slots[1..], key), used);
      }
    }
  }

  lemma TotalOfOne(slot: Slot)
    ensures Total([slot]) == slot.weight
  {
  }

  /** A key that is used now goes behind the others, which keep their order. */
  lemma UsedNow(slots: seq<Slot>, slot: Slot, used: map<string, nat>, clock: nat)
    requires Distinct(slots) && InOrderOfUse(slots, used)
    requires forall k | k in used :: used[k] < clock
    ensures
      var rest := Without(slots, slot.key);
      && Distinct(rest + [slot]) && InOrderOfUse(rest + [slot], used[slot.key := clock])
      && Total(rest + [slot]) == Total(rest) + slot.weight
  {
    hide Total, Find, Without;
    WithoutFacts(slots, slot.key);
    WithoutKeepsOrder(slots, slot.key, used);
    TotalOfOne(slot);
    var rest := Without(slots, slot.key);
    TotalConcat(rest, [slot]);
    assert forall i | 0 <= i < |rest| :: rest[i] in rest && rest[i].key != slot.key;
  }

  /** What an eviction leaves is as well kept as before it. */
  lemma EvictionKeeps(
    slots: seq<Slot>, kept: seq<Slot>, maxBytes: nat, maxEntries: Option<nat>, used: map<string, nat>,
    lastSet: map<string, Value>)
    requires LeastDropped(slots, kept, maxBytes, maxEntries)
    requires Distinct(slots) && InOrderOfUse(slots, used) && Faithful(slots, lastSet)
    ensures Distinct(kept) && InOrderOfUse(kept, used) && Faithful(kept, lastSet) && Fits(kept, maxBytes, maxEntries)
  {
    hide Fits, Weight;
    assert forall s | s in kept :: s in slots;
  }

  /** An eviction never reaches an entry that fits on its own, so the one just added stays. */
  lemma NewestIsKept(slots: seq<Slot>, kept: seq<Slot>, maxBytes: nat, maxEntries: Option<nat>)
    requires slots != [] && LeastDropped(slots, kept, maxBytes, maxEntries)
    requires slots[|slots| - 1].weight <= maxBytes && maxEntries != Some(0)
    ensures kept != [] && kept[|kept| - 1] == slots[|slots| - 1]
  {
    var newest := slots[|slots| - 1..];
    assert newest == [slots[|slots| - 1]];
    assert Total(newest) == newest[0].weight + Total(newest[1..]);
  }

  /** Whatever is dropped was used longer ago than whatever is kept. */
  lemma DroppedAreOldest(
    slots: seq<Slot>, kept: seq<Slot>, maxBytes: nat, maxEntries: Option<nat>, used: map<string, nat>, d: Slot, k: Slot)
    requires InOrderOfUse(slots, used) && LeastDropped(slots, kept, maxBytes, maxEntries)
    requires d in slots && d !in kept && k in kept
    ensures d.key in used && k.key in used && used[d.key] < used[k.key]
  {
    var n := |slots| - |kept|;
    hide Fits;
    var i :| 0 <= i < |slots| && slots[i] == d;
    var j :| 0 <= j < |kept| && kept[j] == k;
    assert forall m | n <= m < |slots| :: slots[m] == kept[m - n];
    assert i < n;
    assert kept[j] == slots[n + j];
  }

  lemma FoundIsAtKey(slots: seq<Slot>, key: string)
    requires Distinct(slots)
    ensures forall i, j | 0 <= i < |slots| && 0 <= j < |slots| && slots[i].key == slots[j].key :: i == j
  {
  }

  lemma FaithfulConcat(slots: seq<Slot>, slot: Slot, lastSet: map<string, Value>)
    requires Faithful(slots, lastSet) && Faithful([slot], lastSet)
    ensures Faithful(slots + [slot], lastSet)
  {
    assert slot in [slot];
  }

  lemma {:induction false} NothingToForget(slots: seq<Slot>, key: string)
    requires forall s | s in slots :: s.key != key
    ensures Without(slots, key) == slots
  {
    if slots != [] {
      assert slots[0] in slots;
      NothingToForget(slots[1..], key);
    }
  }

  class RevisionCache {
    var slots: seq<Slot>
    var retainedBytes: int
    const maxBytes: nat
    const maxEntries: Option<nat>
    /** The value last set under each key, and the time of each key's last use. */
    ghost var lastSet: map<string, Value>
    ghost var used: map<string, nat>
    ghost var clock: nat

    ghost predicate Valid()
      reads this
    {
      && Distinct(slots) && InOrderOfUse(slots, used)
      && retainedBytes == Total(slots) && Fits(slots, maxBytes, maxEntries)
      && Faithful(slots, lastSet)
      && (forall k | k in used :: used[k] < clock)
    }

    constructor (bytes: nat, count: Option<nat>)
      ensures Valid() && slots == [] && maxBytes == bytes && maxEntries == count
    {
      slots, retainedBytes, maxBytes, maxEntries := [], 0, bytes, count;
      lastSet, used, clock := map[], map[], 0;
    }

    /** A hit is the value last set under the key, and makes it the newest entry. */
    method GetEntry(key: string) returns (value: Option<Value>)
      requires Valid()
      modifies this
      ensures Valid() && lastSet == old(lastSet) && retainedBytes == old(retainedBytes)
      ensures value.Some? <==> exists i :: 0 <= i < |old(slots)| && old(slots)[i].key == key
      ensures value.Some? ==> key in lastSet && value.value == lastSet[key]
      ensures value.Some? ==> slots == Without(old(slots), key) + [Slot(key, value.value, Weight(key, value.value))]
      ensures value.None? ==> slots == old(slots) && used == old(used)
    {
      hide Total, Without, Find, Distinct, InOrderOfUse, Weight;
      WithoutFacts(slots, key);
      var entry := Find(slots, key);
      if entry.None? {
        return None;
      }
      UsedNow(slots, entry.value, used, clock);
      slots := Without(slots, key) + [entry.value];
      used := used[key := clock];
      clock := clock + 1;
      return Some(entry.value.value);
    }

    /** An entry that can never fit is not kept, and neither is what it replaces. */
    method SetEntry(key: string, value: Value)
      requires Valid()
      modifies this
      ensures Valid() && lastSet == old(lastSet)[key := value]
      ensures slots != [] && slots[|slots| - 1].key == key && value.CachedFile? ==>
        slots[|slots| - 1].weight == 64 + 2 * |key| + |value.content|
      ensures var kept := Without(old(slots), key);
        if maxBytes == 0 || Weight(key, value) > maxBytes || maxEntries == Some(0) then slots == kept
        else
          && LeastDropped(kept + [Slot(key, value, Weight(key, value))], slots, maxBytes, maxEntries)
          && slots != [] && slots[|slots| - 1].key == key && slots[|slots| - 1].value == value
    {
      assert value.CachedFile? ==> Weight(key, value) == 64 + 2 * |key| + |value.content|;
      hide Total, Without, Distinct, InOrderOfUse, LeastDropped, Fits, Weight;
      Forget(key);
      lastSet := lastSet[key := value];
      var slot := Slot(key, value, Weight(key, value));
      if maxBytes == 0 || slot.weight > maxBytes || maxEntries == Some(0) {
        return;
      }
      Insert(slot);
    }

    method Forget(key: string)
      requires Valid()
      modifies `slots, `retainedBytes
      ensures Valid() && slots == Without(old(slots), key) && forall s | s in slots :: s.key != key
    {
      WithoutFacts(slots, key);
      WithoutAbsent(slots, key);
      WithoutKeepsOrder(slots, key, used);
      hide Total, Without, Find, Distinct, InOrderOfUse, Weight;
      var previous := Find(slots, key);
      if previous.Some? {
        slots := Without(slots, key);
        retainedBytes := retainedBytes - previous.value.weight;
      }
    }

    method Insert(slot: Slot)
      requires Valid() && Faithful([slot], lastSet) && forall s | s in slots :: s.key != slot.key
      requires slot.weight <= maxBytes && maxEntries != Some(0)
      modifies `slots, `retainedBytes, `used, `clock
      ensures Valid() && LeastDropped(old(slots) + [slot], slots, maxBytes, maxEntries)
      ensures slots != [] && slots[|slots| - 1] == slot
    {
      hide Total, Without, Find, Distinct, InOrderOfUse, Weight, Faithful, LeastDropped, Fits;
      NothingToForget(slots, slot.key);
      UsedNow(slots, slot, used, clock);
      FaithfulConcat(slots, slot, lastSet);
      slots := slots + [slot];
      retainedBytes := retainedBytes + slot.weight;
      used := used[slot.key := clock];
      clock := clock + 1;
      ghost var full := slots;
      EvictToBudget();
      NewestIsKept(full, slots, maxBytes, maxEntries);
      EvictionKeeps(full, slots, maxBytes, maxEntries, used, lastSet);
    }

    /** Ends with the fewest evictions, the oldest entries first. */
    method EvictToBudget()
      requires retainedBytes == Total(slots)
      modifies `slots, `retainedBytes
      ensures retainedBytes == Total(slots)
      ensures LeastDropped(old(slots), slots, maxBytes, maxEntries)
    {
      while retainedBytes > maxBytes || (maxEntries.Some? && |slots| > maxEntries.value)
        invariant retainedBytes == Total(slots)
        invariant |slots| <= |old(slots)| && slots == old(slots)[|old(slots)| - |slots|..]
        invariant |slots| < |old(slots)| ==> !Fits(old(slots)[|old(slots)| - |slots| - 1..], maxBytes, maxEntries)
        decreases |slots|
      {
        var oldest := slots[0];
        slots := slots[1..];
        retainedBytes := retainedBytes - oldest.weight;
      }
    }

    method Clear()
      modifies this
      ensures Valid() && slots == [] && lastSet == old(lastSet)
    {
      slots, retainedBytes := [], 0;
      used, clock := map[], 0;
    }

    /** Both kinds of read share the key, and either of them counts as a use. */
    method GetFile(revision: string, path: string) returns (content: Option<Bytes>)
      requires Valid()
      modifies this
      ensures Valid() && lastSet == old(lastSet)
      ensures content.Some? ==>
        Key(revision, path) in lastSet && lastSet[Key(revision, path)] == CachedFile(content.value)
      ensures content.Some? <==>
        exists i :: 0 <= i < |old(slots)| && old(slots)[i].key == Key(revision, path) && old(slots)[i].value.CachedFile?
    {
      FoundIsAtKey(slots, Key(revision, path));
      var entry := GetEntry(Key(revision, path));
      return if entry.Some? && entry.value.CachedFile? then Some(entry.value.content) else None;
    }
  }

  lemma {:induction false} WithoutAbsent(slots: seq<Slot>, key: string)
    ensures Find(slots, key).None? ==> Without(slots, key) == slots
  {
    if slots != [] && slots[0].key != key {
      WithoutAbsent(slots[1..], key);
    }
  }
}
