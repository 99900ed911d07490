/** The descriptor cache: at most eight parsed descriptors keyed by USB device
    address and interface number, stamped by a logical clock so that the least
    recently used entry is the one evicted. */
module DescriptorCache {
  import opened Common
  import opened Descriptor

  /** Capacity of the cache. */
  const MaxCachedDevices: nat := 8

  /** One cached device. Timestamps are unbounded here (see README). */
  datatype CachedDescriptor = CachedDescriptor(
    deviceAddress: u8,
    interfaceNum: u8,
    descriptor: HidDescriptor,
    rawDescriptor: seq<u8>,
    timestamp: nat)

  /** Device counts by class; a device may count as several classes. */
  datatype CacheStats = CacheStats(totalDevices: nat, keyboards: nat, mice: nat, gamepads: nat, other: nat)

  /** The cache's fields as a value. */
  datatype CacheState = CacheState(entries: seq<CachedDescriptor>, currentTime: nat)

  predicate HasKey(e: CachedDescriptor, deviceAddress: u8, interfaceNum: u8) {
    e.deviceAddress == deviceAddress && e.interfaceNum == interfaceNum
  }

  /** The index of the first entry for the key, or |entries| if there is none. */
  function FindKey(entries: seq<CachedDescriptor>, deviceAddress: u8, interfaceNum: u8): (k: nat)
    ensures k <= |entries|
    ensures k < |entries| ==> HasKey(entries[k], deviceAddress, interfaceNum)
    ensures forall j | 0 <= j < k :: !HasKey(entries[j], deviceAddress, interfaceNum)
  {
    if |entries| == 0 then 0
    else if HasKey(entries[0], deviceAddress, interfaceNum) then 0
    else 1 + FindKey(entries[1..], deviceAddress, interfaceNum)
  }

  /** The descriptor cached for the key, if any. */
  function Lookup(entries: seq<CachedDescriptor>, deviceAddress: u8, interfaceNum: u8): (r: Option<HidDescriptor>)
    ensures r.None? <==> forall j | 0 <= j < |entries| :: !HasKey(entries[j], deviceAddress, interfaceNum)
    ensures r.Some? ==> exists j | 0 <= j < |entries| :: HasKey(entries[j], deviceAddress, interfaceNum) && entries[j].descriptor == r.value
  {
    var k := FindKey(entries, deviceAddress, interfaceNum);
    if k < |entries| then Some(entries[k].descriptor) else None
  }

  /** The raw copy `add` keeps: the first 1024 bytes. */
  function RawCopy(raw: seq<u8>): (r: seq<u8>)
    ensures |r| == Min(|raw|, MaxDescriptorSize) && |r| <= MaxDescriptorSize
    ensures r == raw[..|r|]
  {
    raw[..Min(|raw|, MaxDescriptorSize)]
  }

  /** `min_by_key` on the timestamps: the index of the first entry with the
      smallest timestamp. */
  function OldestIndex(entries: seq<CachedDescriptor>): (k: nat)
    requires |entries| > 0
    ensures k < |entries|
    ensures forall j | 0 <= j < |entries| :: entries[k].timestamp <= entries[j].timestamp
    ensures forall j | 0 <= j < k :: entries[j].timestamp > entries[k].timestamp
  {
    if |entries| == 1 then 0
    else
      var m := OldestIndex(entries[..|entries| - 1]);
      assert entries[..|entries| - 1][m] == entries[m];
      if entries[|entries| - 1].timestamp < entries[m].timestamp then |entries| - 1 else m
  }

  /** The oldest of one more entry: the new one when it is strictly older,
      the earlier pick otherwise. */
  lemma OldestStep(entries: seq<CachedDescriptor>, j: nat)
    requires 0 < j < |entries|
    ensures var m := OldestIndex(entries[..j]);
      OldestIndex(entries[..j + 1]) == if entries[j].timestamp < entries[m].timestamp then j else m
  {
    assert entries[..j + 1][..j] == entries[..j];
  }

  /** `Vec::remove(k)`: the entries without the k-th, order kept. */
  function RemoveAt(entries: seq<CachedDescriptor>, k: nat): (r: seq<CachedDescriptor>)
    requires k < |entries|
    ensures |r| == |entries| - 1
    ensures forall j | 0 <= j < |r| :: r[j] == if j < k then entries[j] else entries[j + 1]
  {
    entries[..k] + entries[k + 1..]
  }

  /** No two entries share a key. */
  predicate UniqueKeys(es: seq<CachedDescriptor>) {
    forall a, b | 0 <= a < b < |es| :: !HasKey(es[b], es[a].deviceAddress, es[a].interfaceNum)
  }

  /** The cache invariant: at most 8 entries, no key twice, pairwise distinct
      timestamps none of which is ahead of the clock, raw copies of at most 1024
      bytes. */
  predicate EntriesValid(st: CacheState) {
    var es := st.entries;
    && |es| <= MaxCachedDevices
    && UniqueKeys(es)
    && (forall a, b | 0 <= a < b < |es| :: es[a].timestamp != es[b].timestamp)
    && (forall j | 0 <= j < |es| :: es[j].timestamp <= st.currentTime && |es[j].rawDescriptor| <= MaxDescriptorSize)
  }

  /** `add`: parse first (an error leaves everything unchanged), then store. */
  function Added(st: CacheState, deviceAddress: u8, interfaceNum: u8, raw: seq<u8>): (r: Result<CacheState, ParseError>)
    ensures ParseDescriptor(raw).Err? ==> r == Err(ParseDescriptor(raw).error)
    ensures r.Ok? ==> ParseDescriptor(raw).Ok? && r.value.currentTime == st.currentTime + 1
  {
    match ParseDescriptor(raw)
    case Err(e) => Err(e)
    case Ok(d) => Inserted(st, deviceAddress, interfaceNum, d, RawCopy(raw))
  }

  /** The storing half of `add`: tick the clock; an existing key is updated in
      place, a new key is appended after evicting the least recently used entry
      of a full cache. A push that still finds no room fails with InvalidData. */
  function Inserted(st: CacheState, deviceAddress: u8, interfaceNum: u8, d: HidDescriptor, raw: seq<u8>): (r: Result<CacheState, ParseError>)
    ensures r.Err? <==> FindKey(st.entries, deviceAddress, interfaceNum) == |st.entries| && |st.entries| > MaxCachedDevices
    ensures r.Err? ==> r.error == InvalidData
    ensures r.Ok? ==> r.value.currentTime == st.currentTime + 1
    ensures r.Ok? ==> |r.value.entries| == |st.entries| || |r.value.entries| <= MaxCachedDevices
  {
    var t := st.currentTime + 1;
    var k := FindKey(st.entries, deviceAddress, interfaceNum);
    if k < |st.entries| then
      Ok(CacheState(st.entries[k := st.entries[k].(descriptor := d, rawDescriptor := raw, timestamp := t)], t))
    else
      var kept := if |st.entries| >= MaxCachedDevices then RemoveAt(st.entries, OldestIndex(st.entries)) else st.entries;
      if |kept| >= MaxCachedDevices then Err(InvalidData)
      else Ok(CacheState(kept + [CachedDescriptor(deviceAddress, interfaceNum, d, raw, t)], t))
  }

  /** The state effect of `get`: the clock ticks, and a hit restamps that entry. */
  function Touched(st: CacheState, deviceAddress: u8, interfaceNum: u8): (r: CacheState)
    ensures r.currentTime == st.currentTime + 1 && |r.entries| == |st.entries|
    ensures forall j | 0 <= j < |st.entries| :: r.entries[j] == st.entries[j].(timestamp := r.entries[j].timestamp)
    ensures var k := FindKey(st.entries, deviceAddress, interfaceNum);
      && (k < |st.entries| ==> r.entries[k].timestamp == r.currentTime)
      && (forall j | 0 <= j < |st.entries| && j != k :: r.entries[j] == st.entries[j])
  {
    var t := st.currentTime + 1;
    var k := FindKey(st.entries, deviceAddress, interfaceNum);
    if k < |st.entries| then CacheState(st.entries[k := st.entries[k].(timestamp := t)], t)
    else CacheState(st.entries, t)
  }

  /** The number of entries whose descriptor satisfies `p`. */
  function CountWhere(entries: seq<CachedDescriptor>, p: HidDescriptor -> bool): (n: nat)
    ensures n <= |entries|
  {
    if |entries| == 0 then 0
    else CountWhere(entries[..|entries| - 1], p) + (if p(entries[|entries| - 1].descriptor) then 1 else 0)
  }

  predicate KeyboardDevice(d: HidDescriptor) { d.isKeyboard }

  predicate MouseDevice(d: HidDescriptor) { d.isMouse }

  predicate GamepadDevice(d: HidDescriptor) { d.isGamepad }

  predicate AnyClass(d: HidDescriptor) { d.isKeyboard || d.isMouse || d.isGamepad }

  predicate Unclassified(d: HidDescriptor) {
    !d.isKeyboard && !d.isMouse && !d.isGamepad
  }

  /** `get_stats`. */
  function Stats(entries: seq<CachedDescriptor>): (r: CacheStats)
    ensures r.totalDevices == |entries|
    ensures r.keyboards <= |entries| && r.mice <= |entries| && r.gamepads <= |entries| && r.other <= |entries|
  {
    CacheStats(|entries|,
               CountWhere(entries, KeyboardDevice),
               CountWhere(entries, MouseDevice),
               CountWhere(entries, GamepadDevice),
               CountWhere(entries, Unclassified))
  }

  // ---------------------------------------------------------------------------
  // Properties of the specification

  /** A failed parse makes `add` fail with the parse error; no other failure
      happens on a valid cache (the push after eviction always has room). */
  lemma AddedFailsOnlyOnParseError(st: CacheState, deviceAddress: u8, interfaceNum: u8, raw: seq<u8>)
    requires EntriesValid(st)
    ensures Added(st, deviceAddress, interfaceNum, raw).Err? <==> ParseDescriptor(raw).Err?
    ensures ParseDescriptor(raw).Err? ==> Added(st, deviceAddress, interfaceNum, raw).error == ParseDescriptor(raw).error
  {
  }

  /** Replacing entry k by one with the same key and a stamp ahead of the clock
      keeps the invariant. */
  lemma UpdatedValid(st: CacheState, k: nat, e: CachedDescriptor)
    requires EntriesValid(st) && k < |st.entries|
    requires HasKey(e, st.entries[k].deviceAddress, st.entries[k].interfaceNum)
    requires e.timestamp == st.currentTime + 1 && |e.rawDescriptor| <= MaxDescriptorSize
    ensures EntriesValid(CacheState(st.entries[k := e], e.timestamp))
  {
  }

  /** Removing an entry keeps the invariant. */
  lemma RemovedValid(st: CacheState, k: nat)
    requires EntriesValid(st) && k < |st.entries|
    ensures EntriesValid(CacheState(RemoveAt(st.entries, k), st.currentTime))
  {
    var r := RemoveAt(st.entries, k);
    forall a, b | 0 <= a < b < |r|
      ensures !HasKey(r[b], r[a].deviceAddress, r[a].interfaceNum) && r[a].timestamp != r[b].timestamp
    {
      var a' := if a < k then a else a + 1;
      var b' := if b < k then b else b + 1;
      assert r[a] == st.entries[a'] && r[b] == st.entries[b'];
    }
  }

  /** Appending an entry with an absent key and a stamp ahead of the clock to a
      cache with room keeps the invariant. */
  lemma AppendedValid(st: CacheState, e: CachedDescriptor)
    requires EntriesValid(st) && |st.entries| < MaxCachedDevices
    requires forall j | 0 <= j < |st.entries| :: !HasKey(st.entries[j], e.deviceAddress, e.interfaceNum)
    requires e.timestamp == st.currentTime + 1 && |e.rawDescriptor| <= MaxDescriptorSize
    ensures EntriesValid(CacheState(st.entries + [e], e.timestamp))
  {
  }

  /** Storing keeps the cache invariant: keys stay unique because the lookup
      comes before the insertion, and the new stamp is ahead of every older one.
      On a valid cache storing never fails. */
  lemma InsertedValid(st: CacheState, deviceAddress: u8, interfaceNum: u8, d: HidDescriptor, raw: seq<u8>)
    requires EntriesValid(st) && |raw| <= MaxDescriptorSize
    ensures Inserted(st, deviceAddress, interfaceNum, d, raw).Ok?
    ensures EntriesValid(Inserted(st, deviceAddress, interfaceNum, d, raw).value)
  {
    var es := st.entries;
    var t := st.currentTime + 1;
    var k := FindKey(es, deviceAddress, interfaceNum);
    var e := CachedDescriptor(deviceAddress, interfaceNum, d, raw, t);
    var r := Inserted(st, deviceAddress, interfaceNum, d, raw);
    if k < |es| {
      var u := es[k].(descriptor := d, rawDescriptor := raw, timestamp := t);
      UpdatedValid(st, k, u);
      assert r == Ok(CacheState(es[k := u], t));
    } else if |es| >= MaxCachedDevices {
      var v := OldestIndex(es);
      var kept := RemoveAt(es, v);
      RemovedValid(st, v);
      RemovedAbsent(es, v, deviceAddress, interfaceNum);
      AppendedValid(CacheState(kept, st.currentTime), e);
      assert r == Ok(CacheState(kept + [e], t));
    } else {
      AppendedValid(st, e);
      assert r == Ok(CacheState(es + [e], t));
    }
  }

  /** A key absent from the entries stays absent once one is removed. */
  lemma RemovedAbsent(es: seq<CachedDescriptor>, v: nat, deviceAddress: u8, interfaceNum: u8)
    requires v < |es| && forall j | 0 <= j < |es| :: !HasKey(es[j], deviceAddress, interfaceNum)
    ensures forall j | 0 <= j < |RemoveAt(es, v)| :: !HasKey(RemoveAt(es, v)[j], deviceAddress, interfaceNum)
  {
  }

  /** `add` keeps the cache invariant. */
  lemma AddedValid(st: CacheState, deviceAddress: u8, interfaceNum: u8, raw: seq<u8>)
    requires EntriesValid(st)
    requires Added(st, deviceAddress, interfaceNum, raw).Ok?
    ensures EntriesValid(Added(st, deviceAddress, interfaceNum, raw).value)
  {
    InsertedValid(st, deviceAddress, interfaceNum, ParseDescriptor(raw).value, RawCopy(raw));
  }

  /** Storing under a cached key overwrites that entry's descriptor, raw bytes
      and timestamp in place; the length and every other entry are unchanged. */
  lemma InsertedExistingKey(st: CacheState, deviceAddress: u8, interfaceNum: u8, d: HidDescriptor, raw: seq<u8>)
    requires FindKey(st.entries, deviceAddress, interfaceNum) < |st.entries|
    ensures Inserted(st, deviceAddress, interfaceNum, d, raw).Ok?
    ensures var k := FindKey(st.entries, deviceAddress, interfaceNum);
      var r := Inserted(st, deviceAddress, interfaceNum, d, raw).value;
      && |r.entries| == |st.entries|
      && r.currentTime == st.currentTime + 1
      && r.entries[k] == CachedDescriptor(deviceAddress, interfaceNum, d, raw, r.currentTime)
      && (forall j | 0 <= j < |st.entries| && j != k :: r.entries[j] == st.entries[j])
  {
  }

  /** Storing a new key appends its entry; a cache of 8 first loses exactly its
      entry with the smallest timestamp, so the length never exceeds 8. */
  lemma InsertedNewKey(st: CacheState, deviceAddress: u8, interfaceNum: u8, d: HidDescriptor, raw: seq<u8>)
    requires EntriesValid(st)
    requires FindKey(st.entries, deviceAddress, interfaceNum) == |st.entries|
    ensures Inserted(st, deviceAddress, interfaceNum, d, raw).Ok?
    ensures var r := Inserted(st, deviceAddress, interfaceNum, d, raw).value;
      var entry := CachedDescriptor(deviceAddress, interfaceNum, d, raw, st.currentTime + 1);
      && r.currentTime == st.currentTime + 1
      && |r.entries| == Min(|st.entries| + 1, MaxCachedDevices)
      && (|st.entries| < MaxCachedDevices ==> r.entries == st.entries + [entry])
      && (|st.entries| == MaxCachedDevices ==>
            exists v | 0 <= v < |st.entries| ::
              && (forall j | 0 <= j < |st.entries| :: st.entries[v].timestamp <= st.entries[j].timestamp)
              && r.entries == RemoveAt(st.entries, v) + [entry])
  {
    if |st.entries| == MaxCachedDevices {
      var v := OldestIndex(st.entries);
      assert Inserted(st, deviceAddress, interfaceNum, d, raw).value.entries == RemoveAt(st.entries, v)
        + [CachedDescriptor(deviceAddress, interfaceNum, d, raw, st.currentTime + 1)];
    }
  }

  /** With unique keys, the entry holding a key is the one found. */
  lemma LookupAt(es: seq<CachedDescriptor>, j: nat)
    requires UniqueKeys(es)
    requires j < |es|
    ensures FindKey(es, es[j].deviceAddress, es[j].interfaceNum) == j
    ensures Lookup(es, es[j].deviceAddress, es[j].interfaceNum) == Some(es[j].descriptor)
  {
  }

  /** Looking up the key just added yields the descriptor just parsed. */
  lemma AddedThenLookup(st: CacheState, deviceAddress: u8, interfaceNum: u8, raw: seq<u8>)
    requires EntriesValid(st)
    requires ParseDescriptor(raw).Ok?
    ensures Added(st, deviceAddress, interfaceNum, raw).Ok?
    ensures Lookup(Added(st, deviceAddress, interfaceNum, raw).value.entries, deviceAddress, interfaceNum)
      == Some(ParseDescriptor(raw).value)
  {
    var d := ParseDescriptor(raw).value;
    InsertedValid(st, deviceAddress, interfaceNum, d, RawCopy(raw));
    var r := Inserted(st, deviceAddress, interfaceNum, d, RawCopy(raw)).value.entries;
    var k := FindKey(st.entries, deviceAddress, interfaceNum);
    LookupAt(r, if k < |st.entries| then k else |r| - 1);
  }

  /** Replacing an entry by one with the same key leaves other keys' lookups. */
  lemma LookupAfterUpdate(es: seq<CachedDescriptor>, k: nat, e: CachedDescriptor, a: u8, i: u8)
    requires k < |es| && HasKey(e, es[k].deviceAddress, es[k].interfaceNum) && !HasKey(e, a, i)
    ensures Lookup(es[k := e], a, i) == Lookup(es, a, i)
  {
    var r := es[k := e];
    assert forall j | 0 <= j < |es| :: HasKey(r[j], a, i) == HasKey(es[j], a, i);
    var q := FindKey(es, a, i);
    var n := FindKey(r, a, i);
    assert n <= q && q <= n;
  }

  /** Appending an entry with another key leaves a lookup unchanged. */
  lemma LookupAfterAppend(es: seq<CachedDescriptor>, e: CachedDescriptor, a: u8, i: u8)
    requires !HasKey(e, a, i)
    ensures Lookup(es + [e], a, i) == Lookup(es, a, i)
  {
    var r := es + [e];
    var q := FindKey(es, a, i);
    var n := FindKey(r, a, i);
    assert forall j | 0 <= j < |es| :: r[j] == es[j];
    assert q < |es| ==> n == q;
    assert q == |es| ==> n == |r|;
  }

  /** With unique keys, removing an entry loses at most that entry's key. */
  lemma LookupAfterRemove(es: seq<CachedDescriptor>, v: nat, a: u8, i: u8)
    requires UniqueKeys(es) && v < |es|
    ensures !HasKey(es[v], a, i) ==> Lookup(RemoveAt(es, v), a, i) == Lookup(es, a, i)
    ensures Lookup(RemoveAt(es, v), es[v].deviceAddress, es[v].interfaceNum).None?
  {
    var r := RemoveAt(es, v);
    forall j | 0 <= j < |r|
      ensures !HasKey(r[j], es[v].deviceAddress, es[v].interfaceNum)
    {
      assert r[j] == es[if j < v then j else j + 1];
    }
    var q := FindKey(es, a, i);
    if q < |es| && q != v {
      var at := if q < v then q else q - 1;
      assert r[at] == es[q];
      forall x, y | 0 <= x < y < |r|
        ensures !HasKey(r[y], r[x].deviceAddress, r[x].interfaceNum)
      {
        assert r[x] == es[if x < v then x else x + 1] && r[y] == es[if y < v then y else y + 1];
      }
      LookupAt(r, at);
    }
  }

  /** Storing one key leaves the lookup of every other key as it was, unless
      that key's entry was the one evicted (a new key in a full cache evicts the
      entry with the oldest stamp), in which case it is gone. */
  lemma InsertedKeepsOtherKeys(st: CacheState, deviceAddress: u8, interfaceNum: u8, d: HidDescriptor, raw: seq<u8>, otherAddress: u8, otherInterface: u8)
    requires EntriesValid(st) && |raw| <= MaxDescriptorSize
    requires otherAddress != deviceAddress || otherInterface != interfaceNum
    ensures Inserted(st, deviceAddress, interfaceNum, d, raw).Ok?
    ensures |st.entries| < MaxCachedDevices || FindKey(st.entries, deviceAddress, interfaceNum) < |st.entries| ==>
      Lookup(Inserted(st, deviceAddress, interfaceNum, d, raw).value.entries, otherAddress, otherInterface)
        == Lookup(st.entries, otherAddress, otherInterface)
    ensures |st.entries| == MaxCachedDevices && FindKey(st.entries, deviceAddress, interfaceNum) == |st.entries| ==>
      var evicted := st.entries[OldestIndex(st.entries)];
      var after := Lookup(Inserted(st, deviceAddress, interfaceNum, d, raw).value.entries, otherAddress, otherInterface);
      && (HasKey(evicted, otherAddress, otherInterface) ==> after.None?)
      && (!HasKey(evicted, otherAddress, otherInterface) ==> after == Lookup(st.entries, otherAddress, otherInterface))
  {
    InsertedValid(st, deviceAddress, interfaceNum, d, raw);
    var es := st.entries;
    var t := st.currentTime + 1;
    var k := FindKey(es, deviceAddress, interfaceNum);
    var e := CachedDescriptor(deviceAddress, interfaceNum, d, raw, t);
    if k < |es| {
      LookupAfterUpdate(es, k, es[k].(descriptor := d, rawDescriptor := raw, timestamp := t), otherAddress, otherInterface);
    } else if |es| >= MaxCachedDevices {
      var v := OldestIndex(es);
      LookupAfterRemove(es, v, otherAddress, otherInterface);
      LookupAfterAppend(RemoveAt(es, v), e, otherAddress, otherInterface);
    } else {
      LookupAfterAppend(es, e, otherAddress, otherInterface);
    }
  }

  /** `get` ticks the clock, restamps only the entry it finds, keeps the cache
      invariant and changes no lookup. */
  lemma TouchedValid(st: CacheState, deviceAddress: u8, interfaceNum: u8, otherAddress: u8, otherInterface: u8)
    requires EntriesValid(st)
    ensures EntriesValid(Touched(st, deviceAddress, interfaceNum))
    ensures Touched(st, deviceAddress, interfaceNum).currentTime == st.currentTime + 1
    ensures |Touched(st, deviceAddress, interfaceNum).entries| == |st.entries|
    ensures Lookup(Touched(st, deviceAddress, interfaceNum).entries, otherAddress, otherInterface)
      == Lookup(st.entries, otherAddress, otherInterface)
  {
    var es := st.entries;
    var k := FindKey(es, deviceAddress, interfaceNum);
    if k < |es| {
      UpdatedValid(st, k, es[k].(timestamp := st.currentTime + 1));
    }
    var r := Touched(st, deviceAddress, interfaceNum).entries;
    var q := FindKey(es, otherAddress, otherInterface);
    if q < |es| {
      LookupAt(r, q);
    }
  }

  /** The entry a `get` has just found carries the newest stamp, so in a
      cache of two or more it is not the one evicted next. */
  lemma TouchedNotOldest(st: CacheState, deviceAddress: u8, interfaceNum: u8)
    requires EntriesValid(st)
    requires FindKey(st.entries, deviceAddress, interfaceNum) < |st.entries| && |st.entries| >= 2
    ensures OldestIndex(Touched(st, deviceAddress, interfaceNum).entries) != FindKey(st.entries, deviceAddress, interfaceNum)
  {
    var k := FindKey(st.entries, deviceAddress, interfaceNum);
    var r := Touched(st, deviceAddress, interfaceNum);
    var other := if k == 0 then 1 else 0;
    assert r.entries[other].timestamp < r.entries[k].timestamp;
  }

  /** Least recently used, not first in: after a `get` hit in a full cache,
      adding a new key evicts some other entry and the key just read is still
      found. */
  lemma GetKeepsEntryOnEviction(st: CacheState, deviceAddress: u8, interfaceNum: u8, newAddress: u8, newInterface: u8, d: HidDescriptor, raw: seq<u8>)
    requires EntriesValid(st) && |st.entries| == MaxCachedDevices && |raw| <= MaxDescriptorSize
    requires Lookup(st.entries, deviceAddress, interfaceNum).Some?
    requires Lookup(st.entries, newAddress, newInterface).None?
    ensures Inserted(Touched(st, deviceAddress, interfaceNum), newAddress, newInterface, d, raw).Ok?
    ensures Lookup(Inserted(Touched(st, deviceAddress, interfaceNum), newAddress, newInterface, d, raw).value.entries, deviceAddress, interfaceNum)
      == Lookup(st.entries, deviceAddress, interfaceNum)
  {
    var k := FindKey(st.entries, deviceAddress, interfaceNum);
    var t := Touched(st, deviceAddress, interfaceNum);
    TouchedValid(st, deviceAddress, interfaceNum, deviceAddress, interfaceNum);
    TouchedValid(st, deviceAddress, interfaceNum, newAddress, newInterface);
    TouchedNotOldest(st, deviceAddress, interfaceNum);
    var v := OldestIndex(t.entries);
    assert HasKey(t.entries[k], deviceAddress, interfaceNum);
    assert !HasKey(t.entries[v], deviceAddress, interfaceNum) by {
      if v < k {
        assert !HasKey(t.entries[k], t.entries[v].deviceAddress, t.entries[v].interfaceNum);
      } else {
        assert !HasKey(t.entries[v], t.entries[k].deviceAddress, t.entries[k].interfaceNum);
      }
    }
    assert FindKey(t.entries, newAddress, newInterface) == |t.entries|;
    InsertedKeepsOtherKeys(t, newAddress, newInterface, d, raw, deviceAddress, interfaceNum);
  }

  /** Counting over one more entry. */
  lemma CountWhereBounds(entries: seq<CachedDescriptor>)
    ensures CountWhere(entries, Unclassified) + CountWhere(entries, AnyClass)
      == |entries|
  {
    if |entries| > 0 {
      CountWhereBounds(entries[..|entries| - 1]);
    }
  }

  /** `other` is exactly the number of entries with none of the three flags, so
      `other` plus the flagged entries make the total. */
  lemma StatsBounds(entries: seq<CachedDescriptor>)
    ensures Stats(entries).other + CountWhere(entries, AnyClass) == |entries|
  {
    CountWhereBounds(entries);
  }

  // ---------------------------------------------------------------------------
  // The cache object

  class DescriptorCache {
    var entries: seq<CachedDescriptor>
    var currentTime: nat

    function State(): CacheState
      reads this
    {
      CacheState(entries, currentTime)
    }

    predicate Valid()
      reads this
    {
      EntriesValid(State())
    }

    /** `DescriptorCache::new`: empty, clock at 0. */
    constructor ()
      ensures Valid() && State() == CacheState([], 0)
    {
      entries := [];
      currentTime := 0;
    }

    /** `add`: parse, copy at most 1024 raw bytes, then store. */
    method Add(deviceAddress: u8, interfaceNum: u8, rawDescriptor: seq<u8>) returns (r: Result<(), ParseError>)
      requires Valid()
      modifies this
      ensures Valid()
      ensures Added(old(State()), deviceAddress, interfaceNum, rawDescriptor).Ok? ==>
        r == Ok(()) && State() == Added(old(State()), deviceAddress, interfaceNum, rawDescriptor).value
      ensures Added(old(State()), deviceAddress, interfaceNum, rawDescriptor).Err? ==>
        r == Err(Added(old(State()), deviceAddress, interfaceNum, rawDescriptor).error) && State() == old(State())
    {
      var parser := new DescriptorParser();
      var parsed := parser.Parse(rawDescriptor);
      if parsed.Err? {
        return Err(parsed.error);
      }
      var descriptor := parser.IntoDescriptor();
      var rawVec := CopyRaw(rawDescriptor);
      r := Store(deviceAddress, interfaceNum, descriptor, rawVec);
    }

    /** The raw copy of `add`: `take(1024)` pushed byte by byte. */
    static method CopyRaw(rawDescriptor: seq<u8>) returns (rawVec: seq<u8>)
      ensures rawVec == RawCopy(rawDescriptor)
    {
      rawVec := [];
      var n := 0;
      while n < |rawDescriptor| && n < MaxDescriptorSize
        invariant n <= |rawDescriptor| && n <= MaxDescriptorSize
        invariant rawVec == rawDescriptor[..n]
      {
        rawVec := rawVec + [rawDescriptor[n]];
        n := n + 1;
      }
    }

    /** The `iter().position` search for a key. */
    method FindEntry(deviceAddress: u8, interfaceNum: u8) returns (k: nat)
      ensures k == FindKey(entries, deviceAddress, interfaceNum)
    {
      k := 0;
      while k < |entries| && !(entries[k].deviceAddress == deviceAddress && entries[k].interfaceNum == interfaceNum)
        invariant k <= |entries|
        invariant forall j | 0 <= j < k :: !HasKey(entries[j], deviceAddress, interfaceNum)
      {
        k := k + 1;
      }
    }

    /** The part of `add` after the parse: tick, then update in place or evict
        and push. */
    method Store(deviceAddress: u8, interfaceNum: u8, descriptor: HidDescriptor, rawVec: seq<u8>) returns (r: Result<(), ParseError>)
      requires Valid() && |rawVec| <= MaxDescriptorSize
      modifies this
      ensures Valid()
      ensures r == Ok(()) && State() == Inserted(old(State()), deviceAddress, interfaceNum, descriptor, rawVec).value
    {
      ghost var st := State();
      ghost var next := Inserted(st, deviceAddress, interfaceNum, descriptor, rawVec);
      InsertedValid(st, deviceAddress, interfaceNum, descriptor, rawVec);
      currentTime := currentTime + 1;
      var k := FindEntry(deviceAddress, interfaceNum);
      if k < |entries| {
        entries := entries[k := entries[k].(descriptor := descriptor, rawDescriptor := rawVec, timestamp := currentTime)];
        assert State() == next.value;
        return Ok(());
      }
      var entry := CachedDescriptor(deviceAddress, interfaceNum, descriptor, rawVec, currentTime);
      ghost var kept := if |st.entries| >= MaxCachedDevices then RemoveAt(st.entries, OldestIndex(st.entries)) else st.entries;
      if |entries| >= MaxCachedDevices {
        EvictLru();
      }
      assert entries == kept;
      if |entries| >= MaxCachedDevices {
        return Err(InvalidData);
      }
      entries := entries + [entry];
      assert next == Ok(CacheState(kept + [entry], currentTime));
      return Ok(());
    }

    /** `get`: the cached descriptor for the key, restamping it on a hit. */
    method Get(deviceAddress: u8, interfaceNum: u8) returns (r: Option<HidDescriptor>)
      requires Valid()
      modifies this
      ensures Valid()
      ensures r == Lookup(old(entries), deviceAddress, interfaceNum)
      ensures State() == Touched(old(State()), deviceAddress, interfaceNum)
    {
      TouchedValid(State(), deviceAddress, interfaceNum, deviceAddress, interfaceNum);
      currentTime := currentTime + 1;
      var k := FindEntry(deviceAddress, interfaceNum);
      if k < |entries| {
        r := Some(entries[k].descriptor);
        entries := entries[k := entries[k].(timestamp := currentTime)];
      } else {
        r := None;
      }
    }

    /** `is_empty`. */
    function IsEmpty(): (b: bool)
      reads this
      ensures b <==> Stats(entries).totalDevices == 0
    {
      |entries| == 0
    }

    /** `evict_lru`: remove the first entry with the smallest timestamp. */
    method EvictLru()
      modifies this
      ensures |old(entries)| > 0 ==> entries == RemoveAt(old(entries), OldestIndex(old(entries)))
      ensures |old(entries)| == 0 ==> entries == old(entries)
      ensures currentTime == old(currentTime)
    {
      if |entries| == 0 {
        return;
      }
      var best := 0;
      ghost var es := entries;
      for j := 1 to |entries|
        invariant entries == es && currentTime == old(currentTime)
        invariant best == OldestIndex(es[..j])
      {
        OldestStep(es, j);
        if entries[j].timestamp < entries[best].timestamp {
          best := j;
        }
      }
      assert entries[..|entries|] == entries;
      entries := entries[..best] + entries[best + 1..];
    }

    /** `get_stats`: one counting pass over the entries. */
    method GetStats() returns (stats: CacheStats)
      ensures stats == Stats(entries)
    {
      stats := CacheStats(|entries|, 0, 0, 0, 0);
      for j := 0 to |entries|
        invariant stats == Stats(entries[..j]).(totalDevices := |entries|)
      {
        assert entries[..j + 1][..j] == entries[..j];
        var d := entries[j].descriptor;
        if d.isKeyboard {
          stats := stats.(keyboards := stats.keyboards + 1);
        }
        if d.isMouse {
          stats := stats.(mice := stats.mice + 1);
        }
        if d.isGamepad {
          stats := stats.(gamepads := stats.gamepads + 1);
        }
        if !d.isKeyboard && !d.isMouse && !d.isGamepad {
          stats := stats.(other := stats.other + 1);
        }
      }
      assert entries[..|entries|] == entries;
    }
  }
}
