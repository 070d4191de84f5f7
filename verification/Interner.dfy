/**
 * The string interner: all strings in one arena, an offset table indexed by id, and a map from hashes to the ids
 * that have them.  Starts and ids are cut to 32 bits and lengths to 16, as the source's casts do.
 */
module Interner {
  import opened Sequences
  import opened Conversation

  const TWO_16: nat := 0x1_0000
  const TWO_32: nat := 0x1_0000_0000

  /** The hash of a byte string; nothing is known about collisions. */
  const HASH: Bytes -> nat

  type Table = map<nat, seq<nat>>

  datatype Entry = Entry(start: nat, len: nat)

  function Join(keys: seq<Bytes>): Bytes {
    if keys == [] then [] else Join(keys[..|keys| - 1]) + keys[|keys| - 1]
  }

  function Offsets(keys: seq<Bytes>): (r: seq<Entry>)
    ensures |r| == |keys|
  {
    if keys == [] then []
    else
      var before := keys[..|keys| - 1];
      Offsets(before) + [Entry(|Join(before)| % TWO_32, |keys[|keys| - 1]| % TWO_16)]
  }

  function Pushed(table: Table, hash: nat, id: nat): Table {
    table[hash := (if hash in table then table[hash] else []) + [id]]
  }

  function Bucket(table: Table, hash: nat): seq<nat> {
    if hash in table then table[hash] else []
  }

  /** Each key's id in the bucket of its hash, in the order of the keys. */
  function Buckets(keys: seq<Bytes>): Table {
    if keys == [] then map[]
    else Pushed(Buckets(keys[..|keys| - 1]), HASH(keys[|keys| - 1]), (|keys| - 1) % TWO_32)
  }

  /** The bytes an entry points to, if it lies inside the arena. */
  function Slice(arena: Bytes, e: Entry): Option<Bytes> {
    if e.start + e.len <= |arena| then Some(arena[e.start..e.start + e.len]) else None
  }

  /** No cast loses anything. */
  predicate Fits(keys: seq<Bytes>) {
    && |keys| <= TWO_32
    && |Join(keys)| < TWO_32
    && forall k | 0 <= k < |keys| :: |keys[k]| < TWO_16
  }

  predicate NoRepeats(keys: seq<Bytes>) {
    forall i, j | 0 <= i < j < |keys| :: keys[i] != keys[j]
  }

  lemma JoinThen(keys: seq<Bytes>, s: Bytes)
    ensures Join(keys + [s]) == Join(keys) + s
    ensures Offsets(keys + [s]) == Offsets(keys) + [Entry(|Join(keys)| % TWO_32, |s| % TWO_16)]
    ensures Buckets(keys + [s]) == Pushed(Buckets(keys), HASH(s), |keys| % TWO_32)
  {
    assert (keys + [s])[..|keys|] == keys;
  }

  lemma FitsBefore(keys: seq<Bytes>, s: Bytes)
    requires Fits(keys + [s])
    ensures Fits(keys) && |s| < TWO_16 && |keys| < TWO_32
  {
    JoinThen(keys, s);
    assert (keys + [s])[|keys|] == s;
    forall k | 0 <= k < |keys| ensures |keys[k]| < TWO_16 {
      assert (keys + [s])[k] == keys[k];
    }
  }

  /** Every entry lies inside the arena, whatever was cut off it. */
  lemma {:induction false} EntriesInside(keys: seq<Bytes>, k: nat)
    requires k < |keys|
    ensures Offsets(keys)[k].start + Offsets(keys)[k].len <= |Join(keys)|
  {
    var before := keys[..|keys| - 1];
    if k < |keys| - 1 {
      EntriesInside(before, k);
    } else {
      ModIsSmaller(|Join(before)|, TWO_32);
      ModIsSmaller(|keys[k]|, TWO_16);
    }
  }

  lemma ModIsSmaller(n: nat, m: nat)
    requires m > 0
    ensures n % m <= n
    ensures n < m <==> n % m == n
  {}

  /** While starts do not wrap, an id gives back its string cut to its length modulo 2^16. */
  lemma {:induction false} SlotOfKey(keys: seq<Bytes>, k: nat)
    requires k < |keys| && |Join(keys[..|keys| - 1])| < TWO_32
    ensures Slice(Join(keys), Offsets(keys)[k]) == Some(keys[k][..|keys[k]| % TWO_16])
  {
    var before, last := keys[..|keys| - 1], keys[|keys| - 1];
    if k < |keys| - 1 {
      assert |Join(before[..|before| - 1])| <= |Join(before)|;
      SlotOfKey(before, k);
      SliceStays(Join(before), last, Offsets(before)[k]);
      assert Offsets(keys)[k] == Offsets(before)[k];
    } else {
      ModIsSmaller(|Join(before)|, TWO_32);
      ModIsSmaller(|last|, TWO_16);
      SliceOfEnd(Join(before), last, |last| % TWO_16);
    }
  }

  lemma SliceStays(arena: Bytes, more: Bytes, e: Entry)
    requires e.start + e.len <= |arena|
    ensures Slice(arena + more, e) == Slice(arena, e)
  {
    assert (arena + more)[e.start..e.start + e.len] == arena[e.start..e.start + e.len];
  }

  lemma SliceOfEnd(arena: Bytes, s: Bytes, n: nat)
    requires n <= |s|
    ensures Slice(arena + s, Entry(|arena|, n)) == Some(s[..n])
  {
    assert (arena + s)[|arena|..|arena| + n] == s[..n];
  }

  lemma SlotOfFittingKey(keys: seq<Bytes>, k: nat)
    requires Fits(keys) && k < |keys|
    ensures Slice(Join(keys), Offsets(keys)[k]) == Some(keys[k])
  {
    hide Offsets, Slice;
    SlotOfKey(keys, k);
    ModIsSmaller(|keys[k]|, TWO_16);
    assert keys[k][..|keys[k]|] == keys[k];
  }

  predicate Ascending(ids: seq<nat>) {
    forall i, j | 0 <= i < j < |ids| :: ids[i] < ids[j]
  }

  /** While ids do not wrap, a bucket holds exactly the ids whose keys have its hash, in ascending order. */
  lemma {:induction false} BucketMembers(keys: seq<Bytes>, hash: nat)
    requires |keys| <= TWO_32
    ensures forall id: nat :: id in Bucket(Buckets(keys), hash) <==> id < |keys| && HASH(keys[id]) == hash
    ensures Ascending(Bucket(Buckets(keys), hash))
  {
    if keys != [] {
      var before, last := keys[..|keys| - 1], |keys| - 1;
      BucketMembers(before, hash);
      ModIsSmaller(last, TWO_32);
      PushedBucket(Buckets(before), HASH(keys[last]), last, hash);
      var ids := Bucket(Buckets(before), hash);
      forall i | 0 <= i < |ids| ensures ids[i] < last {
        assert ids[i] in ids;
      }
      assert Ascending(ids + [last]);
      forall id: nat ensures id in Bucket(Buckets(keys), hash) <==> id < |keys| && HASH(keys[id]) == hash {
        if id < last {
          assert before[id] == keys[id];
        }
      }
    }
  }

  /** The table that going through the entries again builds: entries outside the arena are passed over. */
  function Rebuilt(arena: Bytes, offsets: seq<Entry>): Table {
    if offsets == [] then map[]
    else
      var last := |offsets| - 1;
      var before := Rebuilt(arena, offsets[..last]);
      var bytes := Slice(arena, offsets[last]);
      if bytes.Some? then Pushed(before, HASH(bytes.value), last % TWO_32) else before
  }

  lemma PushedBucket(table: Table, h: nat, id: nat, hash: nat)
    ensures Bucket(Pushed(table, h, id), hash) == if h == hash then Bucket(table, hash) + [id] else Bucket(table, hash)
  {}

  lemma {:induction false} RebuiltFromLongerArena(keys: seq<Bytes>, more: Bytes)
    requires Fits(keys)
    ensures Rebuilt(Join(keys) + more, Offsets(keys)) == Buckets(keys)
  {
    hide Slice, Pushed;
    if keys != [] {
      var before, last := keys[..|keys| - 1], |keys| - 1;
      assert before + [keys[last]] == keys;
      FitsBefore(before, keys[last]);
      RebuiltFromLongerArena(before, keys[last] + more);
      ConcatAssociates(Join(before), keys[last], more);
      EntriesInside(keys, last);
      SliceStays(Join(keys), more, Offsets(keys)[last]);
      SlotOfFittingKey(keys, last);
      assert Offsets(keys)[..last] == Offsets(before);
    }
  }

  /** Rebuilding from a saved arena and its offsets gives back the same buckets, each in the same order. */
  lemma RebuildRoundTrip(keys: seq<Bytes>)
    requires Fits(keys)
    ensures Rebuilt(Join(keys), Offsets(keys)) == Buckets(keys)
  {
    RebuiltFromLongerArena(keys, []);
    assert Join(keys) + [] == Join(keys);
  }

  /** Adding a string moves no earlier entry. */
  lemma SlotsStay(keys: seq<Bytes>, s: Bytes, k: nat)
    requires k < |keys|
    ensures Slice(Join(keys + [s]), Offsets(keys + [s])[k]) == Slice(Join(keys), Offsets(keys)[k])
  {
    hide Slice;
    JoinThen(keys, s);
    EntriesInside(keys, k);
    SliceStays(Join(keys), s, Offsets(keys)[k]);
  }

  /** The new entry gives back its string exactly when the string's length is not cut. */
  lemma NewSlot(keys: seq<Bytes>, s: Bytes)
    requires |Join(keys)| < TWO_32
    ensures Slice(Join(keys + [s]), Offsets(keys + [s])[|keys|]) == Some(s) <==> |s| < TWO_16
  {
    hide Slice;
    JoinThen(keys, s);
    var longer := keys + [s];
    assert longer[..|longer| - 1] == keys;
    SlotOfKey(longer, |keys|);
    ModIsSmaller(|s|, TWO_16);
    assert s[..|s|] == s;
    assert |s| >= TWO_16 ==> |s[..|s| % TWO_16]| < |s|;
  }

  lemma {:induction false} SlotsAreShort(keys: seq<Bytes>, k: nat)
    requires k < |keys|
    ensures Offsets(keys)[k].len < TWO_16
  {
    if k < |keys| - 1 {
      SlotsAreShort(keys[..|keys| - 1], k);
    }
  }

  lemma SliceIsShort(arena: Bytes, e: Entry)
    ensures Slice(arena, e).Some? ==> |Slice(arena, e).value| == e.len
  {}

  /** All that a new string brings about. */
  lemma Appended(keys: seq<Bytes>, s: Bytes)
    ensures Join(keys + [s]) == Join(keys) + s
    ensures Offsets(keys + [s]) == Offsets(keys) + [Entry(|Join(keys)| % TWO_32, |s| % TWO_16)]
    ensures Buckets(keys + [s]) == Pushed(Buckets(keys), HASH(s), |keys| % TWO_32)
    ensures |Join(keys)| < TWO_32 && |keys| < TWO_32 ==>
              && |keys| % TWO_32 == |keys|
              && (Slice(Join(keys + [s]), Offsets(keys + [s])[|keys|]) == Some(s) <==> |s| < TWO_16)
    ensures Fits(keys + [s]) ==> |keys| % TWO_32 == |keys|
    ensures Fits(keys + [s]) && NoRepeats(keys) && s !in keys ==> NoRepeats(keys + [s])
  {
    JoinThen(keys, s);
    ModIsSmaller(|keys|, TWO_32);
    if |Join(keys)| < TWO_32 {
      NewSlot(keys, s);
    }
    if Fits(keys + [s]) {
      FitsBefore(keys, s);
    }
  }

  class StringInterner {
    var arena: Bytes
    var lookup: Table
    var offsets: seq<Entry>

    /** The strings interned, one for each id. */
    ghost var keys: seq<Bytes>

    /** The three fields say what `keys` says; as long as no cast has lost anything the keys are distinct. */
    ghost predicate Valid() reads this {
      && arena == Join(keys)
      && offsets == Offsets(keys)
      && lookup == Buckets(keys)
      && (Fits(keys) ==> NoRepeats(keys))
    }

    constructor ()
      ensures Valid() && keys == []
    {
      arena, lookup, offsets, keys := [], map[], [], [];
    }

    /**
     * Rebuild from a saved arena and offsets.  `was` is whatever strings the saved interner held: if they fitted,
     * the new interner is the one that was saved, lookup table included.
     */
    constructor FromParts(arena: Bytes, offsets: seq<Entry>, ghost was: seq<Bytes>)
      ensures this.arena == arena && this.offsets == offsets && keys == was
      ensures arena == Join(was) && offsets == Offsets(was) && Fits(was) && NoRepeats(was) ==> Valid()
      ensures lookup == Rebuilt(arena, offsets)
    {
      var table: Table := map[];
      for idx := 0 to |offsets|
        invariant table == Rebuilt(arena, offsets[..idx])
      {
        var bytes := Slice(arena, offsets[idx]);
        if bytes.Some? {
          var hash, id := HASH(bytes.value), idx % TWO_32;
          table := table[hash := (if hash in table then table[hash] else []) + [id]];
        }
        assert offsets[..idx + 1][..idx] == offsets[..idx];
      }
      assert offsets[..|offsets|] == offsets;
      this.arena, this.offsets, lookup, keys := arena, offsets, table, was;
      new;
      if arena == Join(was) && offsets == Offsets(was) && Fits(was) {
        RebuildRoundTrip(was);
      }
    }

    function GetBytes(id: nat): Option<Bytes>
      reads this
    {
      if id < |offsets| then Slice(arena, offsets[id]) else None
    }

    /** The first id of the bucket whose bytes are `s`. */
    method FindInBucket(s: Bytes) returns (r: Option<nat>)
      ensures r.Some? ==> r.value in Bucket(lookup, HASH(s)) && GetBytes(r.value) == Some(s)
      ensures r.None? ==> forall id | id in Bucket(lookup, HASH(s)) :: GetBytes(id) != Some(s)
    {
      var hash := HASH(s);
      if hash in lookup {
        var ids := lookup[hash];
        for i := 0 to |ids|
          invariant forall k | 0 <= k < i :: GetBytes(ids[k]) != Some(s)
        {
          if GetBytes(ids[i]) == Some(s) {
            return Some(ids[i]);
          }
        }
      }
      return None;
    }

    /** While everything fits, a string is found exactly when it was interned, under the id it got then. */
    method GetBytesId(s: Bytes) returns (r: Option<nat>)
      requires Valid()
      ensures Fits(keys) ==> (r.Some? <==> s in keys)
      ensures Fits(keys) && r.Some? ==> r.value < |keys| && keys[r.value] == s
    {
      r := FindInBucket(s);
      if Fits(keys) {
        FoundIffInterned(s, r);
      }
    }

    lemma FoundIffInterned(s: Bytes, r: Option<nat>)
      requires Valid() && Fits(keys)
      requires r.Some? ==> r.value in Bucket(lookup, HASH(s)) && GetBytes(r.value) == Some(s)
      requires r.None? ==> forall id | id in Bucket(lookup, HASH(s)) :: GetBytes(id) != Some(s)
      ensures r.Some? <==> s in keys
      ensures r.Some? ==> r.value < |keys| && keys[r.value] == s
    {
      hide Join, Offsets, Buckets, Bucket, Slice;
      BucketMembers(keys, HASH(s));
      if r.Some? {
        SlotOfFittingKey(keys, r.value);
      } else if s in keys {
        var k :| 0 <= k < |keys| && keys[k] == s;
        SlotOfFittingKey(keys, k);
      }
    }

    /**
     * Interning changes nothing for a string that is found, and otherwise appends it under the next id; ids given
     * out before keep their bytes.  While everything fits this makes ids and distinct strings correspond one to one.
     */
    method InternBytes(s: Bytes) returns (id: nat)
      requires Valid()
      modifies this
      ensures Valid()
      ensures keys == old(keys) || (keys == old(keys) + [s] && id == |old(keys)| % TWO_32)
      ensures keys == old(keys) ==> GetBytes(id) == Some(s)
      ensures forall k | 0 <= k < |old(keys)| :: GetBytes(k) == old(GetBytes(k))
      ensures |Join(old(keys))| < TWO_32 && |old(keys)| < TWO_32 ==> (GetBytes(id) == Some(s) <==> |s| < TWO_16)
      ensures Fits(old(keys) + [s]) ==>
                keys == (if s in old(keys) then old(keys) else old(keys) + [s]) && id < |keys| && keys[id] == s
    {
      hide Join, Offsets, Buckets, Slice, Bucket, Fits;
      ghost var before := keys;
      var found := FindInBucket(s);
      if Fits(keys + [s]) {
        FitsBefore(keys, s);
        FoundIffInterned(s, found);
      }
      if found.Some? {
        id := found.value;
        SlotsAreShort(keys, id);
        SliceIsShort(arena, offsets[id]);
        return;
      }
      var hash := HASH(s);
      var start := |arena| % TWO_32;
      var len := |s| % TWO_16;
      arena := arena + s;
      id := |offsets| % TWO_32;
      offsets := offsets + [Entry(start, len)];
      lookup := lookup[hash := (if hash in lookup then lookup[hash] else []) + [id]];
      keys := keys + [s];
      Appended(before, s);
      forall k | 0 <= k < |before| ensures GetBytes(k) == old(GetBytes(k)) {
        SlotsStay(before, s, k);
      }
    }
  }
}
