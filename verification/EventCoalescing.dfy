/** File events, their coalescing by path, and what a coalesced group does to the index. */
module EventCoalescing {
  import opened Sequences

  type Path = string

  /** What parsing a file contributes to the index. */
  datatype Parsed = Parsed(symbols: seq<string>)

  type Index = map<Path, Parsed>

  /** The language registry, the hidden-directory rule, and the file system with the parser over it. */
  const SUPPORTED: Path -> bool
  const HIDDEN: Path -> bool
  const PARSE: Path -> Option<Parsed>

  predicate ShouldIndex(p: Path) {
    SUPPORTED(p) && !HIDDEN(p)
  }

  datatype Kind = Created | Modified | Removed | Renamed
  datatype FileEvent = FileEvent(paths: seq<Path>, kind: Kind)

  /** One event for one path. */
  datatype Update = Update(path: Path, kind: Kind)

  function Lookup<K, V>(m: map<K, V>, k: K): (r: Option<V>)
    ensures r.Some? <==> k in m
  {
    if k in m then Some(m[k]) else None
  }

  lemma SameLookups<K, V>(a: map<K, V>, b: map<K, V>)
    requires forall k :: Lookup(a, k) == Lookup(b, k)
    ensures a == b
  {
    forall k ensures k in a <==> k in b {
      assert Lookup(a, k) == Lookup(b, k);
    }
    forall k | k in a ensures a[k] == b[k] {
      assert Lookup(a, k) == Lookup(b, k);
    }
  }

  /** A rename that carries both paths removes the first and creates the second. */
  function Updates(e: FileEvent): seq<Update> {
    if e.kind.Renamed? && |e.paths| >= 2 then [Update(e.paths[0], Removed), Update(e.paths[1], Created)]
    else PathUpdates(e.paths, e.kind)
  }

  function PathUpdates(paths: seq<Path>, kind: Kind): seq<Update> {
    seq(|paths|, i requires 0 <= i < |paths| => Update(paths[i], kind))
  }

  function AllUpdates(events: seq<FileEvent>): seq<Update> {
    if events == [] then []
    else AllUpdates(events[..|events| - 1]) + Updates(events[|events| - 1])
  }

  /** The state of one path when a further event arrives. */
  function Merge(prev: Option<Kind>, kind: Kind): Option<Kind> {
    match (prev, kind)
    case (Some(Created), Removed) => None
    case (Some(Modified), Removed) => None
    case (Some(Removed), Created) => Some(Created)
    case (Some(Removed), Modified) => Some(Created)
    case _ => Some(kind)
  }

  function Inserted(events: map<Path, Kind>, u: Update): map<Path, Kind> {
    var merged := Merge(Lookup(events, u.path), u.kind);
    if merged.None? then events - {u.path} else events[u.path := merged.value]
  }

  function Coalesced(updates: seq<Update>): map<Path, Kind> {
    if updates == [] then map[]
    else Inserted(Coalesced(updates[..|updates| - 1]), updates[|updates| - 1])
  }

  lemma CoalescedThen(updates: seq<Update>, u: Update)
    ensures Coalesced(updates + [u]) == Inserted(Coalesced(updates), u)
  {
    assert (updates + [u])[..|updates|] == updates;
  }

  lemma AllUpdatesThen(events: seq<FileEvent>, i: nat)
    requires i < |events|
    ensures AllUpdates(events[..i + 1]) == AllUpdates(events[..i]) + Updates(events[i])
  {
    assert events[..i + 1][..i] == events[..i];
  }

  /** The kinds of the updates of one path, in order. */
  function History(updates: seq<Update>, p: Path): seq<Kind> {
    if updates == [] then []
    else
      var before := History(updates[..|updates| - 1], p);
      var last := updates[|updates| - 1];
      if last.path == p then before + [last.kind] else before
  }

  /** The state a path reaches on its own history. */
  function Outcome(kinds: seq<Kind>): Option<Kind> {
    if kinds == [] then None
    else Merge(Outcome(kinds[..|kinds| - 1]), kinds[|kinds| - 1])
  }

  /** Coalescing treats every path on its own. */
  lemma {:induction false} CoalescedByPath(updates: seq<Update>, p: Path)
    ensures Lookup(Coalesced(updates), p) == Outcome(History(updates, p))
  {
    if updates != [] {
      var before := updates[..|updates| - 1];
      CoalescedByPath(before, p);
      if updates[|updates| - 1].path == p {
        var h := History(before, p);
        assert (h + [updates[|updates| - 1].kind])[..|h|] == h;
      }
    }
  }

  /** A path is cancelled when its last two events are a creation or modification and a removal. */
  predicate Cancelled(kinds: seq<Kind>) {
    var n := |kinds|;
    n >= 2 && kinds[n - 1].Removed? && (kinds[n - 2].Created? || kinds[n - 2].Modified?)
  }

  /** Only the end of a history matters: it cancels, or leaves a kind that acts like the last event. */
  lemma {:induction false} OutcomeByLastEvents(kinds: seq<Kind>)
    requires kinds != []
    ensures Outcome(kinds).None? <==> Cancelled(kinds)
    ensures Outcome(kinds).Some? ==> (Outcome(kinds).value.Removed? <==> kinds[|kinds| - 1].Removed?)
    ensures Outcome(kinds).Some? ==> (Outcome(kinds).value.Renamed? <==> kinds[|kinds| - 1].Renamed?)
  {
    var before := kinds[..|kinds| - 1];
    if before != [] {
      OutcomeByLastEvents(before);
    }
  }

  /** What applying a kind makes of the entry of a path. */
  function Settled(kind: Option<Kind>, p: Path, was: Option<Parsed>): Option<Parsed> {
    if kind.None? || !ShouldIndex(p) then was
    else if kind.value.Removed? then None
    else PARSE(p)
  }

  function AppliedAt(index: Index, events: map<Path, Kind>, p: Path): Option<Parsed> {
    Settled(Lookup(events, p), p, Lookup(index, p))
  }

  /** The index after a group, path by path, and so independent of the order in which the group is gone through. */
  function Applied(index: Index, events: map<Path, Kind>): (r: Index)
    ensures forall p :: Lookup(r, p) == AppliedAt(index, events, p)
  {
    map p | p in index.Keys + events.Keys && AppliedAt(index, events, p).Some? :: AppliedAt(index, events, p).value
  }

  /** The reference: every update applied as it comes. */
  function OneByOne(index: Index, updates: seq<Update>): Index {
    if updates == [] then index
    else
      var last := updates[|updates| - 1];
      Applied(OneByOne(index, updates[..|updates| - 1]), map[last.path := last.kind])
  }

  function LastKind(kinds: seq<Kind>): Option<Kind> {
    if kinds == [] then None else Some(kinds[|kinds| - 1])
  }

  /** One at a time, the last event of a path decides about it. */
  lemma {:induction false} OneByOneAt(index: Index, updates: seq<Update>, p: Path)
    ensures Lookup(OneByOne(index, updates), p) == Settled(LastKind(History(updates, p)), p, Lookup(index, p))
  {
    if updates != [] {
      OneByOneAt(index, updates[..|updates| - 1], p);
      assert Lookup(OneByOne(index, updates), p)
          == AppliedAt(OneByOne(index, updates[..|updates| - 1]),
                       map[updates[|updates| - 1].path := updates[|updates| - 1].kind], p);
    }
  }

  lemma {:induction false} OneByOneConcat(index: Index, a: seq<Update>, b: seq<Update>)
    ensures OneByOne(index, a + b) == OneByOne(OneByOne(index, a), b)
    decreases |b|
  {
    hide Applied;
    if b == [] {
      assert a + b == a;
    } else {
      var init := b[..|b| - 1];
      OneByOneConcat(index, a, init);
      assert (a + b)[..|a + b| - 1] == a + init;
    }
  }

  /** A group leaves a path stale when it cancels the path while the path is indexed. */
  predicate LeavesStale(index: Index, updates: seq<Update>, p: Path) {
    Cancelled(History(updates, p)) && ShouldIndex(p) && p in index
  }

  /**
   * A coalesced group agrees with one-at-a-time processing on a path exactly when it does not leave it stale; a
   * stale path keeps the entry it had before the group, where one-at-a-time processing has none.
   */
  lemma CoalescedAgreesIff(index: Index, updates: seq<Update>, p: Path)
    ensures var coalesced := Lookup(Applied(index, Coalesced(updates)), p);
            var reference := Lookup(OneByOne(index, updates), p);
            && (coalesced == reference <==> !LeavesStale(index, updates, p))
            && (LeavesStale(index, updates, p) ==> coalesced == Lookup(index, p) && reference == None)
  {
    CoalescedByPath(updates, p);
    OneByOneAt(index, updates, p);
    assert Lookup(Applied(index, Coalesced(updates)), p) == AppliedAt(index, Coalesced(updates), p);
    if History(updates, p) != [] {
      OutcomeByLastEvents(History(updates, p));
    }
  }

  /** An indexed file that is modified and then removed stays in the index, although it is gone. */
  lemma ModifiedThenRemovedStays(p: Path, parsed: Parsed)
    requires ShouldIndex(p)
    ensures var updates := [Update(p, Modified), Update(p, Removed)];
            && Lookup(Applied(map[p := parsed], Coalesced(updates)), p) == Some(parsed)
            && Lookup(OneByOne(map[p := parsed], updates), p) == None
  {
    var updates := [Update(p, Modified), Update(p, Removed)];
    assert updates[..1] == [Update(p, Modified)];
    assert updates[..1][..0] == [];
    assert History(updates[..1], p) == [Modified];
    assert History(updates, p) == [Modified, Removed];
    CoalescedAgreesIff(map[p := parsed], updates, p);
  }

  // ---- what a single event does ----

  /** After a rename the file is looked for at its new path and, if that is another, no longer at its old one. */
  lemma RenameMoves(index: Index, e: FileEvent)
    requires e.kind.Renamed? && |e.paths| >= 2
    ensures var after := Applied(index, Coalesced(Updates(e)));
            var from, dest := e.paths[0], e.paths[1];
            && (from != dest && ShouldIndex(from) ==> from !in after)
            && (ShouldIndex(dest) ==> Lookup(after, dest) == PARSE(dest))
            && forall p | !ShouldIndex(p) || (p != from && p != dest) :: Lookup(after, p) == Lookup(index, p)
  {
    var from, dest := e.paths[0], e.paths[1];
    var pending := Coalesced(Updates(e));
    CoalescedThen([], Update(from, Removed));
    CoalescedThen([Update(from, Removed)], Update(dest, Created));
    assert [] + [Update(from, Removed)] == [Update(from, Removed)];
    assert [Update(from, Removed)] + [Update(dest, Created)] == Updates(e);
    assert pending == map[from := Removed][dest := Created];
    forall p ensures Lookup(Applied(index, pending), p) == AppliedAt(index, pending, p) {}
  }

  /** Any other event is one of its kind for each path, as often as the path is listed. */
  lemma {:induction false} EventHistory(paths: seq<Path>, kind: Kind, p: Path)
    ensures var history := History(PathUpdates(paths, kind), p);
            |history| == multiset(paths)[p] && forall k | k in history :: k == kind
  {
    if paths != [] {
      var before, last := paths[..|paths| - 1], paths[|paths| - 1];
      EventHistory(before, kind, p);
      assert PathUpdates(paths, kind)[..|paths| - 1] == PathUpdates(before, kind);
      assert paths == before + [last];
    }
  }

  /** So it is as if each of its paths were removed, or read again, once. */
  lemma OtherEventsTouchTheirPaths(index: Index, e: FileEvent, p: Path)
    requires !e.kind.Renamed? || |e.paths| < 2
    ensures |History(Updates(e), p)| == multiset(e.paths)[p] && forall k | k in History(Updates(e), p) :: k == e.kind
    ensures Lookup(Applied(index, Coalesced(Updates(e))), p)
         == if p !in e.paths || !ShouldIndex(p) then Lookup(index, p) else if e.kind.Removed? then None else PARSE(p)
  {
    var history := History(Updates(e), p);
    EventHistory(e.paths, e.kind, p);
    CoalescedByPath(Updates(e), p);
    assert p in e.paths <==> p in multiset(e.paths);
    if history != [] {
      assert history[|history| - 1] in history;
      assert |history| >= 2 ==> history[|history| - 2] in history;
      OutcomeByLastEvents(history);
    }
    assert Lookup(Applied(index, Coalesced(Updates(e))), p) == AppliedAt(index, Coalesced(Updates(e)), p);
  }

  /** The map of pending events, filled event by event. */
  class CoalescedEvents {
    var events: map<Path, Kind>

    /** Every update inserted so far, in order. */
    ghost var updates: seq<Update>

    ghost predicate Valid() reads this {
      events == Coalesced(updates)
    }

    constructor ()
      ensures Valid() && updates == []
    {
      events, updates := map[], [];
    }

    method Insert(path: Path, kind: Kind)
      requires Valid()
      modifies this
      ensures Valid() && updates == old(updates) + [Update(path, kind)]
    {
      hide Coalesced;
      CoalescedThen(updates, Update(path, kind));
      updates := updates + [Update(path, kind)];
      if path !in events {
        events := events[path := kind];
      } else {
        var prev := events[path];
        if (prev.Created? || prev.Modified?) && kind.Removed? {
          events := events - {path};
        } else if prev.Removed? && (kind.Created? || kind.Modified?) {
          events := events[path := Created];
        } else {
          events := events[path := kind];
        }
      }
    }

    method Add(event: FileEvent)
      requires Valid()
      modifies this
      ensures Valid() && updates == old(updates) + Updates(event)
      ensures event.kind.Renamed? && |event.paths| >= 2 ==>
                updates == old(updates) + [Update(event.paths[0], Removed), Update(event.paths[1], Created)]
      ensures !event.kind.Renamed? || |event.paths| < 2 ==>
                && |updates| == |old(updates)| + |event.paths|
                && forall i | 0 <= i < |event.paths| ::
                     updates[|old(updates)| + i] == Update(event.paths[i], event.kind)
    {
      hide Coalesced;
      if event.kind == Renamed && |event.paths| >= 2 {
        Insert(event.paths[0], Removed);
        Insert(event.paths[1], Created);
        return;
      }
      for i := 0 to |event.paths|
        invariant Valid() && updates == old(updates) + PathUpdates(event.paths, event.kind)[..i]
      {
        Insert(event.paths[i], event.kind);
      }
    }

    method AddAll(batch: seq<FileEvent>)
      requires Valid()
      modifies this
      ensures Valid() && updates == old(updates) + AllUpdates(batch)
    {
      hide Coalesced, Updates;
      assert AllUpdates(batch[..0]) == [];
      for i := 0 to |batch|
        invariant Valid() && updates == old(updates) + AllUpdates(batch[..i])
      {
        hide AllUpdates;
        AllUpdatesThen(batch, i);
        ConcatAssociates(old(updates), AllUpdates(batch[..i]), Updates(batch[i]));
        Add(batch[i]);
      }
      assert batch[..|batch|] == batch;
    }
  }
}
