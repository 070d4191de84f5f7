/**
 * Re-applying a patch series to a new upstream: `apply` works through the series with git, stops at a conflict that
 * may not be skipped, and `apply --continue` takes up the saved state after a manual resolution.  What git, the
 * resolver and the contract checks answer is not determined.
 */
module PatchManifest {
  import opened Sequences

  datatype Entry = Entry(id: Option<string>, critical: bool, contracts: seq<string>, autoResolve: Option<bool>)

  type Manifest = map<string, Entry>

  /** What the lookups default to for a patch the manifest does not name. */
  const NO_ENTRY := Entry(None, true, [], None)

  function EntryOf(meta: Manifest, patch: string): Entry {
    if patch in meta then meta[patch] else NO_ENTRY
  }

  predicate AllNonCritical(patches: seq<string>, meta: Manifest) {
    forall i | 0 <= i < |patches| :: !EntryOf(meta, patches[i]).critical
  }

  method IsTrailingSkippable(series: seq<string>, index: nat, meta: Manifest) returns (r: bool)
    requires index <= |series|
    ensures r <==> forall j | index <= j < |series| :: series[j] in meta && !meta[series[j]].critical
    ensures r <==> AllNonCritical(series[index..], meta)
  {
    for i := index to |series|
      invariant forall j | index <= j < i :: !EntryOf(meta, series[j]).critical
    {
      if series[i] !in meta || meta[series[i]].critical {
        assert series[index..][i - index] == series[i];
        return false;
      }
    }
    return true;
  }

  predicate ResolverAllowed(entry: Entry) {
    if entry.autoResolve.Some? then entry.autoResolve.value else entry.contracts != []
  }

  /** A patch whose conflict was resolved without a human, by the resolver command (`ai`) or from a recording. */
  datatype Record = Record(patch: string, ai: bool, unverified: bool)

  /** A record as the manifest would have it made. */
  predicate Consistent(meta: Manifest, records: seq<Record>) {
    forall r | r in records ::
      && (r.ai ==> ResolverAllowed(EntryOf(meta, r.patch)))
      && (r.unverified <==> r.ai && EntryOf(meta, r.patch).contracts == [])
  }

  /** All contracts the recorded patches declare. */
  function Declared(meta: Manifest, records: seq<Record>): set<string> {
    set r, c | r in records && c in EntryOf(meta, r.patch).contracts :: c
  }

  datatype Gate = Pass | Check | Refuse

  /** What the gate does: let through, run the declared contracts, or refuse because nothing vouches. */
  function GateFor(meta: Manifest, records: seq<Record>): Gate {
    if records == [] then Pass
    else if Declared(meta, records) != {} then Check
    else if forall r | r in records :: r.ai ==> r.unverified then Pass
    else Refuse
  }

  /**
   * Every recorded patch has its contracts among those verified, or declares none; and a patch that declares none
   * was given to the resolver only where the manifest opts it in.
   */
  predicate Covered(meta: Manifest, records: seq<Record>, verified: set<string>) {
    forall r | r in records ::
      && (forall c | c in EntryOf(meta, r.patch).contracts :: c in verified)
      && (r.ai && EntryOf(meta, r.patch).contracts == [] ==> EntryOf(meta, r.patch).autoResolve == Some(true))
  }

  /** With one manifest throughout, the gate never has to refuse, and what it lets through is covered. */
  lemma GateIsSound(meta: Manifest, records: seq<Record>)
    requires Consistent(meta, records)
    ensures GateFor(meta, records) != Refuse
    ensures Covered(meta, records, Declared(meta, records))
    ensures GateFor(meta, records) == Pass ==> Declared(meta, records) == {}
  {
    forall r | r in records && r.ai && EntryOf(meta, r.patch).contracts != [] ensures Declared(meta, records) != {} {
      var c := EntryOf(meta, r.patch).contracts[0];
      assert c in EntryOf(meta, r.patch).contracts && c in Declared(meta, records);
    }
  }

  /** The resolver settled a patch that was to be vouched for by contracts. */
  predicate Unvouched(records: seq<Record>) {
    exists r | r in records :: r.ai && !r.unverified
  }

  /** Records made in several rounds, each under the manifest of its own round. */
  predicate RoundsConsistent(rounds: seq<Manifest>, records: seq<Record>)
    requires |rounds| == |records|
  {
    forall i | 0 <= i < |records| :: Consistent(rounds[i], [records[i]])
  }

  /** All contracts the recorded patches declared when their conflicts were resolved. */
  function DeclaredThen(rounds: seq<Manifest>, records: seq<Record>): set<string>
    requires |rounds| == |records|
  {
    set i, c | 0 <= i < |records| && c in EntryOf(rounds[i], records[i].patch).contracts :: c
  }

  predicate RoundsCovered(rounds: seq<Manifest>, records: seq<Record>, verified: set<string>)
    requires |rounds| == |records|
  {
    forall i | 0 <= i < |records| :: Covered(rounds[i], [records[i]], verified)
  }

  /** The gate keeps its promise for what was asked of each patch when it was resolved. */
  predicate GateHolds(rounds: seq<Manifest>, now: Manifest, records: seq<Record>)
    requires |rounds| == |records|
  {
    GateFor(now, records) == Refuse || RoundsCovered(rounds, records, Declared(now, records))
  }

  /**
   * Whatever manifest each conflict was resolved under, and whatever one the gate goes by, every record is covered or
   * the gate refuses if and only if every contract declared then is declared by some record now, or none is declared
   * now and the resolver settled a patch that was to be vouched for.
   */
  lemma GateHoldsIff(rounds: seq<Manifest>, now: Manifest, records: seq<Record>)
    requires |rounds| == |records| && RoundsConsistent(rounds, records)
    ensures GateHolds(rounds, now, records) <==>
              || DeclaredThen(rounds, records) <= Declared(now, records)
              || (Declared(now, records) == {} && Unvouched(records))
  {
    RoundsCoveredIff(rounds, records, Declared(now, records));
    hide RoundsCovered, DeclaredThen, Declared;
  }

  /** Consistent records are covered exactly by what holds all the contracts declared when they were made. */
  lemma RoundsCoveredIff(rounds: seq<Manifest>, records: seq<Record>, verified: set<string>)
    requires |rounds| == |records| && RoundsConsistent(rounds, records)
    ensures RoundsCovered(rounds, records, verified) <==> DeclaredThen(rounds, records) <= verified
  {
    forall i | 0 <= i < |records|
      ensures Covered(rounds[i], [records[i]], verified) <==>
              forall c | c in EntryOf(rounds[i], records[i].patch).contracts :: c in verified
    {
      assert Consistent(rounds[i], [records[i]]) && records[i] in [records[i]];
    }
    if DeclaredThen(rounds, records) <= verified {
      forall i, c | 0 <= i < |records| && c in EntryOf(rounds[i], records[i].patch).contracts ensures c in verified {
        assert c in DeclaredThen(rounds, records);
      }
    }
  }

  /** Patch by patch: does each patch the resolver settled on the strength of contracts still declare some? */
  predicate Vouched(now: Manifest, records: seq<Record>) {
    forall r | r in records :: r.ai && !r.unverified ==> EntryOf(now, r.patch).contracts != []
  }

  /** Whatever the manifest has become, the gate catches one that does not exactly when nothing at all is declared. */
  lemma RefusalVouchesIff(now: Manifest, records: seq<Record>)
    ensures (GateFor(now, records) == Refuse || Vouched(now, records)) <==>
            (Declared(now, records) == {} || Vouched(now, records))
  {
    forall r, c | r in records && c in EntryOf(now, r.patch).contracts ensures c in Declared(now, records) {}
  }

  /**
   * When the contracts of a resolved patch leave the manifest before the apply is continued, the gate refuses only
   * if no other record declares any: here it merely checks the other patch's contract.
   */
  lemma DroppedContractsEscape(a: string, b: string, idA: string, idB: string)
    requires a != b
    ensures var before := map[a := Entry(Some(idA), true, ["x"], None), b := Entry(Some(idB), true, ["y"], None)];
            var after := before[a := Entry(Some(idA), true, [], None)];
            var records := [Record(a, true, false), Record(b, true, false)];
            && Consistent(before, records)
            && GateFor(after, records) == Check && Declared(after, records) == {"y"}
            && !Covered(after, records, {"x", "y"})
            && GateFor(after, [records[0]]) == Refuse
  {
    var before := map[a := Entry(Some(idA), true, ["x"], None), b := Entry(Some(idB), true, ["y"], None)];
    var after := before[a := Entry(Some(idA), true, [], None)];
    var records := [Record(a, true, false), Record(b, true, false)];
    assert records[0] in records && records[1] in records;
    assert "y" in EntryOf(after, b).contracts && "y" in Declared(after, records);
    assert [records[0]][0] in [records[0]];
  }

  /** The contract gate; `verified` are the contracts of a run that passed. */
  method VerifyAutoResolved(meta: Manifest, records: seq<Record>) returns (rc: int, ghost verified: set<string>)
    ensures rc == 0 || rc == 3
    ensures rc == 0 ==> GateFor(meta, records) != Refuse && verified == Declared(meta, records)
    ensures GateFor(meta, records) == Pass ==> rc == 0
  {
    verified := {};
    if records == [] {
      return 0, {};
    }
    var ids: seq<string> := [];
    for i := 0 to |records|
      invariant forall c :: c in ids <==> c in Declared(meta, records[..i])
    {
      var contracts := EntryOf(meta, records[i].patch).contracts;
      for j := 0 to |contracts|
        invariant forall c :: c in ids <==> c in Declared(meta, records[..i]) || c in contracts[..j]
      {
        if contracts[j] !in ids {
          ids := ids + [contracts[j]];
        }
      }
      assert contracts[..|contracts|] == contracts;
      DeclaredGrows(meta, records, i);
    }
    assert records[..|records|] == records;
    if ids == [] {
      if forall r | r in records :: r.ai ==> r.unverified {
        return 0, {};
      }
      return 3, {};
    }
    assert ids[0] in Declared(meta, records);
    var passed: bool := *;
    if !passed {
      return 3, {};
    }
    return 0, Declared(meta, records);
  }

  lemma DeclaredGrows(meta: Manifest, records: seq<Record>, i: nat)
    requires i < |records|
    ensures forall c :: c in Declared(meta, records[..i + 1]) <==>
                        c in Declared(meta, records[..i]) || c in EntryOf(meta, records[i].patch).contracts
  {
    assert records[..i + 1] == records[..i] + [records[i]];
  }
}

/** The rounds of an apply over one series and one manifest. */
module PatchQueue {
  import opened Sequences
  import opened PatchManifest

  /** What is saved when the apply stops at a conflict. */
  datatype ApplyState = ApplyState(index: nat, applied: seq<string>, skipped: seq<string>, conflicted: string,
                                   autoResolve: bool, autoResolved: seq<Record>)

  /** One time the tail of an apply was reached: what it was told, and what was really on the branch. */
  datatype Finish = Finish(applied: seq<string>, skipped: seq<string>, records: seq<Record>, verified: set<string>,
                           commits: seq<string>, byResolver: set<string>)

  predicate Recorded(records: seq<Record>, patches: set<string>) {
    forall p | p in patches :: exists r | r in records :: r.ai && r.patch == p
  }

  /** A new record keeps the list consistent and accounts for the patch it names. */
  lemma RecordAdded(meta: Manifest, records: seq<Record>, record: Record, patches: set<string>, patch: string)
    requires Consistent(meta, records) && Consistent(meta, [record])
    ensures Consistent(meta, records + [record])
    ensures record.patch == patch ==>
              forall before: set<string> | Recorded(records, before) ::
                Recorded(records + [record], if record.ai then before + {patch} else before)
  {
    assert record in [record] && record in records + [record];
    forall before: set<string> | record.patch == patch && Recorded(records, before)
      ensures Recorded(records + [record], if record.ai then before + {patch} else before)
    {
      forall p | p in before ensures exists r | r in records + [record] :: r.ai && r.patch == p {
        var r :| r in records && r.ai && r.patch == p;
        assert r in records + [record];
      }
    }
  }

  /** Does the message of the newest commit carry the trailer of the patch?  The text is searched, not compared. */
  predicate HeadCarries(meta: Manifest, commits: seq<string>, patch: string) {
    && commits != []
    && EntryOf(meta, patch).id.Some?
    && EntryOf(meta, patch).id.value != ""
    && var head := EntryOf(meta, commits[|commits| - 1]).id;
       head.Some? && EntryOf(meta, patch).id.value <= head.value
  }

  /** Does the id of a patch begin like the id of another? */
  predicate BeginsLike(meta: Manifest, patch: string, other: string) {
    var a, b := EntryOf(meta, patch).id, EntryOf(meta, other).id;
    a.Some? && b.Some? && b.value <= a.value
  }

  predicate HasId(meta: Manifest, patch: string) {
    EntryOf(meta, patch).id.Some? && EntryOf(meta, patch).id.value != ""
  }

  /** No patch just before this one or anywhere after it has an id that begins like its own. */
  predicate TellsApart(series: seq<string>, meta: Manifest, index: nat)
    requires index < |series|
  {
    forall j | 0 <= j < |series| && index - 1 <= j && j != index :: !BeginsLike(meta, series[j], series[index])
  }

  /** That holds of every patch of the series that has an id to search for. */
  predicate TrailersTellApart(series: seq<string>, meta: Manifest) {
    forall i | 0 <= i < |series| && HasId(meta, series[i]) :: TellsApart(series, meta, i)
  }

  /**
   * The search for the trailer says exactly whether the patch stopped at is the last one committed, wherever the
   * branch may be, if and only if no patch just before it or anywhere after it has an id that begins like its own.
   */
  lemma HeadCheckExactIff(series: seq<string>, meta: Manifest, index: nat)
    requires index < |series|
    requires HasId(meta, series[index])
    ensures (forall n | index <= n <= |series| :: HeadCarries(meta, series[..n], series[index]) <==> n == index + 1)
       <==> TellsApart(series, meta, index)
  {
    forall n: nat | index <= n <= |series|
      ensures HeadCarries(meta, series[..n], series[index]) <==> n > 0 && BeginsLike(meta, series[n - 1], series[index])
    {}
    forall j | 0 <= j < |series| && index - 1 <= j
      ensures BeginsLike(meta, series[j], series[index]) <==> HeadCarries(meta, series[..j + 1], series[index])
    {
      assert series[..j + 1][j] == series[j];
    }
  }

  lemma HeadCheckIsExact(series: seq<string>, meta: Manifest, index: nat, n: nat)
    requires TrailersTellApart(series, meta) && index < |series| && index <= n <= |series|
    requires HeadCarries(meta, series[..n], series[index])
    ensures n == index + 1
  {
    HeadCheckExactIff(series, meta, index);
  }

  class Repository {
    const series: seq<string>
    const meta: Manifest

    /** The patches on the sync branch, the patch of a `git am` in progress, and the saved state. */
    var commits: seq<string>
    var am: Option<string>
    var saved: Option<ApplyState>

    /** History: the patches on the branch whose conflict the resolver settled, and the times the tail was reached. */
    ghost var byResolver: set<string>

    /** The patch git was last given, if it did not apply. */
    ghost var failed: Option<string>
    ghost var finishes: seq<Finish>

    /** The state saved at a conflict. */
    ghost predicate StateOk(st: ApplyState) {
      && st.index < |series|
      && st.applied == series[..st.index]
      && st.skipped == []
      && st.conflicted == series[st.index]
      && Consistent(meta, st.autoResolved)
    }

    /**
     * With the resolution given up, so that the patch stopped at is not on the branch, a resume takes it for committed
     * exactly when the id of the patch before it begins like its own.
     */
    lemma GivenUpPassesIff(st: ApplyState)
      requires StateOk(st) && commits == series[..st.index]
      requires HasId(meta, st.conflicted)
      ensures HeadCarries(meta, commits, st.conflicted) <==>
              st.index > 0 && BeginsLike(meta, series[st.index - 1], st.conflicted)
    {}

    /** So a saved state can be resumed past its own patch: "b" was given up, but the id of "a" begins like its own. */
    lemma SkippedPatchPasses(st: ApplyState)
      requires series == ["a", "b"] && st == ApplyState(1, ["a"], [], "b", false, [])
      requires meta == map["a" := Entry(Some("core-two"), true, [], None), "b" := Entry(Some("core"), true, [], None)]
      requires saved == Some(st) && am.None? && commits == ["a"] && finishes == []
      ensures StateOk(st) && Valid()
      ensures "b" !in commits && HeadCarries(meta, commits, st.conflicted)
    {
      assert series[..1] == ["a"] && "core" <= "core-two";
      assert BeginsLike(meta, series[0], series[1]);
      GivenUpPassesIff(st);
      assert HasId(meta, series[1]) && !TellsApart(series, meta, 1);
      assert !TrailersTellApart(series, meta);
    }

    /** The branch holds a stretch of the series reaching at least up to the conflict, all of it accounted for. */
    ghost predicate BranchOk(st: ApplyState) reads `commits, `am, `byResolver {
      && st.index <= |commits| <= |series|
      && commits == series[..|commits|]
      && (am.Some? ==> |commits| == st.index)
      && (|commits| <= st.index + 1 ==> Recorded(st.autoResolved, byResolver))
    }

    /** What holds every time the tail is reached. */
    ghost predicate GoodFinish(f: Finish) {
      && f.applied + f.skipped == series
      && AllNonCritical(f.skipped, meta)
      && Covered(meta, f.records, f.verified)
      && (TrailersTellApart(series, meta) ==> f.commits == f.applied && Recorded(f.records, f.byResolver))
    }

    /** What holds between any two commands, whatever the maintainer does with an `am` in progress. */
    ghost predicate Valid() reads this {
      && (am.Some? ==> saved.Some? && am.value == saved.value.conflicted)
      && (saved.Some? ==> StateOk(saved.value))
      && (saved.Some? && TrailersTellApart(series, meta) ==> BranchOk(saved.value))
      && (forall f | f in finishes :: GoodFinish(f))
    }

    constructor (series: seq<string>, meta: Manifest)
      ensures Valid() && this.series == series && this.meta == meta && finishes == []
    {
      this.series, this.meta := series, meta;
      commits, am, saved, byResolver, failed, finishes := [], None, None, {}, None, [];
    }

    // ---- git ----

    /** A patch applies, or is left in progress with a conflict, or is not taken up at all. */
    method GitAm(patch: string) returns (ok: bool)
      requires am.None?
      modifies `commits, `am, `failed
      ensures ok ==> commits == old(commits) + [patch] && am.None?
      ensures failed == if ok then None else Some(patch)
      ensures !ok ==> commits == old(commits) && (am.None? || am == Some(patch))
    {
      ok := *;
      failed := if ok then None else Some(patch);
      if ok {
        commits := commits + [patch];
      } else if * {
        am := Some(patch);
      }
    }

    method ContinueAm() returns (ok: bool)
      modifies `commits, `am
      ensures ok ==> old(am).Some? && commits == old(commits) + [old(am).value] && am.None?
      ensures !ok ==> commits == old(commits) && am == old(am)
    {
      ok := *;
      if am.None? {
        ok := false;
      }
      if ok {
        commits, am := commits + [am.value], None;
      }
    }

    /** The maintainer finishes or gives up the `am` in progress by hand. */
    method MaintainerActs()
      requires Valid()
      modifies `commits, `am
      ensures Valid()
    {
      if * {
        var ok := ContinueAm();
        assert ok ==> |commits| == |old(commits)| + 1;
      } else {
        am := None;
      }
    }

    // ---- apply ----

    /** Settle a conflict without a human: from a recording if git has one, else by the resolver where it may run. */
    method AttemptAutoResolve(patch: string, allowAi: bool) returns (record: Option<Record>)
      requires am.None? || am == Some(patch)
      modifies `commits, `am, `byResolver
      ensures record.None? ==> commits == old(commits) && am == old(am) && byResolver == old(byResolver)
      ensures record.Some? ==> commits == old(commits) + [patch] && am.None?
      ensures record.Some? ==> record.value.patch == patch && Consistent(meta, [record.value])
      ensures record.Some? ==> byResolver == if record.value.ai then old(byResolver) + {patch} else old(byResolver)
      ensures record.Some? && record.value.ai ==> allowAi
    {
      var entry := EntryOf(meta, patch);
      var pending: bool := *;
      if pending {
        if !allowAi || !ResolverAllowed(entry) {
          return None;
        }
        var resolved: bool := *;
        if !resolved {
          return None;
        }
      }
      var unmerged: bool := *;
      if unmerged {
        return None;
      }
      var ok := ContinueAm();
      if !ok {
        return None;
      }
      if pending {
        byResolver := byResolver + {patch};
      }
      record := Some(Record(patch, pending, pending && entry.contracts == []));
    }

    /** The patch and everything behind it are skipped. */
    method SkipRest(idx: nat) returns (skipped: seq<string>)
      requires idx < |series|
      ensures skipped == series[idx..]
    {
      skipped := [series[idx]];
      for j := idx + 1 to |series|
        invariant skipped == series[idx..j]
      {
        skipped := skipped + [series[j]];
      }
    }

    lemma SeriesGrows(start: nat, idx: nat)
      requires start <= idx < |series|
      ensures series[..idx] + [series[idx]] == series[..idx + 1]
      ensures series[start..idx] + [series[idx]] == series[start..idx + 1]
    {}

    /**
     * Work through the series from `start`.  None: the series is used up, its end applied or skipped.  3: stopped at
     * a conflict, saved if it is to be kept.  1: a patch file is missing.
     */
    method ApplySeries(start: nat, applied0: seq<string>, keepConflict: bool, autoResolve: bool, records0: seq<Record>)
      returns (rc: Option<int>, applied: seq<string>, skipped: seq<string>, records: seq<Record>)
      requires start <= |series| && applied0 == series[..start] && am.None?
      requires Consistent(meta, records0)
      modifies `commits, `am, `saved, `byResolver, `failed
      ensures start <= |applied| <= |series| && applied == series[..|applied|]
      ensures commits == old(commits) + series[start..|applied|]
      ensures Consistent(meta, records)
      ensures Recorded(records0, old(byResolver)) ==> Recorded(records, byResolver)
      ensures |applied| == start ==> records == records0 && byResolver == old(byResolver)
      ensures rc.None? ==> applied + skipped == series && AllNonCritical(skipped, meta)
      ensures rc.None? || rc == Some(1) || (rc == Some(3) && !keepConflict) ==> saved == old(saved) && am.None?
      ensures rc.Some? ==> rc.value == 1 || rc.value == 3
      ensures rc == Some(3) ==> |applied| < |series| && failed == Some(series[|applied|])
      ensures rc.None? && skipped != [] ==> failed == Some(skipped[0])
      ensures rc.None? ==> forall p | p in skipped :: p in meta && !meta[p].critical
      ensures rc == Some(3) ==>
                exists j | |applied| <= j < |series| :: series[j] !in meta || meta[series[j]].critical
      ensures rc == Some(3) && keepConflict ==>
                && saved == Some(ApplyState(|applied|, applied, [], series[|applied|], autoResolve, records))
                && (am.None? || am == Some(series[|applied|]))
    {
      hide Consistent, Recorded, ResolverAllowed;
      rc, applied, skipped, records := None, applied0, [], records0;
      for idx := start to |series|
        invariant applied == series[..idx] && skipped == [] && am.None?
        invariant commits == old(commits) + series[start..idx]
        invariant Consistent(meta, records)
        invariant Recorded(records0, old(byResolver)) ==> Recorded(records, byResolver)
        invariant idx == start ==> records == records0 && byResolver == old(byResolver)
        invariant saved == old(saved)
      {
        SeriesGrows(start, idx);
        var patch := series[idx];
        var present: bool := *;
        if !present {
          return Some(1), applied, skipped, records;
        }
        var ok := GitAm(patch);
        if ok {
          applied := applied + [patch];
          continue;
        }
        var skippable := false;
        if !EntryOf(meta, patch).critical {
          skippable := IsTrailingSkippable(series, idx, meta);
        }
        var record := AttemptAutoResolve(patch, autoResolve);
        if record.Some? {
          RecordAdded(meta, records, record.value, byResolver, patch);
          applied := applied + [patch];
          records := records + [record.value];
          continue;
        }
        if !skippable {
          if keepConflict {
            saved := Some(ApplyState(idx, applied, skipped, patch, autoResolve, records));
          } else {
            am := None;
          }
          return Some(3), applied, skipped, records;
        }
        am := None;
        skipped := SkipRest(idx);
        assert series[..idx] + series[idx..] == series;
        return None, applied, skipped, records;
      }
    }

    /** The tail of an apply; it fails when the lock policy does. */
    method FinishApply(applied: seq<string>, skipped: seq<string>, records: seq<Record>, ghost verified: set<string>)
      returns (rc: int)
      modifies `saved, `finishes
      ensures rc == 0 || rc == 1
      ensures finishes == old(finishes) + [Finish(applied, skipped, records, verified, commits, byResolver)]
      ensures saved == if rc == 0 then None else old(saved)
    {
      finishes := finishes + [Finish(applied, skipped, records, verified, commits, byResolver)];
      var policyHolds: bool := *;
      if !policyHolds {
        return 1;
      }
      saved := None;
      return 0;
    }

    /** Gate and tail, the same for a first run and a resumed one. */
    method Conclude(applied: seq<string>, skipped: seq<string>, records: seq<Record>) returns (rc: int)
      requires Valid() && am.None?
      requires applied + skipped == series && AllNonCritical(skipped, meta) && Consistent(meta, records)
      requires TrailersTellApart(series, meta) ==> commits == applied && Recorded(records, byResolver)
      modifies `saved, `finishes
      ensures Valid()
      ensures rc == 0 || rc == 1 || rc == 3
      ensures old(finishes) <= finishes
      ensures rc == 0 ==> saved.None? && |finishes| > |old(finishes)| && finishes[|finishes| - 1].skipped == skipped
      ensures rc != 0 ==> saved == old(saved)
    {
      hide TrailersTellApart, AllNonCritical, Consistent, Covered, Recorded, StateOk, BranchOk;
      ghost var verified: set<string>;
      rc, verified := VerifyAutoResolved(meta, records);
      if rc != 0 {
        return;
      }
      GateIsSound(meta, records);
      rc := FinishApply(applied, skipped, records, verified);
    }

    /** See the conflict resolved and committed, by `git am --continue` or by the maintainer before. */
    method ConfirmResolved(st: ApplyState) returns (confirmed: bool)
      requires Valid() && saved == Some(st)
      modifies `commits, `am
      ensures Valid()
      ensures confirmed ==> am.None?
      ensures confirmed && TrailersTellApart(series, meta) ==>
                commits == series[..st.index + 1] && Recorded(st.autoResolved, byResolver)
    {
      hide TrailersTellApart, Recorded, HeadCarries;
      if am.Some? {
        var unresolved: bool := *;
        if unresolved {
          return false;
        }
        var ok := ContinueAm();
        if !ok {
          return false;
        }
        assert series[..st.index] + [series[st.index]] == series[..st.index + 1];
      }
      confirmed := HeadCarries(meta, commits, st.conflicted);
      if confirmed && TrailersTellApart(series, meta) {
        HeadCheckIsExact(series, meta, st.index, |commits|);
      }
    }

    /** Take up an interrupted apply. */
    method CmdApplyContinue() returns (rc: int)
      requires Valid()
      modifies `commits, `am, `saved, `byResolver, `failed, `finishes
      ensures Valid() && old(finishes) <= finishes
      ensures rc == 0 || rc == 1 || rc == 3 || rc == 4
      ensures rc == 0 || rc == 4 ==> saved.None? && |finishes| > |old(finishes)|
      ensures rc == 0 ==> finishes[|finishes| - 1].skipped == []
      ensures rc == 4 ==> finishes[|finishes| - 1].skipped != []
    {
      if saved.None? {
        return 1;
      }
      var st := saved.value;
      var onBranch: bool := *;
      if !onBranch {
        return 1;
      }
      var confirmed := ConfirmResolved(st);
      if !confirmed {
        return 3;
      }
      rc := RunSeries(st.index + 1, st.applied + [st.conflicted], true, st.autoResolve, st.autoResolved);
    }

    /** From a point of the series to the end: what a first run and a resumed one have in common. */
    method RunSeries(start: nat, applied0: seq<string>, keepConflict: bool, autoResolve: bool, records0: seq<Record>)
      returns (rc: int)
      requires Valid() && am.None?
      requires start <= |series| && applied0 == series[..start] && Consistent(meta, records0)
      requires TrailersTellApart(series, meta) ==> commits == applied0 && Recorded(records0, byResolver)
      requires saved.Some? ==> keepConflict && start == saved.value.index + 1 && records0 == saved.value.autoResolved
      modifies `commits, `am, `saved, `byResolver, `failed, `finishes
      ensures Valid() && old(finishes) <= finishes
      ensures rc == 0 || rc == 1 || rc == 3 || rc == 4
      ensures rc == 0 || rc == 4 ==> saved.None? && |finishes| > |old(finishes)|
      ensures rc == 0 ==> finishes[|finishes| - 1].skipped == []
      ensures rc == 4 ==> finishes[|finishes| - 1].skipped != []
      ensures !keepConflict && old(saved).None? ==> saved.None?
    {
      hide TrailersTellApart, AllNonCritical, Consistent, Recorded, GoodFinish;
      ghost var before := saved;
      var stop: Option<int>;
      var applied, skipped: seq<string>;
      var records: seq<Record>;
      stop, applied, skipped, records := ApplySeries(start, applied0, keepConflict, autoResolve, records0);
      assert series[..start] + series[start..|applied|] == series[..|applied|];
      if stop.Some? {
        return stop.value;
      }
      rc := Conclude(applied, skipped, records);
      if rc == 0 && skipped != [] {
        rc := 4;
      }
    }

    /**
     * A first run, on a new branch; an interrupted one is given up only by force.  A run of the contracts at the end
     * answers 0, 1 or 2, or less than 0 where a signal ended it.
     */
    method CmdApply(force: bool, keepConflict: bool, autoResolve: bool, verify: bool) returns (rc: int)
      requires Valid()
      modifies this
      ensures Valid() && old(finishes) <= finishes
      ensures old(saved).Some? && !force ==> rc == 1 && saved == old(saved) && commits == old(commits)
      ensures rc == 0 ==> |finishes| > |old(finishes)| && finishes[|finishes| - 1].skipped == []
      ensures rc == 4 ==> |finishes| > |old(finishes)| && finishes[|finishes| - 1].skipped != []
      ensures rc <= 4 && (!verify ==> rc >= 0)
      ensures !keepConflict && (force || old(saved).None?) ==> saved.None?
    {
      if saved.Some? {
        if !force {
          return 1;
        }
        am, saved := None, None;
      }
      var upstreamGiven: bool := *;
      if !upstreamGiven {
        return 2;
      }
      var refused: bool := *;
      if series == [] || refused {
        return 1;
      }
      commits, byResolver := [], {};
      rc := RunSeries(0, [], keepConflict, autoResolve, []);
      if (rc == 0 || rc == 4) && verify {
        var verified :| verified <= 2;
        if verified != 0 {
          rc := verified;
        }
      }
    }

    /**
     * Any number of commands and interventions in any order.  Each time the tail of an apply is reached, applied and
     * skipped together are the series, only non-critical patches are skipped, the gate covers every record and, if
     * trailers tell the patches apart, the branch holds just what is reported.
     */
    method Session(turns: nat)
      requires Valid()
      modifies this
      ensures Valid() && forall f | f in finishes :: GoodFinish(f)
    {
      for turn := 0 to turns
        invariant Valid()
      {
        if
        case true =>
          var force: bool, keep: bool, auto: bool, verify: bool := *, *, *, *;
          var rc := CmdApply(force, keep, auto, verify);
        case true =>
          var rc := CmdApplyContinue();
        case true =>
          MaintainerActs();
      }
    }
  }
}
