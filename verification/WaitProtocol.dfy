/**
 * The wait protocol of a terminal session: the feeder task, `resize` and any number of waiters share the terminal
 * grid behind a lock and a generation counter that wakes parked waiters.  Every party is broken into the steps
 * between which another party can act; a run is any sequence of steps that are possible where they occur.
 */
module WaitProtocol {
  import opened Sequences

  /** What the regex engine answers for a pattern and a text. */
  const REGEX_MATCHES: (string, string) -> bool

  datatype Condition = Text(needle: string) | Regex(pattern: string) | Gone(needle: string)

  predicate Met(condition: Condition, screen: string) {
    match condition
    case Text(needle) => Contains(screen, needle)
    case Regex(pattern) => REGEX_MATCHES(pattern, screen)
    case Gone(needle) => !Contains(screen, needle)
  }

  /** The feeder waits for output, feeds under the lock, owes a bump once the lock is free again, or is gone. */
  datatype Feeder = Receiving | Feeding | BumpDue | Exited

  /** `resize` holds the lock from `Locked` to `Finished`; it holds a strong sender in `Upgraded` and `Bumped`. */
  datatype Resizer = Idle | Locked | Resized | Upgraded | Bumped | Finished

  datatype Outcome = Matched | TimedOut(screen: string, generation: nat, ended: bool)

  /**
   * A waiter is about to mark the generation seen, about to check, parked, about to take its snapshot, about to read
   * the generation to report with it, or done.
   */
  datatype Phase =
    | Looping | Marked | Parked
    | Ending(ended: bool) | Reading(screen: string, ended: bool) | Returned(outcome: Outcome)

  /**
   * `seen` is the generation the receiver last marked.  The remaining fields only record history: `checkedAt` and
   * `snapshotAt` which screen the last check and the snapshot saw, `silentSeen` the silent changes before that check,
   * `owed` the bumps owed and the silent changes made since, when the reported generation was read.
   */
  datatype Waiter = Waiter(condition: Condition, phase: Phase, seen: nat,
                           silentSeen: nat, checkedAt: nat, snapshotAt: nat, owed: nat)

  /**
   * `screens` records every screen shown so far, the current one last; `silent` counts the grid changes that were
   * never followed by a bump because no sender was left.
   */
  datatype State = State(screens: seq<string>, generation: nat, feeder: Feeder, resizer: Resizer,
                         silent: nat, waiters: seq<Waiter>)

  datatype Step =
    | Feed(screen: string) | UnlockFeed | BumpFeed | ExitFeed
    | LockResize | FailResize | ResizeGrid(screen: string) | Upgrade | BumpResize | DropSender | UnlockResize
    | Mark(waiter: nat) | Check(waiter: nat) | Wake(waiter: nat) | SeeEnd(waiter: nat)
    | Deadline(waiter: nat) | Snapshot(waiter: nat) | ReadGeneration(waiter: nat)

  predicate LockFree(s: State) {
    !s.feeder.Feeding? && s.resizer.Idle?
  }

  /** The channel is closed once the feeder is gone and no resize holds an upgraded sender. */
  predicate Closed(s: State) {
    s.feeder.Exited? && !s.resizer.Upgraded? && !s.resizer.Bumped?
  }

  function Init(screen: string, conditions: seq<Condition>): State {
    State([screen], 0, Receiving, Idle, 0,
          seq(|conditions|, i requires 0 <= i < |conditions| => Waiter(conditions[i], Looping, 0, 0, 0, 0, 0)))
  }

  function Current(s: State): string
    requires s.screens != []
  {
    s.screens[|s.screens| - 1]
  }

  /** One step, or None where the step is not possible. */
  function Do(s: State, step: Step): (r: Option<State>)
    requires s.screens != []
    ensures r.Some? ==> s.screens <= r.value.screens && |r.value.waiters| == |s.waiters|
  {
    match step
    case Feed(screen) =>
      if s.feeder.Receiving? && LockFree(s) then Some(s.(feeder := Feeding, screens := s.screens + [screen])) else None
    case UnlockFeed =>
      if s.feeder.Feeding? then Some(s.(feeder := BumpDue)) else None
    case BumpFeed =>
      if s.feeder.BumpDue? then Some(s.(feeder := Receiving, generation := s.generation + 1)) else None
    case ExitFeed =>
      if s.feeder.Receiving? then Some(s.(feeder := Exited)) else None
    case LockResize =>
      if LockFree(s) then Some(s.(resizer := Locked)) else None
    case FailResize =>
      if s.resizer.Locked? then Some(s.(resizer := Idle)) else None
    case ResizeGrid(screen) =>
      if s.resizer.Locked? then Some(s.(resizer := Resized, screens := s.screens + [screen])) else None
    case Upgrade =>
      if !s.resizer.Resized? then None
      else if s.feeder.Exited? then Some(s.(resizer := Finished, silent := s.silent + 1))
      else Some(s.(resizer := Upgraded))
    case BumpResize =>
      if s.resizer.Upgraded? then Some(s.(resizer := Bumped, generation := s.generation + 1)) else None
    case DropSender =>
      if s.resizer.Bumped? then Some(s.(resizer := Finished)) else None
    case UnlockResize =>
      if s.resizer.Finished? then Some(s.(resizer := Idle)) else None
    case _ =>
      if step.waiter >= |s.waiters| then None
      else
        var moved := DoWaiter(s, step, s.waiters[step.waiter]);
        if moved.None? then None else Some(s.(waiters := s.waiters[step.waiter := moved.value]))
  }

  /** What a step of a waiter makes of it.  A check and a snapshot need the lock; waking marks the generation seen. */
  function DoWaiter(s: State, step: Step, w: Waiter): Option<Waiter>
    requires s.screens != []
  {
    var now := |s.screens| - 1;
    match step
    case Mark(_) =>
      if w.phase.Looping? then Some(w.(phase := Marked, seen := s.generation)) else None
    case Check(_) =>
      if !w.phase.Marked? || !LockFree(s) then None
      else
        var phase := if Met(w.condition, s.screens[now]) then Returned(Matched) else Parked;
        Some(w.(phase := phase, checkedAt := now, silentSeen := s.silent))
    case Wake(_) =>
      if w.phase.Parked? && w.seen != s.generation then Some(w.(phase := Looping, seen := s.generation)) else None
    case SeeEnd(_) =>
      if w.phase.Parked? && w.seen == s.generation && Closed(s) then Some(w.(phase := Ending(true))) else None
    case Deadline(_) =>
      if w.phase.Parked? then Some(w.(phase := Ending(false))) else None
    case Snapshot(_) =>
      if w.phase.Ending? && LockFree(s)
      then Some(w.(phase := Reading(s.screens[now], w.phase.ended), snapshotAt := now))
      else None
    case ReadGeneration(_) =>
      if !w.phase.Reading? then None
      else
        var silentSince := if s.silent > w.silentSeen then s.silent - w.silentSeen else 0;
        Some(w.(phase := Returned(TimedOut(w.phase.screen, s.generation, w.phase.ended)),
                owed := Pending(s) + silentSince))
    case _ => None
  }

  function Run(s: State, steps: seq<Step>): Option<State>
    requires s.screens != []
    decreases |steps|
  {
    if steps == [] then Some(s)
    else
      var next := Do(s, steps[0]);
      if next.None? then None else Run(next.value, steps[1..])
  }

  /** The grid changes whose bump is still owed. */
  function Pending(s: State): nat {
    (if s.feeder.Feeding? || s.feeder.BumpDue? then 1 else 0)
    + (if s.resizer.Resized? || s.resizer.Upgraded? then 1 else 0)
  }

  predicate Inv(s: State) {
    && |s.screens| == 1 + s.generation + Pending(s) + s.silent
    && (s.silent > 0 ==> s.feeder.Exited?)
    && (s.feeder.Feeding? ==> s.resizer.Idle?)
    && forall w | w in s.waiters :: WaiterInv(s, w)
  }

  predicate WaiterInv(s: State, w: Waiter)
    requires s.screens != []
  {
    && w.seen <= s.generation
    && w.silentSeen <= s.silent
    && (w.phase.Parked? || w.phase.Ending? || w.phase.Reading? || w.phase.Returned? ==>
          && w.seen + w.silentSeen <= w.checkedAt < |s.screens|
          && w.checkedAt <= w.silentSeen + s.generation + (if s.feeder.BumpDue? then 1 else 0)
          && (Met(w.condition, s.screens[w.checkedAt]) <==> w.phase == Returned(Matched)))
    && (w.phase.Reading? ==> SnapshotInv(s, w, w.phase.screen))
    && (w.phase.Returned? && w.phase.outcome.TimedOut? ==>
          && SnapshotInv(s, w, w.phase.outcome.screen)
          && w.seen <= w.phase.outcome.generation <= s.generation
          && w.snapshotAt <= w.phase.outcome.generation + w.silentSeen + w.owed)
    && (Ended(w) ==> Closed(s) && w.seen == s.generation)
    && (Ended(w) && !w.phase.Ending? ==> w.snapshotAt <= s.generation + s.silent)
  }

  predicate SnapshotInv(s: State, w: Waiter, screen: string) {
    w.checkedAt <= w.snapshotAt < |s.screens| && screen == s.screens[w.snapshotAt]
  }

  /** The waiter has found the channel closed. */
  predicate Ended(w: Waiter) {
    || (w.phase.Ending? && w.phase.ended)
    || (w.phase.Reading? && w.phase.ended)
    || EndedOutcome(w)
  }

  predicate EndedOutcome(w: Waiter) {
    w.phase.Returned? && w.phase.outcome.TimedOut? && w.phase.outcome.ended
  }

  /** A waiter keeps its invariant while the others move the shared state on. */
  lemma WaiterUndisturbed(s: State, step: Step, t: State, w: Waiter)
    requires Inv(s) && Do(s, step) == Some(t) && t.screens != []
    requires WaiterInv(s, w)
    ensures WaiterInv(t, w)
  {
    hide Met;
    assert |t.screens| >= |s.screens| && t.screens[..|s.screens|] == s.screens;
    if w.checkedAt < |s.screens| {
      assert t.screens[w.checkedAt] == s.screens[w.checkedAt];
    }
    if w.snapshotAt < |s.screens| {
      assert t.screens[w.snapshotAt] == s.screens[w.snapshotAt];
    }
  }

  lemma StepKeepsInv(s: State, step: Step, t: State)
    requires Inv(s) && Do(s, step) == Some(t)
    ensures Inv(t)
  {
    hide Met, WaiterInv;
    assert |t.screens| == 1 + t.generation + Pending(t) + t.silent;
    forall w | w in t.waiters ensures WaiterInv(t, w) {
      if w in s.waiters {
        WaiterUndisturbed(s, step, t, w);
      } else {
        WaiterMoves(s, step, s.waiters[step.waiter], w);
      }
    }
  }

  lemma WaiterMoves(s: State, step: Step, w: Waiter, moved: Waiter)
    requires Inv(s) && w in s.waiters && DoWaiter(s, step, w) == Some(moved)
    ensures forall t: State | t == s.(waiters := t.waiters) :: WaiterInv(t, moved)
  {
    hide Met;
    assert WaiterInv(s, w);
  }

  /** The invariant holds after every run of every session. */
  lemma {:induction false} RunKeepsInv(s: State, steps: seq<Step>)
    requires Inv(s)
    ensures Run(s, steps).Some? ==> Inv(Run(s, steps).value)
    decreases |steps|
  {
    if steps != [] {
      var next := Do(s, steps[0]);
      if next.Some? {
        StepKeepsInv(s, steps[0], next.value);
        RunKeepsInv(next.value, steps[1..]);
      }
    }
  }

  ghost predicate Reachable(s: State) {
    exists screen, conditions, steps :: Run(Init(screen, conditions), steps) == Some(s)
  }

  lemma ReachableIsInvariant(s: State)
    requires Reachable(s)
    ensures Inv(s)
  {
    var screen, conditions, steps :| Run(Init(screen, conditions), steps) == Some(s);
    RunKeepsInv(Init(screen, conditions), steps);
  }

  /**
   * No lost wake-up: while the feeder is alive, a parked waiter that has seen the current generation, with no bump
   * owed by anyone, has already checked the current screen and found its condition false.
   */
  lemma NoLostWakeUp(s: State, w: Waiter)
    requires Reachable(s) && w in s.waiters
    requires !s.feeder.Exited?
    requires w.phase.Parked? && w.seen == s.generation && Pending(s) == 0
    ensures s.screens != []
    ensures w.checkedAt == |s.screens| - 1
    ensures !Met(w.condition, Current(s))
  {
    ReachableIsInvariant(s);
    assert WaiterInv(s, w);
  }

  /**
   * Seen from the other side: when a parked waiter's condition holds on the current screen, a bump is owed or its
   * wake-up step is possible.
   */
  lemma MetConditionWakes(s: State, i: nat)
    requires Reachable(s) && i < |s.waiters| && s.waiters[i].phase.Parked? && !s.feeder.Exited?
    requires s.screens != [] && Met(s.waiters[i].condition, Current(s))
    ensures Pending(s) > 0 || Do(s, Wake(i)).Some?
  {
    if Pending(s) == 0 && s.waiters[i].seen == s.generation {
      NoLostWakeUp(s, s.waiters[i]);
    }
  }

  /** And once the bumps are paid and the lock is free, the waiter by itself goes on to report the match. */
  lemma WokenWaiterMatches(s: State, i: nat)
    requires Reachable(s) && i < |s.waiters| && s.waiters[i].phase.Parked? && !s.feeder.Exited?
    requires s.screens != [] && Met(s.waiters[i].condition, Current(s))
    requires Pending(s) == 0 && LockFree(s)
    ensures var end := Run(s, [Wake(i), Mark(i), Check(i)]);
            end.Some? && |end.value.waiters| > i && end.value.waiters[i].phase == Returned(Matched)
  {
    hide Met, Reachable;
    MetConditionWakes(s, i);
    var woken := Do(s, Wake(i)).value;
    var marked := Do(woken, Mark(i)).value;
    var checked := Do(marked, Check(i)).value;
    calc {
      Run(s, [Wake(i), Mark(i), Check(i)]);
      { assert [Wake(i), Mark(i), Check(i)][1..] == [Mark(i), Check(i)]; }
      Run(woken, [Mark(i), Check(i)]);
      { assert [Mark(i), Check(i)][1..] == [Check(i)]; }
      Run(marked, [Check(i)]);
      Run(checked, []);
    }
  }

  /** A match is never spurious: some screen shown since the last mark met the condition. */
  lemma MatchedWasMet(s: State, w: Waiter)
    requires Reachable(s) && w in s.waiters && w.phase == Returned(Matched)
    ensures w.seen + w.silentSeen <= w.checkedAt < |s.screens| && Met(w.condition, s.screens[w.checkedAt])
  {
    ReachableIsInvariant(s);
    assert WaiterInv(s, w);
  }

  /** The last check before an ended outcome saw the final screen exactly when no silent change came after it. */
  lemma EndedSawFinalScreenIff(s: State, w: Waiter)
    requires Reachable(s) && w in s.waiters && EndedOutcome(w) && LockFree(s)
    ensures w.checkedAt == |s.screens| - 1 <==> w.silentSeen == s.silent
  {
    ReachableIsInvariant(s);
    assert WaiterInv(s, w);
  }

  /**
   * So without a resize after the last sender was gone an ended outcome is right: neither the screen reported with
   * it nor the screen now shown meets the condition.
   */
  lemma EndedMeansNeverMet(s: State, w: Waiter)
    requires Reachable(s) && w in s.waiters && EndedOutcome(w) && LockFree(s)
    requires w.silentSeen == s.silent
    ensures !Met(w.condition, w.phase.outcome.screen)
    ensures s.screens != [] && !Met(w.condition, Current(s))
  {
    hide Met, Reachable;
    ReachableIsInvariant(s);
    assert WaiterInv(s, w);
  }

  /** After the channel has closed the screen changes only silently, and the generation never. */
  lemma {:induction false} ClosedIsFinal(s: State, steps: seq<Step>, t: State)
    requires Inv(s) && Closed(s) && Run(s, steps) == Some(t)
    ensures Inv(t) && Closed(t) && t.generation == s.generation
    ensures |t.screens| - |s.screens| == t.silent - s.silent + Pending(t) - Pending(s)
    decreases |steps|
  {
    if steps != [] {
      var next := Do(s, steps[0]).value;
      StepKeepsInv(s, steps[0], next);
      ClosedIsFinal(next, steps[1..], t);
    }
  }

  lemma {:induction false} RunThen(s: State, steps: seq<Step>, mid: State, step: Step, t: State)
    requires s.screens != [] && Run(s, steps) == Some(mid)
    requires mid.screens != [] && Do(mid, step) == Some(t)
    ensures Run(s, steps + [step]) == Some(t)
    decreases |steps|
  {
    if steps == [] {
      assert (steps + [step])[1..] == [];
      assert Run(t, []) == Some(t);
    } else {
      assert (steps + [step])[1..] == steps[1..] + [step];
      RunThen(Do(s, steps[0]).value, steps[1..], mid, step, t);
    }
  }

  /** Extend a run by one possible step. */
  lemma Take(s: State, step: Step) returns (t: State)
    requires Reachable(s) && s.screens != [] && Do(s, step).Some?
    ensures Do(s, step) == Some(t) && Reachable(t)
  {
    hide Do;
    t := Do(s, step).value;
    var screen, conditions, steps :| Run(Init(screen, conditions), steps) == Some(s);
    RunThen(Init(screen, conditions), steps, s, step, t);
  }

  /** A waiter for "b" on a screen that reads "a", parked after its first check. */
  lemma ParkedOnA() returns (s: State)
    ensures Reachable(s)
    ensures s.screens == ["a"] && s.generation == 0 && s.feeder.Receiving? && s.resizer.Idle? && s.silent == 0
    ensures s.waiters == [Waiter(Text("b"), Parked, 0, 0, 0, 0, 0)]
  {
    s := Init("a", [Text("b")]);
    assert Run(s, []) == Some(s);
    assert !Contains("a", "b") by {
      assert "a"[0..][0] != "b"[0];
    }
    s := Take(s, Mark(0));
    s := Take(s, Check(0));
  }

  /** A resize after the feeder's exit shows the text waited for, and yet the wait ends as if it could not come. */
  lemma EndedCanBeWrong() returns (s: State)
    ensures Reachable(s)
    ensures s.screens == ["a", "b"] && Met(Text("b"), Current(s))
    ensures |s.waiters| == 1 && s.waiters[0].condition == Text("b")
    ensures s.waiters[0].phase == Returned(TimedOut("b", 0, true))
  {
    hide Reachable;
    s := ParkedOnA();
    s := Take(s, ExitFeed);
    s := Take(s, LockResize);
    s := Take(s, ResizeGrid("b"));
    s := Take(s, Upgrade);
    s := Take(s, UnlockResize);
    s := Take(s, SeeEnd(0));
    s := Take(s, Snapshot(0));
    s := Take(s, ReadGeneration(0));
    assert Contains("b", "b");
  }

  // ---- which screen a timeout reports ----

  predicate ChangesGrid(step: Step) {
    step.Feed? || step.ResizeGrid?
  }

  function GridChanges(steps: seq<Step>): nat {
    if steps == [] then 0
    else GridChanges(steps[..|steps| - 1]) + (if ChangesGrid(steps[|steps| - 1]) then 1 else 0)
  }

  /** Where a step was last taken. */
  function LastAt(steps: seq<Step>, step: Step): (r: nat)
    requires step in steps
    ensures r < |steps| && steps[r] == step && forall j | r < j < |steps| :: steps[j] != step
  {
    if steps[|steps| - 1] == step then |steps| - 1 else LastAt(steps[..|steps| - 1], step)
  }

  lemma {:induction false} GridChangesBetween(steps: seq<Step>, lo: nat, hi: nat)
    requires lo <= hi <= |steps|
    ensures GridChanges(steps[..lo]) <= GridChanges(steps[..hi])
    ensures GridChanges(steps[..lo]) == GridChanges(steps[..hi]) <==>
            forall j | lo <= j < hi :: !ChangesGrid(steps[j])
    decreases hi
  {
    if lo < hi {
      GridChangesBetween(steps, lo, hi - 1);
      assert steps[..hi][..hi - 1] == steps[..hi - 1];
    }
  }

  /** A run without its last step is a run. */
  lemma {:induction false} RunCut(s: State, steps: seq<Step>, t: State) returns (mid: State)
    requires s.screens != [] && steps != [] && Run(s, steps) == Some(t)
    ensures mid.screens != [] && Run(s, steps[..|steps| - 1]) == Some(mid) && Do(mid, steps[|steps| - 1]) == Some(t)
    decreases |steps|
  {
    var n := |steps| - 1;
    if n == 0 {
      mid := s;
    } else {
      mid := RunCut(Do(s, steps[0]).value, steps[1..], t);
      assert steps[..n][1..] == steps[1..][..n - 1];
    }
  }

  lemma {:induction false} ScreensCounted(s: State, steps: seq<Step>, t: State)
    requires s.screens != [] && Run(s, steps) == Some(t)
    ensures |t.screens| == |s.screens| + GridChanges(steps) && |t.waiters| == |s.waiters|
  {
    if steps != [] {
      var mid := RunCut(s, steps, t);
      ScreensCounted(s, steps[..|steps| - 1], mid);
    }
  }

  predicate HasChecked(w: Waiter) {
    !w.phase.Looping? && !w.phase.Marked?
  }

  predicate HasSnapshot(w: Waiter) {
    w.phase.Reading? || (w.phase.Returned? && w.phase.outcome.TimedOut?)
  }

  /** What a waiter records is where, in the run, its last check and its snapshot were made. */
  ghost predicate PlacedInRun(steps: seq<Step>, i: nat, w: Waiter) {
    && (HasChecked(w) ==>
          && Check(i) in steps
          && w.checkedAt == GridChanges(steps[..LastAt(steps, Check(i))]))
    && (HasSnapshot(w) ==>
          && Check(i) in steps && Snapshot(i) in steps
          && LastAt(steps, Check(i)) < LastAt(steps, Snapshot(i))
          && w.snapshotAt == GridChanges(steps[..LastAt(steps, Snapshot(i))]))
  }

  /** A step's last place after one more step: there if it is that step, and where it was if it is another. */
  lemma LastPlace(steps: seq<Step>, last: Step, step: Step)
    ensures var more := steps + [last];
            && (last == step ==> step in more && LastAt(more, step) == |steps| && more[..|steps|] == steps)
            && (last != step && step in steps ==>
                  && step in more && LastAt(more, step) == LastAt(steps, step)
                  && more[..LastAt(steps, step)] == steps[..LastAt(steps, step)])
  {
    var more := steps + [last];
    assert more[..|steps|] == steps && more[|steps|] == last && last in more;
  }

  lemma WaiterAfter(s: State, step: Step, t: State, i: nat)
    requires s.screens != [] && i < |s.waiters| && Do(s, step) == Some(t)
    ensures |t.waiters| == |s.waiters|
    ensures t.waiters[i] == s.waiters[i] || DoWaiter(s, step, s.waiters[i]) == Some(t.waiters[i])
    ensures forall k: nat | k != i && step in {Check(k), Snapshot(k)} :: t.waiters[i] == s.waiters[i]
    ensures step == Check(i) || step == Snapshot(i) ==> DoWaiter(s, step, s.waiters[i]) == Some(t.waiters[i])
  {
    hide DoWaiter;
  }

  /** What a step of a waiter's own does to what it has recorded. */
  lemma WaiterRecords(s: State, step: Step, w: Waiter, after: Waiter)
    requires s.screens != [] && DoWaiter(s, step, w) == Some(after)
    ensures step.Check? ==> HasChecked(after) && !HasSnapshot(after) && after.checkedAt == |s.screens| - 1
    ensures step.Snapshot? ==> HasChecked(w) && HasSnapshot(after) && after.snapshotAt == |s.screens| - 1
    ensures !step.Check? && HasChecked(after) ==> HasChecked(w) && after.checkedAt == w.checkedAt
    ensures !step.Check? && !step.Snapshot? && HasSnapshot(after) ==> HasSnapshot(w) && after.snapshotAt == w.snapshotAt
  {
    hide Met, Pending, LockFree, Closed;
  }

  lemma StepKeepsPlaces(steps: seq<Step>, s: State, last: Step, t: State, i: nat)
    requires |s.screens| == 1 + GridChanges(steps) && i < |s.waiters|
    requires Do(s, last) == Some(t) && PlacedInRun(steps, i, s.waiters[i])
    ensures |t.waiters| == |s.waiters| && PlacedInRun(steps + [last], i, t.waiters[i])
  {
    hide GridChanges, LastAt, Do, DoWaiter, HasChecked, HasSnapshot;
    WaiterAfter(s, last, t, i);
    if t.waiters[i] != s.waiters[i] || last == Check(i) || last == Snapshot(i) {
      WaiterRecords(s, last, s.waiters[i], t.waiters[i]);
    }
    LastPlace(steps, last, Check(i));
    LastPlace(steps, last, Snapshot(i));
  }

  lemma {:induction false} PlacesInRun(screen: string, conditions: seq<Condition>, steps: seq<Step>, s: State, i: nat)
    requires Run(Init(screen, conditions), steps) == Some(s) && i < |s.waiters|
    ensures PlacedInRun(steps, i, s.waiters[i])
  {
    if steps != [] {
      hide Run, Do, PlacedInRun, GridChanges;
      var before := steps[..|steps| - 1];
      var mid := RunCut(Init(screen, conditions), steps, s);
      ScreensCounted(Init(screen, conditions), before, mid);
      PlacesInRun(screen, conditions, before, mid, i);
      assert before + [steps[|steps| - 1]] == steps;
      StepKeepsPlaces(before, mid, steps[|steps| - 1], s, i);
    }
  }

  /**
   * Over every run: the screen reported with a timeout is the one the condition was last evaluated against exactly
   * when neither the feeder nor a resize changed the grid between the waiter's last check and its snapshot; and then
   * it does not meet the condition.
   */
  lemma ReportedScreenIsCheckedIff(screen: string, conditions: seq<Condition>, steps: seq<Step>, s: State, i: nat)
    requires Run(Init(screen, conditions), steps) == Some(s) && i < |s.waiters|
    requires s.waiters[i].phase.Returned? && s.waiters[i].phase.outcome.TimedOut?
    ensures Check(i) in steps && Snapshot(i) in steps && LastAt(steps, Check(i)) < LastAt(steps, Snapshot(i))
    ensures var still := forall j | LastAt(steps, Check(i)) < j < LastAt(steps, Snapshot(i)) :: !ChangesGrid(steps[j]);
            var w := s.waiters[i];
            && (w.snapshotAt == w.checkedAt <==> still)
            && w.snapshotAt < |s.screens| && w.phase.outcome.screen == s.screens[w.snapshotAt]
            && (still ==> !Met(w.condition, w.phase.outcome.screen))
  {
    hide Met, GridChanges, Run, LastAt;
    PlacesInRun(screen, conditions, steps, s, i);
    RunKeepsInv(Init(screen, conditions), steps);
    assert WaiterInv(s, s.waiters[i]);
    GridChangesBetween(steps, LastAt(steps, Check(i)), LastAt(steps, Snapshot(i)));
  }

  /** The text on the grid behind a stretch of a run: what the last change drew. */
  function Shown(screen: string, steps: seq<Step>): string {
    if steps == [] then screen
    else
      var last := steps[|steps| - 1];
      if ChangesGrid(last) then last.screen else Shown(screen, steps[..|steps| - 1])
  }

  lemma {:induction false} CurrentIsShown(s: State, steps: seq<Step>, t: State)
    requires s.screens != [] && Run(s, steps) == Some(t)
    ensures t.screens != [] && Current(t) == Shown(Current(s), steps)
  {
    if steps != [] {
      var before, last := steps[..|steps| - 1], steps[|steps| - 1];
      var mid := RunCut(s, steps, t);
      CurrentIsShown(s, before, mid);
      hide Run;
      OneStepShows(mid, last, t);
    }
  }

  lemma OneStepShows(s: State, step: Step, t: State)
    requires s.screens != [] && Do(s, step) == Some(t)
    ensures Current(t) == if ChangesGrid(step) then step.screen else Current(s)
  {
    hide DoWaiter;
  }

  /** Every screen of the record is what was shown at its time. */
  lemma {:induction false} ScreensAreShown(s: State, steps: seq<Step>, t: State, n: nat)
    requires |s.screens| == 1 && Run(s, steps) == Some(t) && n <= |steps|
    ensures GridChanges(steps[..n]) < |t.screens|
    ensures t.screens[GridChanges(steps[..n])] == Shown(s.screens[0], steps[..n])
    decreases |steps|
  {
    ScreensCounted(s, steps, t);
    if n == |steps| {
      CurrentIsShown(s, steps, t);
      assert steps[..n] == steps;
    } else {
      var before := steps[..|steps| - 1];
      var mid := RunCut(s, steps, t);
      ScreensAreShown(s, before, mid, n);
      assert before[..n] == steps[..n];
      hide Run, GridChanges, Shown, DoWaiter;
      assert mid.screens <= t.screens;
    }
  }

  /** The last change between two places of a run. */
  function LastChange(steps: seq<Step>, lo: nat, hi: nat): (r: Option<nat>)
    requires lo <= hi <= |steps|
    ensures r.None? <==> forall j | lo <= j < hi :: !ChangesGrid(steps[j])
    ensures r.Some? ==> lo <= r.value < hi && ChangesGrid(steps[r.value])
    ensures r.Some? ==> forall j | r.value < j < hi :: !ChangesGrid(steps[j])
  {
    if lo == hi then None
    else if ChangesGrid(steps[hi - 1]) then Some(hi - 1)
    else LastChange(steps, lo, hi - 1)
  }

  lemma {:induction false} ShownBetween(screen: string, steps: seq<Step>, lo: nat, hi: nat)
    requires lo <= hi <= |steps|
    ensures var last := LastChange(steps, lo, hi);
            Shown(screen, steps[..hi]) == if last.None? then Shown(screen, steps[..lo]) else steps[last.value].screen
    decreases hi
  {
    if lo < hi {
      hide ChangesGrid;
      assert steps[..hi][..hi - 1] == steps[..hi - 1];
      ShownBetween(screen, steps, lo, hi - 1);
    }
  }

  /**
   * The same of the text, which a change may draw again: what is reported is what was checked exactly when nothing
   * changed the grid in between or the last change drew the text that was checked.  And it is always the text last
   * drawn before the snapshot, as the text checked, which does not meet the condition, is that drawn before the check.
   */
  lemma ReportedTextIsCheckedIff(screen: string, conditions: seq<Condition>, steps: seq<Step>, s: State, i: nat)
    requires Run(Init(screen, conditions), steps) == Some(s) && i < |s.waiters|
    requires s.waiters[i].phase.Returned? && s.waiters[i].phase.outcome.TimedOut?
    ensures Check(i) in steps && Snapshot(i) in steps && LastAt(steps, Check(i)) < LastAt(steps, Snapshot(i))
    ensures var (check, snapshot) := (LastAt(steps, Check(i)), LastAt(steps, Snapshot(i)));
            var checked, reported := Shown(screen, steps[..check]), s.waiters[i].phase.outcome.screen;
            var last := LastChange(steps, check, snapshot);
            && !Met(s.waiters[i].condition, checked) && reported == Shown(screen, steps[..snapshot])
            && (reported == checked <==> last.None? || steps[last.value].screen == checked)
  {
    hide Met, GridChanges, Run, LastAt, Shown, LastChange;
    PlacesInRun(screen, conditions, steps, s, i);
    RunKeepsInv(Init(screen, conditions), steps);
    assert WaiterInv(s, s.waiters[i]);
    var check, snapshot := LastAt(steps, Check(i)), LastAt(steps, Snapshot(i));
    ScreensAreShown(Init(screen, conditions), steps, s, check);
    ScreensAreShown(Init(screen, conditions), steps, s, snapshot);
    ShownBetween(screen, steps, check, snapshot);
  }

  /**
   * The generation reported with it bounds how many changes there were: those it counts beyond the one the waiter had
   * seen, and those not counted yet.  So if it is the one seen, and nothing was owed, the screen is the one checked.
   */
  lemma ReportedGenerationBoundsChanges(s: State, w: Waiter)
    requires Reachable(s) && w in s.waiters && w.phase.Returned? && w.phase.outcome.TimedOut?
    ensures w.seen <= w.phase.outcome.generation
    ensures w.checkedAt <= w.snapshotAt <= w.checkedAt + (w.phase.outcome.generation - w.seen) + w.owed
    ensures w.phase.outcome.generation == w.seen && w.owed == 0 ==> !Met(w.condition, w.phase.outcome.screen)
  {
    hide Met;
    ReachableIsInvariant(s);
    assert WaiterInv(s, w);
  }

  /** The screen reported with a timeout is not the one the condition was checked against: here it meets it. */
  lemma TimeoutScreenCanMatch() returns (s: State)
    ensures Reachable(s) && !s.feeder.Exited?
    ensures |s.waiters| == 1 && s.waiters[0].condition == Text("b")
    ensures s.waiters[0].phase == Returned(TimedOut("b", 0, false)) && Met(Text("b"), "b")
  {
    hide Reachable;
    s := ParkedOnA();
    s := Take(s, Feed("b"));
    s := Take(s, UnlockFeed);
    s := Take(s, Deadline(0));
    s := Take(s, Snapshot(0));
    s := Take(s, ReadGeneration(0));
    assert Contains("b", "b");
  }
}

/** The bounded tail of raw output kept for the diagnostics of a timed-out wait. */
module RawTail {
  import opened Conversation

  const RAW_TAIL_CAP: nat := 2048

  function LastN<T>(s: seq<T>, n: nat): (r: seq<T>) {
    if |s| <= n then s else s[|s| - n..]
  }

  /** Cutting to the last `n` can be done early: what it drops would never come back. */
  lemma LastOfLast<T>(a: seq<T>, b: seq<T>, n: nat)
    ensures LastN(LastN(a, n) + b, n) == LastN(a + b, n)
  {}

  lemma DropFirst<T>(a: seq<T>, b: seq<T>, n: nat)
    requires |a| > 0 && |a| + |b| > n
    ensures LastN(a[1..] + b, n) == LastN(a + b, n)
  {}

  lemma LastOfLong<T>(a: seq<T>, b: seq<T>, n: nat)
    requires |b| >= n
    ensures LastN(a + b, n) == b[|b| - n..]
  {}

  class Tail {
    var tail: Bytes

    /** Everything ever pushed. */
    ghost var output: Bytes

    ghost predicate Valid() reads this {
      tail == LastN(output, RAW_TAIL_CAP)
    }

    constructor ()
      ensures Valid() && output == [] && tail == []
    {
      tail, output := [], [];
    }

    /** The tail is always the last 2048 bytes of all output, however the output was cut into pushes. */
    method Push(bytes: Bytes)
      requires Valid()
      modifies this
      ensures Valid() && output == old(output) + bytes
      ensures tail == LastN(old(output) + bytes, RAW_TAIL_CAP)
      ensures tail == if |output| <= 2048 then output else output[|output| - 2048..]
    {
      LastOfLast(output, bytes, RAW_TAIL_CAP);
      if |bytes| >= RAW_TAIL_CAP {
        LastOfLong(output, bytes, RAW_TAIL_CAP);
        tail := bytes[|bytes| - RAW_TAIL_CAP..];
      } else {
        Append(bytes);
      }
      output := output + bytes;
    }

    method Append(bytes: Bytes)
      requires |bytes| < RAW_TAIL_CAP
      modifies `tail
      ensures tail == LastN(old(tail) + bytes, RAW_TAIL_CAP)
    {
      while |tail| + |bytes| > RAW_TAIL_CAP
        invariant LastN(tail + bytes, RAW_TAIL_CAP) == LastN(old(tail) + bytes, RAW_TAIL_CAP)
      {
        hide LastN;
        DropFirst(tail, bytes, RAW_TAIL_CAP);
        tail := tail[1..];
      }
      tail := tail + bytes;
    }
  }
}
