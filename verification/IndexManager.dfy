/**
 * The index manager's command loop: commands queued by any sender are taken one by one, but a file event also takes
 * along the file events that happen to be queued behind it.  How many are there already is not determined, so a run
 * is described by the groups it happened to form, and related to a loop that handles one command at a time.
 */
module IndexRuns {
  import opened Sequences
  import opened EventCoalescing

  datatype Command =
    | Event(event: FileEvent)
    | EventBatch(events: seq<FileEvent>)
    | Rebuild
    | BackgroundRefresh(staleFiles: seq<Path>, deletedFiles: seq<Path>)
    | Query
    | Shutdown

  /** What a fresh build of the index finds. */
  const FRESH: Index

  /** A query is answered from the index of the moment; `position` is the number of commands handled before it. */
  datatype Answer = Answer(position: nat, index: Index)

  datatype State = State(index: Index, answers: seq<Answer>, handled: nat)

  predicate IsFileCommand(c: Command) {
    c.Event? || c.EventBatch?
  }

  function CommandUpdates(c: Command): seq<Update> {
    match c
    case Event(event) => Updates(event)
    case EventBatch(events) => AllUpdates(events)
    case _ => []
  }

  function GroupUpdates(group: seq<Command>): seq<Update> {
    if group == [] then []
    else GroupUpdates(group[..|group| - 1]) + CommandUpdates(group[|group| - 1])
  }

  lemma GroupUpdatesThen(group: seq<Command>, c: Command)
    ensures GroupUpdates(group + [c]) == GroupUpdates(group) + CommandUpdates(c)
  {
    assert (group + [c])[..|group|] == group;
  }

  lemma GroupUpdatesOne(c: Command)
    ensures GroupUpdates([c]) == CommandUpdates(c)
  {
    assert [c][..0] == [];
    assert GroupUpdates([]) == [];
  }

  /** A stretch of commands either asks for no shutdown, or ends with the first command that does. */
  predicate StopsAtShutdown(commands: seq<Command>, go: bool) {
    && (forall i | 0 <= i < |commands| - 1 :: !commands[i].Shutdown?)
    && (commands != [] ==> (go <==> !commands[|commands| - 1].Shutdown?))
    && (commands == [] ==> go)
  }

  lemma StopsAtShutdownJoins(a: seq<Command>, b: seq<Command>, go: bool)
    requires StopsAtShutdown(a, true) && b != [] && StopsAtShutdown(b, go)
    ensures StopsAtShutdown(a + b, go)
  {
    assert a != [] ==> !a[|a| - 1].Shutdown?;
  }

  lemma FilesAskForNoShutdown(commands: seq<Command>)
    requires forall c | c in commands :: IsFileCommand(c)
    ensures StopsAtShutdown(commands, true)
  {
    assert forall i | 0 <= i < |commands| :: IsFileCommand(commands[i]);
  }

  lemma LoneCommand(command: Command)
    ensures StopsAtShutdown([command], !command.Shutdown?)
  {}

  function RefreshedAt(index: Index, stale: seq<Path>, deleted: seq<Path>, p: Path): Option<Parsed> {
    if p in stale && SUPPORTED(p) then PARSE(p)
    else if p in deleted then None
    else Lookup(index, p)
  }

  /** Deleted files leave the index, stale ones are read again if their language is supported. */
  function Refreshed(index: Index, stale: seq<Path>, deleted: seq<Path>): (r: Index)
    ensures forall p :: Lookup(r, p) == RefreshedAt(index, stale, deleted, p)
  {
    var paths := index.Keys + (set p | p in stale);
    map p | p in paths && RefreshedAt(index, stale, deleted, p).Some? :: RefreshedAt(index, stale, deleted, p).value
  }

  /** A command that is not a file event. */
  function Handled(s: State, c: Command): State {
    var index := match c {
      case Rebuild => FRESH
      case BackgroundRefresh(stale, deleted) => Refreshed(s.index, stale, deleted)
      case _ => s.index
    };
    State(index, if c.Query? then s.answers + [Answer(s.handled, s.index)] else s.answers, s.handled + 1)
  }

  /** The reference: one command at a time, and within it one event at a time. */
  function One(s: State, c: Command): State {
    if IsFileCommand(c) then s.(index := OneByOne(s.index, CommandUpdates(c)), handled := s.handled + 1)
    else Handled(s, c)
  }

  function RunOneByOne(s: State, commands: seq<Command>): State {
    if commands == [] then s
    else One(RunOneByOne(s, commands[..|commands| - 1]), commands[|commands| - 1])
  }

  /** What a command behind others should be answered: a query, from the index as they left it. */
  function AnswerTo(s: State, before: seq<Command>, c: Command): seq<Answer> {
    if c.Query? then [Answer(s.handled + |before|, RunOneByOne(s, before).index)] else []
  }

  function AnswersTo(s: State, commands: seq<Command>): seq<Answer> {
    if commands == [] then []
    else AnswersTo(s, commands[..|commands| - 1]) + AnswerTo(s, commands[..|commands| - 1], commands[|commands| - 1])
  }

  /**
   * Each query is answered once, in order, from the index as the commands before it left it, and with their number.
   */
  lemma {:induction false} AnswersAreCurrent(s: State, commands: seq<Command>)
    ensures RunOneByOne(s, commands).handled == s.handled + |commands|
    ensures RunOneByOne(s, commands).answers == s.answers + AnswersTo(s, commands)
  {
    if commands == [] {
      assert s.answers + [] == s.answers;
    } else {
      hide One, AnswerTo;
      var before, last := commands[..|commands| - 1], commands[|commands| - 1];
      AnswersAreCurrent(s, before);
      OneAnswers(s, before, last);
      ConcatAssociates(s.answers, AnswersTo(s, before), AnswerTo(s, before, last));
    }
  }

  lemma OneAnswers(s: State, before: seq<Command>, c: Command)
    requires RunOneByOne(s, before).handled == s.handled + |before|
    ensures var now := RunOneByOne(s, before);
            One(now, c).handled == now.handled + 1 && One(now, c).answers == now.answers + AnswerTo(s, before, c)
  {
    hide OneByOne, RunOneByOne, Refreshed;
  }

  /** A batch is to the index what its events, sent one by one, would be. */
  lemma {:induction false} BatchIsItsEvents(s: State, events: seq<FileEvent>)
    ensures RunOneByOne(s, [EventBatch(events)]).index == RunOneByOne(s, Sent(events)).index
  {
    SingleCommand(s, [EventBatch(events)]);
    if events != [] {
      var init, last := events[..|events| - 1], events[|events| - 1];
      BatchIsItsEvents(s, init);
      SingleCommand(s, [EventBatch(init)]);
      assert Sent(events)[..|events| - 1] == Sent(init);
      OneByOneConcat(s.index, AllUpdates(init), Updates(last));
    }
  }

  function Sent(events: seq<FileEvent>): seq<Command> {
    seq(|events|, i requires 0 <= i < |events| => Event(events[i]))
  }

  /** A file event with the file commands drained behind it, or any single command. */
  predicate IsGroup(group: seq<Command>) {
    |group| == 1 || (group != [] && group[0].Event? && forall c | c in group :: IsFileCommand(c))
  }

  predicate AllGroups(groups: seq<seq<Command>>) {
    forall i | 0 <= i < |groups| :: IsGroup(groups[i])
  }

  function Grouped(s: State, group: seq<Command>): State
    requires group != []
  {
    if IsFileCommand(group[0])
    then s.(index := Applied(s.index, Coalesced(GroupUpdates(group))), handled := s.handled + |group|)
    else Handled(s, group[0])
  }

  function RunGroups(s: State, groups: seq<seq<Command>>): State
    requires AllGroups(groups)
  {
    if groups == [] then s
    else Grouped(RunGroups(s, groups[..|groups| - 1]), groups[|groups| - 1])
  }

  function Flatten(groups: seq<seq<Command>>): seq<Command> {
    if groups == [] then []
    else Flatten(groups[..|groups| - 1]) + groups[|groups| - 1]
  }

  lemma {:induction false} RunConcat(s: State, a: seq<Command>, b: seq<Command>)
    ensures RunOneByOne(s, a + b) == RunOneByOne(RunOneByOne(s, a), b)
    decreases |b|
  {
    hide One;
    if b == [] {
      assert a + b == a;
    } else {
      RunConcat(s, a, b[..|b| - 1]);
      assert (a + b)[..|a + b| - 1] == a + b[..|b| - 1];
    }
  }

  /** One at a time, a run of file commands only moves the index, update by update. */
  lemma {:induction false} FileCommandsOneByOne(s: State, group: seq<Command>)
    requires forall c | c in group :: IsFileCommand(c)
    ensures RunOneByOne(s, group)
         == s.(index := OneByOne(s.index, GroupUpdates(group)), handled := s.handled + |group|)
  {
    if group != [] {
      var init := group[..|group| - 1];
      FileCommandsOneByOne(s, init);
      OneByOneConcat(s.index, GroupUpdates(init), CommandUpdates(group[|group| - 1]));
    }
  }

  /** Does a group decide about a path whatever the index held before? */
  predicate Decides(group: seq<Command>, p: Path)
    requires group != []
  {
    match group[0]
    case Rebuild => true
    case BackgroundRefresh(stale, deleted) => (p in stale && SUPPORTED(p)) || p in deleted
    case _ => IsFileCommand(group[0]) && ShouldIndex(p) && History(GroupUpdates(group), p) != []
  }

  /** A path is stale after a run when the last group that decides about it cancelled it while it was indexed. */
  predicate Stale(s: State, groups: seq<seq<Command>>, p: Path)
    requires AllGroups(groups)
  {
    if groups == [] then false
    else
      var init := groups[..|groups| - 1];
      var last := groups[|groups| - 1];
      if Decides(last, p)
      then IsFileCommand(last[0]) && LeavesStale(RunGroups(s, init).index, GroupUpdates(last), p)
      else Stale(s, init, p)
  }

  /** What relates the two indexes on a path. */
  predicate AgreeUnless(stale: bool, coalesced: Index, reference: Index, p: Path) {
    if stale then p in coalesced && p !in reference
    else Lookup(coalesced, p) == Lookup(reference, p)
  }

  lemma GroupAgrees(a: State, b: State, group: seq<Command>, stale: bool, p: Path)
    requires IsGroup(group)
    requires AgreeUnless(stale, a.index, b.index, p)
    ensures AgreeUnless(if Decides(group, p)
                        then IsFileCommand(group[0]) && LeavesStale(a.index, GroupUpdates(group), p)
                        else stale,
                        Grouped(a, group).index, RunOneByOne(b, group).index, p)
  {
    hide RunOneByOne, Applied, Coalesced, OneByOne, GroupUpdates, Cancelled, History;
    var c := group[0];
    if IsFileCommand(c) {
      var updates := GroupUpdates(group);
      assert forall d | d in group :: IsFileCommand(d);
      FileCommandsOneByOne(b, group);
      CoalescedAgreesIff(a.index, updates, p);
      OneByOneAt(a.index, updates, p);
      OneByOneAt(b.index, updates, p);
    } else {
      SingleCommand(b, group);
    }
  }

  lemma SingleCommand(s: State, group: seq<Command>)
    requires |group| == 1
    ensures RunOneByOne(s, group) == One(s, group[0])
  {
    assert group[..0] == [];
    assert RunOneByOne(s, []) == s;
  }

  /**
   * Over every run and however the drain cut it into groups, the coalesced index and the one-at-a-time index agree
   * on every path but the stale ones, which only the coalesced index still holds.
   */
  lemma {:induction false} RunsAgree(s: State, groups: seq<seq<Command>>, p: Path)
    requires AllGroups(groups)
    ensures AgreeUnless(Stale(s, groups, p), RunGroups(s, groups).index, RunOneByOne(s, Flatten(groups)).index, p)
  {
    hide Decides, LeavesStale, Grouped, One;
    if groups == [] {
      assert AgreeUnless(false, s.index, s.index, p);
    } else {
      var init := groups[..|groups| - 1];
      var last := groups[|groups| - 1];
      RunsAgree(s, init, p);
      RunConcat(s, Flatten(init), last);
      GroupAgrees(RunGroups(s, init), RunOneByOne(s, Flatten(init)), last, Stale(s, init, p), p);
    }
  }

  /** Every entry of one index is an entry of the other. */
  predicate Within(small: Index, large: Index) {
    forall p | p in small :: p in large && small[p] == large[p]
  }

  lemma IndexWithin(s: State, groups: seq<seq<Command>>)
    requires AllGroups(groups)
    ensures Within(RunOneByOne(s, Flatten(groups)).index, RunGroups(s, groups).index)
  {
    hide RunOneByOne, RunGroups, Flatten, Stale;
    forall p | p in RunOneByOne(s, Flatten(groups)).index
      ensures p in RunGroups(s, groups).index
      ensures RunOneByOne(s, Flatten(groups)).index[p] == RunGroups(s, groups).index[p]
    {
      RunsAgree(s, groups, p);
    }
  }

  /** The same query, answered after the same commands, from an index that lacks nothing. */
  predicate AnswersMatch(coalesced: State, reference: State) {
    && coalesced.handled == reference.handled
    && |coalesced.answers| == |reference.answers|
    && forall k | 0 <= k < |coalesced.answers| ::
         && coalesced.answers[k].position == reference.answers[k].position
         && Within(reference.answers[k].index, coalesced.answers[k].index)
  }

  /**
   * Every query is answered after exactly the commands queued before it, as if they had been handled one by one, and
   * what the reference would have reported the coalesced index reports too.
   */
  lemma {:induction false} QueriesAnsweredInPlace(s: State, groups: seq<seq<Command>>)
    requires AllGroups(groups)
    ensures AnswersMatch(RunGroups(s, groups), RunOneByOne(s, Flatten(groups)))
  {
    if groups != [] {
      var init := groups[..|groups| - 1];
      var last := groups[|groups| - 1];
      QueriesAnsweredInPlace(s, init);
      IndexWithin(s, init);
      RunConcat(s, Flatten(init), last);
      GroupAnswers(RunGroups(s, init), RunOneByOne(s, Flatten(init)), last);
    }
  }

  lemma GroupAnswers(a: State, b: State, group: seq<Command>)
    requires IsGroup(group) && AnswersMatch(a, b) && Within(b.index, a.index)
    ensures AnswersMatch(Grouped(a, group), RunOneByOne(b, group))
  {
    hide RunOneByOne, Within, Applied, Coalesced, OneByOne, GroupUpdates, Refreshed;
    if IsFileCommand(group[0]) {
      assert forall d | d in group :: IsFileCommand(d);
      FileCommandsOneByOne(b, group);
    } else {
      SingleCommand(b, group);
    }
  }

  ghost predicate CancelsIndexed(index: Index, group: seq<Command>)
    requires group != []
  {
    IsFileCommand(group[0]) && exists p :: LeavesStale(index, GroupUpdates(group), p)
  }

  /** No group of the run cancels a path that is in the index just before it. */
  ghost predicate Clean(s: State, groups: seq<seq<Command>>)
    requires AllGroups(groups)
  {
    if groups == [] then true
    else
      var init := groups[..|groups| - 1];
      var last := groups[|groups| - 1];
      Clean(s, init) && !CancelsIndexed(RunGroups(s, init).index, last)
  }

  /** After each group, the index is what handling the same commands one by one would have made it. */
  ghost predicate AgreeThroughout(s: State, groups: seq<seq<Command>>)
    requires AllGroups(groups)
  {
    if groups == [] then true
    else
      && AgreeThroughout(s, groups[..|groups| - 1])
      && RunGroups(s, groups).index == RunOneByOne(s, Flatten(groups)).index
  }

  /** Coalescing is invisible exactly in the runs in which no group cancels an indexed path. */
  lemma {:induction false} CleanIffAgreeThroughout(s: State, groups: seq<seq<Command>>)
    requires AllGroups(groups)
    ensures Clean(s, groups) <==> AgreeThroughout(s, groups)
    ensures Clean(s, groups) ==> RunGroups(s, groups) == RunOneByOne(s, Flatten(groups))
  {
    hide Grouped, CancelsIndexed;
    if groups != [] {
      var init := groups[..|groups| - 1];
      CleanIffAgreeThroughout(s, init);
      if Clean(s, init) {
        var mid := RunGroups(s, init);
        var last := groups[|groups| - 1];
        RunConcat(s, Flatten(init), last);
        GroupExactIff(mid, last);
        assert RunGroups(s, groups) == Grouped(mid, last);
        assert RunOneByOne(s, Flatten(groups)) == RunOneByOne(mid, last);
        assert Clean(s, groups) <==> Grouped(mid, last).index == RunOneByOne(mid, last).index;
      }
    }
  }

  lemma GroupExactIff(s: State, group: seq<Command>)
    requires IsGroup(group)
    ensures Grouped(s, group).index == RunOneByOne(s, group).index <==> !CancelsIndexed(s.index, group)
    ensures Grouped(s, group).index == RunOneByOne(s, group).index ==> Grouped(s, group) == RunOneByOne(s, group)
  {
    hide RunOneByOne, Applied, Coalesced, OneByOne, GroupUpdates, LeavesStale, Refreshed;
    if IsFileCommand(group[0]) {
      var updates := GroupUpdates(group);
      assert forall d | d in group :: IsFileCommand(d);
      FileCommandsOneByOne(s, group);
      var coalesced, reference := Applied(s.index, Coalesced(updates)), OneByOne(s.index, updates);
      forall p ensures Lookup(coalesced, p) == Lookup(reference, p) <==> !LeavesStale(s.index, updates, p) {
        CoalescedAgreesIff(s.index, updates, p);
      }
      if CancelsIndexed(s.index, group) {
        var p :| LeavesStale(s.index, updates, p);
        assert Lookup(coalesced, p) != Lookup(reference, p);
      } else {
        SameLookups(coalesced, reference);
      }
    } else {
      SingleCommand(s, group);
    }
  }
}

/** The manager itself: its index, its command queue and the loop over both. */
module IndexManager {
  import opened Sequences
  import opened EventCoalescing
  import opened IndexRuns

  /** The indexable paths of a group that have been gone through when the others remain. */
  function CountedSoFar(events: map<Path, Kind>, remaining: set<Path>): set<Path> {
    set p | p in events && p !in remaining && ShouldIndex(p)
  }

  lemma AllCounted(events: map<Path, Kind>)
    ensures CountedSoFar(events, events.Keys) == {}
    ensures CountedSoFar(events, {}) == set p | p in events && ShouldIndex(p)
  {}

  lemma OneMoreCounted(events: map<Path, Kind>, remaining: set<Path>, path: Path)
    requires path in remaining && path in events
    ensures |CountedSoFar(events, remaining - {path})|
         == |CountedSoFar(events, remaining)| + if ShouldIndex(path) then 1 else 0
  {
    var counted := CountedSoFar(events, remaining);
    assert CountedSoFar(events, remaining - {path}) == if ShouldIndex(path) then counted + {path} else counted;
  }

  class Manager {
    var index: Index
    var updatesProcessed: nat

    /** Commands sent and not yet received. */
    var queue: seq<Command>

    /** History: where the run started, the groups it has formed, the commands in them and the answers sent. */
    ghost const start: State
    ghost var groups: seq<seq<Command>>
    ghost var handled: nat
    ghost var answers: seq<Answer>

    /** The manager is where its groups have brought it. */
    ghost predicate Valid() reads this {
      AllGroups(groups) && State(index, answers, handled) == RunGroups(start, groups)
    }

    constructor (built: Index, commands: seq<Command>)
      ensures Valid() && groups == [] && queue == commands && start == State(built, [], 0)
    {
      index, updatesProcessed, queue := built, 0, commands;
      start, groups, handled, answers := State(built, [], 0), [], 0, [];
    }

    method RemoveFile(path: Path)
      modifies `index
      ensures Lookup(index, path) == None
      ensures forall p | p != path :: Lookup(index, p) == Lookup(old(index), p)
    {
      index := index - {path};
    }

    method ReindexFile(path: Path)
      modifies `index
      ensures Lookup(index, path) == PARSE(path)
      ensures forall p | p != path :: Lookup(index, p) == Lookup(old(index), p)
    {
      index := index - {path};
      var parsed := PARSE(path);
      if parsed.Some? {
        index := index[path := parsed.value];
      }
    }

    /** The events are gone through in no particular order; every indexable path counts as one update. */
    method ApplyCoalesced(events: map<Path, Kind>)
      modifies `index, `updatesProcessed
      ensures index == Applied(old(index), events)
      ensures updatesProcessed == old(updatesProcessed) + |set p | p in events && ShouldIndex(p)|
      ensures forall p | p !in events || !SUPPORTED(p) || HIDDEN(p) :: Lookup(index, p) == Lookup(old(index), p)
      ensures forall p | p in events && SUPPORTED(p) && !HIDDEN(p) ::
                Lookup(index, p) == if events[p].Removed? then None else PARSE(p)
    {
      hide CountedSoFar;
      var remaining := events.Keys;
      AllCounted(events);
      while remaining != {}
        invariant remaining <= events.Keys
        invariant forall p ::
          Lookup(index, p) == if p in remaining then Lookup(old(index), p) else AppliedAt(old(index), events, p)
        invariant updatesProcessed == old(updatesProcessed) + |CountedSoFar(events, remaining)|
        decreases remaining
      {
        var path :| path in remaining;
        OneMoreCounted(events, remaining, path);
        remaining := remaining - {path};
        if ShouldIndex(path) {
          if events[path].Removed? {
            RemoveFile(path);
          } else {
            ReindexFile(path);
          }
          updatesProcessed := updatesProcessed + 1;
        }
      }
      SameLookups(index, Applied(old(index), events));
    }

    method ProcessBackgroundRefresh(staleFiles: seq<Path>, deletedFiles: seq<Path>)
      modifies `index
      ensures index == Refreshed(old(index), staleFiles, deletedFiles)
      ensures forall p | p in staleFiles && SUPPORTED(p) :: Lookup(index, p) == PARSE(p)
      ensures forall p | p in deletedFiles && (p !in staleFiles || !SUPPORTED(p)) :: Lookup(index, p) == None
      ensures forall p | p !in deletedFiles && (p !in staleFiles || !SUPPORTED(p)) ::
                Lookup(index, p) == Lookup(old(index), p)
    {
      for i := 0 to |deletedFiles|
        invariant forall p :: Lookup(index, p) == RefreshedAt(old(index), [], deletedFiles[..i], p)
      {
        RemoveFile(deletedFiles[i]);
      }
      for i := 0 to |staleFiles|
        invariant forall p :: Lookup(index, p) == RefreshedAt(old(index), staleFiles[..i], deletedFiles, p)
      {
        if SUPPORTED(staleFiles[i]) {
          ReindexFile(staleFiles[i]);
        }
      }
      assert staleFiles[..|staleFiles|] == staleFiles;
      SameLookups(index, Refreshed(old(index), staleFiles, deletedFiles));
    }

    /** The next command if it has arrived; a command still under way is not seen yet. */
    method TryReceive() returns (command: Option<Command>)
      modifies `queue
      ensures command.None? ==> queue == old(queue)
      ensures command.Some? ==> old(queue) == [command.value] + queue
    {
      command := None;
      if * {
        if queue != [] {
          command := Some(queue[0]);
          queue := queue[1..];
        }
      }
    }

    /** Record that a group has been handled. */
    ghost method Close(group: seq<Command>)
      requires AllGroups(groups) && IsGroup(group)
      requires Grouped(RunGroups(start, groups), group) == State(index, answers, handled + |group|)
      modifies `groups, `handled
      ensures Valid() && groups == old(groups) + [group] && Flatten(groups) == Flatten(old(groups)) + group
    {
      hide Grouped;
      groups := groups + [group];
      handled := handled + |group|;
      assert groups[..|groups| - 1] == old(groups);
    }

    /** A command that is not a file event; false asks the loop to stop. */
    method ProcessOther(command: Command) returns (go: bool)
      requires Valid() && !IsFileCommand(command)
      modifies `index, `answers, `groups, `handled
      ensures Valid() && groups == old(groups) + [[command]]
      ensures Flatten(groups) == Flatten(old(groups)) + [command]
      ensures go <==> !command.Shutdown?
      ensures handled == old(handled) + 1
      ensures answers == if command.Query? then old(answers) + [Answer(old(handled), old(index))] else old(answers)
      ensures command.Rebuild? ==> index == FRESH
      ensures command.Query? || command.Shutdown? ==> index == old(index)
      ensures command.BackgroundRefresh? ==> index == Refreshed(old(index), command.staleFiles, command.deletedFiles)
    {
      go := true;
      match command {
        case Rebuild => index := FRESH;
        case BackgroundRefresh(staleFiles, deletedFiles) => ProcessBackgroundRefresh(staleFiles, deletedFiles);
        case Query => answers := answers + [Answer(handled, index)];
        case Shutdown => go := false;
        case _ => assert false;
      }
      Close([command]);
    }

    /** Apply what has been collected and record the group it came from. */
    method Flush(coalesced: CoalescedEvents, ghost group: seq<Command>)
      requires Valid() && coalesced.Valid() && coalesced.updates == GroupUpdates(group)
      requires IsGroup(group) && IsFileCommand(group[0])
      modifies this
      ensures Valid() && queue == old(queue)
      ensures groups == old(groups) + [group] && Flatten(groups) == Flatten(old(groups)) + group
    {
      hide RunGroups, Applied, Coalesced, GroupUpdates, Flatten;
      ApplyCoalesced(coalesced.events);
      Close(group);
    }

    /** Take along the file commands that have arrived, up to the first other command, which is handed back. */
    method Drain(coalesced: CoalescedEvents, ghost command: Command)
      returns (other: Option<Command>, ghost drained: seq<Command>)
      requires coalesced.Valid() && coalesced.updates == CommandUpdates(command)
      modifies `queue, coalesced
      ensures coalesced.Valid() && coalesced.updates == GroupUpdates([command] + drained)
      ensures forall c | c in drained :: IsFileCommand(c)
      ensures other.None? ==> old(queue) == drained + queue
      ensures other.Some? ==> !IsFileCommand(other.value) && old(queue) == drained + [other.value] + queue
    {
      hide GroupUpdates, Updates, AllUpdates, Coalesced;
      drained := [];
      GroupUpdatesOne(command);
      assert [command] + drained == [command];
      while true
        invariant coalesced.Valid() && coalesced.updates == GroupUpdates([command] + drained)
        invariant forall c | c in drained :: IsFileCommand(c)
        invariant old(queue) == drained + queue
        decreases |queue|
      {
        other := TryReceive();
        if other.None? {
          return;
        }
        ConcatAssociates(drained, [other.value], queue);
        if other.value.Event? {
          coalesced.Add(other.value.event);
        } else if other.value.EventBatch? {
          coalesced.AddAll(other.value.events);
        } else {
          return;
        }
        GroupUpdatesThen([command] + drained, other.value);
        ConcatAssociates([command], drained, [other.value]);
        drained := drained + [other.value];
      }
    }

    /**
     * One turn of the loop.  `taken` is what it received besides the command it was given; it stops the loop, with
     * false, exactly when the last command it handled asks for shutdown.
     */
    method ProcessCommandCoalesced(command: Command) returns (go: bool, ghost taken: seq<Command>)
      requires Valid()
      modifies this
      ensures Valid()
      ensures old(queue) == taken + queue
      ensures Flatten(groups) == Flatten(old(groups)) + ([command] + taken)
      ensures StopsAtShutdown([command] + taken, go)
    {
      hide RunGroups, Coalesced, GroupUpdates, Flatten, Updates, AllUpdates, AllGroups, StopsAtShutdown;
      taken := [];
      assert [command] + taken == [command];
      LoneCommand(command);
      if command.Event? {
        var coalesced := new CoalescedEvents();
        coalesced.Add(command.event);
        var other: Option<Command>;
        other, taken := Drain(coalesced, command);
        FilesAskForNoShutdown([command] + taken);
        Flush(coalesced, [command] + taken);
        go := true;
        if other.Some? {
          go := ProcessOther(other.value);
          StopsAtShutdownJoins([command] + taken, [other.value], go);
          ConcatAssociates(Flatten(old(groups)), [command] + taken, [other.value]);
          ConcatAssociates([command], taken, [other.value]);
          taken := taken + [other.value];
        }
      } else if command.EventBatch? {
        var coalesced := new CoalescedEvents();
        coalesced.AddAll(command.events);
        GroupUpdatesOne(command);
        Flush(coalesced, [command]);
        go := true;
      } else {
        go := ProcessOther(command);
      }
    }

    /**
     * Receive and process until shutdown is asked for or every sender is gone and the queue is empty.  Whatever the
     * groups were, the commands handled are those a loop without coalescing would handle.
     */
    method RunLoop() returns (ghost commands: seq<Command>, stopped: bool)
      requires Valid() && groups == []
      modifies this
      ensures Valid() && Flatten(groups) == commands
      ensures old(queue) == commands + queue
      ensures StopsAtShutdown(commands, !stopped)
      ensures !stopped ==> queue == []
      ensures Clean(start, groups) ==> State(index, answers, handled) == RunOneByOne(start, commands)
    {
      commands, stopped := [], false;
      while queue != [] && !stopped
        invariant Valid() && Flatten(groups) == commands
        invariant old(queue) == commands + queue
        invariant StopsAtShutdown(commands, !stopped)
        decreases |queue|
      {
        hide RunGroups, Flatten, AllGroups, StopsAtShutdown;
        var command := queue[0];
        ghost var before := queue;
        queue := queue[1..];
        ghost var taken: seq<Command>;
        var go: bool;
        go, taken := ProcessCommandCoalesced(command);
        assert before == ([command] + taken) + queue;
        ConcatAssociates(commands, [command] + taken, queue);
        StopsAtShutdownJoins(commands, [command] + taken, go);
        commands := commands + ([command] + taken);
        stopped := !go;
      }
      hide RunGroups, RunOneByOne, Flatten, Clean;
      CleanIffAgreeThroughout(start, groups);
    }
  }
}
