/** repair_history: drop duplicate results, strip displaced ones, answer the calls left dangling. */
module HistoryRepair {
  import opened Sequences
  import opened Conversation
  import opened ToolPairing

  /** How many results follow immediately. */
  function RunLength(items: seq<Item>): (n: nat)
    ensures n <= |items|
    ensures forall k | 0 <= k < n :: items[k].ToolResult?
    ensures n < |items| ==> !items[n].ToolResult?
  {
    if items != [] && items[0].ToolResult? then 1 + RunLength(items[1..]) else 0
  }

  predicate IsRun(items: seq<Item>) {
    forall k | 0 <= k < |items| :: items[k].ToolResult?
  }

  function ResultIds(run: seq<Item>): set<Bytes> {
    set x | x in run && x.ToolResult? :: x.toolCallId
  }

  /** The last result of each id in a run. */
  function LastOnly(run: seq<Item>): (r: seq<Item>)
    requires IsRun(run)
    ensures |r| <= |run| && IsRun(r)
  {
    if run == [] then []
    else if run[0].toolCallId in ResultIds(run[1..]) then LastOnly(run[1..])
    else [run[0]] + LastOnly(run[1..])
  }

  function Deduplicated(items: seq<Item>): seq<Item>
    decreases |items|
  {
    if items == [] then []
    else if items[0].Assistant? && items[0].toolCalls != [] then
      var n := RunLength(items[1..]);
      [items[0]] + LastOnly(items[1..1 + n]) + Deduplicated(items[1 + n..])
    else [items[0]] + Deduplicated(items[1..])
  }

  const SYNTHETIC_PREFIX: Bytes
  const SYNTHETIC_SUFFIX: Bytes

  /** The synthetic result names the tool; the wording around the name is left open. */
  function SyntheticResult(c: ToolCall): Item {
    ToolResult(c.id, SYNTHETIC_PREFIX + c.name + SYNTHETIC_SUFFIX, [])
  }

  function Synthetic(calls: seq<ToolCall>, answered: set<Bytes>): (r: seq<Item>)
    ensures IsRun(r)
  {
    if calls == [] then []
    else if calls[0].id in answered then Synthetic(calls[1..], answered)
    else [SyntheticResult(calls[0])] + Synthetic(calls[1..], answered)
  }

  function Answered(items: seq<Item>): seq<Item>
    decreases |items|
  {
    if items == [] then []
    else if items[0].Assistant? && items[0].toolCalls != [] then
      var n := RunLength(items[1..]);
      var run := items[1..1 + n];
      [items[0]] + run + Synthetic(items[0].toolCalls, ResultIds(run)) + Answered(items[1 + n..])
    else [items[0]] + Answered(items[1..])
  }

  function Repaired(items: seq<Item>): seq<Item> {
    Answered(Stripped(Deduplicated(items)))
  }

  // ---- block by block ----

  function OnlyOf(calls: seq<ToolCall>, run: seq<Item>): (r: seq<Item>)
    requires IsRun(run)
    ensures |r| <= |run| && IsRun(r)
  {
    if run == [] then []
    else if run[0].toolCallId in CallIds(calls) then [run[0]] + OnlyOf(calls, run[1..])
    else OnlyOf(calls, run[1..])
  }

  /** What becomes of the results that follow one assistant turn. */
  function FixedRun(calls: seq<ToolCall>, run: seq<Item>): (r: seq<Item>)
    requires IsRun(run)
    ensures IsRun(r)
  {
    var kept := OnlyOf(calls, LastOnly(run));
    kept + Synthetic(calls, ResultIds(kept))
  }

  /** Repairing turn by turn. Results that follow no assistant turn go. */
  function Blocks(items: seq<Item>): (r: seq<Item>)
    ensures r != [] ==> !r[0].ToolResult?
    decreases |items|
  {
    if items == [] then []
    else match items[0]
      case Assistant(_, calls, _) =>
        var n := RunLength(items[1..]);
        [items[0]] + FixedRun(calls, items[1..1 + n]) + Blocks(items[1 + n..])
      case ToolResult(_, _, _) => Blocks(items[1..])
      case _ => [items[0]] + Blocks(items[1..])
  }

  lemma RunThenRest(run: seq<Item>, rest: seq<Item>)
    requires IsRun(run) && (rest != [] ==> !rest[0].ToolResult?)
    ensures RunLength(run + rest) == |run|
    ensures (run + rest)[..|run|] == run && (run + rest)[|run|..] == rest
  {}

  lemma {:induction false} StripRun(run: seq<Item>, rest: seq<Item>, calls: seq<ToolCall>)
    requires IsRun(run)
    ensures StrippedFrom(run + rest, CallIds(calls)) == OnlyOf(calls, run) + StrippedFrom(rest, CallIds(calls))
  {
    hide CallIds;
    if run == [] {
      assert run + rest == rest;
    } else {
      StripRun(run[1..], rest, calls);
      assert (run + rest)[1..] == run[1..] + rest && (run + rest)[0] == run[0];
    }
  }

  lemma StripAtTurn(rest: seq<Item>, run: set<Bytes>)
    requires rest != [] ==> !rest[0].ToolResult?
    ensures StrippedFrom(rest, run) == Stripped(rest)
    ensures Stripped(rest) != [] ==> !Stripped(rest)[0].ToolResult?
  {}

  lemma {:induction false} OnlyOfNone(run: seq<Item>)
    requires IsRun(run)
    ensures OnlyOf([], run) == []
  {
    if run != [] {
      OnlyOfNone(run[1..]);
    }
  }

  lemma {:induction false} BlocksSkipRun(run: seq<Item>, rest: seq<Item>)
    requires IsRun(run)
    ensures Blocks(run + rest) == Blocks(rest)
  {
    if run == [] {
      assert run + rest == rest;
    } else {
      assert (run + rest)[1..] == run[1..] + rest;
      BlocksSkipRun(run[1..], rest);
    }
  }

  lemma AnsweredBlock(a: Item, kept: seq<Item>, rest: seq<Item>)
    requires a.Assistant? && a.toolCalls != [] && IsRun(kept) && (rest != [] ==> !rest[0].ToolResult?)
    ensures Answered([a] + kept + rest) == [a] + kept + Synthetic(a.toolCalls, ResultIds(kept)) + Answered(rest)
  {
    var items := [a] + kept + rest;
    assert items[1..] == kept + rest;
    RunThenRest(kept, rest);
    assert items[1..1 + |kept|] == kept && items[1 + |kept|..] == rest;
  }

  lemma StripTurn(items: seq<Item>)
    requires items != [] && items[0].Assistant?
    ensures Stripped(items) == [items[0]] + StrippedFrom(items[1..], CallIds(items[0].toolCalls))
  {
    hide CallIds;
  }

  lemma StrippedBlock(a: Item, run: seq<Item>, rest: seq<Item>)
    requires a.Assistant? && IsRun(run) && (rest != [] ==> !rest[0].ToolResult?)
    ensures Stripped([a] + run + rest) == [a] + OnlyOf(a.toolCalls, run) + Stripped(rest)
  {
    hide CallIds, OnlyOf, StrippedFrom;
    var items := [a] + run + rest;
    StripRun(run, rest, a.toolCalls);
    StripAtTurn(rest, CallIds(a.toolCalls));
    StripTurn(items);
    assert items[0] == a && items[1..] == run + rest;
    ConcatAssociates([a], OnlyOf(a.toolCalls, run), Stripped(rest));
  }

  lemma DeduplicatedStart(items: seq<Item>)
    ensures items == [] <==> Deduplicated(items) == []
    ensures items != [] ==> Deduplicated(items)[0] == items[0]
  {}

  lemma SilentTurn(a: Item, run: seq<Item>, rest: seq<Item>)
    requires a.Assistant? && a.toolCalls == [] && IsRun(run)
    ensures FixedRun([], run) == [] && Blocks(run + rest) == Blocks(rest)
  {
    OnlyOfNone(LastOnly(run));
    BlocksSkipRun(run, rest);
  }

  lemma CallingTurn(items: seq<Item>, run: seq<Item>, rest: seq<Item>)
    requires items != [] && items[0].Assistant? && items[0].toolCalls != []
    requires RunLength(items[1..]) == |run| && items[1..1 + |run|] == run && items[1 + |run|..] == rest && IsRun(run)
    ensures Repaired(items) == [items[0]] + FixedRun(items[0].toolCalls, run) + Repaired(rest)
  {
    var a := items[0];
    var last, after := LastOnly(run), Deduplicated(rest);
    DeduplicatedStart(rest);
    assert Deduplicated(items) == [a] + last + after;
    assert rest != [] ==> rest[0] == items[1..][|run|];
    StrippedBlock(a, last, after);
    StripAtTurn(after, {});
    var kept := OnlyOf(a.toolCalls, last);
    AnsweredBlock(a, kept, Stripped(after));
    ConcatAssociates([a], kept, Synthetic(a.toolCalls, ResultIds(kept)));
  }

  lemma PassedThrough(items: seq<Item>)
    requires items != [] && (items[0].Assistant? ==> items[0].toolCalls == [])
    ensures Repaired(items) == (if items[0].ToolResult? then [] else [items[0]]) + Repaired(items[1..])
  {
    var x, rest := items[0], Deduplicated(items[1..]);
    assert CallIds([]) == {};
    assert NextRun(x, {}) == {};
    assert Deduplicated(items) == [x] + rest;
    assert Stripped([x] + rest) == (if x.ToolResult? then [] else [x]) + Stripped(rest);
  }

  /** The three passes together treat each assistant turn and its run on their own. */
  lemma {:induction false} RepairedByBlocks(items: seq<Item>)
    ensures Repaired(items) == Blocks(items)
    decreases |items|
  {
    if items == [] {
    } else if !items[0].Assistant? {
      PassedThrough(items);
      RepairedByBlocks(items[1..]);
      hide Repaired;
    } else {
      var a, n := items[0], RunLength(items[1..]);
      var run, rest := items[1..1 + n], items[1 + n..];
      hide Repaired, FixedRun;
      if a.toolCalls != [] {
        CallingTurn(items, run, rest);
        RepairedByBlocks(rest);
      } else {
        PassedThrough(items);
        RepairedByBlocks(items[1..]);
        SilentBlock(items, run, rest);
      }
    }
  }

  lemma SilentBlock(items: seq<Item>, run: seq<Item>, rest: seq<Item>)
    requires items != [] && items[0].Assistant? && items[0].toolCalls == [] && IsRun(run)
    requires RunLength(items[1..]) == |run| && items[1..1 + |run|] == run && items[1 + |run|..] == rest
    ensures Blocks(items) == [items[0]] + Blocks(items[1..])
  {
    hide FixedRun, RunLength, IsRun;
    assert Blocks(items) == [items[0]] + FixedRun([], run) + Blocks(rest);
    hide Blocks;
    assert items[1..] == run + rest;
    SilentTurn(items[0], run, rest);
    assert [items[0]] + [] == [items[0]];
  }

  // ---- one turn, repaired twice ----

  predicate DistinctIds(run: seq<Item>)
    requires IsRun(run)
  {
    run == [] || (run[0].toolCallId !in ResultIds(run[1..]) && DistinctIds(run[1..]))
  }

  predicate NoRepeats(ids: seq<Bytes>) {
    ids == [] || (ids[0] !in ids[1..] && NoRepeats(ids[1..]))
  }

  /** Ids of the calls that no result of the run answers, in call order. */
  function UnansweredIds(calls: seq<ToolCall>, answered: set<Bytes>): seq<Bytes> {
    if calls == [] then []
    else if calls[0].id in answered then UnansweredIds(calls[1..], answered)
    else [calls[0].id] + UnansweredIds(calls[1..], answered)
  }

  lemma ResultIdsOfCons(x: Item, run: seq<Item>)
    requires x.ToolResult? && IsRun(run)
    ensures ResultIds([x] + run) == {x.toolCallId} + ResultIds(run)
  {
    assert x in [x] + run;
    forall y | y in run ensures y in [x] + run {}
  }

  lemma ResultIdsOfConcat(a: seq<Item>, b: seq<Item>)
    ensures ResultIds(a + b) == ResultIds(a) + ResultIds(b)
  {
    forall y | y in a || y in b ensures y in a + b {}
  }

  lemma {:induction false} LastOnlyIds(run: seq<Item>)
    requires IsRun(run)
    ensures ResultIds(LastOnly(run)) == ResultIds(run)
    ensures DistinctIds(LastOnly(run))
    ensures LastOnly(run) == run <==> DistinctIds(run)
    ensures !DistinctIds(run) ==> |LastOnly(run)| < |run|
  {
    if run != [] {
      LastOnlyIds(run[1..]);
      assert run == [run[0]] + run[1..];
      ResultIdsOfCons(run[0], run[1..]);
      ResultIdsOfCons(run[0], LastOnly(run[1..]));
    }
  }

  lemma {:induction false} OnlyOfIds(calls: seq<ToolCall>, run: seq<Item>)
    requires IsRun(run)
    ensures ResultIds(OnlyOf(calls, run)) == ResultIds(run) * CallIds(calls)
    ensures DistinctIds(run) ==> DistinctIds(OnlyOf(calls, run))
    ensures ResultIds(run) <= CallIds(calls) ==> OnlyOf(calls, run) == run
  {
    if run != [] {
      hide ResultIds, CallIds, OnlyOf, DistinctIds;
      OnlyOfIds(calls, run[1..]);
      OnlyOfUnfolds(calls, run);
      DistinctCons(run[0], run[1..]);
      DistinctCons(run[0], OnlyOf(calls, run[1..]));
      ResultIdsOfCons(run[0], run[1..]);
      ResultIdsOfCons(run[0], OnlyOf(calls, run[1..]));
      MeetWithOneMore(run[0].toolCallId, ResultIds(run[1..]), CallIds(calls));
    }
  }

  lemma OnlyOfUnfolds(calls: seq<ToolCall>, run: seq<Item>)
    requires IsRun(run) && run != []
    ensures run == [run[0]] + run[1..]
    ensures var rest := OnlyOf(calls, run[1..]);
            OnlyOf(calls, run) == if run[0].toolCallId in CallIds(calls) then [run[0]] + rest else rest
  {}

  lemma DistinctCons(x: Item, run: seq<Item>)
    requires x.ToolResult? && IsRun(run)
    ensures DistinctIds([x] + run) <==> x.toolCallId !in ResultIds(run) && DistinctIds(run)
  {
    hide ResultIds;
    assert ([x] + run)[1..] == run;
  }

  lemma MeetWithOneMore(id: Bytes, ids: set<Bytes>, others: set<Bytes>)
    ensures ({id} + ids) * others == (if id in others then {id} else {}) + ids * others
    ensures {id} + ids <= others <==> id in others && ids <= others
  {}

  lemma CallIdsOfCons(calls: seq<ToolCall>)
    requires calls != []
    ensures CallIds(calls) == {calls[0].id} + CallIds(calls[1..])
  {
    forall c | c in calls ensures c == calls[0] || c in calls[1..] {}
  }

  lemma {:induction false} SyntheticIds(calls: seq<ToolCall>, answered: set<Bytes>)
    ensures ResultIds(Synthetic(calls, answered)) == CallIds(calls) - answered
    ensures forall id :: id in UnansweredIds(calls, answered) <==> id in CallIds(calls) - answered
    ensures DistinctIds(Synthetic(calls, answered)) <==> NoRepeats(UnansweredIds(calls, answered))
  {
    if calls != [] {
      SyntheticIds(calls[1..], answered);
      CallIdsOfCons(calls);
      var rest := Synthetic(calls[1..], answered);
      ResultIdsOfCons(SyntheticResult(calls[0]), rest);
      assert ([SyntheticResult(calls[0])] + rest)[1..] == rest;
    }
  }

  lemma {:induction false} DistinctConcat(a: seq<Item>, b: seq<Item>)
    requires IsRun(a) && IsRun(b) && ResultIds(a) !! ResultIds(b)
    ensures DistinctIds(a + b) <==> DistinctIds(a) && DistinctIds(b)
  {
    if a == [] {
      assert a + b == b;
    } else {
      assert a == [a[0]] + a[1..];
      ResultIdsOfCons(a[0], a[1..]);
      DistinctConcat(a[1..], b);
      assert (a + b)[1..] == a[1..] + b;
      ResultIdsOfConcat(a[1..], b);
    }
  }

  lemma {:induction false} UnansweredByKept(calls: seq<ToolCall>, some: seq<ToolCall>, answered: set<Bytes>)
    requires CallIds(some) <= CallIds(calls)
    ensures UnansweredIds(some, answered * CallIds(calls)) == UnansweredIds(some, answered)
  {
    if some != [] {
      CallIdsOfCons(some);
      UnansweredByKept(calls, some[1..], answered);
    }
  }

  lemma FixedRunIds(calls: seq<ToolCall>, run: seq<Item>)
    requires IsRun(run)
    ensures ResultIds(FixedRun(calls, run)) == CallIds(calls)
    ensures DistinctIds(FixedRun(calls, run)) <==> NoRepeats(UnansweredIds(calls, ResultIds(run)))
  {
    var kept := OnlyOf(calls, LastOnly(run));
    LastOnlyIds(run);
    OnlyOfIds(calls, LastOnly(run));
    SyntheticIds(calls, ResultIds(kept));
    ResultIdsOfConcat(kept, Synthetic(calls, ResultIds(kept)));
    DistinctConcat(kept, Synthetic(calls, ResultIds(kept)));
    UnansweredByKept(calls, calls, ResultIds(run));
  }

  lemma {:induction false} NothingSynthetic(calls: seq<ToolCall>, answered: set<Bytes>)
    requires CallIds(calls) <= answered
    ensures Synthetic(calls, answered) == []
  {
    if calls != [] {
      CallIdsOfCons(calls);
      NothingSynthetic(calls[1..], answered);
    }
  }

  /** A run that repair has already been over changes only by losing the earlier of two synthetic
      results for one repeated call id. */
  lemma FixedTwice(calls: seq<ToolCall>, run: seq<Item>)
    requires IsRun(run)
    ensures FixedRun(calls, FixedRun(calls, run)) == LastOnly(FixedRun(calls, run))
  {
    var f := FixedRun(calls, run);
    FixedRunIds(calls, run);
    LastOnlyIds(f);
    OnlyOfIds(calls, LastOnly(f));
    NothingSynthetic(calls, ResultIds(LastOnly(f)));
  }

  // ---- the whole history ----

  /** No turn declares an id twice while no result in its run answers it. */
  predicate NoRepeatedDangling(items: seq<Item>) {
    items == [] ||
    ((items[0].Assistant? ==>
       NoRepeats(UnansweredIds(items[0].toolCalls, ResultIds(items[1..1 + RunLength(items[1..])]))))
     && NoRepeatedDangling(items[1..]))
  }

  lemma {:induction false} NoRepeatedSkipsRun(run: seq<Item>, rest: seq<Item>)
    requires IsRun(run)
    ensures NoRepeatedDangling(run + rest) == NoRepeatedDangling(rest)
  {
    if run == [] {
      assert run + rest == rest;
    } else {
      assert (run + rest)[1..] == run[1..] + rest;
      NoRepeatedSkipsRun(run[1..], rest);
    }
  }

  lemma BlockAgain(a: Item, run: seq<Item>, rest: seq<Item>)
    requires a.Assistant? && IsRun(run) && (rest != [] ==> !rest[0].ToolResult?)
    ensures Blocks([a] + run + rest) == [a] + FixedRun(a.toolCalls, run) + Blocks(rest)
  {
    var items := [a] + run + rest;
    assert items[1..] == run + rest;
    RunThenRest(run, rest);
    assert items[1..1 + |run|] == run && items[1 + |run|..] == rest;
  }

  lemma {:induction false} BlocksTwice(items: seq<Item>)
    ensures |Blocks(Blocks(items))| <= |Blocks(items)|
    ensures Blocks(Blocks(items)) == Blocks(items) <==> NoRepeatedDangling(items)
    decreases |items|
  {
    if items == [] {
    } else if items[0].Assistant? {
      var n := RunLength(items[1..]);
      var run, rest := items[1..1 + n], items[1 + n..];
      assert run == items[1..][..n] && IsRun(run);
      hide Blocks, NoRepeatedDangling;
      BlocksTwice(rest);
      TurnTwice(items, run, rest);
    } else {
      BlocksTwice(items[1..]);
    }
  }

  lemma TurnTwice(items: seq<Item>, run: seq<Item>, rest: seq<Item>)
    requires items != [] && items[0].Assistant? && IsRun(run)
    requires RunLength(items[1..]) == |run| && items[1..1 + |run|] == run && items[1 + |run|..] == rest
    requires |Blocks(Blocks(rest))| <= |Blocks(rest)|
    requires Blocks(Blocks(rest)) == Blocks(rest) <==> NoRepeatedDangling(rest)
    ensures |Blocks(Blocks(items))| <= |Blocks(items)|
    ensures Blocks(Blocks(items)) == Blocks(items) <==> NoRepeatedDangling(items)
  {
    var a := items[0];
    var f := FixedRun(a.toolCalls, run);
    hide Blocks, FixedRun, NoRepeatedDangling, NoRepeats, UnansweredIds, ResultIds, LastOnly, DistinctIds, RunLength;
    BlocksAtTurn(items, run, rest);
    RepeatsAtTurn(items, run, rest);
    BlockAgain(a, f, Blocks(rest));
    FixedTwice(a.toolCalls, run);
    FixedRunIds(a.toolCalls, run);
    LastOnlyIds(f);
    BlockEqual(a, LastOnly(f), Blocks(Blocks(rest)), f, Blocks(rest));
  }

  lemma BlocksAtTurn(items: seq<Item>, run: seq<Item>, rest: seq<Item>)
    requires items != [] && items[0].Assistant? && IsRun(run)
    requires RunLength(items[1..]) == |run| && items[1..1 + |run|] == run && items[1 + |run|..] == rest
    ensures Blocks(items) == [items[0]] + FixedRun(items[0].toolCalls, run) + Blocks(rest)
  {
    hide FixedRun, RunLength;
  }

  lemma RepeatsAtTurn(items: seq<Item>, run: seq<Item>, rest: seq<Item>)
    requires items != [] && items[0].Assistant? && IsRun(run)
    requires RunLength(items[1..]) == |run| && items[1..1 + |run|] == run && items[1 + |run|..] == rest
    ensures NoRepeatedDangling(items) <==>
            NoRepeats(UnansweredIds(items[0].toolCalls, ResultIds(run))) && NoRepeatedDangling(rest)
  {
    hide NoRepeats, UnansweredIds, ResultIds, RunLength;
    assert items[1..] == run + rest;
    NoRepeatedSkipsRun(run, rest);
  }

  lemma BlockEqual(a: Item, f1: seq<Item>, r1: seq<Item>, f2: seq<Item>, r2: seq<Item>)
    requires |f1| <= |f2| && |r1| <= |r2|
    ensures [a] + f1 + r1 == [a] + f2 + r2 <==> f1 == f2 && r1 == r2
  {
    var s1, s2 := [a] + f1 + r1, [a] + f2 + r2;
    if s1 == s2 {
      assert |f1| == |f2|;
      assert f1 == s1[1..1 + |f1|] && f2 == s2[1..1 + |f2|];
      assert r1 == s1[1 + |f1|..] && r2 == s2[1 + |f2|..];
    }
  }

  /** repair_history is idempotent exactly on the histories in which no turn repeats a dangling id. */
  lemma RepairIdempotentIff(items: seq<Item>)
    ensures Repaired(Repaired(items)) == Repaired(items) <==> NoRepeatedDangling(items)
  {
    RepairedByBlocks(items);
    RepairedByBlocks(Blocks(items));
    BlocksTwice(items);
  }

  /** A turn that declares one id twice and gets no answer: two synthetic results, then one. */
  lemma RepairCanChangeItsOutput(c: ToolCall)
    ensures var items := [Assistant([], [c, c], [])];
      Repaired(Repaired(items)) != Repaired(items)
  {
    var items := [Assistant([], [c, c], [])];
    assert [c, c][1..] == [c];
    assert ResultIds(items[1..1 + RunLength(items[1..])]) == {};
    assert UnansweredIds([c], {}) == [c.id];
    assert UnansweredIds([c, c], {}) == [c.id, c.id];
    assert !NoRepeats([c.id, c.id]);
    RepairIdempotentIff(items);
  }

  // ---- what a repaired history is ----

  /** Every call is answered in the run that follows it. */
  predicate AllAnswered(items: seq<Item>) {
    items == [] ||
    ((items[0].Assistant? ==>
       CallIds(items[0].toolCalls) <= ResultIds(items[1..1 + RunLength(items[1..])]))
     && AllAnswered(items[1..]))
  }

  lemma {:induction false} AnsweredSkipsRun(run: seq<Item>, rest: seq<Item>)
    requires IsRun(run)
    ensures AllAnswered(run + rest) == AllAnswered(rest)
  {
    if run == [] {
      assert run + rest == rest;
    } else {
      assert (run + rest)[1..] == run[1..] + rest;
      AnsweredSkipsRun(run[1..], rest);
    }
  }

  lemma {:induction false} OwnRunIsNotDisplaced(run: seq<Item>, rest: seq<Item>, ids: set<Bytes>)
    requires IsRun(run) && ResultIds(run) <= ids && (rest != [] ==> !rest[0].ToolResult?)
    ensures DisplacedFrom(run + rest, ids) == Displaced(rest)
  {
    if run == [] {
      assert run + rest == rest;
    } else {
      assert run == [run[0]] + run[1..];
      ResultIdsOfCons(run[0], run[1..]);
      assert (run + rest)[1..] == run[1..] + rest;
      OwnRunIsNotDisplaced(run[1..], rest, ids);
    }
  }

  lemma {:induction false} NonResultsSkipRun(run: seq<Item>, rest: seq<Item>)
    requires IsRun(run)
    ensures NonResults(run + rest) == NonResults(rest)
  {
    if run == [] {
      assert run + rest == rest;
    } else {
      assert (run + rest)[1..] == run[1..] + rest;
      NonResultsSkipRun(run[1..], rest);
    }
  }

  lemma {:induction false} BlocksArePaired(items: seq<Item>)
    ensures Displaced(Blocks(items)) == [] && AllAnswered(Blocks(items))
    ensures NonResults(Blocks(items)) == NonResults(items)
    decreases |items|
  {
    if items == [] {
    } else if items[0].Assistant? {
      var n := RunLength(items[1..]);
      var run, rest := items[1..1 + n], items[1 + n..];
      assert run == items[1..][..n] && IsRun(run);
      hide Blocks, Displaced, AllAnswered, NonResults;
      BlocksArePaired(rest);
      PairedTurn(items, run, rest);
    } else {
      BlocksArePaired(items[1..]);
    }
  }

  lemma PairedTurn(items: seq<Item>, run: seq<Item>, rest: seq<Item>)
    requires items != [] && items[0].Assistant? && IsRun(run)
    requires RunLength(items[1..]) == |run| && items[1..1 + |run|] == run && items[1 + |run|..] == rest
    requires Displaced(Blocks(rest)) == [] && AllAnswered(Blocks(rest)) && NonResults(Blocks(rest)) == NonResults(rest)
    ensures Displaced(Blocks(items)) == [] && AllAnswered(Blocks(items))
    ensures NonResults(Blocks(items)) == NonResults(items)
  {
    var a := items[0];
    var f := FixedRun(a.toolCalls, run);
    hide Displaced, AllAnswered, FixedRun, Blocks, RunLength, NonResults;
    BlocksAtTurn(items, run, rest);
    FixedRunIds(a.toolCalls, run);
    PairedBlock(a, f, Blocks(rest));
    NonResultsOfTurn(items, run, rest);
  }

  lemma NonResultsOfTurn(items: seq<Item>, run: seq<Item>, rest: seq<Item>)
    requires 1 + |run| <= |items| && items[0].Assistant? && IsRun(run)
    requires items[1..1 + |run|] == run && items[1 + |run|..] == rest
    ensures NonResults(items) == [items[0]] + NonResults(rest)
  {
    assert items[1..] == run + rest;
    NonResultsSkipRun(run, rest);
  }

  lemma PairedBlock(a: Item, f: seq<Item>, rest: seq<Item>)
    requires a.Assistant? && IsRun(f) && ResultIds(f) == CallIds(a.toolCalls)
    requires rest != [] ==> !rest[0].ToolResult?
    ensures Displaced([a] + f + rest) == Displaced(rest)
    ensures AllAnswered([a] + f + rest) == AllAnswered(rest)
    ensures NonResults([a] + f + rest) == [a] + NonResults(rest)
  {
    var items := [a] + f + rest;
    assert items[1..] == f + rest;
    OwnRunIsNotDisplaced(f, rest, CallIds(a.toolCalls));
    AnsweredSkipsRun(f, rest);
    NonResultsSkipRun(f, rest);
    RunThenRest(f, rest);
    assert items[1..1 + |f|] == f;
  }

  // ---- what becomes of one turn ----

  /** The results for these calls that are the last for their id, in order. */
  function LastResults(calls: seq<ToolCall>, run: seq<Item>): seq<Item>
    requires IsRun(run)
  {
    if run == [] then []
    else
      var id := run[0].toolCallId;
      var keep := (exists c | c in calls :: c.id == id) && forall j | 0 < j < |run| :: run[j].toolCallId != id;
      (if keep then [run[0]] else []) + LastResults(calls, run[1..])
  }

  /** A synthetic result for each call that no result answers, in call order. */
  function MissingResults(calls: seq<ToolCall>, run: seq<Item>): seq<Item>
    requires IsRun(run)
  {
    if calls == [] then []
    else
      var missing := forall j | 0 <= j < |run| :: run[j].toolCallId != calls[0].id;
      (if missing then [ToolResult(calls[0].id, SYNTHETIC_PREFIX + calls[0].name + SYNTHETIC_SUFFIX, [])] else [])
      + MissingResults(calls[1..], run)
  }

  lemma {:induction false} KeptAreLast(calls: seq<ToolCall>, run: seq<Item>)
    requires IsRun(run)
    ensures OnlyOf(calls, LastOnly(run)) == LastResults(calls, run)
  {
    if run != [] {
      KeptAreLast(calls, run[1..]);
      IdAmong(run[1..], run[0].toolCallId);
      assert forall j | 0 < j < |run| :: run[j] == run[1..][j - 1];
      assert forall j | 0 <= j < |run| - 1 :: run[1..][j] == run[j + 1];
      if run[0].toolCallId !in ResultIds(run[1..]) {
        assert ([run[0]] + LastOnly(run[1..]))[1..] == LastOnly(run[1..]);
      }
    }
  }

  lemma IdAmong(run: seq<Item>, id: Bytes)
    requires IsRun(run)
    ensures id in ResultIds(run) <==> exists j | 0 <= j < |run| :: run[j].toolCallId == id
  {
    if j: nat :| j < |run| && run[j].toolCallId == id {
      assert run[j] in run;
    }
  }

  lemma {:induction false} AddedAreMissing(calls: seq<ToolCall>, all: set<Bytes>, run: seq<Item>, answered: set<Bytes>)
    requires IsRun(run) && CallIds(calls) <= all && answered == ResultIds(run) * all
    ensures Synthetic(calls, answered) == MissingResults(calls, run)
  {
    if calls != [] {
      hide CallIds, ResultIds;
      CallIdsOfCons(calls);
      IdAmong(run, calls[0].id);
      AddedAreMissing(calls[1..], all, run, answered);
    }
  }

  /**
   * Behind an assistant turn, the results that are the last for one of its calls stay, in order, and one is added for
   * each call without; the rest of the history is repaired by itself.
   */
  lemma TurnIsRepaired(a: Item, run: seq<Item>, rest: seq<Item>)
    requires a.Assistant? && IsRun(run) && (rest != [] ==> !rest[0].ToolResult?)
    ensures Repaired([a] + run + rest)
         == [a] + (LastResults(a.toolCalls, run) + MissingResults(a.toolCalls, run)) + Repaired(rest)
  {
    hide Repaired, Blocks, FixedRun, LastResults, MissingResults, RunLength;
    var items := [a] + run + rest;
    RepairedByBlocks(items);
    RepairedByBlocks(rest);
    RunThenRest(run, rest);
    assert items[1..] == run + rest && items[1..1 + |run|] == run && items[1 + |run|..] == rest;
    BlocksAtTurn(items, run, rest);
    FixedRunParts(a.toolCalls, run);
  }

  lemma FixedRunParts(calls: seq<ToolCall>, run: seq<Item>)
    requires IsRun(run)
    ensures FixedRun(calls, run) == LastResults(calls, run) + MissingResults(calls, run)
  {
    hide LastOnly, OnlyOf, Synthetic, LastResults, MissingResults, ResultIds, CallIds;
    KeptAreLast(calls, run);
    OnlyOfIds(calls, LastOnly(run));
    LastOnlyIds(run);
    AddedAreMissing(calls, CallIds(calls), run, ResultIds(OnlyOf(calls, LastOnly(run))));
  }

  /** Any other item stays, unless it is a result that no turn stands before. */
  lemma OtherItemsStay(x: Item, rest: seq<Item>)
    requires !x.Assistant?
    ensures Repaired([x] + rest) == if x.ToolResult? then Repaired(rest) else [x] + Repaired(rest)
  {
    hide Repaired;
    RepairedByBlocks([x] + rest);
    RepairedByBlocks(rest);
    assert ([x] + rest)[1..] == rest;
  }

  /** After repair every result is in its owner's run, every call is answered there, validation is
      clean, and no other item was touched. */
  lemma RepairedIsPaired(items: seq<Item>)
    ensures AllInRun(Repaired(items)) && AllAnswered(Repaired(items))
    ensures Invalid(Repaired(items)) == []
    ensures NonResults(Repaired(items)) == NonResults(items)
  {
    RepairedByBlocks(items);
    BlocksArePaired(items);
    PairedIff(Blocks(items));
    PairedIsValid(Blocks(items));
  }
}
