/** The three passes of repair_history as loops that edit the history, and what its report says. */
module HistoryRepairPasses {
  import opened Sequences
  import opened Conversation
  import opened ToolPairing
  import opened HistoryRepair

  // ---- dropping duplicate results ----

  /** The positions in a run whose id comes again before its end. */
  method RepeatedLater(items: seq<Item>, start: nat, end: nat) returns (toRemove: set<nat>)
    requires start <= end <= |items| && IsRun(items[start..end])
    ensures forall p: nat :: p in toRemove <==>
              start <= p < end && items[p].toolCallId in ResultIds(items[p + 1..end])
  {
    var seen: map<Bytes, nat> := map[];
    toRemove := {};
    for idx := start to end
      invariant forall id :: id in seen <==> exists p | start <= p < idx :: ResultAt(items, p, id)
      invariant forall id | id in seen :: start <= seen[id] < idx && LastBefore(items, idx, id, seen[id])
      invariant forall p: nat :: p in toRemove <==> start <= p < idx && AgainBefore(items, p, idx)
    {
      assert items[idx] == items[start..end][idx - start];
      var id := items[idx].toolCallId;
      assert ResultAt(items, idx, id);
      forall p: nat | start <= p < idx && items[p].ToolResult?
        ensures AgainBefore(items, p, idx + 1) <==>
                  AgainBefore(items, p, idx) || (id in seen && p == seen[id])
      {
        AgainNext(items, p, idx, if id in seen then Some(seen[id]) else None);
      }
      if id in seen {
        toRemove := toRemove + {seen[id]};
      }
      seen := seen[id := idx];
    }
    forall p: nat | start <= p < end
      ensures AgainBefore(items, p, end) <==> items[p].toolCallId in ResultIds(items[p + 1..end])
    {
      AgainIsLater(items, p, end);
    }
  }

  predicate ResultAt(items: seq<Item>, p: nat, id: Bytes) {
    p < |items| && items[p].ToolResult? && items[p].toolCallId == id
  }

  predicate LastBefore(items: seq<Item>, idx: nat, id: Bytes, p: nat) {
    ResultAt(items, p, id) && forall q | p < q < idx :: !ResultAt(items, q, id)
  }

  predicate AgainBefore(items: seq<Item>, p: nat, idx: nat) {
    p < |items| && items[p].ToolResult? && exists q | p < q < idx :: ResultAt(items, q, items[p].toolCallId)
  }

  /** One more result makes an id come again where it was last seen, and nowhere else. */
  lemma AgainNext(items: seq<Item>, p: nat, idx: nat, last: Option<nat>)
    requires p < idx < |items| && items[p].ToolResult? && items[idx].ToolResult?
    requires last.Some? ==> LastBefore(items, idx, items[idx].toolCallId, last.value)
    requires last.None? ==> !ResultAt(items, p, items[idx].toolCallId)
    requires last.Some? && ResultAt(items, p, items[idx].toolCallId) ==> p <= last.value < idx
    ensures AgainBefore(items, p, idx + 1) <==> AgainBefore(items, p, idx) || last == Some(p)
  {
    var id := items[p].toolCallId;
    assert ResultAt(items, idx, items[idx].toolCallId);
    if AgainBefore(items, p, idx + 1) && !AgainBefore(items, p, idx) {
      assert ResultAt(items, idx, id);
    }
  }

  lemma AgainIsLater(items: seq<Item>, p: nat, end: nat)
    requires p < end <= |items| && items[p].ToolResult?
    ensures AgainBefore(items, p, end) <==> items[p].toolCallId in ResultIds(items[p + 1..end])
  {
    var behind := items[p + 1..end];
    forall q | p < q < end ensures items[q] in behind {
      assert items[q] == behind[q - p - 1];
    }
    if items[p].toolCallId in ResultIds(behind) {
      var x :| x in behind && x.ToolResult? && x.toolCallId == items[p].toolCallId;
      var k :| 0 <= k < |behind| && behind[k] == x;
      assert ResultAt(items, p + 1 + k, items[p].toolCallId);
    }
  }

  /** Taking the marked positions out from the back leaves the last result of each id. */
  method RemoveMarked(items: seq<Item>, start: nat, end: nat, toRemove: set<nat>) returns (r: seq<Item>)
    requires start <= end <= |items| && IsRun(items[start..end])
    requires forall p: nat :: p in toRemove <==>
               start <= p < end && items[p].toolCallId in ResultIds(items[p + 1..end])
    ensures r == items[..start] + LastOnly(items[start..end]) + items[end..]
    ensures |r| + |toRemove| == |items|
  {
    hide LastOnly, ResultIds, IsRun;
    r := items;
    var rest := items[end..];
    assert items[end..end] == [];
    NothingToKeep(items[end..end]);
    assert From(toRemove, end) == {};
    for idx := end downto start
      invariant IsRun(items[idx..end])
      invariant r == items[..idx] + LastOnly(items[idx..end]) + rest
      invariant |r| + |From(toRemove, idx)| == |items|
    {
      hide From;
      LastOnlyNext(items, start, idx, end);
      WithoutOne(items, idx, LastOnly(items[idx + 1..end]), rest);
      OneMore(toRemove, idx);
      if idx in toRemove {
        r := r[..idx] + r[idx + 1..];
      }
    }
    assert From(toRemove, start) == toRemove;
  }

  function From(marked: set<nat>, idx: nat): set<nat> {
    set p | p in marked && p >= idx
  }

  lemma OneMore(marked: set<nat>, idx: nat)
    ensures |From(marked, idx)| == |From(marked, idx + 1)| + (if idx in marked then 1 else 0)
  {
    assert From(marked, idx) == if idx in marked then From(marked, idx + 1) + {idx} else From(marked, idx + 1);
  }

  /** An item in front of what is kept goes, or is kept as well. */
  lemma WithoutOne(items: seq<Item>, idx: nat, kept: seq<Item>, rest: seq<Item>)
    requires idx < |items|
    ensures var r := items[..idx + 1] + kept + rest;
            && r[..idx] + r[idx + 1..] == items[..idx] + kept + rest
            && r == items[..idx] + ([items[idx]] + kept) + rest
  {}

  lemma LastOnlyNext(items: seq<Item>, start: nat, idx: nat, end: nat)
    requires start <= idx < end <= |items| && IsRun(items[start..end])
    ensures IsRun(items[idx..end]) && IsRun(items[idx + 1..end]) && items[idx].ToolResult?
    ensures LastOnly(items[idx..end]) ==
              if items[idx].toolCallId in ResultIds(items[idx + 1..end]) then LastOnly(items[idx + 1..end])
              else [items[idx]] + LastOnly(items[idx + 1..end])
  {
    assert forall k | idx <= k < end :: items[k] == items[start..end][k - start];
    assert items[idx..end][1..] == items[idx + 1..end];
  }

  /** Where the run of results from `from` on ends. */
  method RunEnd(items: seq<Item>, from: nat) returns (end: nat)
    requires from <= |items|
    ensures end == from + RunLength(items[from..])
    ensures from <= end <= |items| && IsRun(items[from..end]) && (end < |items| ==> !items[end].ToolResult?)
  {
    end := from;
    while end < |items| && items[end].ToolResult?
      invariant from <= end <= |items| && IsRun(items[from..end])
      invariant RunLength(items[from..]) == end - from + RunLength(items[end..])
    {
      assert items[end..][1..] == items[end + 1..];
      end := end + 1;
    }
  }

  /** One calling turn and the run behind it. */
  lemma DedupOfTurn(a: Item, run: seq<Item>, rest: seq<Item>)
    requires a.Assistant? && a.toolCalls != [] && IsRun(run) && (rest != [] ==> !rest[0].ToolResult?)
    ensures Deduplicated([a] + run + rest) == [a] + LastOnly(run) + Deduplicated(rest)
  {
    var items := [a] + run + rest;
    assert items[1..] == run + rest;
    RunThenRest(run, rest);
    assert items[1..1 + |run|] == run && items[1 + |run|..] == rest;
  }

  lemma NothingMarked(items: seq<Item>, start: nat, end: nat)
    requires start <= end <= |items| && IsRun(items[start..end])
    requires forall p: nat | start <= p < end :: items[p].toolCallId !in ResultIds(items[p + 1..end])
    ensures LastOnly(items[start..end]) == items[start..end]
    decreases end - start
  {
    hide LastOnly, ResultIds;
    if start < end {
      LastOnlyNext(items, start, start, end);
      NothingMarked(items, start + 1, end);
      assert items[start..end] == [items[start]] + items[start + 1..end];
    } else {
      NothingToKeep(items[start..end]);
    }
  }

  lemma NothingToKeep(run: seq<Item>)
    requires run == []
    ensures IsRun(run) && LastOnly(run) == []
  {}

  /** What the turn at `i` is worth, whether its run is still to be thinned out or has been. */
  lemma DedupTurn(items: seq<Item>, i: nat, end: nat)
    requires i < end <= |items| && items[i].Assistant? && items[i].toolCalls != []
    requires IsRun(items[i + 1..end]) && (end < |items| ==> !items[end].ToolResult?)
    ensures Deduplicated(items[i..]) == [items[i]] + LastOnly(items[i + 1..end]) + Deduplicated(items[end..])
  {
    hide LastOnly, Deduplicated;
    assert items[i..] == [items[i]] + items[i + 1..end] + items[end..];
    DedupOfTurn(items[i], items[i + 1..end], items[end..]);
  }

  lemma DedupAgain(items: seq<Item>, i: nat, end: nat, thinned: seq<Item>)
    requires i < end <= |items| && items[i].Assistant? && items[i].toolCalls != []
    requires IsRun(items[i + 1..end]) && (end < |items| ==> !items[end].ToolResult?)
    requires thinned == items[..i + 1] + LastOnly(items[i + 1..end]) + items[end..]
    ensures i <= |thinned| && thinned[..i] == items[..i] && Deduplicated(thinned[i..]) == Deduplicated(items[i..])
  {
    hide LastOnly, Deduplicated, DistinctIds, ResultIds;
    var run, rest := items[i + 1..end], items[end..];
    DedupTurn(items, i, end);
    LastOnlyIds(run);
    LastOnlyIds(LastOnly(run));
    assert thinned[i..] == [items[i]] + LastOnly(run) + rest;
    DedupOfTurn(items[i], LastOnly(run), rest);
  }

  lemma DedupOfOther(items: seq<Item>, i: nat)
    requires i < |items| && (items[i].Assistant? ==> items[i].toolCalls == [])
    ensures items[..i] + Deduplicated(items[i..]) == items[..i + 1] + Deduplicated(items[i + 1..])
  {
    assert items[i..][1..] == items[i + 1..];
    assert Deduplicated(items[i..]) == [items[i]] + Deduplicated(items[i + 1..]);
    hide Deduplicated;
    ConcatAssociates(items[..i], [items[i]], Deduplicated(items[i + 1..]));
    assert items[..i] + [items[i]] == items[..i + 1];
  }

  lemma DedupPast(items: seq<Item>, i: nat, end: nat)
    requires i < end <= |items| && items[i].Assistant? && items[i].toolCalls != []
    requires IsRun(items[i + 1..end]) && (end < |items| ==> !items[end].ToolResult?)
    requires forall p: nat | i < p < end :: items[p].toolCallId !in ResultIds(items[p + 1..end])
    ensures items[..i] + Deduplicated(items[i..]) == items[..end] + Deduplicated(items[end..])
  {
    hide LastOnly, Deduplicated, ResultIds;
    DedupTurn(items, i, end);
    NothingMarked(items, i + 1, end);
    var turn := [items[i]] + items[i + 1..end];
    ConcatAssociates(items[..i], turn, Deduplicated(items[end..]));
    assert items[..i] + turn == items[..end];
  }

  method DedupDuplicateToolResults(conversation: seq<Item>) returns (items: seq<Item>, totalRemoved: nat)
    ensures items == Deduplicated(conversation)
    ensures |items| + totalRemoved == |conversation|
  {
    hide Deduplicated, LastOnly, ResultIds, IsRun, RunLength;
    items, totalRemoved := conversation, 0;
    var i := 0;
    assert items[0..] == items && items[..0] == [];
    while i < |items|
      invariant i <= |items|
      invariant items[..i] + Deduplicated(items[i..]) == Deduplicated(conversation)
      invariant |items| + totalRemoved == |conversation|
      decreases |items| - i
    {
      if items[i].Assistant? && items[i].toolCalls != [] {
        var end := RunEnd(items, i + 1);
        var toRemove := RepeatedLater(items, i + 1, end);
        if toRemove != {} {
          var thinned := RemoveMarked(items, i + 1, end, toRemove);
          DedupAgain(items, i, end, thinned);
          items, totalRemoved := thinned, totalRemoved + |toRemove|;
          continue;
        }
        DedupPast(items, i, end);
        i := end;
        continue;
      }
      DedupOfOther(items, i);
      i := i + 1;
    }
    NothingLeft(items[i..]);
    assert items[..i] + [] == items;
  }

  lemma NothingLeft(items: seq<Item>)
    requires items == []
    ensures Deduplicated(items) == [] && Answered(items) == []
  {}

  // ---- answering dangling calls ----

  /** Items to put in at a position of the history before any insertion. */
  datatype Repair = Repair(at: nat, items: seq<Item>)

  /** Repairs in ascending order of position, none behind `limit`. */
  predicate InOrder(repairs: seq<Repair>, limit: nat) {
    repairs == [] || (repairs[|repairs| - 1].at <= limit
                      && InOrder(repairs[..|repairs| - 1], repairs[|repairs| - 1].at))
  }

  /** What inserting from the last repair to the first gives. */
  function Spliced(items: seq<Item>, repairs: seq<Repair>): seq<Item>
    requires InOrder(repairs, |items|)
    decreases |repairs|
  {
    if repairs == [] then items
    else
      var last := repairs[|repairs| - 1];
      OrderStays(repairs[..|repairs| - 1], last.at, |items[..last.at] + last.items + items[last.at..]|);
      Spliced(items[..last.at] + last.items + items[last.at..], repairs[..|repairs| - 1])
  }

  lemma OrderStays(repairs: seq<Repair>, limit: nat, larger: nat)
    requires InOrder(repairs, limit) && limit <= larger
    ensures InOrder(repairs, larger)
  {}

  /** Insertions in a front part leave what is behind it alone. */
  lemma {:induction false} SplicedInFront(front: seq<Item>, back: seq<Item>, repairs: seq<Repair>)
    requires InOrder(repairs, |front|) && InOrder(repairs, |front + back|)
    ensures Spliced(front + back, repairs) == Spliced(front, repairs) + back
    decreases |repairs|
  {
    if repairs != [] {
      var last := repairs[|repairs| - 1];
      var before := repairs[..|repairs| - 1];
      var longer := front[..last.at] + last.items + front[last.at..];
      assert (front + back)[..last.at] + last.items + (front + back)[last.at..] == longer + back;
      OrderStays(before, last.at, |longer|);
      OrderStays(before, last.at, |longer + back|);
      SplicedInFront(longer, back, before);
    }
  }

  lemma SplicedAtEnd(front: seq<Item>, repairs: seq<Repair>, added: seq<Item>)
    requires InOrder(repairs, |front|)
    ensures InOrder(repairs + [Repair(|front|, added)], |front|)
    ensures Spliced(front, repairs + [Repair(|front|, added)]) == Spliced(front, repairs) + added
  {
    var more := repairs + [Repair(|front|, added)];
    assert more[..|repairs|] == repairs && more[|repairs|] == Repair(|front|, added);
    OrderStays(repairs, |front|, |front + added|);
    assert front[..|front|] + added + front[|front|..] == front + added;
    SplicedInFront(front, added, repairs);
  }

  /** What is made of a stretch of the history by the repairs found in it. */
  lemma AnsweredOfTurn(items: seq<Item>, i: nat, end: nat)
    requires i < end <= |items| && items[i].Assistant? && items[i].toolCalls != []
    requires IsRun(items[i + 1..end]) && (end < |items| ==> !items[end].ToolResult?)
    ensures Answered(items[i..]) == items[i..end] + Synthetic(items[i].toolCalls, ResultIds(items[i + 1..end]))
                                    + Answered(items[end..])
  {
    hide Answered, Synthetic, ResultIds;
    assert items[i..] == [items[i]] + items[i + 1..end] + items[end..];
    AnsweredBlock(items[i], items[i + 1..end], items[end..]);
    assert [items[i]] + items[i + 1..end] == items[i..end];
  }

  lemma AnsweredOfOther(items: seq<Item>, i: nat)
    requires i < |items| && (items[i].Assistant? ==> items[i].toolCalls == [])
    ensures Answered(items[i..]) == items[i..i + 1] + [] + Answered(items[i + 1..])
  {
    assert items[i..][1..] == items[i + 1..] && items[i..i + 1] + [] == [items[i]];
  }

  /** From one position to the next, with what is to be inserted there if anything is. */
  lemma RepairsGoOn(items: seq<Item>, i: nat, end: nat, repairs: seq<Repair>, added: seq<Item>)
    requires i <= end <= |items| && InOrder(repairs, i)
    requires Answered(items[i..]) == items[i..end] + added + Answered(items[end..])
    requires Spliced(items[..i], repairs) + Answered(items[i..]) == Answered(items)
    ensures var more := if added == [] then repairs else repairs + [Repair(end, added)];
            InOrder(more, end) && Spliced(items[..end], more) + Answered(items[end..]) == Answered(items)
  {
    hide Answered, Spliced, InOrder;
    OrderStays(repairs, i, end);
    assert items[..i] + items[i..end] == items[..end];
    SplicedInFront(items[..i], items[i..end], repairs);
    SplicedAtEnd(items[..end], repairs, added);
    var done := Spliced(items[..i], repairs);
    ConcatAssociates(items[i..end], added, Answered(items[end..]));
    ConcatAssociates(done, items[i..end], added + Answered(items[end..]));
    ConcatAssociates(done + items[i..end], added, Answered(items[end..]));
    if added == [] {
      assert done + items[i..end] + added == done + items[i..end];
    }
  }

  method FindRepairs(items: seq<Item>) returns (repairs: seq<Repair>)
    ensures InOrder(repairs, |items|) && Spliced(items, repairs) == Answered(items)
  {
    hide Answered, Spliced, InOrder, Synthetic, ResultIds, IsRun, RunLength;
    repairs := [];
    var i := 0;
    NoRepairsYet(items);
    while i < |items|
      invariant i <= |items| && InOrder(repairs, i)
      invariant Spliced(items[..i], repairs) + Answered(items[i..]) == Answered(items)
    {
      if items[i].Assistant? && items[i].toolCalls != [] {
        var end := RunEnd(items, i + 1);
        var synthetic := Synthetic(items[i].toolCalls, ResultIds(items[i + 1..end]));
        AnsweredOfTurn(items, i, end);
        RepairsGoOn(items, i, end, repairs, synthetic);
        if synthetic != [] {
          repairs := repairs + [Repair(end, synthetic)];
        }
        i := end;
      } else {
        AnsweredOfOther(items, i);
        RepairsGoOn(items, i, i + 1, repairs, []);
        i := i + 1;
      }
    }
    NothingLeft(items[i..]);
    assert items[..i] == items;
    assert Spliced(items, repairs) + [] == Spliced(items, repairs);
  }

  lemma NoRepairsYet(items: seq<Item>)
    ensures InOrder([], 0) && Spliced(items[..0], []) + Answered(items[0..]) == Answered(items)
  {
    hide Answered;
    assert items[0..] == items && Spliced(items[..0], []) == [];
  }

  /** First the places are found, then the insertions made from the back, so that places stay valid. */
  method RepairDanglingToolCalls(conversation: seq<Item>) returns (items: seq<Item>, total: nat)
    ensures items == Answered(conversation)
    ensures |items| == |conversation| + total
  {
    var repairs := FindRepairs(conversation);
    items, total := conversation, 0;
    assert repairs[..|repairs|] == repairs;
    for k := |repairs| downto 0
      invariant InOrder(repairs[..k], |items|) && Spliced(items, repairs[..k]) == Answered(conversation)
      invariant |items| == |conversation| + total
    {
      var repair := repairs[k];
      assert repairs[..k + 1][..k] == repairs[..k] && repairs[..k + 1][k] == repair;
      var longer := items[..repair.at] + repair.items + items[repair.at..];
      OrderStays(repairs[..k], repair.at, |longer|);
      items, total := longer, total + |repair.items|;
    }
  }

  // ---- the three passes ----

  datatype Report = Report(duplicatesRemoved: nat, strippedToolResultIds: seq<Bytes>, syntheticResultsInserted: nat)

  predicate Changed(report: Report) {
    report.duplicatesRemoved > 0 || report.strippedToolResultIds != [] || report.syntheticResultsInserted > 0
  }

  /** The report counts what each pass did, and is empty exactly when the history is left as it was. */
  method RepairHistory(items: seq<Item>) returns (repaired: seq<Item>, report: Report)
    ensures repaired == Repaired(items)
    ensures |repaired| + report.duplicatesRemoved + |report.strippedToolResultIds|
         == |items| + report.syntheticResultsInserted
    ensures report.strippedToolResultIds == Displaced(Deduplicated(items))
    ensures Changed(report) <==> repaired != items
  {
    hide Deduplicated, Answered, StrippedFrom, DisplacedFrom;
    var deduplicated, duplicatesRemoved := DedupDuplicateToolResults(items);
    var kept, strippedIds := StripDisplacedToolResults(deduplicated);
    var inserted: nat;
    repaired, inserted := RepairDanglingToolCalls(kept);
    report := Report(duplicatesRemoved, strippedIds, inserted);
    StripIdleScan(deduplicated, {});
    SameLengthMeansSame(items);
    SameLengthMeansAnswered(kept);
    if repaired == items {
      FixedPointIsIdle(items);
    }
  }

  lemma {:induction false} SameLengthMeansSame(items: seq<Item>)
    ensures |Deduplicated(items)| <= |items|
    ensures |Deduplicated(items)| == |items| ==> Deduplicated(items) == items
    decreases |items|
  {
    if items != [] {
      if items[0].Assistant? && items[0].toolCalls != [] {
        var n := RunLength(items[1..]);
        var run, rest := items[1..1 + n], items[1 + n..];
        TurnParts(items, n);
        hide LastOnly, RunLength, DistinctIds, ResultIds, Deduplicated, IsRun;
        SameLengthMeansSame(rest);
        LastOnlyIds(run);
        DedupOfTurn(items[0], run, rest);
      } else {
        SameLengthMeansSame(items[1..]);
      }
    }
  }

  lemma {:induction false} SameLengthMeansAnswered(items: seq<Item>)
    ensures |Answered(items)| >= |items|
    ensures |Answered(items)| == |items| ==> Answered(items) == items
    decreases |items|
  {
    if items == [] {
      NothingLeft(items);
    } else {
      hide Answered, RunLength, Synthetic, ResultIds;
      if items[0].Assistant? && items[0].toolCalls != [] {
        var n := RunLength(items[1..]);
        var run, rest := items[1..1 + n], items[1 + n..];
        TurnParts(items, n);
        SameLengthMeansAnswered(rest);
        hide IsRun;
        AnsweredTurnGrows(items, run, rest);
      } else {
        SameLengthMeansAnswered(items[1..]);
        AnsweredOfOther(items, 0);
        assert items[0..] == items && items[0..1] == [items[0]];
      }
    }
  }

  /** A turn, its run and the rest. */
  lemma TurnParts(items: seq<Item>, n: nat)
    requires items != [] && n == RunLength(items[1..])
    ensures items == [items[0]] + items[1..1 + n] + items[1 + n..]
    ensures IsRun(items[1..1 + n])
    ensures items[1 + n..] != [] ==> !items[1 + n..][0].ToolResult?
  {
    hide RunLength;
    assert items[1..1 + n] == items[1..][..n];
    if 1 + n < |items| {
      assert items[1 + n..][0] == items[1..][n];
    }
  }

  lemma AnsweredTurnGrows(items: seq<Item>, run: seq<Item>, rest: seq<Item>)
    requires items != [] && items[0].Assistant? && items[0].toolCalls != []
    requires items == [items[0]] + run + rest
    requires IsRun(run) && (rest != [] ==> !rest[0].ToolResult?)
    requires |Answered(rest)| >= |rest| && (|Answered(rest)| == |rest| ==> Answered(rest) == rest)
    ensures |Answered(items)| >= |items|
    ensures |Answered(items)| == |items| ==> Answered(items) == items
  {
    hide Answered, Synthetic, ResultIds, IsRun;
    var turn, synthetic := [items[0]] + run, Synthetic(items[0].toolCalls, ResultIds(run));
    AnsweredBlock(items[0], run, rest);
    assert Answered(items) == turn + synthetic + Answered(rest);
    if synthetic == [] {
      assert turn + [] == turn;
    }
  }

  /** A history that repairing reproduces has nothing for any of the three passes. */
  lemma FixedPointIsIdle(items: seq<Item>)
    requires Repaired(items) == items
    ensures Deduplicated(items) == items && Stripped(items) == items && Answered(items) == items
  {
    hide Deduplicated, Answered, StrippedFrom, Blocks;
    RepairedByBlocks(items);
    BlocksKeepDuplicates(items);
    RepairedIsPaired(items);
    StrippedIsPaired(items);
  }

  lemma {:induction false} BlocksKeepDuplicates(items: seq<Item>)
    requires Blocks(items) == items
    ensures Deduplicated(items) == items
    decreases |items|
  {
    if items != [] {
      if items[0].Assistant? {
        var n := RunLength(items[1..]);
        var run, rest := items[1..1 + n], items[1 + n..];
        assert run == items[1..][..n] && IsRun(run);
        assert rest != [] ==> rest[0] == items[1..][n];
        FixedTurn(items, run, rest);
        BlocksKeepDuplicates(rest);
        IdleTurn(items, run, rest);
      } else {
        assert !items[0].ToolResult?;
        assert Blocks(items)[1..] == Blocks(items[1..]);
        BlocksKeepDuplicates(items[1..]);
      }
    }
  }

  /** In a history that repairing reproduces, each run is its own repair. */
  lemma FixedTurn(items: seq<Item>, run: seq<Item>, rest: seq<Item>)
    requires items != [] && items[0].Assistant? && IsRun(run)
    requires RunLength(items[1..]) == |run| && items[1..1 + |run|] == run && items[1 + |run|..] == rest
    requires Blocks(items) == items
    ensures FixedRun(items[0].toolCalls, run) == run && Blocks(rest) == rest
  {
    hide FixedRun, Blocks, RunLength, IsRun;
    var f := FixedRun(items[0].toolCalls, run);
    BlocksOfTurn(items, run, rest);
    RunThenRest(f, Blocks(rest));
    assert items[1..] == f + Blocks(rest);
    SplitsAt(f, Blocks(rest), items[1..]);
    assert items[1..1 + |run|] == items[1..][..|run|] && items[1 + |run|..] == items[1..][|run|..];
  }

  lemma BlocksOfTurn(items: seq<Item>, run: seq<Item>, rest: seq<Item>)
    requires items != [] && items[0].Assistant? && IsRun(run)
    requires RunLength(items[1..]) == |run| && items[1..1 + |run|] == run && items[1 + |run|..] == rest
    ensures Blocks(items) == [items[0]] + FixedRun(items[0].toolCalls, run) + Blocks(rest)
  {
    hide FixedRun, RunLength;
  }

  lemma SplitsAt(a: seq<Item>, b: seq<Item>, whole: seq<Item>)
    requires whole == a + b
    ensures whole[..|a|] == a && whole[|a|..] == b
  {}

  lemma IdleTurn(items: seq<Item>, run: seq<Item>, rest: seq<Item>)
    requires items != [] && items[0].Assistant? && IsRun(run)
    requires RunLength(items[1..]) == |run| && items[1..1 + |run|] == run && items[1 + |run|..] == rest
    requires FixedRun(items[0].toolCalls, run) == run && Deduplicated(rest) == rest
    requires rest != [] ==> !rest[0].ToolResult?
    ensures Deduplicated(items) == items
  {
    hide FixedRun, LastOnly, IsRun;
    var a := items[0];
    IdleRun(a.toolCalls, run);
    assert items == [a] + run + rest;
    if a.toolCalls == [] {
      SilentTurn(a, run, rest);
      assert items[1..] == rest;
      assert Deduplicated(items) == [a] + Deduplicated(rest);
    } else {
      hide Deduplicated, RunLength;
      DedupOfTurn(a, run, rest);
    }
  }

  lemma IdleRun(calls: seq<ToolCall>, run: seq<Item>)
    requires IsRun(run) && FixedRun(calls, run) == run
    ensures LastOnly(run) == run
  {
    var last := LastOnly(run);
    var kept := OnlyOf(calls, last);
    FixedRunIds(calls, run);
    LastOnlyIds(run);
    OnlyOfIds(calls, last);
    NothingSynthetic(calls, ResultIds(kept));
    assert kept + [] == kept;
  }
}
