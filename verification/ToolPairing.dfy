/** Pairing of tool results with the assistant turns that called for them. */
module ToolPairing {
  import opened Sequences
  import opened Conversation

  function CallIds(calls: seq<ToolCall>): set<Bytes> {
    set c | c in calls :: c.id
  }

  // ---- the three passes, as left-to-right scans ----

  /** Ids of the results not preceded by their call (validate_compacted_history). */
  function InvalidFrom(items: seq<Item>, seen: set<Bytes>): seq<Bytes> {
    if items == [] then []
    else match items[0]
      case Assistant(_, calls, _) => InvalidFrom(items[1..], seen + CallIds(calls))
      case ToolResult(id, _, _) =>
        if id in seen then InvalidFrom(items[1..], seen) else [id] + InvalidFrom(items[1..], seen)
      case _ => InvalidFrom(items[1..], seen)
  }

  /** The history without those results (sanitize_compacted_history). */
  function SanitizedFrom(items: seq<Item>, seen: set<Bytes>): seq<Item> {
    if items == [] then []
    else match items[0]
      case Assistant(_, calls, _) => [items[0]] + SanitizedFrom(items[1..], seen + CallIds(calls))
      case ToolResult(id, _, _) =>
        if id in seen then [items[0]] + SanitizedFrom(items[1..], seen) else SanitizedFrom(items[1..], seen)
      case _ => [items[0]] + SanitizedFrom(items[1..], seen)
  }

  /** The run of ids that results may answer after this item. */
  function NextRun(x: Item, run: set<Bytes>): set<Bytes> {
    match x
    case Assistant(_, calls, _) => CallIds(calls)
    case ToolResult(_, _, _) => run
    case _ => {}
  }

  /** The history without results outside their owner's run (strip_displaced_tool_results). */
  function StrippedFrom(items: seq<Item>, run: set<Bytes>): seq<Item> {
    if items == [] then []
    else
      var rest := StrippedFrom(items[1..], NextRun(items[0], run));
      if items[0].ToolResult? && items[0].toolCallId !in run then rest else [items[0]] + rest
  }

  function DisplacedFrom(items: seq<Item>, run: set<Bytes>): seq<Bytes> {
    if items == [] then []
    else
      var rest := DisplacedFrom(items[1..], NextRun(items[0], run));
      if items[0].ToolResult? && items[0].toolCallId !in run then [items[0].toolCallId] + rest else rest
  }

  function Invalid(items: seq<Item>): seq<Bytes> { InvalidFrom(items, {}) }
  function Sanitized(items: seq<Item>): seq<Item> { SanitizedFrom(items, {}) }
  function Stripped(items: seq<Item>): seq<Item> { StrippedFrom(items, {}) }
  function Displaced(items: seq<Item>): seq<Bytes> { DisplacedFrom(items, {}) }

  // ---- one item of each scan ----

  predicate IsDisplaced(x: Item, run: set<Bytes>) {
    x.ToolResult? && x.toolCallId !in run
  }

  /** The ids declared by the time this item has been read. */
  function NextSeen(x: Item, seen: set<Bytes>): set<Bytes> {
    if x.Assistant? then seen + CallIds(x.toolCalls) else seen
  }

  lemma StrippingUnfolds(items: seq<Item>, i: nat, run: set<Bytes>)
    requires i < |items|
    ensures var (next, out) := (NextRun(items[i], run), IsDisplaced(items[i], run));
            var (kept, ids) := (StrippedFrom(items[i + 1..], next), DisplacedFrom(items[i + 1..], next));
            && StrippedFrom(items[i..], run) == (if out then kept else [items[i]] + kept)
            && DisplacedFrom(items[i..], run) == (if out then [items[i].toolCallId] + ids else ids)
  {
    hide NextRun;
    assert items[i..][1..] == items[i + 1..];
  }

  lemma SanitizingUnfolds(items: seq<Item>, i: nat, seen: set<Bytes>)
    requires i < |items|
    ensures var (next, out) := (NextSeen(items[i], seen), IsDisplaced(items[i], seen));
            var (kept, ids) := (SanitizedFrom(items[i + 1..], next), InvalidFrom(items[i + 1..], next));
            && SanitizedFrom(items[i..], seen) == (if out then kept else [items[i]] + kept)
            && InvalidFrom(items[i..], seen) == (if out then [items[i].toolCallId] + ids else ids)
  {
    hide CallIds;
    assert items[i..][1..] == items[i + 1..];
  }

  /** What a loop has collected and what its scan would still collect, before and after one item. */
  lemma StrippingStep(items: seq<Item>, i: nat, run: set<Bytes>, kept: seq<Item>, ids: seq<Bytes>)
    requires i < |items|
    ensures var (next, out) := (NextRun(items[i], run), IsDisplaced(items[i], run));
            var (kept', ids') := (if out then kept else kept + [items[i]],
                                  if out then ids + [items[i].toolCallId] else ids);
            && kept' + StrippedFrom(items[i + 1..], next) == kept + StrippedFrom(items[i..], run)
            && ids' + DisplacedFrom(items[i + 1..], next) == ids + DisplacedFrom(items[i..], run)
  {
    hide NextRun, StrippedFrom, DisplacedFrom;
    StrippingUnfolds(items, i, run);
    ConcatAssociates(kept, [items[i]], StrippedFrom(items[i + 1..], NextRun(items[i], run)));
    if IsDisplaced(items[i], run) {
      ConcatAssociates(ids, [items[i].toolCallId], DisplacedFrom(items[i + 1..], NextRun(items[i], run)));
    }
  }

  lemma SanitizingStep(items: seq<Item>, i: nat, seen: set<Bytes>, kept: seq<Item>, ids: seq<Bytes>)
    requires i < |items|
    ensures var (next, out) := (NextSeen(items[i], seen), IsDisplaced(items[i], seen));
            var (kept', ids') := (if out then kept else kept + [items[i]],
                                  if out then ids + [items[i].toolCallId] else ids);
            && kept' + SanitizedFrom(items[i + 1..], next) == kept + SanitizedFrom(items[i..], seen)
            && ids' + InvalidFrom(items[i + 1..], next) == ids + InvalidFrom(items[i..], seen)
  {
    hide NextSeen, SanitizedFrom, InvalidFrom;
    SanitizingUnfolds(items, i, seen);
    ConcatAssociates(kept, [items[i]], SanitizedFrom(items[i + 1..], NextSeen(items[i], seen)));
    if IsDisplaced(items[i], seen) {
      ConcatAssociates(ids, [items[i].toolCallId], InvalidFrom(items[i + 1..], NextSeen(items[i], seen)));
    }
  }

  // ---- the code: loops with a mutated set of ids ----

  method ValidateCompactedHistory(items: seq<Item>) returns (invalidIds: seq<Bytes>)
    ensures invalidIds == Invalid(items)
  {
    var seenIds: set<Bytes> := {};
    invalidIds := [];
    for i := 0 to |items|
      invariant invalidIds + InvalidFrom(items[i..], seenIds) == Invalid(items)
    {
      hide SanitizedFrom, InvalidFrom, CallIds;
      SanitizingStep(items, i, seenIds, [], invalidIds);
      match items[i] {
        case Assistant(_, calls, _) => seenIds := seenIds + CallIds(calls);
        case ToolResult(id, _, _) =>
          if id !in seenIds {
            invalidIds := invalidIds + [id];
          }
        case _ =>
      }
    }
  }

  method SanitizeCompactedHistory(items: seq<Item>) returns (sanitized: seq<Item>, strippedIds: seq<Bytes>)
    ensures sanitized == Sanitized(items)
    ensures strippedIds == Invalid(items)
  {
    var seenIds: set<Bytes> := {};
    sanitized, strippedIds := [], [];
    for i := 0 to |items|
      invariant sanitized + SanitizedFrom(items[i..], seenIds) == Sanitized(items)
      invariant strippedIds + InvalidFrom(items[i..], seenIds) == Invalid(items)
    {
      hide SanitizedFrom, InvalidFrom, CallIds;
      SanitizingStep(items, i, seenIds, sanitized, strippedIds);
      var keep := true;
      match items[i] {
        case Assistant(_, calls, _) => seenIds := seenIds + CallIds(calls);
        case ToolResult(id, _, _) =>
          if id !in seenIds {
            strippedIds := strippedIds + [id];
            keep := false;
          }
        case _ =>
      }
      if keep {
        sanitized := sanitized + [items[i]];
      }
    }
  }

  method StripDisplacedToolResults(items: seq<Item>) returns (kept: seq<Item>, stripped: seq<Bytes>)
    ensures kept == Stripped(items)
    ensures stripped == Displaced(items)
  {
    var runIds: set<Bytes> := {};
    kept, stripped := [], [];
    for i := 0 to |items|
      invariant kept + StrippedFrom(items[i..], runIds) == Stripped(items)
      invariant stripped + DisplacedFrom(items[i..], runIds) == Displaced(items)
    {
      hide StrippedFrom, DisplacedFrom, CallIds;
      StrippingStep(items, i, runIds, kept, stripped);
      var keep := true;
      match items[i] {
        case Assistant(_, calls, _) => runIds := CallIds(calls);
        case ToolResult(id, _, _) =>
          if id !in runIds {
            stripped := stripped + [id];
            keep := false;
          }
        case _ => runIds := {};
      }
      if keep {
        kept := kept + [items[i]];
      }
    }
  }

  // ---- what the scans mean, by position ----

  ghost predicate Declares(x: Item, id: Bytes) {
    x.Assistant? && id in CallIds(x.toolCalls)
  }

  /** The result at i comes somewhere after an assistant turn that declared its id. */
  ghost predicate Preceded(items: seq<Item>, i: nat)
    requires i < |items| && items[i].ToolResult?
  {
    exists j | 0 <= j < i :: Declares(items[j], items[i].toolCallId)
  }

  /** The result at i follows the turn that declared its id with only results in between. */
  ghost predicate InRun(items: seq<Item>, i: nat)
    requires i < |items| && items[i].ToolResult?
  {
    exists j | 0 <= j < i ::
      Declares(items[j], items[i].toolCallId) && forall k | j < k < i :: items[k].ToolResult?
  }

  ghost predicate AllPreceded(items: seq<Item>) {
    forall i | 0 <= i < |items| && items[i].ToolResult? :: Preceded(items, i)
  }

  ghost predicate AllInRun(items: seq<Item>) {
    forall i | 0 <= i < |items| && items[i].ToolResult? :: InRun(items, i)
  }

  /** The history from i on, minus the results that are not in their owner's run. */
  ghost function InRunFrom(items: seq<Item>, i: nat): seq<Item>
    requires i <= |items|
    decreases |items| - i
  {
    if i == |items| then []
    else if items[i].ToolResult? && !InRun(items, i) then InRunFrom(items, i + 1)
    else [items[i]] + InRunFrom(items, i + 1)
  }

  ghost function PrecededFrom(items: seq<Item>, i: nat): seq<Item>
    requires i <= |items|
    decreases |items| - i
  {
    if i == |items| then []
    else if items[i].ToolResult? && !Preceded(items, i) then PrecededFrom(items, i + 1)
    else [items[i]] + PrecededFrom(items, i + 1)
  }

  function RunAt(items: seq<Item>, i: nat): set<Bytes>
    requires i <= |items|
  {
    if i == 0 then {} else NextRun(items[i - 1], RunAt(items, i - 1))
  }

  function SeenAt(items: seq<Item>, i: nat): set<Bytes>
    requires i <= |items|
  {
    if i == 0 then {} else NextSeen(items[i - 1], SeenAt(items, i - 1))
  }

  lemma {:induction false} RunMeaning(items: seq<Item>, i: nat, id: Bytes)
    requires i <= |items|
    ensures id in RunAt(items, i) <==>
            exists j | 0 <= j < i :: Declares(items[j], id) && forall k | j < k < i :: items[k].ToolResult?
  {
    if i > 0 {
      RunMeaning(items, i - 1, id);
      var x := items[i - 1];
      if x.ToolResult? && id in RunAt(items, i) {
        var j :| 0 <= j < i - 1 && Declares(items[j], id) && forall k | j < k < i - 1 :: items[k].ToolResult?;
        assert Declares(items[j], id) && forall k | j < k < i :: items[k].ToolResult?;
      } else if x.Assistant? && id in RunAt(items, i) {
        assert Declares(items[i - 1], id);
      }
    }
  }

  lemma {:induction false} SeenMeaning(items: seq<Item>, i: nat, id: Bytes)
    requires i <= |items|
    ensures id in SeenAt(items, i) <==> exists j | 0 <= j < i :: Declares(items[j], id)
  {
    if i > 0 {
      SeenMeaning(items, i - 1, id);
      if id in SeenAt(items, i) && id !in SeenAt(items, i - 1) {
        assert Declares(items[i - 1], id);
      }
    }
  }

  lemma InRunUnfolds(items: seq<Item>, i: nat)
    requires i < |items|
    ensures var later := InRunFrom(items, i + 1);
            InRunFrom(items, i) == if items[i].ToolResult? && !InRun(items, i) then later else [items[i]] + later
  {}

  lemma RunMovesOn(items: seq<Item>, i: nat)
    requires i < |items|
    ensures RunAt(items, i + 1) == NextRun(items[i], RunAt(items, i))
  {}

  lemma {:induction false} StrippedByPosition(items: seq<Item>, i: nat)
    requires i <= |items|
    ensures StrippedFrom(items[i..], RunAt(items, i)) == InRunFrom(items, i)
    ensures DisplacedFrom(items[i..], RunAt(items, i)) == []
       <==> forall k | i <= k < |items| && items[k].ToolResult? :: InRun(items, k)
    decreases |items| - i
  {
    if i < |items| {
      hide StrippedFrom, DisplacedFrom, InRun, InRunFrom, RunAt;
      StrippedByPosition(items, i + 1);
      StrippingUnfolds(items, i, RunAt(items, i));
      RunMovesOn(items, i);
      InRunUnfolds(items, i);
      if items[i].ToolResult? {
        InRunIff(items, i);
      }
    }
  }

  lemma InRunIff(items: seq<Item>, i: nat)
    requires i < |items| && items[i].ToolResult?
    ensures items[i].toolCallId in RunAt(items, i) <==> InRun(items, i)
  {
    hide RunAt;
    RunMeaning(items, i, items[i].toolCallId);
  }

  lemma PrecededIff(items: seq<Item>, i: nat)
    requires i < |items| && items[i].ToolResult?
    ensures items[i].toolCallId in SeenAt(items, i) <==> Preceded(items, i)
  {
    hide SeenAt;
    SeenMeaning(items, i, items[i].toolCallId);
  }

  lemma {:induction false} SanitizedByPosition(items: seq<Item>, i: nat)
    requires i <= |items|
    ensures SanitizedFrom(items[i..], SeenAt(items, i)) == PrecededFrom(items, i)
    ensures InvalidFrom(items[i..], SeenAt(items, i)) == []
       <==> forall k | i <= k < |items| && items[k].ToolResult? :: Preceded(items, k)
    decreases |items| - i
  {
    if i < |items| {
      hide SanitizedFrom, InvalidFrom, Preceded, NextSeen;
      SanitizedByPosition(items, i + 1);
      SanitizingUnfolds(items, i, SeenAt(items, i));
      if items[i].ToolResult? {
        PrecededIff(items, i);
      }
    }
  }

  // ---- theorems ----

  /** Validation is clean exactly when every result has its call somewhere before it. */
  lemma ValidIff(items: seq<Item>)
    ensures Invalid(items) == [] <==> AllPreceded(items)
    ensures Sanitized(items) == PrecededFrom(items, 0)
  {
    SanitizedByPosition(items, 0);
    assert items[0..] == items;
  }

  /** Nothing is displaced exactly when every result sits in its owner's run. */
  lemma PairedIff(items: seq<Item>)
    ensures Displaced(items) == [] <==> AllInRun(items)
    ensures Stripped(items) == InRunFrom(items, 0)
  {
    StrippedByPosition(items, 0);
    assert items[0..] == items;
  }

  lemma {:induction false} SanitizedScan(items: seq<Item>, seen: set<Bytes>)
    ensures InvalidFrom(SanitizedFrom(items, seen), seen) == []
  {
    if items != [] {
      SanitizedScan(items[1..], NextSeen(items[0], seen));
    }
  }

  lemma SanitizedIsValid(items: seq<Item>)
    ensures Invalid(Sanitized(items)) == [] && AllPreceded(Sanitized(items))
  {
    SanitizedScan(items, {});
    ValidIff(Sanitized(items));
  }

  lemma {:induction false} StrippedScan(items: seq<Item>, run: set<Bytes>)
    ensures DisplacedFrom(StrippedFrom(items, run), run) == []
  {
    if items != [] {
      StrippedScan(items[1..], NextRun(items[0], run));
    }
  }

  lemma {:induction false} StripIdleScan(items: seq<Item>, run: set<Bytes>)
    ensures StrippedFrom(items, run) == items <==> DisplacedFrom(items, run) == []
    ensures |StrippedFrom(items, run)| + |DisplacedFrom(items, run)| == |items|
  {
    if items != [] {
      StripIdleScan(items[1..], NextRun(items[0], run));
    }
  }

  /** The output is paired, and the histories stripping leaves alone are exactly the paired ones. */
  lemma StrippedIsPaired(items: seq<Item>)
    ensures AllInRun(Stripped(items))
    ensures Stripped(Stripped(items)) == Stripped(items)
    ensures Stripped(items) == items <==> AllInRun(items)
  {
    StrippedScan(items, {});
    PairedIff(Stripped(items));
    PairedIff(items);
    StripIdleScan(Stripped(items), {});
    StripIdleScan(items, {});
  }

  lemma PairedIsValid(items: seq<Item>)
    requires AllInRun(items)
    ensures Invalid(items) == []
  {
    forall i | 0 <= i < |items| && items[i].ToolResult? ensures Preceded(items, i) {
      assert InRun(items, i);
    }
    ValidIff(items);
  }

  ghost predicate IsSubsequence(a: seq<Item>, b: seq<Item>) {
    a == [] || (b != [] && ((a[0] == b[0] && IsSubsequence(a[1..], b[1..])) || IsSubsequence(a, b[1..])))
  }

  lemma {:induction false} StrippedWithinSanitized(items: seq<Item>, run: set<Bytes>, seen: set<Bytes>)
    requires run <= seen
    ensures IsSubsequence(StrippedFrom(items, run), SanitizedFrom(items, seen))
  {
    if items != [] {
      StrippedWithinSanitized(items[1..], NextRun(items[0], run), NextSeen(items[0], seen));
    }
  }

  /** Stripping is the stricter pass: it keeps part of what sanitizing keeps, and is valid too. */
  lemma StrippingIsStricter(items: seq<Item>)
    ensures IsSubsequence(Stripped(items), Sanitized(items))
    ensures Invalid(Stripped(items)) == []
  {
    StrippedWithinSanitized(items, {}, {});
    StrippedIsPaired(items);
    PairedIsValid(Stripped(items));
  }

  function NonResults(items: seq<Item>): seq<Item> {
    if items == [] then []
    else if items[0].ToolResult? then NonResults(items[1..])
    else [items[0]] + NonResults(items[1..])
  }

  lemma {:induction false} PassesKeepNonResults(items: seq<Item>, run: set<Bytes>, seen: set<Bytes>)
    ensures NonResults(StrippedFrom(items, run)) == NonResults(items)
    ensures NonResults(SanitizedFrom(items, seen)) == NonResults(items)
  {
    if items != [] {
      PassesKeepNonResults(items[1..], NextRun(items[0], run), NextSeen(items[0], seen));
    }
  }
}
