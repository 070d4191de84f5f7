/** Shrinking a history to a token budget without breaking tool pairing. */
module BudgetFit {
  import opened Conversation
  import opened ToolPairing
  import opened Utf8Truncation

  const BYTES_PER_TOKEN := 4
  const IMAGE_TOKEN_ESTIMATE := 765

  function TextBytes(parts: seq<ContentPart>): nat {
    if parts == [] then 0 else (if parts[0].Text? then |parts[0].text| else 0) + TextBytes(parts[1..])
  }

  function ImageParts(parts: seq<ContentPart>): nat {
    if parts == [] then 0 else (if parts[0].Image? then 1 else 0) + ImageParts(parts[1..])
  }

  function ArgumentBytes(calls: seq<ToolCall>): nat {
    if calls == [] then 0 else |calls[0].arguments| + ArgumentBytes(calls[1..])
  }

  function Max(a: nat, b: nat): nat { if a < b then b else a }

  function SaturatingSub(a: nat, b: nat): nat { if a < b then 0 else a - b }

  /** The trigger-side token estimate of one item. */
  function ItemTokens(x: Item): nat {
    match x
    case System(content) => |content| / BYTES_PER_TOKEN
    case User(parts, _) => TextBytes(parts) / BYTES_PER_TOKEN + IMAGE_TOKEN_ESTIMATE * ImageParts(parts)
    case Assistant(content, calls, _) => (|content| + ArgumentBytes(calls)) / BYTES_PER_TOKEN
    case ToolResult(_, content, _) => |content| / BYTES_PER_TOKEN
    case BackendToolCall(_, summary) => |summary| / BYTES_PER_TOKEN
    case Reasoning(_, text, encrypted) => Max(|text|, |encrypted| * 3 / 4) / BYTES_PER_TOKEN
  }

  function Cost(items: seq<Item>): nat {
    if items == [] then 0 else ItemTokens(items[0]) + Cost(items[1..])
  }

  // ---- truncating one item ----

  function TruncatedText(text: Bytes, maxBytes: nat): Bytes {
    var r := Truncated(text, maxBytes);
    if r.Some? then r.value else text
  }

  function TruncatedParts(parts: seq<ContentPart>, maxBytes: nat): seq<ContentPart> {
    seq(|parts|, i requires 0 <= i < |parts| =>
      if parts[i].Text? then Text(TruncatedText(parts[i].text, maxBytes)) else parts[i])
  }

  /** truncate_item_to_tokens: only text shrinks, structure stays. */
  function TruncatedItem(x: Item, maxTokens: nat): Item {
    var maxBytes := maxTokens * 4;
    match x
    case ToolResult(id, content, images) => ToolResult(id, TruncatedText(content, maxBytes), images)
    case Assistant(content, calls, extra) => Assistant(TruncatedText(content, maxBytes), calls, extra)
    case User(parts, extra) => User(TruncatedParts(parts, maxBytes), extra)
    case _ => x
  }

  function TruncatedItems(items: seq<Item>, maxTokens: nat): seq<Item> {
    seq(|items|, i requires 0 <= i < |items| => TruncatedItem(items[i], maxTokens))
  }

  // ---- choosing what to keep ----

  /** Walking back from i, the first position of what `remaining` still affords. */
  function AffordableFrom(body: seq<Item>, i: nat, remaining: nat): (r: nat)
    requires i <= |body|
    ensures r <= i
  {
    if i == 0 || ItemTokens(body[i - 1]) > remaining then i
    else AffordableFrom(body, i - 1, remaining - ItemTokens(body[i - 1]))
  }

  function SkipResults(body: seq<Item>, start: nat): (r: nat)
    requires start <= |body|
    ensures start <= r <= |body|
    ensures r < |body| ==> !body[r].ToolResult?
    ensures forall k | start <= k < r :: body[k].ToolResult?
    decreases |body| - start
  {
    if start < |body| && body[start].ToolResult? then SkipResults(body, start + 1) else start
  }

  /** Where the results at the end of the body begin. */
  function TrailingRun(body: seq<Item>): (r: nat)
    ensures r <= |body|
    ensures forall k | r <= k < |body| :: body[k].ToolResult?
    ensures r > 0 ==> !body[r - 1].ToolResult?
  {
    if body != [] && body[|body| - 1].ToolResult? then TrailingRun(body[..|body| - 1]) else |body|
  }

  /** The assistant turn that the trailing results answer, if it is there. */
  function OwnerOf(body: seq<Item>, at: nat): seq<Item>
    requires at <= |body|
  {
    if at > 0 && body[at - 1].Assistant? && body[at - 1].toolCalls != [] then [body[at - 1]] else []
  }

  /** One of `n` shares of what the owner leaves of the budget: at least one token. */
  function Share(budget: nat, ownerCost: nat, n: nat): nat
    requires n > 0
  {
    Max(SaturatingSub(budget, ownerCost) / n, 1)
  }

  /** Each trailing result's share of the budget. */
  function ResultShare(body: seq<Item>, budget: nat): nat
    requires TrailingRun(body) < |body|
  {
    var at := TrailingRun(body);
    Share(budget, Cost(OwnerOf(body, at)), |body| - at)
  }

  /** The most recent turn, cut down: a single item, or a run of results with its owner. */
  function TailUnit(body: seq<Item>, budget: nat): seq<Item> {
    var at := TrailingRun(body);
    if body == [] then []
    else if at == |body| then [TruncatedItem(body[at - 1], budget)]
    else OwnerOf(body, at) + TruncatedItems(body[at..], ResultShare(body, budget))
  }

  function Head(conversation: seq<Item>): (r: seq<Item>)
    ensures r <= conversation && |r| <= 1
    ensures |r| == 1 <==> conversation != [] && conversation[0].System?
  {
    if conversation != [] && conversation[0].System? then [conversation[0]] else []
  }

  function Body(conversation: seq<Item>): seq<Item> {
    conversation[|Head(conversation)|..]
  }

  function BodyBudget(conversation: seq<Item>, maxTokens: nat): (r: nat)
    ensures if Cost(Head(conversation)) <= maxTokens then r + Cost(Head(conversation)) == maxTokens else r == 0
  {
    SaturatingSub(maxTokens, Cost(Head(conversation)))
  }

  /** First item kept by the suffix branch. */
  function KeptFrom(body: seq<Item>, budget: nat): (r: nat)
    ensures r <= |body|
  {
    SkipResults(body, AffordableFrom(body, |body|, budget))
  }

  function Fitted(conversation: seq<Item>, maxTokens: nat): seq<Item> {
    if Cost(conversation) <= maxTokens then conversation
    else
      var body, budget := Body(conversation), BodyBudget(conversation, maxTokens);
      var start := KeptFrom(body, budget);
      Head(conversation) + (if start < |body| then body[start..] else TailUnit(body, budget))
  }

  lemma TailUnitShape(body: seq<Item>, budget: nat)
    requires body != []
    ensures TrailingRun(body) == |body| ==> TailUnit(body, budget) == [TruncatedItem(body[|body| - 1], budget)]
    ensures TrailingRun(body) < |body| ==>
              TailUnit(body, budget) == OwnerOf(body, TrailingRun(body))
                                        + TruncatedItems(body[TrailingRun(body)..], ResultShare(body, budget))
  {
    hide TrailingRun, TruncatedItem, TruncatedItems, OwnerOf, ResultShare;
  }

  lemma OwnerCost(body: seq<Item>, at: nat)
    requires at <= |body|
    ensures Cost(OwnerOf(body, at)) == if OwnerOf(body, at) == [] then 0 else ItemTokens(body[at - 1])
  {
    hide ItemTokens;
  }

  // ---- the code ----

  /** Pops the results off the end; they come off newest first and are put back in order. */
  method PopTrailingResults(body: seq<Item>) returns (rest: seq<Item>, results: seq<Item>)
    ensures rest == body[..TrailingRun(body)] && results == body[TrailingRun(body)..]
  {
    var reversed := [];
    rest := body;
    while rest != [] && rest[|rest| - 1].ToolResult?
      invariant rest <= body && |reversed| == |body| - |rest|
      invariant forall k | 0 <= k < |reversed| :: reversed[k] == body[|body| - 1 - k]
      invariant TrailingRun(rest) == TrailingRun(body)
    {
      reversed := reversed + [rest[|rest| - 1]];
      rest := rest[..|rest| - 1];
    }
    results := seq(|reversed|, k requires 0 <= k < |reversed| => reversed[|reversed| - 1 - k]);
  }

  method RecoverTruncatedTailUnit(body: seq<Item>, budget: nat) returns (unit: seq<Item>)
    ensures unit == TailUnit(body, budget)
  {
    if body == [] {
      return [];
    }
    hide TruncatedItem, TruncatedItems, TailUnit, ItemTokens, TrailingRun, Cost, Share;
    TailUnitShape(body, budget);
    var rest, results := PopTrailingResults(body);
    if results == [] {
      return [TruncatedItem(rest[|rest| - 1], budget)];
    }
    OwnerCost(body, |rest|);
    unit := [];
    var ownerCost: nat := 0;
    if rest != [] && rest[|rest| - 1].Assistant? && rest[|rest| - 1].toolCalls != [] {
      unit := [rest[|rest| - 1]];
      ownerCost := ItemTokens(rest[|rest| - 1]);
    }
    assert unit == OwnerOf(body, |rest|);
    hide OwnerOf;
    var share := Share(budget, ownerCost, |results|);
    assert share == ResultShare(body, budget);
    unit := unit + TruncatedItems(results, share);
  }

  method FitConversationToBudget(conversation: seq<Item>, maxTokens: nat) returns (head: seq<Item>)
    ensures head == Fitted(conversation, maxTokens)
  {
    hide Cost, ItemTokens, TailUnit;
    if Cost(conversation) <= maxTokens {
      return conversation;
    }
    var body := conversation;
    head := [];
    if body != [] && body[0].System? {
      head, body := [body[0]], body[1..];
    }
    assert head == Head(conversation) && body == Body(conversation);
    var budget := SaturatingSub(maxTokens, Cost(head));
    var remaining: nat := budget;
    var start: nat := |body|;
    var i := |body|;
    while i > 0
      invariant i == start <= |body|
      invariant AffordableFrom(body, start, remaining) == AffordableFrom(body, |body|, budget)
    {
      i := i - 1;
      var cost := ItemTokens(body[i]);
      if cost > remaining {
        break;
      }
      remaining := remaining - cost;
      start := i;
    }
    assert start == AffordableFrom(body, |body|, budget);
    while start < |body| && body[start].ToolResult?
      invariant start <= |body| && SkipResults(body, start) == KeptFrom(body, budget)
    {
      start := start + 1;
    }
    if start < |body| {
      head := head + body[start..];
    } else {
      var unit := RecoverTruncatedTailUnit(body, budget);
      head := head + unit;
    }
  }

  // ---- the suffix is the longest affordable one ----

  lemma {:induction false} CostConcat(a: seq<Item>, b: seq<Item>)
    ensures Cost(a + b) == Cost(a) + Cost(b)
  {
    if a == [] {
      assert a + b == b;
    } else {
      assert (a + b)[1..] == a[1..] + b;
      CostConcat(a[1..], b);
    }
  }

  lemma {:induction false} AffordableSpan(body: seq<Item>, i: nat, remaining: nat)
    requires i <= |body|
    ensures var r := AffordableFrom(body, i, remaining);
      Cost(body[r..i]) <= remaining && (r > 0 ==> Cost(body[r - 1..i]) > remaining)
  {
    hide ItemTokens, Cost;
    NothingCosts(body, i);
    if i > 0 {
      if ItemTokens(body[i - 1]) > remaining {
        CostOfSlice(body, i - 1, i);
      } else {
        AffordableSpan(body, i - 1, remaining - ItemTokens(body[i - 1]));
        AffordableEnds(body, AffordableFrom(body, i - 1, remaining - ItemTokens(body[i - 1])), i);
      }
    }
  }

  lemma AffordableEnds(body: seq<Item>, r: nat, i: nat)
    requires r < i <= |body|
    ensures Cost(body[r..i]) == Cost(body[r..i - 1]) + ItemTokens(body[i - 1])
    ensures r > 0 ==> Cost(body[r - 1..i]) == Cost(body[r - 1..i - 1]) + ItemTokens(body[i - 1])
  {
    hide ItemTokens, Cost;
    CostOfSlice(body, r, i);
    if r > 0 {
      CostOfSlice(body, r - 1, i);
    }
  }

  lemma NothingCosts(body: seq<Item>, i: nat)
    requires i <= |body|
    ensures Cost(body[i..i]) == 0
  {}

  lemma CostOfSlice(body: seq<Item>, r: nat, i: nat)
    requires r < i <= |body|
    ensures Cost(body[r..i]) == Cost(body[r..i - 1]) + ItemTokens(body[i - 1])
  {
    var last := [body[i - 1]];
    assert Cost(last) == ItemTokens(last[0]);
    hide Cost, ItemTokens;
    assert body[r..i] == body[r..i - 1] + last;
    CostConcat(body[r..i - 1], last);
  }

  /** A suffix fits the budget exactly when it starts no earlier than the chosen position. */
  lemma AffordableIff(body: seq<Item>, budget: nat, k: nat)
    requires k <= |body|
    ensures Cost(body[k..]) <= budget <==> AffordableFrom(body, |body|, budget) <= k
  {
    var r := AffordableFrom(body, |body|, budget);
    AffordableSpan(body, |body|, budget);
    if r <= k {
      assert body[r..|body|] == body[r..k] + body[k..];
      CostConcat(body[r..k], body[k..]);
    } else {
      assert body[k..] == body[k..r - 1] + body[r - 1..|body|];
      CostConcat(body[k..r - 1], body[r - 1..|body|]);
    }
  }

  /** Whenever whole turns are kept, the result is the leading system prompt and the longest
      affordable suffix without its leading results; it costs no more than the budget, or than the
      system prompt alone if that is already over. */
  lemma SuffixWithinBudget(conversation: seq<Item>, maxTokens: nat)
    requires Cost(conversation) > maxTokens
    requires KeptFrom(Body(conversation), BodyBudget(conversation, maxTokens)) < |Body(conversation)|
    ensures Cost(Fitted(conversation, maxTokens)) <= Max(maxTokens, Cost(Head(conversation)))
    ensures Cost(Fitted(conversation, maxTokens)) <= maxTokens <==> Cost(Head(conversation)) <= maxTokens
  {
    var body, budget := Body(conversation), BodyBudget(conversation, maxTokens);
    var start := KeptFrom(body, budget);
    AffordableIff(body, budget, start);
    CostConcat(Head(conversation), body[start..]);
  }

  // ---- pairing survives ----

  lemma OwnerIsNearest(items: seq<Item>, i: nat, at: nat) returns (j: nat)
    requires i < |items| && items[i].ToolResult? && InRun(items, i)
    requires at < i && !items[at].ToolResult?
    ensures at <= j < i && Declares(items[j], items[i].toolCallId) && forall k | j < k < i :: items[k].ToolResult?
  {
    j :| 0 <= j < i && Declares(items[j], items[i].toolCallId) && forall k | j < k < i :: items[k].ToolResult?;
  }

  lemma HeadIsSystem(head: seq<Item>, rest: seq<Item>)
    requires forall x | x in head :: x.System?
    ensures forall i | 0 <= i < |head| :: (head + rest)[i].System?
  {
    forall i | 0 <= i < |head| ensures (head + rest)[i].System? {
      assert head[i] in head;
    }
  }

  lemma SuffixKeepsPairing(head: seq<Item>, body: seq<Item>, start: nat)
    requires AllInRun(head + body) && |head| <= 1 && (forall x | x in head :: x.System?)
    requires start < |body| && !body[start].ToolResult?
    ensures AllInRun(head + body[start..])
  {
    var items, out, n := head + body, head + body[start..], |head|;
    HeadIsSystem(head, body[start..]);
    forall i | 0 <= i < |out| && out[i].ToolResult? ensures InRun(out, i) {
      assert out[i] == items[i + start];
      assert InRun(items, i + start);
      var j := OwnerIsNearest(items, i + start, n + start);
      assert Declares(out[j - start], out[i].toolCallId);
      assert forall k | j - start < k < i :: out[k] == items[k + start];
    }
  }

  lemma TailUnitKeepsPairing(head: seq<Item>, body: seq<Item>, budget: nat)
    requires AllInRun(head + body) && |head| <= 1 && (forall x | x in head :: x.System?)
    ensures AllInRun(head + TailUnit(body, budget))
  {
    var unit, n, at := TailUnit(body, budget), |head|, TrailingRun(body);
    var out := head + unit;
    HeadIsSystem(head, unit);
    hide OwnerOf, ResultShare, Declares, TruncatedItems;
    if at == |body| {
      assert forall k | 0 <= k < |unit| :: !unit[k].ToolResult?;
    } else {
      TailOwner(head, body, at);
      forall i | 0 <= i < |out| && out[i].ToolResult? ensures InRun(out, i) {
        assert out[i] == unit[i - n];
        TailResultInRun(head, body, budget, i - n);
      }
    }
  }

  lemma TailOwner(head: seq<Item>, body: seq<Item>, at: nat)
    requires AllInRun(head + body) && |head| <= 1 && (forall x | x in head :: x.System?)
    requires at == TrailingRun(body) && at < |body|
    ensures at > 0 && forall k | at <= k < |body| :: Declares(body[at - 1], body[k].toolCallId)
  {
    hide TrailingRun;
    HeadIsSystem(head, body);
    NearestIsOwner(head, body, at, at);
    hide AllInRun, Declares;
    forall k | at <= k < |body| ensures Declares(body[at - 1], body[k].toolCallId) {
      NearestIsOwner(head, body, at, k);
    }
  }

  lemma NearestIsOwner(head: seq<Item>, body: seq<Item>, at: nat, k: nat)
    requires AllInRun(head + body) && forall i | 0 <= i < |head| :: (head + body)[i].System?
    requires at <= k < |body| && (forall m | at <= m < |body| :: body[m].ToolResult?)
    requires at > 0 ==> !body[at - 1].ToolResult?
    ensures at > 0 && Declares(body[at - 1], body[k].toolCallId)
  {
    var items, i := head + body, |head| + k;
    assert items[i] == body[k] && InRun(items, i);
    var j :| 0 <= j < i && Declares(items[j], items[i].toolCallId) && forall m | j < m < i :: items[m].ToolResult?;
    assert items[j] == body[j - |head|];
    assert items[|head| + at - 1] == body[at - 1];
  }

  lemma TailResultInRun(head: seq<Item>, body: seq<Item>, budget: nat, k: nat)
    requires var at := TrailingRun(body);
      0 < at < |body| && forall m | at <= m < |body| :: Declares(body[at - 1], body[m].toolCallId)
    requires k < |TailUnit(body, budget)| && TailUnit(body, budget)[k].ToolResult?
    ensures InRun(head + TailUnit(body, budget), |head| + k)
  {
    hide TailUnit, TrailingRun, ResultShare, ItemTokens;
    var unit, at, n := TailUnit(body, budget), TrailingRun(body), |head|;
    var out := head + unit;
    assert body[at - 1].Assistant? && body[at - 1].toolCalls != [] by {
      assert Declares(body[at - 1], body[at].toolCallId);
    }
    var results := TruncatedItems(body[at..], ResultShare(body, budget));
    TailUnitShape(body, budget);
    assert unit == [body[at - 1]] + results;
    assert out[n] == body[at - 1] && out[n + k] == results[k - 1];
    assert results[k - 1].toolCallId == body[at..][k - 1].toolCallId == body[at + k - 1].toolCallId;
    assert Declares(out[n], out[n + k].toolCallId);
  }

  /** If every tool result sits in its owner's run, the same holds after fitting, in every branch. */
  lemma FittingKeepsPairing(conversation: seq<Item>, maxTokens: nat)
    requires AllInRun(conversation)
    ensures AllInRun(Fitted(conversation, maxTokens))
  {
    hide AllInRun, AffordableFrom, SkipResults, TailUnit, Cost, BodyBudget;
    var head, body, budget := Head(conversation), Body(conversation), BodyBudget(conversation, maxTokens);
    assert conversation == head + body;
    if KeptFrom(body, budget) < |body| {
      SuffixKeepsPairing(head, body, KeptFrom(body, budget));
    } else {
      TailUnitKeepsPairing(head, body, budget);
    }
  }

  // ---- the tail unit ----

  ghost predicate IsCutFrom(y: Item, x: Item) {
    exists m: nat :: TruncatedItem(x, m) == y
  }

  /** The last item is that of the conversation, or one cut from it. */
  ghost predicate NewestKept(out: seq<Item>, conversation: seq<Item>)
    requires conversation != []
  {
    && out != []
    && (out[|out| - 1] == conversation[|conversation| - 1]
        || IsCutFrom(out[|out| - 1], conversation[|conversation| - 1]))
  }

  /** Whatever is dropped, the newest item stays, whole or with its text cut. */
  lemma NewestItemStays(conversation: seq<Item>, maxTokens: nat)
    requires conversation != []
    ensures NewestKept(Fitted(conversation, maxTokens), conversation)
  {
    var head, body, budget := Head(conversation), Body(conversation), BodyBudget(conversation, maxTokens);
    HeadAndBody(conversation, budget);
    hide TailUnit, NewestKept, Cost, KeptFrom, Head, Body, BodyBudget;
    NewestOfAll(conversation);
    if body == [] {
    } else if KeptFrom(body, budget) < |body| {
      NewestInSuffix(head, body, KeptFrom(body, budget));
    } else {
      NewestInTail(head, body, budget);
    }
  }

  lemma HeadAndBody(conversation: seq<Item>, budget: nat)
    ensures conversation == Head(conversation) + Body(conversation)
    ensures Body(conversation) == [] ==> conversation == Head(conversation) + TailUnit(Body(conversation), budget)
  {}

  lemma NewestOfAll(conversation: seq<Item>)
    requires conversation != []
    ensures NewestKept(conversation, conversation)
  {}

  lemma NewestInSuffix(head: seq<Item>, body: seq<Item>, start: nat)
    requires start < |body|
    ensures NewestKept(head + body[start..], head + body)
  {
    hide IsCutFrom;
    LastOfConcat(head, body);
    LastOfConcat(head, body[start..]);
  }

  lemma NewestInTail(head: seq<Item>, body: seq<Item>, budget: nat)
    requires body != []
    ensures NewestKept(head + TailUnit(body, budget), head + body)
  {
    hide IsCutFrom, TailUnit;
    NewestInUnit(body, budget);
    LastOfConcat(head, body);
    LastOfConcat(head, TailUnit(body, budget));
  }

  lemma LastOfConcat(a: seq<Item>, b: seq<Item>)
    requires b != []
    ensures (a + b)[|a + b| - 1] == b[|b| - 1]
  {}

  lemma CutFrom(x: Item, m: nat)
    ensures IsCutFrom(TruncatedItem(x, m), x)
  {}

  lemma NewestInUnit(body: seq<Item>, budget: nat)
    requires body != []
    ensures TailUnit(body, budget) != []
    ensures IsCutFrom(TailUnit(body, budget)[|TailUnit(body, budget)| - 1], body[|body| - 1])
  {
    hide TruncatedItem, TrailingRun, TailUnit, OwnerOf, ResultShare, IsCutFrom;
    TailUnitShape(body, budget);
    var at := TrailingRun(body);
    if at == |body| {
      CutFrom(body[|body| - 1], budget);
    } else {
      CutFrom(body[|body| - 1], ResultShare(body, budget));
    }
  }

  // ---- what exactly is kept ----

  /** A suffix can be kept if it does not start with a result and what the system prompt leaves pays for it. */
  predicate CanBeKept(conversation: seq<Item>, maxTokens: nat, k: nat)
    requires |Head(conversation)| <= k < |conversation|
  {
    !conversation[k].ToolResult? && Cost(conversation[k..]) <= BodyBudget(conversation, maxTokens)
  }

  /** The longest suffix that can be kept is kept, behind the system prompt. */
  lemma LongestSuffixIsKept(conversation: seq<Item>, maxTokens: nat, k: nat)
    requires Cost(conversation) > maxTokens
    requires |Head(conversation)| <= k < |conversation| && CanBeKept(conversation, maxTokens, k)
    requires forall j | |Head(conversation)| <= j < k :: !CanBeKept(conversation, maxTokens, j)
    ensures Fitted(conversation, maxTokens) == Head(conversation) + conversation[k..]
  {
    hide Cost, AffordableFrom, SkipResults, TailUnit, BodyBudget, Head;
    var body, budget, n := Body(conversation), BodyBudget(conversation, maxTokens), |Head(conversation)|;
    StartIsFirst(conversation, maxTokens, k);
    StartCanBeKept(conversation, maxTokens);
    assert KeptFrom(body, budget) == k - n;
    assert body[k - n..] == conversation[k..];
  }

  lemma StartIsFirst(conversation: seq<Item>, maxTokens: nat, k: nat)
    requires |Head(conversation)| <= k < |conversation| && CanBeKept(conversation, maxTokens, k)
    ensures KeptFrom(Body(conversation), BodyBudget(conversation, maxTokens)) <= k - |Head(conversation)|
  {
    hide Cost, AffordableFrom, SkipResults, BodyBudget, Head;
    var body, budget, n := Body(conversation), BodyBudget(conversation, maxTokens), |Head(conversation)|;
    assert body[k - n..] == conversation[k..];
    AffordableIff(body, budget, k - n);
    SkipsNoOther(body, AffordableFrom(body, |body|, budget), k - n);
  }

  lemma StartCanBeKept(conversation: seq<Item>, maxTokens: nat)
    ensures var n := |Head(conversation)|;
            var start := KeptFrom(conversation[n..], BodyBudget(conversation, maxTokens));
            n + start < |conversation| ==> CanBeKept(conversation, maxTokens, n + start)
  {
    hide Cost, AffordableFrom, SkipResults;
    var n := |Head(conversation)|;
    var body, budget := conversation[n..], BodyBudget(conversation, maxTokens);
    var start := KeptFrom(body, budget);
    AffordableIff(body, budget, start);
    assert body[start..] == conversation[n + start..];
  }

  lemma SkipsNoOther(body: seq<Item>, start: nat, k: nat)
    requires start <= k < |body| && !body[k].ToolResult?
    ensures SkipResults(body, start) <= k
  {}

  /** A text, or a prefix of it that leaves 64 bytes, with the marker behind. */
  ghost predicate IsCutText(t: Bytes, text: Bytes, maxBytes: nat) {
    if |text| <= maxBytes then t == text
    else
      exists end: nat | end <= |text| && end <= (if maxBytes < 64 then 0 else maxBytes - 64) ::
        t == text[..end] + Marker(|text| - end)
  }

  /** An item with its texts cut to so many tokens each, and everything else as it was. */
  ghost predicate IsCutTo(y: Item, x: Item, maxTokens: nat) {
    match x
    case ToolResult(id, content, images) =>
      y.ToolResult? && y.toolCallId == id && y.images == images && IsCutText(y.content, content, 4 * maxTokens)
    case Assistant(content, calls, extra) =>
      y.Assistant? && y.toolCalls == calls && y.extra == extra && IsCutText(y.content, content, 4 * maxTokens)
    case User(parts, extra) =>
      && y.User? && y.extra == extra && |y.parts| == |parts|
      && forall i | 0 <= i < |parts| ::
           if parts[i].Text? then y.parts[i].Text? && IsCutText(y.parts[i].text, parts[i].text, 4 * maxTokens)
           else y.parts[i] == parts[i]
    case _ => y == x
  }

  lemma TruncatedTextIsCut(text: Bytes, maxBytes: nat)
    ensures IsCutText(TruncatedText(text, maxBytes), text, maxBytes)
  {
    hide Marker, Digits;
    if |text| > maxBytes {
      var end := TruncatedIsPrefixAndMarker(text, maxBytes);
      MarkerParts(|text| - end);
    }
  }

  lemma MarkerParts(dropped: nat)
    ensures Marker(dropped) == MARKER_HEAD + Digits(dropped) + MARKER_TAIL
  {}

  lemma TruncatedItemIsCut(x: Item, maxTokens: nat)
    ensures IsCutTo(TruncatedItem(x, maxTokens), x, maxTokens)
  {
    hide TruncatedText, IsCutText;
    assert maxTokens * 4 == 4 * maxTokens;
    match x {
      case User(parts, _) =>
        forall i | 0 <= i < |parts| && parts[i].Text?
          ensures IsCutText(TruncatedText(parts[i].text, 4 * maxTokens), parts[i].text, 4 * maxTokens)
        {
          TruncatedTextIsCut(parts[i].text, 4 * maxTokens);
        }
      case Assistant(content, _, _) => TruncatedTextIsCut(content, 4 * maxTokens);
      case ToolResult(_, content, _) => TruncatedTextIsCut(content, 4 * maxTokens);
      case _ =>
    }
  }

  /**
   * When no suffix can be kept, the newest item is cut to the budget; or, if the conversation ends with results, they
   * are all kept in order, each cut to an equal share of what their owner leaves, behind the owner itself.
   */
  lemma NewestTurnIsCut(conversation: seq<Item>, maxTokens: nat, at: nat) returns (owner: seq<Item>, cut: seq<Item>)
    requires Cost(conversation) > maxTokens && Body(conversation) != []
    requires forall j | |Head(conversation)| <= j < |conversation| :: !CanBeKept(conversation, maxTokens, j)
    requires at <= |Body(conversation)| && IsTrailingRun(Body(conversation), at)
    ensures Fitted(conversation, maxTokens) == Head(conversation) + (owner + cut)
    ensures IsCutTurn(owner, cut, Body(conversation), at, BodyBudget(conversation, maxTokens))
  {
    hide Cost, AffordableFrom, SkipResults, TailUnit, IsTrailingRun, IsCutTurn;
    StartCanBeKept(conversation, maxTokens);
    var body, budget := Body(conversation), BodyBudget(conversation, maxTokens);
    assert KeptFrom(body, budget) == |body|;
    owner, cut := TurnIsCut(body, budget, at);
  }

  /** The results at the end of a history begin there. */
  predicate IsTrailingRun(body: seq<Item>, at: nat)
    requires at <= |body|
  {
    (forall j | at <= j < |body| :: body[j].ToolResult?) && (at > 0 ==> !body[at - 1].ToolResult?)
  }

  /** The last turn of a history: its newest item, or its results with the assistant turn that called for them. */
  ghost predicate IsCutTurn(owner: seq<Item>, cut: seq<Item>, body: seq<Item>, at: nat, budget: nat)
    requires at <= |body| && body != []
  {
    if at == |body| then owner == [] && |cut| == 1 && IsCutTo(cut[0], body[at - 1], budget)
    else
      var left := if Cost(owner) <= budget then budget - Cost(owner) else 0;
      var share := if left >= |body| - at then left / (|body| - at) else 1;
      && owner == (if at > 0 && body[at - 1].Assistant? && body[at - 1].toolCalls != [] then [body[at - 1]] else [])
      && |cut| == |body| - at
      && forall i | 0 <= i < |cut| :: IsCutTo(cut[i], body[at + i], share)
  }

  lemma TurnIsCut(body: seq<Item>, budget: nat, at: nat) returns (owner: seq<Item>, cut: seq<Item>)
    requires body != [] && at <= |body| && IsTrailingRun(body, at)
    ensures TailUnit(body, budget) == owner + cut && IsCutTurn(owner, cut, body, at, budget)
  {
    hide Cost, TailUnit, TruncatedItem, IsCutTo, TrailingRun, Share;
    RunStarts(body, at);
    TailUnitShape(body, budget);
    if at == |body| {
      owner, cut := [], [TruncatedItem(body[|body| - 1], budget)];
      TruncatedItemIsCut(body[|body| - 1], budget);
    } else {
      var share := ResultShare(body, budget);
      owner, cut := OwnerOf(body, at), TruncatedItems(body[at..], share);
      ShareIs(budget, Cost(owner), |body| - at);
      forall i | 0 <= i < |cut| ensures IsCutTo(cut[i], body[at + i], share) {
        TruncatedItemIsCut(body[at + i], share);
      }
    }
  }

  lemma ShareIs(budget: nat, ownerCost: nat, n: nat)
    requires n > 0
    ensures var left := if ownerCost <= budget then budget - ownerCost else 0;
            Share(budget, ownerCost, n) == if left >= n then left / n else 1
  {
    var left := SaturatingSub(budget, ownerCost);
    if left >= n {
      AtLeastOne(left, n);
    }
  }

  lemma AtLeastOne(left: nat, n: nat)
    requires left >= n > 0
    ensures left / n >= 1
  {}

  lemma RunStarts(body: seq<Item>, at: nat)
    requires at <= |body| && IsTrailingRun(body, at)
    ensures TrailingRun(body) == at
  {}
}
