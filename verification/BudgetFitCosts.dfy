/** What a fitted history costs, and exactly when that is within the budget. */
module BudgetFitCosts {
  import opened Conversation
  import opened Utf8Truncation
  import opened BudgetFit

  // ---- one text, one item ----

  /** The bytes of a text after truncation to `maxBytes`: its own, or those up to the cut and the marker's. */
  function CutBytes(text: Bytes, maxBytes: nat): nat {
    if |text| <= maxBytes then |text|
    else CutPoint(text, maxBytes) + 56 + |Digits(|text| - CutPoint(text, maxBytes))|
  }

  function CutTextBytes(parts: seq<ContentPart>, maxBytes: nat): nat {
    if parts == [] then 0
    else (if parts[0].Text? then CutBytes(parts[0].text, maxBytes) else 0) + CutTextBytes(parts[1..], maxBytes)
  }

  /** The estimate of a truncated item from the sizes of the original: each text is cut to the limit by itself, while
      images, call arguments and all of the other kinds of items are charged in full. */
  function CutTokens(x: Item, maxTokens: nat): nat {
    var maxBytes := maxTokens * 4;
    match x
    case User(parts, _) => CutTextBytes(parts, maxBytes) / BYTES_PER_TOKEN + IMAGE_TOKEN_ESTIMATE * ImageParts(parts)
    case Assistant(content, calls, _) => (CutBytes(content, maxBytes) + ArgumentBytes(calls)) / BYTES_PER_TOKEN
    case ToolResult(_, content, _) => CutBytes(content, maxBytes) / BYTES_PER_TOKEN
    case _ => ItemTokens(x)
  }

  function CutCost(items: seq<Item>, maxTokens: nat): nat {
    if items == [] then 0 else CutTokens(items[0], maxTokens) + CutCost(items[1..], maxTokens)
  }

  lemma CutTextLength(text: Bytes, maxBytes: nat)
    ensures |TruncatedText(text, maxBytes)| == CutBytes(text, maxBytes)
  {
    hide Digits;
  }

  lemma {:induction false} CutPartsBytes(parts: seq<ContentPart>, maxBytes: nat)
    ensures TextBytes(TruncatedParts(parts, maxBytes)) == CutTextBytes(parts, maxBytes)
    ensures ImageParts(TruncatedParts(parts, maxBytes)) == ImageParts(parts)
  {
    hide TruncatedText, CutBytes;
    if parts != [] {
      CutPartsBytes(parts[1..], maxBytes);
      assert TruncatedParts(parts, maxBytes)[1..] == TruncatedParts(parts[1..], maxBytes);
      if parts[0].Text? {
        CutTextLength(parts[0].text, maxBytes);
      }
    }
  }

  lemma TruncatedItemCost(x: Item, maxTokens: nat)
    ensures ItemTokens(TruncatedItem(x, maxTokens)) == CutTokens(x, maxTokens)
  {
    hide TruncatedText, TruncatedParts, CutBytes;
    var maxBytes := maxTokens * 4;
    match x {
      case User(parts, _) => CutPartsBytes(parts, maxBytes);
      case Assistant(content, _, _) => CutTextLength(content, maxBytes);
      case ToolResult(_, content, _) => CutTextLength(content, maxBytes);
      case _ =>
    }
  }

  lemma {:induction false} TruncatedItemsCost(items: seq<Item>, maxTokens: nat)
    ensures Cost(TruncatedItems(items, maxTokens)) == CutCost(items, maxTokens)
  {
    hide TruncatedItem, ItemTokens, CutTokens;
    if items != [] {
      TruncatedItemCost(items[0], maxTokens);
      TruncatedItemsCost(items[1..], maxTokens);
      assert TruncatedItems(items, maxTokens)[1..] == TruncatedItems(items[1..], maxTokens);
    }
  }

  /** A text over the limit counts as at most `maxTokens` exactly when the room behind the cut takes all but three
      bytes of the marker; so from 16 tokens on, for any text below 10^11 bytes, and below 14 tokens never. */
  lemma CutTextFitsIff(text: Bytes, maxTokens: nat)
    requires |text| > 4 * maxTokens
    ensures var cut := CutPoint(text, 4 * maxTokens);
            CutBytes(text, 4 * maxTokens) / BYTES_PER_TOKEN <= maxTokens <==>
              cut + 53 < 4 * maxTokens && |text| - cut < PowerOfTen(4 * maxTokens - 53 - cut)
    ensures maxTokens >= 16 && |text| < 100_000_000_000 ==> CutBytes(text, 4 * maxTokens) / BYTES_PER_TOKEN <= maxTokens
    ensures maxTokens < 14 ==> CutBytes(text, 4 * maxTokens) / BYTES_PER_TOKEN > maxTokens
  {
    var cut := CutPoint(text, 4 * maxTokens);
    if cut + 53 < 4 * maxTokens {
      DigitCountIff(|text| - cut, 4 * maxTokens - 53 - cut);
    }
    if maxTokens >= 16 && |text| < 100_000_000_000 {
      DigitCountIff(|text| - cut, 11);
      ElevenDigits();
    }
  }

  lemma ElevenDigits()
    ensures PowerOfTen(11) == 100_000_000_000
  {
    assert PowerOfTen(4) == 10_000;
    assert PowerOfTen(8) == 100_000_000;
  }

  // ---- the whole history ----

  /** The most recent turn, cut down, fits the budget: a single item by its cut size, a run of results together with
      its owner, which is charged in full. */
  predicate TailFits(body: seq<Item>, budget: nat)
    requires body != []
  {
    var at := TrailingRun(body);
    if at == |body| then CutTokens(body[at - 1], budget) <= budget
    else Cost(OwnerOf(body, at)) + CutCost(body[at..], ResultShare(body, budget)) <= budget
  }

  lemma TailUnitFitsIff(body: seq<Item>, budget: nat)
    requires body != []
    ensures Cost(TailUnit(body, budget)) <= budget <==> TailFits(body, budget)
  {
    hide TrailingRun, TailUnit, OwnerOf, ResultShare, Cost, TruncatedItem, TruncatedItems, CutTokens, CutCost;
    var at := TrailingRun(body);
    TailUnitShape(body, budget);
    if at == |body| {
      TruncatedItemCost(body[at - 1], budget);
      CostOfOne(TruncatedItem(body[at - 1], budget));
    } else {
      var share := ResultShare(body, budget);
      TruncatedItemsCost(body[at..], share);
      CostConcat(OwnerOf(body, at), TruncatedItems(body[at..], share));
    }
  }

  lemma CostOfOne(x: Item)
    ensures Cost([x]) == ItemTokens(x)
  {
    hide ItemTokens;
    assert [x][1..] == [];
  }

  /** Whole turns are kept exactly when some affordable suffix starts with an item that is no result. */
  lemma KeepsWholeTurnsIff(body: seq<Item>, budget: nat)
    ensures KeptFrom(body, budget) < |body| <==>
            exists k | 0 <= k < |body| :: !body[k].ToolResult? && Cost(body[k..]) <= budget
  {
    hide Cost, AffordableFrom;
    var start := KeptFrom(body, budget);
    if start < |body| {
      AffordableIff(body, budget, start);
    }
    forall k | 0 <= k < |body| && !body[k].ToolResult? && Cost(body[k..]) <= budget ensures start < |body| {
      AffordableIff(body, budget, k);
    }
  }

  /**
   * The fitted history is within the budget exactly when it was so from the start, or the system prompt alone is and
   * either whole turns could be kept or the most recent turn fits when cut down.
   */
  lemma FittedWithinBudgetIff(conversation: seq<Item>, maxTokens: nat)
    ensures var body, budget := Body(conversation), BodyBudget(conversation, maxTokens);
            Cost(Fitted(conversation, maxTokens)) <= maxTokens <==>
              || Cost(conversation) <= maxTokens
              || (&& Cost(Head(conversation)) <= maxTokens
                  && body != []
                  && (KeptFrom(body, budget) < |body| || TailFits(body, budget)))
  {
    var head, body, budget := Head(conversation), Body(conversation), BodyBudget(conversation, maxTokens);
    HeadAndBody(conversation, budget);
    CostConcat(head, body);
    CostOfNothing();
    hide Cost, Head, Body, KeptFrom, TailUnit, TailFits;
    if Cost(conversation) > maxTokens {
      var start := KeptFrom(body, budget);
      if start < |body| {
        CostConcat(head, body[start..]);
        SuffixWithinBudget(conversation, maxTokens);
      } else {
        CostConcat(head, TailUnit(body, budget));
        if body != [] {
          TailUnitFitsIff(body, budget);
        }
      }
    }
  }

  lemma CostOfNothing()
    ensures Cost([]) == 0
  {}

  // ---- what can go over ----

  lemma LoneItem(x: Item, maxTokens: nat)
    requires !x.System? && !x.ToolResult? && ItemTokens(x) > maxTokens
    ensures Fitted([x], maxTokens) == [TruncatedItem(x, maxTokens)]
  {
    hide ItemTokens, TruncatedItem;
    CostOfOne(x);
    CostOfNothing();
    assert Head([x]) == [] && Body([x]) == [x];
    assert TrailingRun([x]) == 1;
    assert AffordableFrom([x], |[x]|, maxTokens) == 1 && SkipResults([x], 1) == 1;
  }

  /** Every limit can be exceeded without a byte being cut: each of two texts fills it, and neither is over it. */
  lemma TwoTextsExceedEveryLimit(n: nat, a: Bytes, b: Bytes)
    requires n >= 1 && |a| == |b| == 4 * n
    ensures var conversation := [User([Text(a), Text(b)], [])];
            Fitted(conversation, n) == conversation && Cost(conversation) == 2 * n
  {
    var parts := [Text(a), Text(b)];
    var x := User(parts, []);
    assert parts[1..] == [Text(b)] && [Text(b)][1..] == [];
    assert TextBytes([Text(b)]) == 4 * n && ImageParts([Text(b)]) == 0;
    assert TextBytes(parts) == 8 * n && ImageParts(parts) == 0;
    assert ItemTokens(x) == 2 * n;
    assert TruncatedParts(parts, n * 4) == parts;
    CostOfOne(x);
    LoneItem(x, n);
  }

  /** A user turn by its cut texts and uncut images, an assistant turn by its cut text and uncut call arguments. */
  predicate CutTurnFits(x: Item, maxTokens: nat) {
    match x
    case User(parts, _) =>
      CutTextBytes(parts, 4 * maxTokens) / BYTES_PER_TOKEN <= maxTokens - IMAGE_TOKEN_ESTIMATE * ImageParts(parts)
    case Assistant(content, calls, _) =>
      CutBytes(content, 4 * maxTokens) + ArgumentBytes(calls) <= 4 * maxTokens + 3
    case _ => false
  }

  /**
   * Kind by kind, when a single turn over the limit is brought under it; reasoning and backend calls come back as they
   * are and never fit.
   */
  lemma LoneItemFitsIff(x: Item, maxTokens: nat)
    requires !x.System? && !x.ToolResult? && ItemTokens(x) > maxTokens
    ensures Cost(Fitted([x], maxTokens)) <= maxTokens <==> CutTurnFits(x, maxTokens)
    ensures x.Reasoning? || x.BackendToolCall? ==> Fitted([x], maxTokens) == [x]
  {
    hide CutBytes, CutTextBytes;
    LoneItem(x, maxTokens);
    CostOfOne(TruncatedItem(x, maxTokens));
    TruncatedItemCost(x, maxTokens);
    assert maxTokens * 4 == 4 * maxTokens;
  }

  lemma TruncatedResultCost(x: Item, share: nat)
    requires x.ToolResult? && share >= 16 && |x.content| < 100_000_000
    ensures ItemTokens(TruncatedItem(x, share)) <= share
  {
    if |x.content| > 4 * share {
      TruncatedFits(x.content, 4 * share);
    }
  }

  lemma OneMore(n: nat, share: nat)
    ensures (n + 1) * share == n * share + share
  {}

  lemma SharesFit(budget: nat, n: nat)
    requires n > 0
    ensures n * (budget / n) <= budget
  {}

  lemma {:induction false} TruncatedResultsCost(results: seq<Item>, share: nat)
    requires share >= 16
    requires forall x | x in results :: x.ToolResult? && |x.content| < 100_000_000
    ensures Cost(TruncatedItems(results, share)) <= |results| * share
  {
    hide TruncatedItem, ItemTokens;
    if results != [] {
      TruncatedResultCost(results[0], share);
      TruncatedResultsCost(results[1..], share);
      assert TruncatedItems(results, share)[1..] == TruncatedItems(results[1..], share);
      OneMore(|results[1..]|, share);
    }
  }

  /** A truncated run of results stays within the budget once the owner leaves every result at least
      the 16 tokens that the marker reserve takes. */
  lemma TailRunWithinBudget(body: seq<Item>, budget: nat)
    requires TrailingRun(body) < |body|
    requires Cost(OwnerOf(body, TrailingRun(body))) <= budget && ResultShare(body, budget) >= 16
    requires forall k | TrailingRun(body) <= k < |body| :: |body[k].content| < 100_000_000
    ensures Cost(TailUnit(body, budget)) <= budget
  {
    hide TruncatedItem, TrailingRun, TailUnit, OwnerOf, ResultShare, Cost, TruncatedItems;
    var at := TrailingRun(body);
    var results, owner, share := body[at..], OwnerOf(body, at), ResultShare(body, budget);
    TailUnitShape(body, budget);
    SharesWithinBudget(body, budget);
    TruncatedResultsCost(results, share);
    CostConcat(owner, TruncatedItems(results, share));
  }

  lemma SharesWithinBudget(body: seq<Item>, budget: nat)
    requires TrailingRun(body) < |body|
    requires Cost(OwnerOf(body, TrailingRun(body))) <= budget && ResultShare(body, budget) >= 16
    ensures (|body| - TrailingRun(body)) * ResultShare(body, budget) + Cost(OwnerOf(body, TrailingRun(body))) <= budget
  {
    hide TrailingRun, OwnerOf, Cost;
    SharesFit(budget - Cost(OwnerOf(body, TrailingRun(body))), |body| - TrailingRun(body));
  }

  /** A short text over the limit makes room for nothing: the marker put in its place is longer than the text. */
  lemma ShortTextsGrow(text: Bytes, maxTokens: nat)
    requires 4 * maxTokens + 4 <= |text| < 56
    ensures var conversation := [User([Text(text)], [])];
            Cost(Fitted(conversation, maxTokens)) > Cost(conversation) > maxTokens
  {
    hide Cost, Fitted, Digits, CutPoint;
    var x := User([Text(text)], []);
    LoneText(text, 4 * maxTokens);
    CostOfOne(x);
    LoneItem(x, maxTokens);
    CostOfOne(TruncatedItem(x, maxTokens));
    TruncatedItemCost(x, maxTokens);
    assert maxTokens * 4 == 4 * maxTokens;
  }

  lemma LoneText(text: Bytes, maxBytes: nat)
    ensures TextBytes([Text(text)]) == |text| && ImageParts([Text(text)]) == 0
    ensures CutTextBytes([Text(text)], maxBytes) == CutBytes(text, maxBytes)
  {
    hide CutBytes;
    assert [Text(text)][1..] == [];
  }
}
