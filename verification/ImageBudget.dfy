/** The image budget: a high-water trigger, a low-water reclaim target, oldest images first. */
module ImageBudget {
  import opened Sequences
  import opened Conversation
  import opened Json
  import opened ImageBytes
  import opened BodyMeasurement
  import opened ImageEviction
  import opened ImageAccounting

  const MAX_REQUEST_BYTES := 50 * 1024 * 1024
  const IMAGE_COMPACT_TRIGGER_BYTES := MAX_REQUEST_BYTES - 3 * 1024 * 1024
  const IMAGE_COMPACT_RECLAIM_TARGET_BYTES := MAX_REQUEST_BYTES / 2

  /** k is the first number of evictions at which the running count is low enough, or all of them. */
  ghost predicate StopsAt(items: seq<Item>, targetBytes: nat, k: nat) {
    && k <= ImageCount(items)
    && (k == ImageCount(items) || Running(items, k) <= targetBytes)
    && AboveBefore(items, targetBytes, k)
  }

  ghost predicate AboveBefore(items: seq<Item>, targetBytes: nat, k: nat) {
    forall j | 0 <= j < k :: Running(items, j) > targetBytes
  }

  lemma NothingBefore(items: seq<Item>, targetBytes: nat)
    ensures AboveBefore(items, targetBytes, 0)
  {}

  lemma OneMoreAbove(items: seq<Item>, targetBytes: nat, k: nat)
    requires AboveBefore(items, targetBytes, k) && Running(items, k) > targetBytes
    ensures AboveBefore(items, targetBytes, k + 1)
  {
    hide Running;
  }

  /** The list of image locations and sizes, collected before anything is changed. */
  method CollectLocations(conversation: array<Item>) returns (images: seq<(ImageLocation, nat)>)
    ensures images == Locations(conversation[..], 0)
  {
    hide Locations;
    ghost var items := conversation[..];
    images := [];
    assert items[0..] == items;
    for item := 0 to conversation.Length
      invariant images + Locations(items[item..], item) == Locations(items, 0)
    {
      var here := CollectItem(conversation[item], item);
      LocationsFrom(items, item);
      ConcatAssociates(images, here, Locations(items[item + 1..], item + 1));
      images := images + here;
    }
    NoLocations(conversation.Length);
    assert items[conversation.Length..] == [];
  }

  lemma LocationsFrom(items: seq<Item>, item: nat)
    requires item < |items|
    ensures Locations(items[item..], item) == ItemLocations(items[item], item) + Locations(items[item + 1..], item + 1)
  {
    hide ItemLocations;
    assert items[item..][1..] == items[item + 1..];
  }

  lemma NoLocations(base: nat)
    ensures Locations([], base) == []
  {}

  method CollectItem(x: Item, item: nat) returns (images: seq<(ImageLocation, nat)>)
    ensures images == ItemLocations(x, item)
  {
    hide PartBytes;
    images := [];
    match x {
      case User(parts, _) =>
        assert parts[0..] == parts;
        for part := 0 to |parts|
          invariant images + PartLocations(item, parts[part..], part) == PartLocations(item, parts, 0)
        {
          hide PartLocations;
          PartLocationsFrom(item, parts, part, images);
          if parts[part].Image? {
            images := images + [(InUser(item, part), PartBytes(parts[part]))];
          }
        }
      case ToolResult(_, _, parts) =>
        assert parts[0..] == parts;
        for part := 0 to |parts|
          invariant images + ToolLocations(item, parts[part..]) == ToolLocations(item, parts)
        {
          hide ToolLocations;
          ToolLocationsFrom(item, parts, part, images);
          if parts[part].Image? {
            images := images + [(InToolResult(item), PartBytes(parts[part]))];
          }
        }
      case _ =>
    }
  }

  /** What a loop over parts has collected and what it has still to collect, before and after one part. */
  lemma PartLocationsFrom(item: nat, parts: seq<ContentPart>, part: nat, images: seq<(ImageLocation, nat)>)
    requires part < |parts|
    ensures var here := if parts[part].Image? then [(InUser(item, part), PartBytes(parts[part]))] else [];
            images + PartLocations(item, parts[part..], part)
            == images + here + PartLocations(item, parts[part + 1..], part + 1)
  {
    hide PartBytes;
    assert parts[part..][1..] == parts[part + 1..];
    var later := PartLocations(item, parts[part + 1..], part + 1);
    ConcatAssociates(images, [(InUser(item, part), PartBytes(parts[part]))], later);
  }

  lemma ToolLocationsFrom(item: nat, parts: seq<ContentPart>, part: nat, images: seq<(ImageLocation, nat)>)
    requires part < |parts|
    ensures var here := if parts[part].Image? then [(InToolResult(item), PartBytes(parts[part]))] else [];
            images + ToolLocations(item, parts[part..]) == images + here + ToolLocations(item, parts[part + 1..])
  {
    hide PartBytes;
    assert parts[part..][1..] == parts[part + 1..];
    ConcatAssociates(images, [(InToolResult(item), PartBytes(parts[part]))], ToolLocations(item, parts[part + 1..]));
  }

  lemma NothingEvictedYet(items: seq<Item>)
    ensures EvictFirst(items, 0) == items && Running(items, 0) == BodyBytes(items)
  {}

  /** The body of the eviction loop: the k-th listed image goes, and the running count follows. */
  method EvictOne(conversation: array<Item>, location: ImageLocation, imageBytes: nat, running: nat,
                  ghost items: seq<Item>, ghost k: nat)
    returns (after: nat)
    requires k < ImageCount(items) && Locations(items, 0)[k] == (location, imageBytes)
    requires conversation[..] == EvictFirst(items, k) && running == Running(items, k)
    modifies conversation
    ensures conversation[..] == EvictFirst(items, k + 1) && after == Running(items, k + 1)
  {
    hide Running, EvictFirst, Locations, Contains, NoteBytes, PlaceholderBytes;
    hide CountImages, ImageCount, Images, PartBytes, FirstImage, WithoutPart;
    EvictStep(items, k, location, imageBytes);
    var now := conversation[location.item];
    RunningStep(items, k, location, imageBytes, now);
    match location {
      case InUser(item, part) =>
        conversation[item] := now.(parts := now.parts[part := PLACEHOLDER]);
        after := SaturatingSub(running, SaturatingSub(imageBytes, PlaceholderBytes()));
      case InToolResult(item) =>
        var images := WithoutPart(now.images, FirstImage(now.images));
        var content := now.content;
        after := SaturatingSub(running, imageBytes + if images == [] then 0 else 1);
        if !Contains(content, TOOL_IMAGE_COMPACT_NOTE) {
          content := content + NOTE_SUFFIX;
          after := after + NoteBytes();
        }
        conversation[item] := now.(images := images, content := content);
    }
  }

  /** Evicts in place until the running count meets the target or no image is left. */
  method EvictImagesToBudget(conversation: array<Item>, currentBytes: nat, targetBytes: nat) returns (evicted: nat)
    requires currentBytes == BodyBytes(conversation[..])
    modifies conversation
    ensures StopsAt(old(conversation[..]), targetBytes, evicted)
    ensures conversation[..] == EvictFirst(old(conversation[..]), evicted)
  {
    hide Running, EvictFirst, Locations, BodyBytes, ImageCount, AboveBefore;
    ghost var items := conversation[..];
    var images := CollectLocations(conversation);
    var running: nat := currentBytes;
    evicted := 0;
    NothingEvictedYet(items);
    NothingBefore(items, targetBytes);
    while evicted < |images|
      invariant evicted <= |images| == ImageCount(items) && images == Locations(items, 0)
      invariant conversation[..] == EvictFirst(items, evicted)
      invariant running == Running(items, evicted)
      invariant AboveBefore(items, targetBytes, evicted)
    {
      if running <= targetBytes {
        break;
      }
      var (location, imageBytes) := images[evicted];
      OneMoreAbove(items, targetBytes, evicted);
      running := EvictOne(conversation, location, imageBytes, running, items, evicted);
      evicted := evicted + 1;
    }
  }

  function StopFrom(items: seq<Item>, targetBytes: nat, k: nat): (r: nat)
    requires k <= ImageCount(items)
    ensures k <= r <= ImageCount(items)
    decreases ImageCount(items) - k
  {
    if k == ImageCount(items) || Running(items, k) <= targetBytes then k else StopFrom(items, targetBytes, k + 1)
  }

  lemma {:induction false} StopFromStops(items: seq<Item>, targetBytes: nat, k: nat)
    requires k <= ImageCount(items) && AboveBefore(items, targetBytes, k)
    ensures StopsAt(items, targetBytes, StopFrom(items, targetBytes, k))
    decreases ImageCount(items) - k
  {
    hide Running;
    if k < ImageCount(items) && Running(items, k) > targetBytes {
      StopFromStops(items, targetBytes, k + 1);
    }
  }

  lemma StopIsUnique(items: seq<Item>, targetBytes: nat, k: nat)
    requires StopsAt(items, targetBytes, k)
    ensures k == StopFrom(items, targetBytes, 0)
  {
    hide Running;
    StopFromStops(items, targetBytes, 0);
  }

  /** How many images one application of the budget evicts. */
  function Evictions(items: seq<Item>, triggerBytes: nat, targetBytes: nat): (r: nat)
    ensures r <= ImageCount(items)
  {
    if BodyBytes(items) >= triggerBytes && BodyBytes(items) > targetBytes then StopFrom(items, targetBytes, 0) else 0
  }

  datatype Outcome = Outcome(bodyBytes: nat, bodyBytesAfter: nat, inlineImages: nat,
                             needsImageCompaction: bool, evicted: nat)

  method ApplyImageBudgetWithLimits(items: array<Item>, triggerBytes: nat, reclaimTargetBytes: nat)
    returns (outcome: Outcome)
    modifies items
    ensures items[..] == EvictFirst(old(items[..]), outcome.evicted)
    ensures outcome.evicted == Evictions(old(items[..]), triggerBytes, reclaimTargetBytes)
    ensures if BodyBytes(old(items[..])) >= triggerBytes && BodyBytes(old(items[..])) > reclaimTargetBytes
            then StopsAt(old(items[..]), reclaimTargetBytes, outcome.evicted) else outcome.evicted == 0
    ensures outcome.bodyBytes == BodyBytes(old(items[..]))
    ensures outcome.bodyBytesAfter == BodyBytes(items[..])
    ensures outcome.inlineImages == ImageCount(old(items[..]))
    ensures outcome.needsImageCompaction == (BodyBytes(old(items[..])) >= triggerBytes)
  {
    hide EvictFirst, BodyBytes, Running, ImageCount, Encode, SumItemExcess, StopsAt;
    NothingEvictedYet(items[..]);
    var bodyBytes := ConversationBodyBytes(items[..]);
    var inlineImages := ImageCount(items[..]);
    var needsImageCompaction := bodyBytes >= triggerBytes;
    var evicted := 0;
    if needsImageCompaction && bodyBytes > reclaimTargetBytes {
      evicted := EvictImagesToBudget(items, bodyBytes, reclaimTargetBytes);
      StopIsUnique(old(items[..]), reclaimTargetBytes, evicted);
    }
    var bodyBytesAfter := bodyBytes;
    if evicted != 0 {
      bodyBytesAfter := ConversationBodyBytes(items[..]);
    }
    outcome := Outcome(bodyBytes, bodyBytesAfter, inlineImages, needsImageCompaction, evicted);
  }

  /** The production limits. */
  method ApplyImageBudget(items: array<Item>) returns (outcome: Outcome)
    modifies items
    ensures items[..] == EvictFirst(old(items[..]), outcome.evicted)
    ensures outcome.evicted == Evictions(old(items[..]), 47 * 1024 * 1024, 25 * 1024 * 1024)
    ensures outcome.bodyBytes == BodyBytes(old(items[..])) && outcome.bodyBytesAfter == BodyBytes(items[..])
    ensures outcome.inlineImages == ImageCount(old(items[..]))
    ensures outcome.needsImageCompaction == (BodyBytes(old(items[..])) >= 47 * 1024 * 1024)
  {
    hide EvictFirst, BodyBytes, Evictions, ImageCount;
    outcome := ApplyImageBudgetWithLimits(items, IMAGE_COMPACT_TRIGGER_BYTES, IMAGE_COMPACT_RECLAIM_TARGET_BYTES);
  }

  // ---- what is evicted ----

  lemma {:induction false} PartImagesLeft(parts: seq<ContentPart>, q: nat)
    requires q <= CountImages(parts)
    ensures ImagesOfParts(ReplaceFirst(parts, q)) == ImagesOfParts(parts)[q..]
    ensures ImagesOfParts(RemoveFirst(parts, q)) == ImagesOfParts(parts)[q..]
  {
    if parts != [] && q > 0 {
      PartImagesLeft(parts[1..], if parts[0].Image? then q - 1 else q);
    }
  }

  lemma ItemImagesLeft(x: Item, q: nat)
    requires q <= CountImages(PartsOf(x))
    ensures ImagesOfParts(PartsOf(EvictItem(x, q))) == ImagesOfParts(PartsOf(x))[q..]
  {
    PartImagesLeft(PartsOf(x), q);
  }

  lemma ImagesOfCons(x: Item, rest: seq<Item>)
    ensures Images([x] + rest) == ImagesOfParts(PartsOf(x)) + Images(rest)
  {
    hide PartsOf, ImagesOfParts;
    assert ([x] + rest)[1..] == rest;
  }

  lemma EvictFirstOfCons(x: Item, rest: seq<Item>, k: nat)
    ensures var here := CountImages(PartsOf(x));
            EvictFirst([x] + rest, k) == [EvictItem(x, Min(k, here))] + EvictFirst(rest, SaturatingSub(k, here))
  {
    assert ([x] + rest)[1..] == rest;
    assert EvictItem(x, 0) == x && EvictFirst(rest, 0) == rest;
    hide PartsOf, CountImages, EvictItem;
  }

  /** Exactly the first k images go; the others stay, in order. */
  lemma {:induction false} ImagesLeft(items: seq<Item>, k: nat)
    requires k <= ImageCount(items)
    ensures Images(EvictFirst(items, k)) == Images(items)[k..]
    ensures ImageCount(EvictFirst(items, k)) + k == ImageCount(items)
  {
    if items != [] {
      var x, rest := items[0], items[1..];
      var here := CountImages(PartsOf(x));
      var q, left := Min(k, here), SaturatingSub(k, here);
      assert items == [x] + rest && ImageCount(items) == here + ImageCount(rest);
      hide EvictItem, PartsOf, CountImages, ImagesOfParts, Images, EvictFirst, ImageCount;
      ItemImagesLeft(x, q);
      ImagesLeft(rest, left);
      EvictFirstOfCons(x, rest, k);
      ImagesOfCons(x, rest);
      ImagesOfCons(EvictItem(x, q), EvictFirst(rest, left));
      DropTwice(ImagesOfParts(PartsOf(x)), Images(rest), k);
    }
  }

  lemma DropTwice<T>(a: seq<T>, b: seq<T>, k: nat)
    requires k <= |a| + |b|
    ensures a[Min(k, |a|)..] + b[SaturatingSub(k, |a|)..] == (a + b)[k..]
  {}
}
