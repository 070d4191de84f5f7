/** What the image budget promises, and exactly when. */
module ImageBudgetTheorems {
  import opened Sequences
  import opened Conversation
  import opened Json
  import opened ImageBytes
  import opened BodyMeasurement
  import opened ImageEviction
  import opened ImageAccounting
  import opened ImageBudget

  // ---- nothing but images is lost ----

  function TextParts(parts: seq<ContentPart>): seq<ContentPart> {
    if parts == [] then []
    else if parts[0].Text? then [parts[0]] + TextParts(parts[1..])
    else TextParts(parts[1..])
  }

  /** An item after eviction: the same item, with images replaced in place by the placeholder, or
      removed from a tool result whose text gained the note (once). */
  ghost predicate OnlyImagesGone(x: Item, y: Item) {
    match x
    case User(parts, extra) =>
      && y.User? && y.extra == extra && |y.parts| == |parts|
      && forall p | 0 <= p < |parts| ::
           y.parts[p] == parts[p] || (parts[p].Image? && y.parts[p] == Text(IMAGE_COMPACT_PLACEHOLDER))
    case ToolResult(id, content, images) =>
      && y.ToolResult? && y.toolCallId == id
      && TextParts(y.images) == TextParts(images)
      && y.content == (if y.images == images || Contains(content, TOOL_IMAGE_COMPACT_NOTE) then content
                       else content + (Ascii("\n\n") + TOOL_IMAGE_COMPACT_NOTE))
    case _ => y == x
  }

  lemma {:induction false} ReplaceTouchesImages(parts: seq<ContentPart>, q: nat)
    ensures forall p | 0 <= p < |parts| ::
              ReplaceFirst(parts, q)[p] == parts[p] || (parts[p].Image? && ReplaceFirst(parts, q)[p] == PLACEHOLDER)
  {
    if parts != [] && q > 0 {
      ReplaceTouchesImages(parts[1..], if parts[0].Image? then q - 1 else q);
    }
  }

  lemma {:induction false} RemoveKeepsTexts(parts: seq<ContentPart>, q: nat)
    requires q <= CountImages(parts)
    ensures TextParts(RemoveFirst(parts, q)) == TextParts(parts)
    ensures |RemoveFirst(parts, q)| + q == |parts|
  {
    if parts != [] && q > 0 {
      RemoveKeepsTexts(parts[1..], if parts[0].Image? then q - 1 else q);
    }
  }

  lemma ItemKeepsTheRest(x: Item, q: nat)
    requires q <= CountImages(PartsOf(x))
    ensures OnlyImagesGone(x, EvictItem(x, q))
  {
    match x {
      case User(parts, _) => ReplaceTouchesImages(parts, q);
      case ToolResult(_, _, images) => RemoveKeepsTexts(images, q);
      case _ =>
    }
  }

  lemma {:induction false} EvictionKeepsTheRest(items: seq<Item>, k: nat)
    requires k <= ImageCount(items)
    ensures forall i | 0 <= i < |items| :: OnlyImagesGone(items[i], EvictFirst(items, k)[i])
  {
    hide OnlyImagesGone, EvictItem;
    if items == [] || k == 0 {
      forall i | 0 <= i < |items| ensures OnlyImagesGone(items[i], items[i]) {
        ItemUntouched(items[i]);
      }
    } else {
      var here := CountImages(PartsOf(items[0]));
      ItemKeepsTheRest(items[0], Min(k, here));
      EvictionKeepsTheRest(items[1..], SaturatingSub(k, here));
    }
  }

  lemma ItemUntouched(x: Item)
    ensures OnlyImagesGone(x, x)
  {
    ItemKeepsTheRest(x, 0);
  }

  // ---- the running count against the truth ----

  /** Every user image part is at least as long as the placeholder part that may replace it. */
  ghost predicate LargeUserImages(items: seq<Item>) {
    forall i, p | 0 <= i < |items| && items[i].User? && 0 <= p < |items[i].parts| && items[i].parts[p].Image? ::
      PartBytes(items[i].parts[p]) >= PlaceholderBytes()
  }

  lemma {:induction false} PartsDeficitZeroIff(parts: seq<ContentPart>)
    ensures PartsDeficit(parts, CountImages(parts)) == 0 <==>
            forall p | 0 <= p < |parts| && parts[p].Image? :: PartBytes(parts[p]) >= PlaceholderBytes()
  {
    hide PartBytes, PlaceholderBytes;
    if parts != [] {
      PartsDeficitZeroIff(parts[1..]);
      assert parts == [parts[0]] + parts[1..];
    }
  }

  /** The saturating branch is never taken exactly for histories with large user images. */
  lemma {:induction false} NoDeficitIff(items: seq<Item>)
    ensures Deficit(items, ImageCount(items)) == 0 <==> LargeUserImages(items)
  {
    hide PartBytes, PlaceholderBytes;
    if items != [] {
      var x, rest := items[0], items[1..];
      NoDeficitIff(rest);
      if x.User? {
        PartsDeficitZeroIff(x.parts);
      }
      DeficitOfAll(items);
      assert items == [x] + rest;
    }
  }

  lemma DeficitOfAll(items: seq<Item>)
    requires items != []
    ensures Deficit(items, ImageCount(items))
         == ItemDeficit(items[0], CountImages(PartsOf(items[0]))) + Deficit(items[1..], ImageCount(items[1..]))
  {
    hide ItemDeficit, Deficit, EvictFirst, EvictItem, SumItemBytes, CountImages, PartsOf;
    SplitBehindFirst(items, ImageCount(items));
  }

  lemma {:induction false} DeficitGrows(items: seq<Item>, k: nat)
    requires k <= ImageCount(items)
    ensures Deficit(items, k) <= Deficit(items, ImageCount(items))
    decreases ImageCount(items) - k
  {
    hide Deficit, ItemDeficit;
    if k < ImageCount(items) {
      var (i, q) := Owner(items, k);
      DeficitStep(items, k, i, q);
      ItemDeficitGrows(items[i], q);
      DeficitGrows(items, k + 1);
    }
  }

  lemma ItemDeficitGrows(x: Item, q: nat)
    requires q < CountImages(PartsOf(x))
    ensures ItemDeficit(x, q) <= ItemDeficit(x, q + 1)
  {
    if x.User? {
      PartsDeficitStep(x.parts, q);
    }
  }

  /** With large user images the running count is never below the true one, at any iteration. */
  lemma RunningNeverUndercounts(items: seq<Item>, k: nat)
    requires LargeUserImages(items) && k <= ImageCount(items)
    ensures BodyBytes(EvictFirst(items, k)) <= Running(items, k)
  {
    NoDeficitIff(items);
    DeficitGrows(items, k);
  }

  /** The low-water guarantee: if the loop stopped with images left, the true size met the target. */
  ghost predicate MeetsTarget(items: seq<Item>, targetBytes: nat) {
    var k := StopFrom(items, targetBytes, 0);
    k < ImageCount(items) ==> BodyBytes(EvictFirst(items, k)) <= targetBytes
  }

  /** A point where the running count is lower than ever before, so that some target stops there. */
  ghost predicate StopsSomewhere(items: seq<Item>, k: nat) {
    k < ImageCount(items) && forall j | 0 <= j < k :: Running(items, j) > Running(items, k)
  }

  /** For every target at once: the guarantee holds exactly when, wherever the loop can stop, the
      uncharged placeholder bytes are outweighed by the uncredited field frames. */
  lemma GuaranteeIff(items: seq<Item>)
    ensures (forall targetBytes: nat :: MeetsTarget(items, targetBytes))
       <==> (forall k: nat | StopsSomewhere(items, k) ::
               Deficit(items, k) <= IMAGES_FIELD_FRAME_BYTES * Emptied(items, k))
  {
    forall k: nat | StopsSomewhere(items, k) && Deficit(items, k) > IMAGES_FIELD_FRAME_BYTES * Emptied(items, k)
      ensures exists targetBytes: nat :: !MeetsTarget(items, targetBytes)
    {
      RunningIsNatural(items, k);
      StopIsUnique(items, Running(items, k), k);
      assert !MeetsTarget(items, Running(items, k));
    }
    forall targetBytes: nat
      | (forall k: nat | StopsSomewhere(items, k) :: Deficit(items, k) <= IMAGES_FIELD_FRAME_BYTES * Emptied(items, k))
      ensures MeetsTarget(items, targetBytes)
    {
      StopFromStops(items, targetBytes, 0);
      var k := StopFrom(items, targetBytes, 0);
      if k < ImageCount(items) {
        assert StopsSomewhere(items, k);
      }
    }
  }

  lemma RunningIsNatural(items: seq<Item>, k: nat)
    requires k < ImageCount(items)
    ensures Running(items, k) > 0
  {
    var (i, q) := Owner(items, k);
    HistoryCoversDeficit(items, k, i, q);
  }

  lemma LargeUserImagesMeetTarget(items: seq<Item>, targetBytes: nat)
    requires LargeUserImages(items)
    ensures MeetsTarget(items, targetBytes)
  {
    hide Running, EvictFirst, BodyBytes;
    StopFromStops(items, targetBytes, 0);
    RunningNeverUndercounts(items, StopFrom(items, targetBytes, 0));
  }

  lemma ListedStep(items: seq<Item>, k: nat)
    requires k < ImageCount(items) && Locations(items, 0)[k].0.InUser?
    ensures Running(items, k + 1)
         == Running(items, k) - SaturatingSub(PartBytes(Images(items)[k]), PlaceholderBytes())
  {
    var (loc, bytes) := Locations(items, 0)[k];
    EvictStep(items, k, loc, bytes);
    RunningStep(items, k, loc, bytes, EvictFirst(items, k)[loc.item]);
  }

  lemma PlainUrlBytes(url: Bytes)
    requires forall i | 0 <= i < |url| :: url[i] == 65
    ensures PartBytes(Image(url)) == IMAGE_PART_FRAME_BYTES + |url|
  {
    EscapeKeepsLengthIff(url);
  }

  lemma {:induction false} EscapeAtMostSixfold(s: Bytes)
    ensures |Escape(s)| <= 6 * |s|
  {
    if s != [] {
      EscapeAtMostSixfold(s[1..]);
    }
  }

  /** One user turn with an undersized image, an oversized one and a third misses some target: the
      first one's placeholder is never charged, and the loop stops after the second. */
  lemma UndersizedThenOversized(small: ContentPart, large: ContentPart, last: ContentPart)
    requires small.Image? && large.Image? && last.Image?
    requires PartBytes(small) < PlaceholderBytes() < PartBytes(large)
    ensures exists targetBytes: nat :: !MeetsTarget([User([small, large, last], [])], targetBytes)
  {
    var items := [User([small, large, last], [])];
    hide PartBytes, PlaceholderBytes, Running, MeetsTarget, Deficit, Emptied, Images, Locations;
    ThreeImages(small, large, last);
    ListedStep(items, 0);
    ListedStep(items, 1);
    assert Running(items, 2) < Running(items, 1) <= Running(items, 0);
    assert StopsSomewhere(items, 2);
    GuaranteeIff(items);
  }

  lemma TinyImagesMissTheTarget()
    ensures exists items, targetBytes: nat :: !MeetsTarget(items, targetBytes)
  {
    var tiny, large := Image([]), Image(seq(1300, i => 65));
    PlainUrlBytes(tiny.url);
    PlainUrlBytes(large.url);
    EscapeAtMostSixfold(IMAGE_COMPACT_PLACEHOLDER);
    assert PlaceholderBytes() == 25 + |Escape(IMAGE_COMPACT_PLACEHOLDER)|;
    hide PartBytes, PlaceholderBytes, MeetsTarget;
    UndersizedThenOversized(tiny, large, tiny);
  }

  lemma ThreeImages(a: ContentPart, b: ContentPart, c: ContentPart)
    requires a.Image? && b.Image? && c.Image?
    ensures var items := [User([a, b, c], [])];
      && Images(items) == [a, b, c]
      && Locations(items, 0)[0].0.InUser? && Locations(items, 0)[1].0.InUser?
      && Deficit(items, 2)
         == SaturatingSub(PlaceholderBytes(), PartBytes(a)) + SaturatingSub(PlaceholderBytes(), PartBytes(b))
      && Emptied(items, 2) == 0
  {
    hide PartBytes, PlaceholderBytes;
    var parts := [a, b, c];
    assert parts[1..] == [b, c] && [b, c][1..] == [c];
    assert ImagesOfParts([c]) == [c] && ImagesOfParts([b, c]) == [b, c] && ImagesOfParts(parts) == parts;
    var items := [User(parts, [])];
    assert Images(items) == parts + Images([]);
    PartLocationAt(0, parts, 0, 0);
    PartLocationAt(0, parts, 0, 1);
    assert Locations(items, 0) == PartLocations(0, parts, 0) + Locations([], 1);
    assert PartsDeficit([c], 0) == 0;
    assert PartsDeficit([b, c], 1) == SaturatingSub(PlaceholderBytes(), PartBytes(b));
    assert Min(2, 3) == 2;
    assert Deficit(items, 2) == PartsDeficit(parts, 2) + Deficit([], 0);
  }

  // ---- applying the budget twice ----

  function Applied(items: seq<Item>, triggerBytes: nat, targetBytes: nat): seq<Item> {
    EvictFirst(items, Evictions(items, triggerBytes, targetBytes))
  }

  /** A second application changes nothing exactly when the first left the body below the trigger,
      or at the target, or without images. */
  lemma SecondApplicationIdleIff(items: seq<Item>, triggerBytes: nat, targetBytes: nat)
    ensures var once := Applied(items, triggerBytes, targetBytes);
      Applied(once, triggerBytes, targetBytes) == once <==>
      BodyBytes(once) < triggerBytes || BodyBytes(once) <= targetBytes || ImageCount(once) == 0
  {
    hide Running, EvictFirst, BodyBytes;
    var once := Applied(items, triggerBytes, targetBytes);
    var k := Evictions(once, triggerBytes, targetBytes);
    NothingEvictedYet(once);
    ImagesLeft(once, k);
  }

  /** Hysteresis: with the reclaim target below the trigger, one application is enough. */
  lemma BudgetIsIdempotent(items: seq<Item>, triggerBytes: nat, targetBytes: nat)
    requires targetBytes < triggerBytes && LargeUserImages(items)
    ensures Applied(Applied(items, triggerBytes, targetBytes), triggerBytes, targetBytes)
         == Applied(items, triggerBytes, targetBytes)
  {
    hide Running, EvictFirst, BodyBytes;
    NothingEvictedYet(items);
    ImagesLeft(items, Evictions(items, triggerBytes, targetBytes));
    LargeUserImagesMeetTarget(items, targetBytes);
    SecondApplicationIdleIff(items, triggerBytes, targetBytes);
  }
}
