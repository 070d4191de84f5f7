/** The running count of the eviction loop as a sum over the images of the original history. */
module ImageCharges {
  import opened Conversation
  import opened Json
  import opened ImageBytes
  import opened BodyMeasurement
  import opened ImageEviction
  import opened ImageAccounting
  import opened ImageBudgetTheorems

  /** What replacing the first q images takes off the count: each by what it is longer than the placeholder. */
  function PartsCharged(parts: seq<ContentPart>, q: nat): nat {
    if parts == [] || q == 0 then 0
    else if parts[0].Image? then SaturatingSub(PartBytes(parts[0]), PlaceholderBytes()) + PartsCharged(parts[1..], q - 1)
    else PartsCharged(parts[1..], q)
  }

  /** The bytes of the first q images. */
  function ImageBytesOf(parts: seq<ContentPart>, q: nat): nat {
    if parts == [] || q == 0 then 0
    else if parts[0].Image? then PartBytes(parts[0]) + ImageBytesOf(parts[1..], q - 1)
    else ImageBytesOf(parts[1..], q)
  }

  /** For a tool result: the images, a comma for each but the one that empties the field, less the note if it is new. */
  function ItemCharged(x: Item, q: nat): int {
    match x
    case User(parts, _) => PartsCharged(parts, q)
    case ToolResult(_, content, images) =>
      if q == 0 then 0
      else ImageBytesOf(images, q) + (if q < |images| then q else q - 1) - NoteCharge(content)
    case _ => 0
  }

  /** What the first k evictions take off the count, from the original history alone. */
  function Charged(items: seq<Item>, k: nat): int {
    if items == [] || k == 0 then 0
    else
      var here := CountImages(PartsOf(items[0]));
      ItemCharged(items[0], Min(k, here)) + Charged(items[1..], SaturatingSub(k, here))
  }

  lemma {:induction false} ReplacedBytes(parts: seq<ContentPart>, q: nat)
    requires q <= CountImages(parts)
    ensures SumPartBytes(ReplaceFirst(parts, q)) - PartsDeficit(parts, q) == SumPartBytes(parts) - PartsCharged(parts, q)
  {
    hide PartBytes, PlaceholderBytes;
    if parts != [] && q > 0 {
      var rest := parts[1..];
      PlaceholderIsCounted();
      if parts[0].Image? {
        ReplacedBytes(rest, q - 1);
        assert ReplaceFirst(parts, q) == [PLACEHOLDER] + ReplaceFirst(rest, q - 1);
      } else {
        ReplacedBytes(rest, q);
        assert ReplaceFirst(parts, q) == [parts[0]] + ReplaceFirst(rest, q);
      }
    }
  }

  lemma {:induction false} RemovedBytes(parts: seq<ContentPart>, q: nat)
    requires q <= CountImages(parts)
    ensures SumPartBytes(RemoveFirst(parts, q)) == SumPartBytes(parts) - ImageBytesOf(parts, q)
  {
    hide PartBytes;
    if parts != [] && q > 0 {
      var rest := parts[1..];
      if parts[0].Image? {
        RemovedBytes(rest, q - 1);
      } else {
        RemovedBytes(rest, q);
        assert RemoveFirst(parts, q) == [parts[0]] + RemoveFirst(rest, q);
      }
    }
  }

  /** A field vanishes exactly when all its parts were images and all have gone. */
  lemma EmptiedIff(x: Item, q: nat)
    requires q <= CountImages(PartsOf(x))
    ensures ItemEmptied(x, q) == if x.ToolResult? && x.images != [] && q == |x.images| then 1 else 0
  {
    if x.ToolResult? {
      RemoveKeepsTexts(x.images, q);
    }
  }

  lemma NotedResultBytes(x: Item, q: nat)
    requires x.ToolResult? && 0 < q <= CountImages(x.images)
    ensures ItemBytes(EvictItem(x, q)) + IMAGES_FIELD_FRAME_BYTES * ItemEmptied(x, q) == ItemBytes(x) - ItemCharged(x, q)
  {
    hide SumPartBytes, Escape, RemoveFirst, CountImages, ImageBytesOf, ItemEmptied, NoteCharge, WithNote;
    RemovedBytes(x.images, q);
    RemoveKeepsTexts(x.images, q);
    NoteGrowth(x.content);
    EmptiedIff(x, q);
    NoParts();
  }

  lemma NoParts()
    ensures SumPartBytes([]) == 0 && CountImages([]) == 0
  {}

  lemma ItemRunning(x: Item, q: nat)
    requires q <= CountImages(PartsOf(x))
    ensures ItemBytes(EvictItem(x, q)) + IMAGES_FIELD_FRAME_BYTES * ItemEmptied(x, q) - ItemDeficit(x, q)
         == ItemBytes(x) - ItemCharged(x, q)
  {
    hide SumPartBytes, RemoveFirst, CountImages, ImageBytesOf, ItemEmptied, NoteCharge, WithNote, PartsDeficit;
    EmptiedIff(x, q);
    NoParts();
    match x {
      case User(parts, _) =>
        ReplacedBytes(parts, q);
        assert ReplaceFirst(parts, 0) == parts;
      case ToolResult(_, _, images) =>
        if q > 0 {
          NotedResultBytes(x, q);
        }
      case _ =>
    }
  }

  lemma {:induction false} SumRunning(items: seq<Item>, k: nat)
    requires k <= ImageCount(items)
    ensures SumItemBytes(EvictFirst(items, k)) + IMAGES_FIELD_FRAME_BYTES * Emptied(items, k) - Deficit(items, k)
         == SumItemBytes(items) - Charged(items, k)
  {
    if items != [] && k > 0 {
      hide ItemBytes, EvictItem, ItemEmptied, ItemDeficit, ItemCharged, CountImages, PartsOf;
      var x, rest, here := items[0], items[1..], CountImages(PartsOf(items[0]));
      ItemRunning(x, Min(k, here));
      SumRunning(rest, SaturatingSub(k, here));
      assert EvictFirst(items, k) == [EvictItem(x, Min(k, here))] + EvictFirst(rest, SaturatingSub(k, here));
    }
  }

  /** The running count after k evictions is the size at the start less what the first k listed images are charged. */
  lemma RunningByCharges(items: seq<Item>, k: nat)
    requires k <= ImageCount(items)
    ensures Running(items, k) == BodyBytes(items) - Charged(items, k)
  {
    hide SumItemBytes, EvictFirst, Emptied, Deficit, Charged;
    SumRunning(items, k);
  }

  /** Where some target stops the loop: the charges up to there exceed those up to any earlier point. */
  ghost predicate ChargedMost(items: seq<Item>, k: nat) {
    k < ImageCount(items) && forall j | 0 <= j < k :: Charged(items, j) < Charged(items, k)
  }

  /** The exact condition of the guarantee, for all targets at once, from the sizes of the images alone. */
  lemma GuaranteeByChargesIff(items: seq<Item>)
    ensures (forall targetBytes: nat :: MeetsTarget(items, targetBytes))
       <==> (forall k: nat | ChargedMost(items, k) :: Deficit(items, k) <= IMAGES_FIELD_FRAME_BYTES * Emptied(items, k))
  {
    hide Running, Charged, Deficit, Emptied, MeetsTarget;
    GuaranteeIff(items);
    forall k: nat ensures ChargedMost(items, k) <==> StopsSomewhere(items, k) {
      forall j: nat | j <= k && k < ImageCount(items) ensures Running(items, j) == BodyBytes(items) - Charged(items, j) {
        RunningByCharges(items, j);
      }
    }
  }
}
