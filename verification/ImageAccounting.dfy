/** What the eviction loop's running byte count is worth, compared with measuring again. */
module ImageAccounting {
  import opened Sequences
  import opened Conversation
  import opened Json
  import opened ImageBytes
  import opened BodyMeasurement
  import opened ImageEviction

  /** Bytes by which placeholders outgrow the first q images they replace. The loop's saturating
      subtraction never charges them. */
  function PartsDeficit(parts: seq<ContentPart>, q: nat): nat {
    if parts == [] || q == 0 then 0
    else if parts[0].Image? then SaturatingSub(PlaceholderBytes(), PartBytes(parts[0])) + PartsDeficit(parts[1..], q - 1)
    else PartsDeficit(parts[1..], q)
  }

  function ItemDeficit(x: Item, q: nat): nat {
    if x.User? then PartsDeficit(x.parts, q) else 0
  }

  function Deficit(items: seq<Item>, k: nat): nat {
    if items == [] || k == 0 then 0
    else
      var here := CountImages(PartsOf(items[0]));
      ItemDeficit(items[0], Min(k, here)) + Deficit(items[1..], SaturatingSub(k, here))
  }

  /** Tool results whose `images` field disappears. The loop never credits the field's own bytes. */
  function ItemEmptied(x: Item, q: nat): nat {
    if x.ToolResult? && x.images != [] && RemoveFirst(x.images, q) == [] then 1 else 0
  }

  function Emptied(items: seq<Item>, k: nat): nat {
    if items == [] || k == 0 then 0
    else
      var here := CountImages(PartsOf(items[0]));
      ItemEmptied(items[0], Min(k, here)) + Emptied(items[1..], SaturatingSub(k, here))
  }

  /** The running count after k evictions, from the true count: it misses the deficits and still
      holds the frames of vanished fields. */
  function Running(items: seq<Item>, k: nat): int {
    BodyBytes(EvictFirst(items, k)) + IMAGES_FIELD_FRAME_BYTES * Emptied(items, k) - Deficit(items, k)
  }

  // ---- sums under a change at one place ----

  lemma {:induction false} PartSumAfterUpdate(parts: seq<ContentPart>, i: nat, v: ContentPart)
    requires i < |parts|
    ensures SumPartBytes(parts[i := v]) + PartBytes(parts[i]) == SumPartBytes(parts) + PartBytes(v)
  {
    hide PartBytes;
    if i == 0 {
      UpdateHead(parts, v);
    } else {
      PartSumAfterUpdate(parts[1..], i - 1, v);
      assert parts[i := v][1..] == parts[1..][i - 1 := v] && parts[i := v][0] == parts[0];
    }
  }

  lemma {:induction false} PartSumAfterRemoval(parts: seq<ContentPart>, i: nat)
    requires i < |parts|
    ensures SumPartBytes(WithoutPart(parts, i)) + PartBytes(parts[i]) == SumPartBytes(parts)
  {
    hide PartBytes;
    if i == 0 {
      assert WithoutPart(parts, 0) == parts[1..];
    } else {
      PartSumAfterRemoval(parts[1..], i - 1);
      assert WithoutPart(parts, i)[1..] == WithoutPart(parts[1..], i - 1);
    }
  }

  lemma {:induction false} ItemSumAfterUpdate(items: seq<Item>, i: nat, v: Item)
    requires i < |items|
    ensures SumItemBytes(items[i := v]) + ItemBytes(items[i]) == SumItemBytes(items) + ItemBytes(v)
  {
    hide ItemBytes;
    if i == 0 {
      UpdateHead(items, v);
    } else {
      ItemSumAfterUpdate(items[1..], i - 1, v);
      assert items[i := v][1..] == items[1..][i - 1 := v];
    }
  }

  // ---- one step ----

  lemma UserStepBytes(x: Item, q: nat, bytes: nat)
    requires x.User? && q < CountImages(x.parts) && bytes == PartBytes(ImageOf(x, q))
    ensures ItemBytes(EvictItem(x, q + 1)) + bytes == ItemBytes(EvictItem(x, q)) + PlaceholderBytes()
  {
    ReplaceKeepsNext(x.parts, q);
    ReplaceStep(x.parts, q);
    PartSumAfterUpdate(ReplaceFirst(x.parts, q), NthImage(x.parts, q), PLACEHOLDER);
    assert EvictItem(x, q) == x.(parts := ReplaceFirst(x.parts, q));
    assert EvictItem(x, q + 1) == x.(parts := ReplaceFirst(x.parts, q + 1));
  }

  function NoteCharge(content: Bytes): nat {
    if Contains(content, TOOL_IMAGE_COMPACT_NOTE) then 0 else NoteBytes()
  }

  lemma NoteGrowth(content: Bytes)
    ensures |Escape(WithNote(content))| == |Escape(content)| + NoteCharge(content)
  {
    EscapeConcat(content, NOTE_SUFFIX);
  }

  lemma ToolStepBytes(x: Item, q: nat, bytes: nat)
    requires x.ToolResult? && q < CountImages(x.images) && bytes == PartBytes(ImageOf(x, q))
    ensures var next := EvictItem(x, q + 1);
      ItemBytes(next) + bytes + (if next.images == [] then IMAGES_FIELD_FRAME_BYTES else 1)
      == ItemBytes(EvictItem(x, q)) + NoteCharge(EvictItem(x, q).content)
  {
    hide PartBytes, ItemBytes, RemoveFirst, WithNote, NoteCharge, FirstImage, WithoutPart, Quoted;
    var now, next := EvictItem(x, q), EvictItem(x, q + 1);
    assert now.images == RemoveFirst(x.images, q) by { RemoveNone(x.images); }
    assert next.content == WithNote(now.content) by { NoteIsAppendedOnce(x.content); }
    NoteGrowth(now.content);
    RemoveStep(x.images, q);
    RemovedImageBytes(now.images, FirstImage(now.images));
    ToolResultBytes(now);
    ToolResultBytes(next);
  }

  /** What the `images` field of a tool result takes. */
  function ImagesFieldBytes(images: seq<ContentPart>): nat {
    if images == [] then 0 else IMAGES_FIELD_FRAME_BYTES + SumPartBytes(images) + Commas(|images|)
  }

  lemma ToolResultBytes(x: Item)
    requires x.ToolResult?
    ensures ItemBytes(x) == TOOL_RESULT_FRAME_BYTES + |Quoted(x.toolCallId)| + |Escape(x.content)| + 2
                            + ImagesFieldBytes(x.images)
  {
    hide PartBytes, Escape, SumPartBytes;
  }

  lemma RemovedImageBytes(images: seq<ContentPart>, i: nat)
    requires i < |images|
    ensures var rest := WithoutPart(images, i);
      ImagesFieldBytes(rest) + PartBytes(images[i]) + (if rest == [] then IMAGES_FIELD_FRAME_BYTES else 1)
      == ImagesFieldBytes(images)
  {
    hide PartBytes;
    PartSumAfterRemoval(images, i);
  }

  lemma {:induction false} PartsDeficitStep(parts: seq<ContentPart>, q: nat)
    requires q < CountImages(parts)
    ensures PartsDeficit(parts, q + 1)
         == PartsDeficit(parts, q) + SaturatingSub(PlaceholderBytes(), PartBytes(parts[NthImage(parts, q)]))
  {
    hide PartBytes, PlaceholderBytes;
    if parts[0].Image? && q == 0 {
      assert PartsDeficit(parts[1..], 0) == 0;
    } else {
      PartsDeficitStep(parts[1..], if parts[0].Image? then q - 1 else q);
    }
  }

  /** The sums of a history after k evictions, split behind its first item. */
  lemma SplitBehindFirst(items: seq<Item>, k: nat)
    requires items != []
    ensures var here := CountImages(PartsOf(items[0]));
            var (first, later) := (Min(k, here), SaturatingSub(k, here));
            && SumItemBytes(EvictFirst(items, k))
               == ItemBytes(EvictItem(items[0], first)) + SumItemBytes(EvictFirst(items[1..], later))
            && Deficit(items, k) == ItemDeficit(items[0], first) + Deficit(items[1..], later)
            && Emptied(items, k) == ItemEmptied(items[0], first) + Emptied(items[1..], later)
  {
    hide ItemBytes, CountImages, WithNote, RemoveFirst, ReplaceFirst, PartsDeficit;
    var here := CountImages(PartsOf(items[0]));
    if k == 0 {
      assert RemoveFirst(PartsOf(items[0]), 0) == PartsOf(items[0]) by { RemoveNone(PartsOf(items[0])); }
      assert PartsDeficit(PartsOf(items[0]), 0) == 0 by { RemoveNone(PartsOf(items[0])); }
    } else {
      assert EvictFirst(items, k)[1..] == EvictFirst(items[1..], SaturatingSub(k, here));
    }
  }

  lemma RemoveNone(parts: seq<ContentPart>)
    ensures RemoveFirst(parts, 0) == parts && PartsDeficit(parts, 0) == 0
  {}

  /** One more eviction changes the sums inside the first item, or behind it. */
  lemma DeficitStepAt(items: seq<Item>, k: nat)
    requires items != []
    ensures var (x, rest, here) := (items[0], items[1..], CountImages(PartsOf(items[0])));
            if k < here then
              && Deficit(items, k + 1) - Deficit(items, k) == ItemDeficit(x, k + 1) - ItemDeficit(x, k)
              && Emptied(items, k + 1) - Emptied(items, k) == ItemEmptied(x, k + 1) - ItemEmptied(x, k)
            else
              && Deficit(items, k + 1) - Deficit(items, k) == Deficit(rest, k - here + 1) - Deficit(rest, k - here)
              && Emptied(items, k + 1) - Emptied(items, k) == Emptied(rest, k - here + 1) - Emptied(rest, k - here)
  {
    hide Deficit, Emptied, ItemDeficit, ItemEmptied, EvictFirst, EvictItem, SumItemBytes, ItemBytes, CountImages, PartsOf;
    SplitBehindFirst(items, k);
    SplitBehindFirst(items, k + 1);
  }

  lemma {:induction false} DeficitStep(items: seq<Item>, k: nat, i: nat, q: nat)
    requires k < ImageCount(items) && (i, q) == Owner(items, k)
    ensures Deficit(items, k + 1) - Deficit(items, k) == ItemDeficit(items[i], q + 1) - ItemDeficit(items[i], q)
    ensures Emptied(items, k + 1) - Emptied(items, k) == ItemEmptied(items[i], q + 1) - ItemEmptied(items[i], q)
  {
    hide Deficit, Emptied, ItemDeficit, ItemEmptied, CountImages, PartsOf;
    var here := CountImages(PartsOf(items[0]));
    DeficitStepAt(items, k);
    if k >= here {
      DeficitStep(items[1..], k - here, i - 1, q);
    }
  }

  // ---- the count never has to saturate ----

  lemma PlaceholderIsCounted()
    ensures PartBytes(PLACEHOLDER) == PlaceholderBytes()
  {}

  lemma {:induction false} PartsCoverDeficit(parts: seq<ContentPart>, q: nat)
    requires q <= CountImages(parts)
    ensures SumPartBytes(ReplaceFirst(parts, q))
         >= PartsDeficit(parts, q) + (if q < CountImages(parts) then PartBytes(parts[NthImage(parts, q)]) else 0)
  {
    hide PartBytes, PlaceholderBytes, ReplaceFirst, SumPartBytes;
    PlaceholderIsCounted();
    if parts != [] {
      ReplacedSum(parts, q);
      if !parts[0].Image? {
        PartsCoverDeficit(parts[1..], q);
      } else if q > 0 {
        PartsCoverDeficit(parts[1..], q - 1);
      }
    }
  }

  lemma ReplacedSum(parts: seq<ContentPart>, q: nat)
    requires parts != []
    ensures var here := if parts[0].Image? && q > 0 then PLACEHOLDER else parts[0];
            var later := if parts[0].Image? && q > 0 then q - 1 else q;
            SumPartBytes(ReplaceFirst(parts, q)) == PartBytes(here) + SumPartBytes(ReplaceFirst(parts[1..], later))
  {
    hide PartBytes;
    if q == 0 {
      assert ReplaceFirst(parts[1..], 0) == parts[1..];
    } else {
      var later := if parts[0].Image? then q - 1 else q;
      assert ReplaceFirst(parts, q)[1..] == ReplaceFirst(parts[1..], later);
    }
  }

  /** An item's bytes cover what its placeholders were never charged for, and its next image too. */
  lemma ItemCoversDeficit(x: Item, q: nat)
    requires q <= CountImages(PartsOf(x))
    ensures ItemBytes(EvictItem(x, q)) >= ItemDeficit(x, q)
    ensures q < CountImages(PartsOf(x)) ==>
              ItemBytes(EvictItem(x, q)) > ItemDeficit(x, q) + PartBytes(ImageOf(x, q))
  {
    match x {
      case User(parts, _) =>
        PartsCoverDeficit(parts, q);
        assert EvictItem(x, q) == x.(parts := ReplaceFirst(parts, q));
      case ToolResult(_, _, images) =>
        assert EvictItem(x, q).images == RemoveFirst(images, q);
        if q < CountImages(images) {
          RemoveStep(images, q);
          PartSumAfterRemoval(RemoveFirst(images, q), FirstImage(RemoveFirst(images, q)));
        }
      case _ =>
    }
  }

  lemma NothingToCover(items: seq<Item>)
    ensures Deficit(items, 0) == 0
  {}

  lemma {:induction false} HistoryCoversDeficit(items: seq<Item>, k: nat, i: nat, q: nat)
    requires k < ImageCount(items) && (i, q) == Owner(items, k)
    ensures SumItemBytes(EvictFirst(items, k)) > Deficit(items, k) + PartBytes(ImageOf(items[i], q))
  {
    hide ItemBytes, PartBytes, ItemDeficit, ImageOf, Deficit, EvictFirst, CountImages;
    var here := CountImages(PartsOf(items[0]));
    ItemCoversDeficit(items[0], Min(k, here));
    SplitBehindFirst(items, k);
    if k < here {
      NothingToCover(items[1..]);
    } else {
      HistoryCoversDeficit(items[1..], k - here, i - 1, q);
    }
  }

  /** One trip round the loop: with the recorded size, the loop's own arithmetic takes
      Running(k) to Running(k + 1), and never bottoms out. */
  lemma RunningStep(items: seq<Item>, k: nat, loc: ImageLocation, bytes: nat, now: Item)
    requires k < ImageCount(items) && Locations(items, 0)[k] == (loc, bytes)
    requires loc.item < |items| && now == EvictFirst(items, k)[loc.item] && AtImage(now, loc)
    ensures loc.InUser? ==>
              && SaturatingSub(bytes, PlaceholderBytes()) <= Running(items, k)
              && Running(items, k + 1) == Running(items, k) - SaturatingSub(bytes, PlaceholderBytes())
    ensures loc.InToolResult? ==>
              var next := EvictAt(now, loc);
              var released := bytes + if next.images == [] then 0 else 1;
              && released <= Running(items, k)
              && Running(items, k + 1) == Running(items, k) - released + NoteCharge(now.content)
  {
    hide Owner, Locations, ItemLocations, EvictFirst, NthImage, RemoveFirst, ReplaceFirst, CountImages, ImageCount;
    hide Running, ItemBytes, PartBytes, PlaceholderBytes, PartsDeficit, ImageOf, WithNote, NoteCharge;
    var (i, q) := Owner(items, k);
    LocationOfOwner(items, k, 0, i, q);
    EvictItemStep(items[i], i, q, loc, bytes);
    EvictAtOwner(items, k, i, q);
    RunningMoves(items, k, i, q);
    StepBytes(items[i], q, bytes);
  }

  /** An eviction moves the running count by what happens inside the image's owner, and the count covers the image. */
  lemma RunningMoves(items: seq<Item>, k: nat, i: nat, q: nat)
    requires k < ImageCount(items) && (i, q) == Owner(items, k)
    ensures Running(items, k) > PartBytes(ImageOf(items[i], q))
    ensures Running(items, k + 1) - Running(items, k)
         == ItemBytes(EvictItem(items[i], q + 1)) - ItemBytes(EvictItem(items[i], q))
            + IMAGES_FIELD_FRAME_BYTES * (ItemEmptied(items[i], q + 1) - ItemEmptied(items[i], q))
            - (ItemDeficit(items[i], q + 1) - ItemDeficit(items[i], q))
  {
    hide Owner, EvictFirst, EvictItem, ItemBytes, PartBytes, ImageOf, CountImages, ImageCount, PartsOf;
    hide Deficit, Emptied, ItemDeficit, ItemEmptied, SumItemBytes;
    EvictAtOwner(items, k, i, q);
    HistoryCoversDeficit(items, k, i, q);
    DeficitStep(items, k, i, q);
    ItemSumAfterUpdate(EvictFirst(items, k), i, EvictItem(items[i], q + 1));
  }

  lemma StepBytes(x: Item, q: nat, bytes: nat)
    requires q < CountImages(PartsOf(x)) && bytes == PartBytes(ImageOf(x, q))
    ensures x.User? ==>
              && ItemBytes(EvictItem(x, q + 1)) + bytes == ItemBytes(EvictItem(x, q)) + PlaceholderBytes()
              && ItemDeficit(x, q + 1) == ItemDeficit(x, q) + SaturatingSub(PlaceholderBytes(), bytes)
    ensures x.ToolResult? ==>
              var next := EvictItem(x, q + 1);
              && next.ToolResult? && EvictItem(x, q).ToolResult?
              && ItemEmptied(x, q + 1) - ItemEmptied(x, q) == (if next.images == [] then 1 else 0)
              && ItemBytes(next) + bytes + (if next.images == [] then IMAGES_FIELD_FRAME_BYTES else 1)
                 == ItemBytes(EvictItem(x, q)) + NoteCharge(EvictItem(x, q).content)
  {
    match x {
      case User(parts, _) =>
        UserStepBytes(x, q, bytes);
        PartsDeficitStep(parts, q);
      case ToolResult(_, _, images) =>
        ToolStepBytes(x, q, bytes);
        RemoveStep(images, q);
        assert EvictItem(x, q).images == RemoveFirst(images, q);
    }
  }
}
