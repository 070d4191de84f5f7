/** Evicting the oldest images of a history until its byte count is low enough. */
module ImageEviction {
  import opened Sequences
  import opened Conversation
  import opened Json
  import opened ImageBytes

  // The two texts have their real lengths; their wording is left open, so everything below
  // holds whatever they say.
  type PlaceholderText = s: Bytes | |s| == 213 witness seq(213, i => 32)
  type ToolNoteText = s: Bytes | |s| == 184 witness seq(184, i => 32)

  const IMAGE_COMPACT_PLACEHOLDER: PlaceholderText
  const TOOL_IMAGE_COMPACT_NOTE: ToolNoteText

  const PLACEHOLDER: ContentPart := Text(IMAGE_COMPACT_PLACEHOLDER)

  const NOTE_SUFFIX: Bytes := Ascii("\n\n") + TOOL_IMAGE_COMPACT_NOTE

  function PlaceholderBytes(): nat { |EncodePart(PLACEHOLDER)| }

  function NoteBytes(): nat { |Escape(NOTE_SUFFIX)| }

  // ---- which images there are, in document order ----

  function CountImages(parts: seq<ContentPart>): nat {
    if parts == [] then 0 else (if parts[0].Image? then 1 else 0) + CountImages(parts[1..])
  }

  function ImageCount(items: seq<Item>): nat {
    if items == [] then 0 else CountImages(PartsOf(items[0])) + ImageCount(items[1..])
  }

  /** The images of a history in document order. */
  function ImagesOfParts(parts: seq<ContentPart>): (r: seq<ContentPart>)
    ensures |r| == CountImages(parts)
  {
    if parts == [] then []
    else if parts[0].Image? then [parts[0]] + ImagesOfParts(parts[1..])
    else ImagesOfParts(parts[1..])
  }

  function Images(items: seq<Item>): (r: seq<ContentPart>)
    ensures |r| == ImageCount(items)
  {
    if items == [] then [] else ImagesOfParts(PartsOf(items[0])) + Images(items[1..])
  }

  // ---- what evicting the first k images means ----

  function ReplaceFirst(parts: seq<ContentPart>, q: nat): (r: seq<ContentPart>)
    ensures |r| == |parts|
  {
    if parts == [] || q == 0 then parts
    else if parts[0].Image? then [PLACEHOLDER] + ReplaceFirst(parts[1..], q - 1)
    else [parts[0]] + ReplaceFirst(parts[1..], q)
  }

  function RemoveFirst(parts: seq<ContentPart>, q: nat): seq<ContentPart> {
    if parts == [] || q == 0 then parts
    else if parts[0].Image? then RemoveFirst(parts[1..], q - 1)
    else [parts[0]] + RemoveFirst(parts[1..], q)
  }

  function WithNote(content: Bytes): Bytes {
    if Contains(content, TOOL_IMAGE_COMPACT_NOTE) then content else content + NOTE_SUFFIX
  }

  function EvictItem(x: Item, q: nat): Item {
    if q == 0 then x else
    match x
    case User(parts, extra) => User(ReplaceFirst(parts, q), extra)
    case ToolResult(id, content, images) => ToolResult(id, WithNote(content), RemoveFirst(images, q))
    case _ => x
  }

  function Min(a: nat, b: nat): nat { if a < b then a else b }

  function SaturatingSub(a: nat, b: nat): nat { if a < b then 0 else a - b }

  /** The history with its first k images evicted and nothing else touched. */
  function EvictFirst(items: seq<Item>, k: nat): (r: seq<Item>)
    ensures |r| == |items|
  {
    if items == [] || k == 0 then items
    else
      var here := CountImages(PartsOf(items[0]));
      [EvictItem(items[0], Min(k, here))] + EvictFirst(items[1..], SaturatingSub(k, here))
  }

  // ---- the up-front list of locations ----

  datatype ImageLocation =
    | InUser(item: nat, part: nat)
    | InToolResult(item: nat)

  function PartLocations(item: nat, parts: seq<ContentPart>, base: nat): (r: seq<(ImageLocation, nat)>)
    ensures |r| == CountImages(parts)
  {
    if parts == [] then []
    else if parts[0].Image? then [(InUser(item, base), PartBytes(parts[0]))] + PartLocations(item, parts[1..], base + 1)
    else PartLocations(item, parts[1..], base + 1)
  }

  function ToolLocations(item: nat, images: seq<ContentPart>): (r: seq<(ImageLocation, nat)>)
    ensures |r| == CountImages(images)
  {
    if images == [] then []
    else if images[0].Image? then [(InToolResult(item), PartBytes(images[0]))] + ToolLocations(item, images[1..])
    else ToolLocations(item, images[1..])
  }

  function ItemLocations(x: Item, item: nat): (r: seq<(ImageLocation, nat)>)
    ensures |r| == CountImages(PartsOf(x))
  {
    match x
    case User(parts, _) => PartLocations(item, parts, 0)
    case ToolResult(_, _, images) => ToolLocations(item, images)
    case _ => []
  }

  function Locations(items: seq<Item>, base: nat): (r: seq<(ImageLocation, nat)>)
    ensures |r| == ImageCount(items)
  {
    if items == [] then [] else ItemLocations(items[0], base) + Locations(items[1..], base + 1)
  }

  // ---- one step at a recorded location ----

  predicate AtImage(x: Item, loc: ImageLocation) {
    match loc
    case InUser(_, part) => x.User? && part < |x.parts| && x.parts[part].Image?
    case InToolResult(_) => x.ToolResult? && CountImages(x.images) > 0
  }

  function FirstImage(parts: seq<ContentPart>): (r: nat)
    requires CountImages(parts) > 0
    ensures r < |parts| && parts[r].Image? && forall j | 0 <= j < r :: !parts[j].Image?
  {
    if parts[0].Image? then 0 else FirstImage(parts[1..]) + 1
  }

  function WithoutPart(parts: seq<ContentPart>, i: nat): seq<ContentPart>
    requires i < |parts|
  {
    parts[..i] + parts[i + 1..]
  }

  function EvictAt(x: Item, loc: ImageLocation): Item
    requires AtImage(x, loc)
  {
    match loc
    case InUser(_, part) => x.(parts := x.parts[part := PLACEHOLDER])
    case InToolResult(_) =>
      x.(images := WithoutPart(x.images, FirstImage(x.images)), content := WithNote(x.content))
  }

  /** Position of the q-th image among the parts. */
  function NthImage(parts: seq<ContentPart>, q: nat): (r: nat)
    requires q < CountImages(parts)
    ensures r < |parts| && parts[r].Image?
  {
    if !parts[0].Image? then NthImage(parts[1..], q) + 1
    else if q == 0 then 0
    else NthImage(parts[1..], q - 1) + 1
  }

  lemma {:induction false} NthImageInOrder(parts: seq<ContentPart>, q: nat)
    requires q < CountImages(parts)
    ensures ImagesOfParts(parts)[q] == parts[NthImage(parts, q)]
  {
    if !parts[0].Image? {
      NthImageInOrder(parts[1..], q);
    } else if q > 0 {
      NthImageInOrder(parts[1..], q - 1);
    }
  }

  lemma {:induction false} PartLocationAt(item: nat, parts: seq<ContentPart>, base: nat, q: nat)
    requires q < CountImages(parts)
    ensures PartLocations(item, parts, base)[q] ==
            (InUser(item, base + NthImage(parts, q)), PartBytes(parts[NthImage(parts, q)]))
  {
    hide PartBytes;
    var rest := parts[1..];
    var behind := PartLocations(item, rest, base + 1);
    if !parts[0].Image? {
      assert PartLocations(item, parts, base) == behind && NthImage(parts, q) == NthImage(rest, q) + 1;
      PartLocationAt(item, rest, base + 1, q);
    } else if q > 0 {
      assert PartLocations(item, parts, base)[1..] == behind && NthImage(parts, q) == NthImage(rest, q - 1) + 1;
      PartLocationAt(item, rest, base + 1, q - 1);
    }
  }

  lemma {:induction false} ToolLocationAt(item: nat, images: seq<ContentPart>, q: nat)
    requires q < CountImages(images)
    ensures ToolLocations(item, images)[q] == (InToolResult(item), PartBytes(images[NthImage(images, q)]))
  {
    hide PartBytes;
    if !images[0].Image? {
      ToolLocationAt(item, images[1..], q);
    } else if q > 0 {
      ToolLocationAt(item, images[1..], q - 1);
    }
  }

  lemma {:induction false} ReplaceKeepsNext(parts: seq<ContentPart>, q: nat)
    requires q < CountImages(parts)
    ensures ReplaceFirst(parts, q)[NthImage(parts, q)] == parts[NthImage(parts, q)]
  {
    if q > 0 {
      ReplaceKeepsNext(parts[1..], if parts[0].Image? then q - 1 else q);
    }
  }

  /** Replacing acts on a first part, unless it is the next image, and on the parts behind it. */
  lemma ReplacePast(parts: seq<ContentPart>, q: nat)
    requires parts != [] && (parts[0].Image? ==> q > 0)
    ensures var first := if parts[0].Image? then PLACEHOLDER else parts[0];
            ReplaceFirst(parts, q) == [first] + ReplaceFirst(parts[1..], if parts[0].Image? then q - 1 else q)
  {
    if q == 0 {
      assert ReplaceFirst(parts[1..], 0) == parts[1..];
    }
  }

  lemma ReplaceHead(parts: seq<ContentPart>)
    requires CountImages(parts) > 0 && parts[0].Image?
    ensures ReplaceFirst(parts, 0)[NthImage(parts, 0) := PLACEHOLDER] == ReplaceFirst(parts, 1)
  {
    UpdateHead(parts, PLACEHOLDER);
  }

  lemma NthPast(parts: seq<ContentPart>, q: nat)
    requires q < CountImages(parts) && (parts[0].Image? ==> q > 0)
    ensures var before := if parts[0].Image? then q - 1 else q;
            before < CountImages(parts[1..]) && NthImage(parts, q) == NthImage(parts[1..], before) + 1
  {}

  lemma {:induction false} ReplaceStep(parts: seq<ContentPart>, q: nat)
    requires q < CountImages(parts)
    ensures ReplaceFirst(parts, q)[NthImage(parts, q) := PLACEHOLDER] == ReplaceFirst(parts, q + 1)
  {
    hide ReplaceFirst, NthImage, CountImages;
    assert NthImage(parts, q) < |parts|;
    if parts[0].Image? && q == 0 {
      ReplaceHead(parts);
    } else {
      var rest, before := parts[1..], if parts[0].Image? then q - 1 else q;
      NthPast(parts, q);
      ReplacePast(parts, q);
      ReplacePast(parts, q + 1);
      ReplaceStep(rest, before);
      UpdateTail(if parts[0].Image? then PLACEHOLDER else parts[0],
                 ReplaceFirst(rest, before), NthImage(rest, before), PLACEHOLDER);
    }
  }

  /** The first image left is the q-th of the original, and removing it removes q + 1. */
  predicate RemovesNext(images: seq<ContentPart>, q: nat)
    requires q < CountImages(images)
  {
    var now := RemoveFirst(images, q);
    && CountImages(now) > 0
    && now[FirstImage(now)] == images[NthImage(images, q)]
    && WithoutPart(now, FirstImage(now)) == RemoveFirst(images, q + 1)
  }

  lemma {:induction false} RemoveStep(images: seq<ContentPart>, q: nat)
    requires q < CountImages(images)
    ensures RemovesNext(images, q)
  {
    hide RemovesNext;
    if !images[0].Image? {
      RemoveStep(images[1..], q);
      RemoveStepPast(images, q);
    } else if q == 0 {
      RemoveHead(images);
    } else {
      RemoveStep(images[1..], q - 1);
      RemoveBehindImage(images, q);
    }
  }

  lemma RemoveHead(images: seq<ContentPart>)
    requires CountImages(images) > 0 && images[0].Image?
    ensures RemovesNext(images, 0)
  {
    assert WithoutPart(images, 0) == images[1..] == RemoveFirst(images[1..], 0);
  }

  lemma RemoveBehindImage(images: seq<ContentPart>, q: nat)
    requires 0 < q < CountImages(images) && images[0].Image? && RemovesNext(images[1..], q - 1)
    ensures RemovesNext(images, q)
  {
    hide FirstImage, WithoutPart;
  }

  /** The same behind a part that is no image. */
  lemma RemoveStepPast(images: seq<ContentPart>, q: nat)
    requires q < CountImages(images) && !images[0].Image? && RemovesNext(images[1..], q)
    ensures RemovesNext(images, q)
  {
    hide RemoveFirst, FirstImage, NthImage, CountImages, WithoutPart;
    assert NthImage(images, q) < |images|;
    var head, rest := images[0], RemoveFirst(images[1..], q);
    NthPast(images, q);
    RemovePast(images, q);
    RemovePast(images, q + 1);
    FirstPast(head, rest);
    WithoutPartOfTail(head, rest, FirstImage(rest));
  }

  lemma FirstPast(head: ContentPart, rest: seq<ContentPart>)
    requires !head.Image? && CountImages(rest) > 0
    ensures CountImages([head] + rest) == CountImages(rest) && FirstImage([head] + rest) == FirstImage(rest) + 1
  {
    assert ([head] + rest)[1..] == rest;
  }

  lemma RemovePast(images: seq<ContentPart>, q: nat)
    requires images != [] && !images[0].Image?
    ensures RemoveFirst(images, q) == [images[0]] + RemoveFirst(images[1..], q)
  {}

  lemma WithoutPartOfTail(head: ContentPart, rest: seq<ContentPart>, i: nat)
    requires i < |rest|
    ensures WithoutPart([head] + rest, i + 1) == [head] + WithoutPart(rest, i)
  {}

  lemma NoteIsAppendedOnce(content: Bytes)
    ensures WithNote(WithNote(content)) == WithNote(content)
  {
    hide Contains;
    ConcatAssociates(content, Ascii("\n\n"), TOOL_IMAGE_COMPACT_NOTE);
    ContainsAtEnd(content + Ascii("\n\n"), TOOL_IMAGE_COMPACT_NOTE);
  }

  /** The q-th image that an item carries. */
  function ImageOf(x: Item, q: nat): (r: ContentPart)
    requires q < CountImages(PartsOf(x))
    ensures r.Image?
  {
    PartsOf(x)[NthImage(PartsOf(x), q)]
  }

  lemma EvictItemStep(x: Item, item: nat, q: nat, loc: ImageLocation, bytes: nat)
    requires q < CountImages(PartsOf(x)) && ItemLocations(x, item)[q] == (loc, bytes)
    ensures loc.item == item && bytes == PartBytes(ImageOf(x, q))
    ensures AtImage(EvictItem(x, q), loc) && EvictAt(EvictItem(x, q), loc) == EvictItem(x, q + 1)
  {
    hide PartBytes, CountImages, NthImage, WithNote, FirstImage, WithoutPart, PartLocations, ToolLocations;
    match x {
      case User(parts, _) =>
        PartLocationAt(item, parts, 0, q);
        ReplaceKeepsNext(parts, q);
        ReplaceStep(parts, q);
        assert EvictItem(x, q).parts == ReplaceFirst(parts, q);
      case ToolResult(_, content, images) =>
        ToolLocationAt(item, images, q);
        RemoveStep(images, q);
        NoteIsAppendedOnce(content);
        assert EvictItem(x, q).images == RemoveFirst(images, q);
    }
  }

  /** The item holding the k-th image, and the image's rank among that item's images. */
  function Owner(items: seq<Item>, k: nat): (r: (nat, nat))
    requires k < ImageCount(items)
    ensures r.0 < |items| && r.1 < CountImages(PartsOf(items[r.0]))
  {
    var here := CountImages(PartsOf(items[0]));
    if k < here then (0, k)
    else
      var (i, q) := Owner(items[1..], k - here);
      (i + 1, q)
  }

  lemma {:induction false} LocationOfOwner(items: seq<Item>, k: nat, base: nat, i: nat, q: nat)
    requires k < ImageCount(items) && (i, q) == Owner(items, k)
    ensures Locations(items, base)[k] == ItemLocations(items[i], base + i)[q]
  {
    hide ItemLocations, PartsOf, CountImages;
    var here, later := ItemLocations(items[0], base), Locations(items[1..], base + 1);
    assert Locations(items, base) == here + later;
    if k >= |here| {
      LocationOfOwner(items[1..], k - |here|, base + 1, i - 1, q);
      assert (here + later)[k] == later[k - |here|];
    }
  }

  lemma {:induction false} ImageOfOwner(items: seq<Item>, k: nat, i: nat, q: nat)
    requires k < ImageCount(items) && (i, q) == Owner(items, k)
    ensures Images(items)[k] == ImageOf(items[i], q)
  {
    hide PartsOf, CountImages, ImagesOfParts, NthImage;
    var here, later := ImagesOfParts(PartsOf(items[0])), Images(items[1..]);
    assert Images(items) == here + later;
    if k < |here| {
      NthImageInOrder(PartsOf(items[0]), k);
    } else {
      ImageOfOwner(items[1..], k - |here|, i - 1, q);
      assert (here + later)[k] == later[k - |here|];
    }
  }

  lemma {:induction false} EvictAtOwner(items: seq<Item>, k: nat, i: nat, q: nat)
    requires k < ImageCount(items) && (i, q) == Owner(items, k)
    ensures EvictFirst(items, k)[i] == EvictItem(items[i], q)
    ensures EvictFirst(items, k)[i := EvictItem(items[i], q + 1)] == EvictFirst(items, k + 1)
  {
    hide PartsOf, CountImages;
    var x, rest, here := items[0], items[1..], CountImages(PartsOf(items[0]));
    if k < here {
      assert EvictItem(x, 0) == x && EvictFirst(rest, 0) == rest;
      hide EvictItem;
      assert EvictFirst(items, k) == [EvictItem(x, k)] + rest;
      UpdateHead(EvictFirst(items, k), EvictItem(x, k + 1));
    } else {
      hide EvictItem;
      EvictAtOwner(rest, k - here, i - 1, q);
      assert EvictFirst(items, k) == [EvictItem(x, here)] + EvictFirst(rest, k - here);
      UpdateTail(EvictItem(x, here), EvictFirst(rest, k - here), i - 1, EvictItem(rest[i - 1], q + 1));
    }
  }

  /** After k evictions, the k-th entry of the list made before the first one still names an image:
      the k-th image of the original history, with the size it was recorded with. Evicting there
      gives the history with k + 1 images evicted. */
  lemma EvictStep(items: seq<Item>, k: nat, loc: ImageLocation, bytes: nat)
    requires k < ImageCount(items) && Locations(items, 0)[k] == (loc, bytes)
    ensures loc.item < |items| && bytes == PartBytes(Images(items)[k])
    ensures AtImage(EvictFirst(items, k)[loc.item], loc)
    ensures EvictFirst(items, k)[loc.item := EvictAt(EvictFirst(items, k)[loc.item], loc)] == EvictFirst(items, k + 1)
  {
    var (i, q) := Owner(items, k);
    LocationOfOwner(items, k, 0, i, q);
    ImageOfOwner(items, k, i, q);
    EvictItemStep(items[i], i, q, loc, bytes);
    EvictAtOwner(items, k, i, q);
  }
}
