/** Byte counts of a serialized history, with image URLs counted the way image_budget.rs counts them. */
module ImageBytes {
  import opened Sequences
  import opened Conversation
  import opened Json

  const DATA_PREFIX := Ascii("data:")
  const BASE64_SUFFIX := Ascii(";base64")

  predicate EndsWith(s: Bytes, suffix: Bytes) {
    |suffix| <= |s| && s[|s| - |suffix|..] == suffix
  }

  /** The part of a `data:...;base64,` URL whose escaping is not scanned. */
  function Base64Tail(url: Bytes): (r: Option<Bytes>)
    ensures r.Some? ==> |r.value| < |url| && url[|url| - |r.value|..] == r.value
    ensures r.Some? ==> url[|url| - |r.value| - 1] == COMMA
  {
    match Find(url, [COMMA])
    case None => None
    case Some(at) =>
      if DATA_PREFIX <= url[..at] && EndsWith(url[..at], BASE64_SUFFIX) then Some(url[at + 1..]) else None
  }

  /** A data URL in base64: what stands before its first comma begins with `data:` and ends with `;base64`. */
  ghost predicate IsBase64Url(url: Bytes, header: Bytes, tail: Bytes) {
    && url == header + [COMMA] + tail
    && COMMA !in header
    && Ascii("data:") <= header
    && |header| >= 7 && header[|header| - 7..] == Ascii(";base64")
  }

  /** The shortcut is taken for the tails of just those URLs. */
  lemma Base64TailIff(url: Bytes, tail: Bytes)
    ensures Base64Tail(url) == Some(tail) <==> exists header :: IsBase64Url(url, header, tail)
  {
    hide Ascii, Find;
    if Base64Tail(url) == Some(tail) {
      var at := Find(url, [COMMA]).value;
      CommaSplits(url, at);
      FirstComma(url, at);
      assert IsBase64Url(url, url[..at], tail);
    }
    if header :| IsBase64Url(url, header, tail) {
      CommaFound(header, tail);
    }
  }

  lemma CommaSplits(url: Bytes, at: nat)
    requires at < |url| && [COMMA] <= url[at..]
    ensures url == url[..at] + [COMMA] + url[at + 1..]
  {
    assert url[at] == url[at..][0];
  }

  lemma FirstComma(url: Bytes, at: nat)
    requires Find(url, [COMMA]) == Some(at)
    ensures COMMA !in url[..at]
  {
    forall j | 0 <= j < at ensures url[j] != COMMA {
      assert !([COMMA] <= url[j..]);
      assert url[j..][0] == url[j];
    }
  }

  lemma CommaFound(header: Bytes, tail: Bytes)
    requires COMMA !in header
    ensures Find(header + [COMMA] + tail, [COMMA]) == Some(|header|)
    ensures (header + [COMMA] + tail)[..|header|] == header && (header + [COMMA] + tail)[|header| + 1..] == tail
  {
    hide Find;
    var url := header + [COMMA] + tail;
    assert url[|header|..] == [COMMA] + tail;
    forall j | 0 <= j < |header| ensures !([COMMA] <= url[j..]) {
      assert url[j..][0] == header[j];
    }
  }

  function EncodedUrlBytes(url: Bytes): nat {
    match Base64Tail(url)
    case None => |Escape(url)|
    case Some(tail) => |Escape(url[..|url| - |tail| - 1])| + 1 + |tail|
  }

  /** What escaping would add to the unscanned tail. */
  function TailExcess(url: Bytes): nat {
    match Base64Tail(url)
    case None => 0
    case Some(tail) => |Escape(tail)| - |tail|
  }

  lemma UrlBytesPlusExcess(url: Bytes)
    ensures EncodedUrlBytes(url) + TailExcess(url) == |Escape(url)|
  {
    var t := Base64Tail(url);
    if t.Some? {
      var header := url[..|url| - |t.value| - 1];
      assert url == header + ([COMMA] + t.value);
      EscapeConcat(header, [COMMA] + t.value);
      EscapeConcat([COMMA], t.value);
      assert |Escape([COMMA])| == 1 by { EscapeKeepsLengthIff([COMMA]); }
    }
  }

  const IMAGE_PART_FRAME_BYTES := 25

  function PartBytes(p: ContentPart): nat {
    match p
    case Text(_) => |EncodePart(p)|
    case Image(url) => IMAGE_PART_FRAME_BYTES + EncodedUrlBytes(url)
  }

  function PartExcess(p: ContentPart): nat {
    if p.Image? then TailExcess(p.url) else 0
  }

  lemma PartBytesPlusExcess(p: ContentPart)
    ensures PartBytes(p) + PartExcess(p) == |EncodePart(p)|
  {
    if p.Image? {
      UrlBytesPlusExcess(p.url);
    }
  }

  function SumPartBytes(parts: seq<ContentPart>): nat {
    if parts == [] then 0 else PartBytes(parts[0]) + SumPartBytes(parts[1..])
  }

  function SumPartExcess(parts: seq<ContentPart>): nat {
    if parts == [] then 0 else PartExcess(parts[0]) + SumPartExcess(parts[1..])
  }

  function Commas(n: nat): nat {
    if n == 0 then 0 else n - 1
  }

  lemma {:induction false} JoinedParts(parts: seq<ContentPart>)
    ensures |Join(EncodeParts(parts))| == SumPartBytes(parts) + SumPartExcess(parts) + Commas(|parts|)
  {
    if parts != [] {
      PartBytesPlusExcess(parts[0]);
      JoinedParts(parts[1..]);
      assert EncodeParts(parts)[1..] == EncodeParts(parts[1..]);
    }
  }

  /** The parts that an item carries images in. */
  function PartsOf(x: Item): seq<ContentPart> {
    match x
    case User(parts, _) => parts
    case ToolResult(_, _, images) => images
    case _ => []
  }

  function ItemExcess(x: Item): nat {
    SumPartExcess(PartsOf(x))
  }

  const USER_FRAME_BYTES := 28
  const TOOL_RESULT_FRAME_BYTES := 49
  const IMAGES_FIELD_FRAME_BYTES := 12

  /** Bytes of one item as counted: the encoding of everything but images, plus its parts. */
  function ItemBytes(x: Item): nat {
    match x
    case User(parts, extra) => USER_FRAME_BYTES + SumPartBytes(parts) + Commas(|parts|) + |extra|
    case ToolResult(id, content, images) =>
      TOOL_RESULT_FRAME_BYTES + |Quoted(id)| + |Quoted(content)|
      + (if images == [] then 0
         else IMAGES_FIELD_FRAME_BYTES + SumPartBytes(images) + Commas(|images|))
    case _ => |EncodeItem(x)|
  }

  lemma ItemBytesPlusExcess(x: Item)
    ensures ItemBytes(x) + ItemExcess(x) == |EncodeItem(x)|
  {
    hide SumPartBytes, SumPartExcess, EncodeParts, Escape;
    JoinedParts(PartsOf(x));
  }
}

/** Measuring a history without scanning base64 tails. */
module BodyMeasurement {
  import opened Sequences
  import opened Conversation
  import opened Json
  import opened ImageBytes

  function SumItemBytes(items: seq<Item>): nat {
    if items == [] then 0 else ItemBytes(items[0]) + SumItemBytes(items[1..])
  }

  function SumItemExcess(items: seq<Item>): nat {
    if items == [] then 0 else ItemExcess(items[0]) + SumItemExcess(items[1..])
  }

  /** The history's size as the budget counts it. */
  function BodyBytes(items: seq<Item>): nat {
    2 + Commas(|items|) + SumItemBytes(items)
  }

  lemma {:induction false} JoinedItems(items: seq<Item>)
    ensures |Join(EncodeItems(items))| == SumItemBytes(items) + SumItemExcess(items) + Commas(|items|)
  {
    if items != [] {
      ItemBytesPlusExcess(items[0]);
      JoinedItems(items[1..]);
      assert EncodeItems(items)[1..] == EncodeItems(items[1..]);
    }
  }

  lemma BodyBytesPlusExcess(items: seq<Item>)
    ensures BodyBytes(items) + SumItemExcess(items) == |Encode(items)|
  {
    JoinedItems(items);
  }

  /** What a caller can check: every byte after `;base64,` is one that JSON leaves alone. */
  ghost predicate CleanTails(items: seq<Item>) {
    forall i, p | 0 <= i < |items| && 0 <= p < |PartsOf(items[i])| :: CleanTail(PartsOf(items[i])[p])
  }

  ghost predicate CleanTail(p: ContentPart) {
    p.Image? ==>
      forall header, tail | IsBase64Url(p.url, header, tail) :: forall j | 0 <= j < |tail| :: NeedsNoEscape(tail[j])
  }

  lemma CleanTailIff(p: ContentPart)
    ensures CleanTail(p) <==> PartExcess(p) == 0
  {
    if p.Image? {
      forall header, tail | IsBase64Url(p.url, header, tail) ensures Base64Tail(p.url) == Some(tail) {
        Base64TailIff(p.url, tail);
      }
      var found := Base64Tail(p.url);
      if found.Some? {
        Base64TailIff(p.url, found.value);
        EscapeKeepsLengthIff(found.value);
      }
    }
  }

  lemma {:induction false} PartsExcessIff(parts: seq<ContentPart>)
    ensures SumPartExcess(parts) == 0 <==> forall p | 0 <= p < |parts| :: CleanTail(parts[p])
  {
    if parts != [] {
      hide CleanTail, PartExcess;
      CleanTailIff(parts[0]);
      PartsExcessIff(parts[1..]);
      assert parts == [parts[0]] + parts[1..];
    }
  }

  lemma {:induction false} ItemsExcessIff(items: seq<Item>)
    ensures SumItemExcess(items) == 0 <==> CleanTails(items)
  {
    if items != [] {
      PartsExcessIff(PartsOf(items[0]));
      ItemsExcessIff(items[1..]);
      assert items == [items[0]] + items[1..];
      assert forall i | 0 <= i < |items[1..]| :: items[1..][i] == items[i + 1];
    }
  }

  /** The measured size never exceeds the serialized size, and equals it exactly when no
      base64 tail holds a byte that JSON would escape. */
  lemma MeasurementExactIff(items: seq<Item>)
    ensures BodyBytes(items) <= |Encode(items)|
    ensures BodyBytes(items) == |Encode(items)| <==> CleanTails(items)
  {
    BodyBytesPlusExcess(items);
    ItemsExcessIff(items);
  }

  /** The base64 alphabet, section 4 of RFC 4648, with its padding. */
  predicate IsBase64(b: byte) {
    65 <= b <= 90 || 97 <= b <= 122 || 48 <= b <= 57 || b == 43 || b == 47 || b == 61
  }

  ghost predicate IsBase64Image(p: ContentPart) {
    p.Image? ==> forall header, tail | IsBase64Url(p.url, header, tail) :: forall b | b in tail :: IsBase64(b)
  }

  lemma Base64IsClean(p: ContentPart)
    requires IsBase64Image(p)
    ensures CleanTail(p)
  {
    hide IsBase64Url;
    if p.Image? {
      forall header, tail, j | IsBase64Url(p.url, header, tail) && 0 <= j < |tail| ensures NeedsNoEscape(tail[j]) {
        assert tail[j] in tail;
      }
    }
  }

  lemma Base64TailsAreClean(items: seq<Item>)
    requires forall i, p | 0 <= i < |items| && 0 <= p < |PartsOf(items[i])| :: IsBase64Image(PartsOf(items[i])[p])
    ensures BodyBytes(items) == |Encode(items)|
  {
    hide IsBase64Image, CleanTail;
    forall i, p | 0 <= i < |items| && 0 <= p < |PartsOf(items[i])| ensures CleanTail(PartsOf(items[i])[p]) {
      Base64IsClean(PartsOf(items[i])[p]);
    }
    MeasurementExactIff(items);
  }

  ghost predicate IsOtherImage(p: ContentPart) {
    p.Image? ==> forall header, tail :: !IsBase64Url(p.url, header, tail)
  }

  /** A history none of whose images is a base64 data URL is measured exactly, whatever its URLs hold. */
  lemma OtherUrlsAreExact(items: seq<Item>)
    requires forall i, p | 0 <= i < |items| && 0 <= p < |PartsOf(items[i])| :: IsOtherImage(PartsOf(items[i])[p])
    ensures BodyBytes(items) == |Encode(items)|
  {
    hide IsBase64Url;
    forall i, p | 0 <= i < |items| && 0 <= p < |PartsOf(items[i])| ensures CleanTail(PartsOf(items[i])[p]) {
      assert IsOtherImage(PartsOf(items[i])[p]);
    }
    MeasurementExactIff(items);
  }

  /** A quote in the tail of a data URL is counted as one byte and written as two. */
  lemma MeasurementCanUndercount()
    ensures exists items :: BodyBytes(items) < |Encode(items)|
  {
    hide Base64Tail, Encode, BodyBytes, Ascii;
    var url := QuotedTail();
    var items := [User([Image(url)], [])];
    assert PartsOf(items[0])[0] == Image(url);
    Base64TailIff(url, [QUOTE]);
    assert !NeedsNoEscape([QUOTE][0]);
    assert !CleanTail(Image(url));
    MeasurementExactIff(items);
  }

  lemma QuotedTail() returns (url: Bytes)
    ensures Base64Tail(url) == Some([QUOTE])
  {
    hide Find;
    var header := Ascii("data:;base64");
    assert header == DATA_PREFIX + BASE64_SUFFIX;
    url := header + [COMMA, QUOTE];
    assert url[..12] == header && url[12..] == [COMMA, QUOTE];
    forall j | 0 <= j < 12 ensures !([COMMA] <= url[j..]) {
      assert url[j..][0] == header[j];
    }
    assert Find(url, [COMMA]) == Some(12);
    assert url[13..] == [QUOTE];
  }

  // ---- the measuring code ----

  function BlankPart(p: ContentPart): ContentPart {
    if p.Image? then Image([]) else p
  }

  function BlankParts(parts: seq<ContentPart>): seq<ContentPart> {
    seq(|parts|, i requires 0 <= i < |parts| => BlankPart(parts[i]))
  }

  function BlankItem(x: Item): Item {
    match x
    case User(parts, extra) => User(BlankParts(parts), extra)
    case ToolResult(id, content, images) => ToolResult(id, content, BlankParts(images))
    case _ => x
  }

  function UrlBytes(parts: seq<ContentPart>): nat {
    if parts == [] then 0
    else (if parts[0].Image? then EncodedUrlBytes(parts[0].url) else 0) + UrlBytes(parts[1..])
  }

  function SumUrlBytes(items: seq<Item>): nat {
    if items == [] then 0 else UrlBytes(PartsOf(items[0])) + SumUrlBytes(items[1..])
  }

  lemma {:induction false} BlankingMovesUrlBytes(parts: seq<ContentPart>)
    ensures SumPartBytes(BlankParts(parts)) + UrlBytes(parts) == SumPartBytes(parts)
    ensures SumPartExcess(BlankParts(parts)) == 0
  {
    if parts != [] {
      BlankingMovesUrlBytes(parts[1..]);
      assert BlankParts(parts)[1..] == BlankParts(parts[1..]);
    }
  }

  lemma {:induction false} BlankedItemsMeasure(items: seq<Item>, blanked: seq<Item>)
    requires |blanked| == |items| && forall i | 0 <= i < |items| :: blanked[i] == BlankItem(items[i])
    ensures SumItemBytes(blanked) + SumUrlBytes(items) == SumItemBytes(items)
    ensures SumItemExcess(blanked) == 0
  {
    if items != [] {
      BlankingMovesUrlBytes(PartsOf(items[0]));
      BlankedItemsMeasure(items[1..], blanked[1..]);
    }
  }

  method BlankImageUrls(parts: seq<ContentPart>, imageUrlBytes: nat)
    returns (blanked: seq<ContentPart>, total: nat)
    ensures blanked == BlankParts(parts)
    ensures total == imageUrlBytes + UrlBytes(parts)
  {
    blanked, total := parts, imageUrlBytes;
    for i := 0 to |parts|
      invariant |blanked| == |parts|
      invariant forall j | 0 <= j < |parts| :: blanked[j] == if j < i then BlankPart(parts[j]) else parts[j]
      invariant total + UrlBytes(parts[i..]) == imageUrlBytes + UrlBytes(parts)
    {
      if blanked[i].Image? {
        total := total + EncodedUrlBytes(blanked[i].url);
        blanked := blanked[i := Image([])];
      }
      assert parts[i..][1..] == parts[i + 1..];
    }
  }

  /** Blanks a copy, measures it, and adds the URLs back. */
  method ConversationBodyBytes(conversation: seq<Item>) returns (bytes: nat)
    ensures bytes == BodyBytes(conversation)
    ensures bytes + SumItemExcess(conversation) == |Encode(conversation)|
  {
    var blanked := conversation;
    var imageUrlBytes: nat := 0;
    for i := 0 to |conversation|
      invariant |blanked| == |conversation|
      invariant forall j | 0 <= j < |conversation| ::
                  blanked[j] == if j < i then BlankItem(conversation[j]) else conversation[j]
      invariant imageUrlBytes + SumUrlBytes(conversation[i..]) == SumUrlBytes(conversation)
    {
      match blanked[i] {
        case User(parts, _) =>
          var empty, total := BlankImageUrls(parts, imageUrlBytes);
          blanked, imageUrlBytes := blanked[i := blanked[i].(parts := empty)], total;
        case ToolResult(_, _, images) =>
          var empty, total := BlankImageUrls(images, imageUrlBytes);
          blanked, imageUrlBytes := blanked[i := blanked[i].(images := empty)], total;
        case _ =>
      }
      assert conversation[i..][1..] == conversation[i + 1..];
    }
    bytes := |Encode(blanked)| + imageUrlBytes;
    BlankedItemsMeasure(conversation, blanked);
    BodyBytesPlusExcess(blanked);
    BodyBytesPlusExcess(conversation);
  }
}
