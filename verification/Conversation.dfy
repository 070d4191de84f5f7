/** The conversation items that histories are made of. Text is UTF-8, kept as bytes. */
module Conversation {
  type byte = b: int | 0 <= b < 256
  type Bytes = seq<byte>

  datatype ContentPart =
    | Text(text: Bytes)
    | Image(url: Bytes)

  datatype ToolCall = ToolCall(id: Bytes, name: Bytes, arguments: Bytes)

  /** `extra` holds the encoded optional fields of an item, each with its leading comma;
      `encoded` is the whole encoding of an item whose inside no modelled code looks at. */
  datatype Item =
    | System(content: Bytes)
    | User(parts: seq<ContentPart>, extra: Bytes)
    | Assistant(content: Bytes, toolCalls: seq<ToolCall>, extra: Bytes)
    | ToolResult(toolCallId: Bytes, content: Bytes, images: seq<ContentPart>)
    | BackendToolCall(encoded: Bytes, summary: Bytes)
    | Reasoning(encoded: Bytes, text: Bytes, encrypted: Bytes)

  /** Bytes of a literal (all the literals used are ASCII). */
  function Ascii(s: string): (r: Bytes)
    ensures |r| == |s|
    ensures forall i | 0 <= i < |s| :: r[i] == s[i] as int % 256
  {
    seq(|s|, i requires 0 <= i < |s| => s[i] as int % 256)
  }
}

/** The JSON text that serde_json writes for a history. */
module Json {
  import opened Sequences
  import opened Conversation

  const QUOTE: byte := 34
  const COMMA: byte := 44
  const BACKSLASH: byte := 92

  function HexDigit(d: nat): byte
    requires d < 16
  {
    if d < 10 then 48 + d else 97 + d - 10
  }

  /** String escaping, section 7 of RFC 8259: two-character escapes where one exists,
      \u00XX for the other control bytes, everything else as it is. */
  function EscapeByte(b: byte): (r: Bytes)
    ensures 1 <= |r| && (|r| == 1 <==> NeedsNoEscape(b))
    ensures |r| == if b in [34, 92, 8, 9, 10, 12, 13] then 2 else if b < 32 then 6 else 1
  {
    if b == QUOTE then [BACKSLASH, QUOTE]
    else if b == BACKSLASH then [BACKSLASH, BACKSLASH]
    else if b == 8 then [BACKSLASH, 98]
    else if b == 9 then [BACKSLASH, 116]
    else if b == 10 then [BACKSLASH, 110]
    else if b == 12 then [BACKSLASH, 102]
    else if b == 13 then [BACKSLASH, 114]
    else if b < 32 then [BACKSLASH, 117, 48, 48, HexDigit(b / 16), HexDigit(b % 16)]
    else [b]
  }

  predicate NeedsNoEscape(b: byte) {
    32 <= b && b != QUOTE && b != BACKSLASH
  }

  function Escape(s: Bytes): (r: Bytes)
    ensures |s| <= |r|
  {
    if s == [] then [] else EscapeByte(s[0]) + Escape(s[1..])
  }

  lemma EscapeUnfolds(s: Bytes)
    requires s != []
    ensures Escape(s) == EscapeByte(s[0]) + Escape(s[1..])
  {}

  lemma {:induction false} EscapeConcat(a: Bytes, b: Bytes)
    ensures Escape(a + b) == Escape(a) + Escape(b)
  {
    if a == [] {
      assert a + b == b;
    } else {
      hide Escape, EscapeByte;
      EscapeUnfolds(a);
      EscapeUnfolds(a + b);
      DropOfConcat(a, b, 1);
      EscapeConcat(a[1..], b);
      ConcatAssociates(EscapeByte(a[0]), Escape(a[1..]), Escape(b));
    }
  }

  function HexValue(digit: byte): Option<byte> {
    if 48 <= digit <= 57 then Some(digit - 48) else if 97 <= digit <= 102 then Some(digit - 87) else None
  }

  /** What a two-character escape stands for. */
  function ShortEscape(letter: byte): Option<byte> {
    if letter == QUOTE || letter == BACKSLASH then Some(letter)
    else if letter == 98 then Some(8)
    else if letter == 116 then Some(9)
    else if letter == 110 then Some(10)
    else if letter == 102 then Some(12)
    else if letter == 114 then Some(13)
    else None
  }

  /** The first character of what stands between the quotes of a JSON string, and how many bytes it takes. */
  function Character(s: Bytes): (r: Option<(byte, nat)>)
    ensures r.Some? ==> 0 < r.value.1 <= |s|
  {
    if s == [] || s[0] == QUOTE || s[0] < 32 then None
    else if s[0] != BACKSLASH then Some((s[0], 1))
    else if |s| >= 2 && ShortEscape(s[1]).Some? then Some((ShortEscape(s[1]).value, 2))
    else if |s| >= 6 && s[1..4] == [117, 48, 48] && HexValue(s[4]).Some? && HexValue(s[5]).Some?
         && HexValue(s[4]).value * 16 + HexValue(s[5]).value < 32
    then Some((HexValue(s[4]).value * 16 + HexValue(s[5]).value, 6))
    else None
  }

  /** Reading a string back; None if it is no JSON string. */
  function Unescape(s: Bytes): Option<Bytes> {
    if s == [] then Some([])
    else
      var first := Character(s);
      if first.None? then None
      else
        var rest := Unescape(s[first.value.1..]);
        if rest.None? then None else Some([first.value.0] + rest.value)
  }

  lemma CharacterOfEscape(b: byte, rest: Bytes)
    ensures Character(EscapeByte(b) + rest) == Some((b, |EscapeByte(b)|))
  {
    var s := EscapeByte(b) + rest;
    if |EscapeByte(b)| == 6 {
      assert s[1..4] == [117, 48, 48];
      assert HexValue(s[4]) == Some(b / 16) && HexValue(s[5]) == Some(b % 16);
    }
  }

  /** What is written is a JSON string, and reads as what was to be written. */
  lemma {:induction false} EscapeRoundTrip(s: Bytes)
    ensures Unescape(Escape(s)) == Some(s)
  {
    if s != [] {
      hide EscapeByte, Character;
      EscapeRoundTrip(s[1..]);
      CharacterOfEscape(s[0], Escape(s[1..]));
      assert (EscapeByte(s[0]) + Escape(s[1..]))[|EscapeByte(s[0])|..] == Escape(s[1..]);
      assert s == [s[0]] + s[1..];
    }
  }

  /** Escaping keeps the length of exactly the strings in which nothing needs it. */
  lemma {:induction false} EscapeKeepsLengthIff(s: Bytes)
    ensures |Escape(s)| == |s| <==> forall i | 0 <= i < |s| :: NeedsNoEscape(s[i])
  {
    if s != [] {
      EscapeKeepsLengthIff(s[1..]);
      assert s == [s[0]] + s[1..];
    }
  }

  function Quoted(s: Bytes): Bytes {
    [QUOTE] + Escape(s) + [QUOTE]
  }

  function Join(xs: seq<Bytes>): Bytes {
    if |xs| == 0 then []
    else if |xs| == 1 then xs[0]
    else xs[0] + [COMMA] + Join(xs[1..])
  }

  function Array(xs: seq<Bytes>): Bytes {
    Ascii("[") + Join(xs) + Ascii("]")
  }

  function EncodePart(p: ContentPart): Bytes {
    match p
    case Text(text) => Ascii("{\"type\":\"text\",\"text\":") + Quoted(text) + Ascii("}")
    case Image(url) => Ascii("{\"type\":\"image\",\"url\":") + Quoted(url) + Ascii("}")
  }

  function EncodeParts(parts: seq<ContentPart>): (r: seq<Bytes>)
    ensures |r| == |parts|
    ensures forall i | 0 <= i < |r| :: r[i] == EncodePart(parts[i])
  {
    seq(|parts|, i requires 0 <= i < |parts| => EncodePart(parts[i]))
  }

  function EncodeCall(c: ToolCall): Bytes {
    Ascii("{\"id\":") + Quoted(c.id) + Ascii(",\"name\":") + Quoted(c.name)
    + Ascii(",\"arguments\":") + Quoted(c.arguments) + Ascii("}")
  }

  function EncodeCalls(calls: seq<ToolCall>): seq<Bytes> {
    seq(|calls|, i requires 0 <= i < |calls| => EncodeCall(calls[i]))
  }

  /** `tool_calls` and `images` are left out when empty (skip_serializing_if). */
  function EncodeItem(x: Item): Bytes {
    match x
    case System(content) => Ascii("{\"type\":\"system\",\"content\":") + Quoted(content) + Ascii("}")
    case User(parts, extra) =>
      Ascii("{\"type\":\"user\",\"content\":") + Array(EncodeParts(parts)) + extra + Ascii("}")
    case Assistant(content, calls, extra) =>
      Ascii("{\"type\":\"assistant\",\"content\":") + Quoted(content)
      + (if calls == [] then [] else Ascii(",\"tool_calls\":") + Array(EncodeCalls(calls)))
      + extra + Ascii("}")
    case ToolResult(id, content, images) =>
      Ascii("{\"type\":\"tool_result\",\"tool_call_id\":") + Quoted(id)
      + Ascii(",\"content\":") + Quoted(content)
      + (if images == [] then [] else Ascii(",\"images\":") + Array(EncodeParts(images)))
      + Ascii("}")
    case BackendToolCall(encoded, _) => encoded
    case Reasoning(encoded, _, _) => encoded
  }

  function EncodeItems(items: seq<Item>): (r: seq<Bytes>)
    ensures |r| == |items|
    ensures forall i | 0 <= i < |r| :: r[i] == EncodeItem(items[i])
  {
    seq(|items|, i requires 0 <= i < |items| => EncodeItem(items[i]))
  }

  /** The serialized history. */
  function Encode(items: seq<Item>): Bytes {
    Array(EncodeItems(items))
  }
}
