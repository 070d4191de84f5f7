/**
 * Rendering a compacted segment: whole turns are kept while they fit a byte budget, and a notice counts the rest.
 * The budget reserves room for the preamble and the notice, but not for the newlines that join the turns.
 */
module SegmentRenderer {
  import opened Sequences
  import opened Conversation
  import opened Utf8Truncation

  const SEGMENT_MAX_BYTES: nat := 512 * 1024

  /** The length of the notice before its placeholders are filled in, and the slack reserved beside it. */
  const TRUNCATION_NOTICE_BYTES: nat := 64
  const PER_TURN_OVERHEAD_BYTES: nat := 64

  datatype Detail = None | Minimal | Balanced | Verbose

  /** How a turn is written at a level of detail, given the item and its number. */
  type Renderer = (Item, nat) -> Bytes

  function TurnsHeader(detail: Detail): Bytes {
    match detail
    case None => []
    case Minimal => Ascii("## Turn signatures\n\n")
    case Balanced => Ascii("## Turns (balanced detail)\n\n")
    case Verbose => Ascii("## Verbatim turns\n\n")
  }

  function Notice(omitted: nat): Bytes {
    Ascii("\n\n[... TRUNCATED at ") + Digits(SEGMENT_MAX_BYTES) + Ascii(" bytes, ")
    + Digits(omitted) + Ascii(" turns omitted ...]\n")
  }

  function Blocks(items: seq<Item>, render: Renderer): (r: seq<Bytes>)
    ensures |r| == |items| && forall i | 0 <= i < |items| :: r[i] == render(items[i], i)
  {
    seq(|items|, i requires 0 <= i < |items| => render(items[i], i))
  }

  function Total(blocks: seq<Bytes>): nat {
    if blocks == [] then 0 else |blocks[0]| + Total(blocks[1..])
  }

  function Joined(blocks: seq<Bytes>): Bytes {
    if blocks == [] then []
    else if |blocks| == 1 then blocks[0]
    else blocks[0] + Ascii("\n") + Joined(blocks[1..])
  }

  function Budget(preamble: nat): nat {
    var reserved := preamble + TRUNCATION_NOTICE_BYTES + PER_TURN_OVERHEAD_BYTES;
    if reserved <= SEGMENT_MAX_BYTES then SEGMENT_MAX_BYTES - reserved else 0
  }

  /** How many blocks go in before the first that does not fit. */
  function Kept(blocks: seq<Bytes>, budget: nat): (r: nat)
    ensures r <= |blocks|
  {
    if blocks == [] || |blocks[0]| > budget then 0 else 1 + Kept(blocks[1..], budget - |blocks[0]|)
  }

  /** The kept blocks are the longest prefix that the budget pays for. */
  lemma {:induction false} KeptIsLongestAffordable(blocks: seq<Bytes>, budget: nat, n: nat)
    requires n <= |blocks|
    ensures Total(blocks[..n]) <= budget <==> n <= Kept(blocks, budget)
  {
    if n > 0 {
      assert blocks[..n][1..] == blocks[1..][..n - 1];
      if |blocks[0]| <= budget {
        KeptIsLongestAffordable(blocks[1..], budget - |blocks[0]|, n - 1);
      }
    }
  }

  function Document(preamble: Bytes, blocks: seq<Bytes>): Bytes {
    var n := Kept(blocks, Budget(|preamble|));
    preamble + (Joined(blocks[..n]) + (if n < |blocks| then Notice(|blocks| - n) else []))
  }

  /** The blocks that go in; all of them, or those before the first that is over the budget. */
  method KeepBlocks(items: seq<Item>, render: Renderer, budget: nat)
    returns (blocks: seq<Bytes>, truncatedAt: Option<nat>)
    ensures var n := Kept(Blocks(items, render), budget);
            && blocks == Blocks(items, render)[..n]
            && truncatedAt == if n < |items| then Some(n) else Option.None
  {
    ghost var all := Blocks(items, render);
    assert all[0..] == all;
    blocks := [];
    var used: nat := 0;
    for i := 0 to |items|
      invariant blocks == all[..i]
      invariant used <= budget
      invariant Kept(all, budget) == i + Kept(all[i..], budget - used)
    {
      var block := render(items[i], i);
      KeptNext(all, i, budget - used);
      if used + |block| > budget {
        return blocks, Some(i);
      }
      used := used + |block|;
      blocks := blocks + [block];
    }
    return blocks, Option.None;
  }

  lemma KeptNext(all: seq<Bytes>, i: nat, left: nat)
    requires i < |all|
    ensures Kept(all[i..], left) == if |all[i]| > left then 0 else 1 + Kept(all[i + 1..], left - |all[i]|)
  {
    assert all[i..][1..] == all[i + 1..];
  }

  lemma DocumentParts(preamble: Bytes, blocks: seq<Bytes>)
    ensures var n := Kept(blocks, Budget(|preamble|));
            Document(preamble, blocks) == preamble + (if n < |blocks| then Joined(blocks[..n]) + Notice(|blocks| - n)
                                                      else Joined(blocks[..n]))
  {
    hide Kept, Joined, Notice, Budget;
    var body := Joined(blocks[..Kept(blocks, Budget(|preamble|))]);
    assert body + [] == body;
  }

  method RenderSegment(preambleHead: Bytes, items: seq<Item>, detail: Detail, render: Renderer) returns (doc: Bytes)
    ensures detail.None? ==> doc == preambleHead
    ensures !detail.None? ==> doc == Document(preambleHead + TurnsHeader(detail), Blocks(items, render))
  {
    if detail.None? {
      return preambleHead;
    }
    hide Kept, Joined, Notice, TurnsHeader, Budget, Blocks, Document;
    var preamble := preambleHead + TurnsHeader(detail);
    var budget := Budget(|preamble|);
    var blocks, truncatedAt := KeepBlocks(items, render, budget);
    var body := Joined(blocks);
    if truncatedAt.Some? {
      body := body + Notice(|items| - truncatedAt.value);
    }
    DocumentParts(preamble, Blocks(items, render));
    doc := preamble + body;
  }

  /** Turns are joined in order, each two by one newline. */
  lemma {:induction false} JoinedConcat(a: seq<Bytes>, b: seq<Bytes>)
    requires a != [] && b != []
    ensures Joined(a + b) == Joined(a) + Ascii("\n") + Joined(b)
    ensures |a| == 1 ==> Joined(a) == a[0]
  {
    if |a| > 1 {
      assert (a + b)[1..] == a[1..] + b;
      JoinedConcat(a[1..], b);
      ConcatAssociates(a[0] + Ascii("\n"), Joined(a[1..]), Ascii("\n"));
      ConcatAssociates(a[0] + Ascii("\n"), Joined(a[1..]) + Ascii("\n"), Joined(b));
    } else {
      assert (a + b)[1..] == b;
    }
  }

  /** A document holds the longest run of first turns that 512 KiB pay for, less the preamble and 128 bytes. */
  lemma DocumentKeepsLongest(preamble: Bytes, blocks: seq<Bytes>, n: nat)
    requires var budget := if |preamble| + 128 <= 512 * 1024 then 512 * 1024 - |preamble| - 128 else 0;
             n <= |blocks| && Total(blocks[..n]) <= budget && (n < |blocks| ==> Total(blocks[..n + 1]) > budget)
    ensures Document(preamble, blocks) == preamble + (if n < |blocks| then Joined(blocks[..n]) + Notice(|blocks| - n)
                                                      else Joined(blocks[..n]))
  {
    hide Document, Joined, Notice, Kept, Total;
    KeptIsLongestAffordable(blocks, Budget(|preamble|), n);
    if n < |blocks| {
      KeptIsLongestAffordable(blocks, Budget(|preamble|), n + 1);
    }
    DocumentParts(preamble, blocks);
  }

  lemma {:induction false} JoinedLength(blocks: seq<Bytes>)
    ensures |Joined(blocks)| == Total(blocks) + (if blocks == [] then 0 else |blocks| - 1)
  {
    if |blocks| > 1 {
      JoinedLength(blocks[1..]);
    }
  }

  lemma NoticeLength(omitted: nat)
    ensures |Notice(omitted)| == 54 + |Digits(omitted)|
  {
    assert |Digits(SEGMENT_MAX_BYTES)| == 6;
  }

  /** The bytes of the kept blocks, and the newlines between them. */
  function Used(preamble: Bytes, blocks: seq<Bytes>): nat {
    Total(blocks[..Kept(blocks, Budget(|preamble|))])
  }

  function Joins(preamble: Bytes, blocks: seq<Bytes>): nat {
    var n := Kept(blocks, Budget(|preamble|));
    if n == 0 then 0 else n - 1
  }

  /** The digits of the number of turns left out, if any is. */
  function OmittedDigits(preamble: Bytes, blocks: seq<Bytes>): nat {
    var n := Kept(blocks, Budget(|preamble|));
    if n < |blocks| then |Digits(|blocks| - n)| else 0
  }

  predicate Truncates(preamble: Bytes, blocks: seq<Bytes>) {
    Kept(blocks, Budget(|preamble|)) < |blocks|
  }

  /** The exact size of a document. */
  lemma DocumentLength(preamble: Bytes, blocks: seq<Bytes>)
    ensures |Document(preamble, blocks)|
         == |preamble| + Used(preamble, blocks) + Joins(preamble, blocks)
            + (if Truncates(preamble, blocks) then 54 + OmittedDigits(preamble, blocks) else 0)
    ensures Used(preamble, blocks) <= Budget(|preamble|)
  {
    var n := Kept(blocks, Budget(|preamble|));
    KeptIsLongestAffordable(blocks, Budget(|preamble|), n);
    JoinedLength(blocks[..n]);
    if n < |blocks| {
      NoticeLength(|blocks| - n);
    }
  }

  predicate LeavesRoom(preamble: Bytes) {
    |preamble| + TRUNCATION_NOTICE_BYTES + PER_TURN_OVERHEAD_BYTES <= SEGMENT_MAX_BYTES
  }

  /**
   * A document is within the cap exactly when what the budget does not count fits.  When the preamble leaves room, the
   * joins must fit into what is left of the budget together with the slack: 74 bytes less the digits of the number of
   * turns left out, or 128 bytes when none is.  When it does not, only turns without a byte are kept, and joins and
   * notice must fit beside the preamble; so a preamble over the cap exceeds it whatever the turns are.
   */
  lemma WithinCapIff(preamble: Bytes, blocks: seq<Bytes>)
    ensures |Document(preamble, blocks)| <= SEGMENT_MAX_BYTES <==>
              if LeavesRoom(preamble) then
                Joins(preamble, blocks) + OmittedDigits(preamble, blocks)
                <= Budget(|preamble|) - Used(preamble, blocks) + (if Truncates(preamble, blocks) then 74 else 128)
              else
                |preamble| + Joins(preamble, blocks) + OmittedDigits(preamble, blocks)
                <= SEGMENT_MAX_BYTES - (if Truncates(preamble, blocks) then 54 else 0)
    ensures !LeavesRoom(preamble) ==> Used(preamble, blocks) == 0
    ensures |preamble| > SEGMENT_MAX_BYTES ==> |Document(preamble, blocks)| > SEGMENT_MAX_BYTES
  {
    hide Document, Used, Joins, OmittedDigits, Truncates;
    DocumentLength(preamble, blocks);
    NothingOmitted(preamble, blocks);
  }

  lemma NothingOmitted(preamble: Bytes, blocks: seq<Bytes>)
    ensures OmittedDigits(preamble, blocks) > 0 <==> Truncates(preamble, blocks)
  {}

  lemma TenToTheTwenty()
    ensures PowerOfTen(20) == 100_000_000_000_000_000_000
  {
    assert PowerOfTen(4) == 10_000;
    assert PowerOfTen(8) == 100_000_000;
    assert PowerOfTen(12) == 1_000_000_000_000;
    assert PowerOfTen(16) == 10_000_000_000_000_000;
  }

  /**
   * When the preamble leaves room, a document that keeps at most 55 turns is within the cap, for any number of turns a
   * machine can count.
   */
  lemma FewTurnsWithinCap(preamble: Bytes, blocks: seq<Bytes>)
    requires LeavesRoom(preamble) && |blocks| < 0x1_0000_0000_0000_0000
    requires Kept(blocks, Budget(|preamble|)) <= 55
    ensures |Document(preamble, blocks)| <= SEGMENT_MAX_BYTES
  {
    hide Document, Digits, PowerOfTen, Kept, Used;
    WithinCapIff(preamble, blocks);
    DocumentLength(preamble, blocks);
    var omitted: nat := |blocks| - Kept(blocks, Budget(|preamble|));
    TenToTheTwenty();
    DigitCountIff(omitted, 20);
  }

  /** And one that keeps many turns is over it when the first turn left out is short. */
  lemma ManyTurnsOverflow(preamble: Bytes, blocks: seq<Bytes>)
    requires LeavesRoom(preamble) && Truncates(preamble, blocks)
    requires Joins(preamble, blocks) >= 74 + |blocks[Kept(blocks, Budget(|preamble|))]|
    ensures |Document(preamble, blocks)| > SEGMENT_MAX_BYTES
  {
    hide Kept, Total, Document, Joins, Budget;
    var n := Kept(blocks, Budget(|preamble|));
    NothingOmitted(preamble, blocks);
    WithinCapIff(preamble, blocks);
    KeptIsLongestAffordable(blocks, Budget(|preamble|), n + 1);
    TotalThen(blocks, n);
  }

  lemma {:induction false} TotalThen(blocks: seq<Bytes>, n: nat)
    requires n < |blocks|
    ensures Total(blocks[..n + 1]) == Total(blocks[..n]) + |blocks[n]|
  {
    if n > 0 {
      TotalThen(blocks[1..], n - 1);
      assert blocks[..n][1..] == blocks[1..][..n - 1];
      assert blocks[..n + 1][1..] == blocks[1..][..n];
    }
  }

  lemma OneMore(n: nat, length: nat)
    ensures (n + 1) * length == n * length + length
  {}

  lemma {:induction false} TotalOfEqualBlocks(blocks: seq<Bytes>, length: nat)
    requires forall b | b in blocks :: |b| == length
    ensures Total(blocks) == |blocks| * length
  {
    if blocks != [] {
      assert blocks[0] in blocks;
      TotalOfEqualBlocks(blocks[1..], length);
      OneMore(|blocks[1..]|, length);
    }
  }

  /** Ten thousand turns of a hundred bytes each, below any preamble of 128 bytes, go over the cap. */
  lemma ShortTurnsExceedCap(preamble: Bytes, blocks: seq<Bytes>)
    requires |preamble| == 128 && |blocks| == 10_000 && forall b | b in blocks :: |b| == 100
    ensures |Document(preamble, blocks)| > SEGMENT_MAX_BYTES
  {
    hide Document, Total, Kept;
    var budget := Budget(|preamble|);
    assert budget == 524_032;
    TotalOfEqualBlocks(blocks[..5_240], 100);
    KeptIsLongestAffordable(blocks, budget, 5_240);
    TotalOfEqualBlocks(blocks[..5_241], 100);
    KeptIsLongestAffordable(blocks, budget, 5_241);
    assert blocks[5_240] in blocks;
    ManyTurnsOverflow(preamble, blocks);
  }
}
