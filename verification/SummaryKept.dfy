/** What the summary cleaner keeps of a reply: the summary and the text around it, out of tags and scratchpads. */
module SummaryKept {
  import opened Sequences
  import opened SummaryScrubber

  // ---- a summary and its parts ----

  lemma SplitsAt(s: string, n: nat)
    requires n <= |s|
    ensures s == s[..n] + s[n..]
  {}

  lemma BlankHasNoTag(s: string)
    requires IsBlank(s)
    ensures '<' !in s
  {}

  /** A whole summary with text before and after it. */
  function Wrapped(before: string, body: string, after: string): string {
    before + SUMMARY_OPEN + (body + SUMMARY_CLOSE + after)
  }

  lemma WrappedParts(before: string, body: string, after: string)
    ensures var s := Wrapped(before, body, after);
            var open, close := |before|, |before| + |SUMMARY_OPEN| + |body|;
            && s[..open] == before
            && SUMMARY_OPEN <= s[open..] && s[open + |SUMMARY_OPEN|..] == body + SUMMARY_CLOSE + after
            && s[open + |SUMMARY_OPEN|..close] == body
            && s[close..] == SUMMARY_CLOSE + after && s[close + |SUMMARY_CLOSE|..] == after
  {
    var s := Wrapped(before, body, after);
    assert s[|before|..] == SUMMARY_OPEN + (body + SUMMARY_CLOSE + after);
    assert s[|before| + |SUMMARY_OPEN|..] == body + SUMMARY_CLOSE + after;
    assert (body + SUMMARY_CLOSE + after)[|body|..] == SUMMARY_CLOSE + after;
  }

  /** The last occurrence of a tag behind which only other text stands. */
  lemma LastOfTag(s: string, at: nat, tag: string, after: string)
    requires IsTag(tag) && at <= |s| && s[at..] == tag + after && !Contains(after, tag)
    ensures Last(s, tag) == Some(at)
  {
    hide Contains, Last, First, IsTag;
    assert tag <= s[at..];
    forall j | at < j <= |s| ensures !(tag <= s[j..]) {
      if tag <= s[j..] {
        TagFurtherOn(s, at, tag, after, j);
      }
    }
    LastIs(s, tag, at);
  }

  lemma TagFurtherOn(s: string, at: nat, tag: string, after: string, j: nat)
    requires IsTag(tag) && at < j <= |s| && s[at..] == tag + after && tag <= s[j..]
    ensures Contains(after, tag)
  {
    hide First, IsTag;
    TagsDoNotOverlap(s, tag, at, tag, j);
    var k := j - at - |tag|;
    assert s[j..] == s[at..][j - at..] == after[k..];
  }

  /** Text in which an analysis block stands behind nothing but blanks leads with it when trimmed. */
  lemma AnalysisLeadsTrimmed(body: string, p: nat)
    requires p <= |body| && ANALYSIS_OPEN <= body[p..] && IsBlank(body[..p])
    ensures ANALYSIS_OPEN <= Trim(body)
  {
    SplitsAt(body, p);
    TrimPassesBlanks(body[..p], body[p..]);
    TagStaysInFront(body[p..], ANALYSIS_OPEN);
  }

  lemma TagStaysInFront(s: string, tag: string)
    requires tag != "" && tag <= s && tag[0] == '<' && tag[|tag| - 1] == '>'
    ensures tag <= Trim(s)
  {
    assert !IsWhitespace('<') && !IsWhitespace('>');
    hide TrimEnd, IsWhitespace;
    assert s[0] == '<' && s[|tag| - 1] == '>';
    var r := TrimEnd(s);
    if |r| < |tag| {
      BlankAt(s, |r|, |tag| - 1);
    }
  }

  lemma BlankAt(s: string, n: nat, k: nat)
    requires n <= k < |s| && IsBlank(s[n..])
    ensures IsWhitespace(s[k])
  {
    hide IsWhitespace;
    assert s[n..][k - n] == s[k];
  }

  /** In a summary that does not lead with an analysis block none is a leading one. */
  lemma NoBlockLeads(body: string, after: string, p: nat)
    requires !(ANALYSIS_OPEN <= Trim(body))
    requires p <= |body + SUMMARY_CLOSE + after| && ANALYSIS_OPEN <= (body + SUMMARY_CLOSE + after)[p..]
    ensures !IsBlank((body + SUMMARY_CLOSE + after)[..p])
  {
    hide IsBlank, Trim;
    var s := body + SUMMARY_CLOSE + after;
    assert s[|body|..] == SUMMARY_CLOSE + after;
    assert SUMMARY_CLOSE[0] == '<' && SUMMARY_CLOSE[1] == '/' && ANALYSIS_OPEN[1] == 'a';
    assert p != |body| by { assert s[|body| + 1] == '/'; }
    if p > |body| {
      TagIsNotBlank(s, 0, p, |body|);
    } else {
      TagsDoNotOverlap(s, ANALYSIS_OPEN, p, SUMMARY_CLOSE, |body|);
      assert ANALYSIS_OPEN <= body[p..] && s[..p] == body[..p];
      if IsBlank(body[..p]) {
        AnalysisLeadsTrimmed(body, p);
      }
    }
  }

  lemma WrappedHasNoLeadingAnalysis(before: string, body: string, after: string)
    requires !Contains(before, SUMMARY_OPEN) && !Contains(before, ANALYSIS_OPEN)
    requires !(ANALYSIS_OPEN <= Trim(body))
    ensures var s := Wrapped(before, body, after);
            First(s, SUMMARY_OPEN) == Some(|before|) && WithoutAnalysis(s) == s
  {
    hide Trim, First, IsLeading, Contains, IsBlank;
    var s, rest := Wrapped(before, body, after), body + SUMMARY_CLOSE + after;
    WrappedParts(before, body, after);
    TagBehindText(before, SUMMARY_OPEN, rest);
    SummaryIsNoAnalysis(rest);
    OtherTagBehind(before, SUMMARY_OPEN, rest, ANALYSIS_OPEN);
    var open := First(rest, ANALYSIS_OPEN);
    if open.Some? {
      NoBlockLeads(body, after, open.value);
      BehindOnlySummary(before, rest, open.value);
    }
  }

  // ---- an unclosed scratchpad that hides another ----

  /** A text whose only closing tags of an analysis stand, if anywhere, before its first analysis block. */
  function Hiding(before: string, a: string, gap: string, rest: string): string {
    before + ANALYSIS_OPEN + (a + SUMMARY_OPEN + (gap + ANALYSIS_OPEN + rest))
  }

  lemma NeverClosed(a: string, gap: string, rest: string)
    requires !Contains(a, ANALYSIS_CLOSE) && IsBlank(gap) && !Contains(rest, ANALYSIS_CLOSE)
    ensures First(ANALYSIS_OPEN + (a + SUMMARY_OPEN + (gap + ANALYSIS_OPEN + rest)), ANALYSIS_CLOSE) == None
  {
    hide *;
    BlankHoldsNoTag(gap, ANALYSIS_CLOSE);
    NoTagInNothing(ANALYSIS_CLOSE);
    var inside := gap + ANALYSIS_OPEN + rest;
    OpenersCloseNothing(rest);
    OpenersCloseNothing(inside);
    OpenersCloseNothing(a + SUMMARY_OPEN + inside);
    FoundIff(rest, ANALYSIS_CLOSE);
    OtherTagBehind(gap, ANALYSIS_OPEN, rest, ANALYSIS_CLOSE);
    OtherTagBehind(a, SUMMARY_OPEN, inside, ANALYSIS_CLOSE);
    OtherTagBehind("", ANALYSIS_OPEN, a + SUMMARY_OPEN + inside, ANALYSIS_CLOSE);
    assert "" + ANALYSIS_OPEN + (a + SUMMARY_OPEN + inside) == ANALYSIS_OPEN + (a + SUMMARY_OPEN + inside);
  }

  /**
   * An unclosed block in front of a summary that opens with another goes up to the summary, and leaves the other as a
   * leading one.
   */
  lemma HiddenAnalysisIsLeft(before: string, a: string, gap: string, rest: string)
    requires !Contains(before, ANALYSIS_OPEN) && !Contains(before, SUMMARY_OPEN) && !Contains(a, SUMMARY_OPEN)
    requires !Contains(a, ANALYSIS_CLOSE) && IsBlank(gap) && !Contains(rest, ANALYSIS_CLOSE)
    ensures var s := Hiding(before, a, gap, rest);
            && ClosedBlocksDropped(s) == s && LeadsWithAnalysis(s)
            && WithoutAnalysis(s) == before + SUMMARY_OPEN + (gap + ANALYSIS_OPEN + rest)
            && LeadsWithAnalysis(WithoutAnalysis(s))
  {
    hide Contains, First, IsBlank, IsLeading, WithoutAnalysis;
    var s, inside := Hiding(before, a, gap, rest), gap + ANALYSIS_OPEN + rest;
    var tail := a + SUMMARY_OPEN + inside;
    TagBehindText(before, ANALYSIS_OPEN, tail);
    LeadingBeforeSummary(before, a, inside);
    HidingParts(before, a, inside);
    NeverClosed(a, gap, rest);
    UnclosedDropped(s);
    SummaryBehindBlock(a, inside);
    BlankHoldsNoTag(gap, ANALYSIS_OPEN);
    TagBehindText(gap, ANALYSIS_OPEN, rest);
    ConcatAssociates(gap, ANALYSIS_OPEN, rest);
    assert inside[..|gap|] == gap;
    LeadingBehindSummary(before, inside);
  }

  lemma LeadingBeforeSummary(before: string, a: string, inside: string)
    requires !Contains(before, ANALYSIS_OPEN) && !Contains(before, SUMMARY_OPEN) && !Contains(a, SUMMARY_OPEN)
    ensures LeadsWithAnalysis(before + ANALYSIS_OPEN + (a + SUMMARY_OPEN + inside))
  {
    hide Contains, First;
    var tail := a + SUMMARY_OPEN + inside;
    TagBehindText(before, ANALYSIS_OPEN, tail);
    TagBehindText(a, SUMMARY_OPEN, inside);
    OpenersCloseNothing(tail);
    OtherTagBehind(before, ANALYSIS_OPEN, tail, SUMMARY_OPEN);
  }

  lemma HidingParts(before: string, a: string, inside: string)
    ensures var s := before + ANALYSIS_OPEN + (a + SUMMARY_OPEN + inside);
            && s[..|before|] == before && s[|before|..] == ANALYSIS_OPEN + (a + SUMMARY_OPEN + inside)
            && s[|before| + (|ANALYSIS_OPEN| + |a|) + |SUMMARY_OPEN|..] == inside
  {}

  /** The first summary behind an unclosed block. */
  lemma SummaryBehindBlock(a: string, inside: string)
    requires !Contains(a, SUMMARY_OPEN)
    ensures First(ANALYSIS_OPEN + (a + SUMMARY_OPEN + inside), SUMMARY_OPEN) == Some(|ANALYSIS_OPEN| + |a|)
  {
    hide Contains, First;
    TagBehindText(a, SUMMARY_OPEN, inside);
    OpenersCloseNothing(a + SUMMARY_OPEN + inside);
    NoTagInNothing(SUMMARY_OPEN);
    OtherTagBehind("", ANALYSIS_OPEN, a + SUMMARY_OPEN + inside, SUMMARY_OPEN);
    assert "" + ANALYSIS_OPEN + (a + SUMMARY_OPEN + inside) == ANALYSIS_OPEN + (a + SUMMARY_OPEN + inside);
  }

  /** The shortest such text. */
  lemma AnalysisCanBeLeft()
    ensures LeadsWithAnalysis(WithoutAnalysis(ANALYSIS_OPEN + SUMMARY_OPEN + ANALYSIS_OPEN))
  {
    hide Contains, WithoutAnalysis, LeadsWithAnalysis, ClosedBlocksDropped;
    NoTagInNothing(ANALYSIS_OPEN);
    NoTagInNothing(SUMMARY_OPEN);
    NoTagInNothing(ANALYSIS_CLOSE);
    assert Hiding("", "", "", "") == ANALYSIS_OPEN + SUMMARY_OPEN + ANALYSIS_OPEN;
    HiddenAnalysisIsLeft("", "", "", "");
  }

  // ---- closed scratchpads in front of a summary and within it ----

  /** Text, and behind it a closed analysis block. */
  datatype Block = Block(outside: string, scratch: string)

  /** Blocks one behind the other, and then other text. */
  function Draft(blocks: seq<Block>, rest: string): string {
    if blocks == [] then rest
    else
      blocks[0].outside + ANALYSIS_OPEN + (blocks[0].scratch + ANALYSIS_CLOSE + Draft(blocks[1..], rest))
  }

  function Outside(blocks: seq<Block>): string {
    if blocks == [] then "" else blocks[0].outside + Outside(blocks[1..])
  }

  /** Each block ends at its first closing tag; it may quote any other tag. */
  predicate AreBlocks(blocks: seq<Block>) {
    forall b | b in blocks :: !Contains(b.scratch, ANALYSIS_CLOSE)
  }

  predicate OnlyBlanksOutside(blocks: seq<Block>) {
    forall b | b in blocks :: IsBlank(b.outside)
  }

  /** A text that begins with an opening tag begins with no other of these tags. */
  lemma OpenersCloseNothing(rest: string)
    ensures !(ANALYSIS_CLOSE <= ANALYSIS_OPEN + rest) && !(ANALYSIS_CLOSE <= SUMMARY_OPEN + rest)
    ensures !(SUMMARY_OPEN <= ANALYSIS_OPEN + rest)
  {
    assert (ANALYSIS_OPEN + rest)[1] == 'a' && (SUMMARY_OPEN + rest)[1] == 's' && ANALYSIS_CLOSE[1] == '/';
    assert SUMMARY_OPEN[1] == 's';
  }

  /** Where the block that opens a text is closed. */
  lemma BlockCloses(a: string, rest: string)
    requires !Contains(a, ANALYSIS_CLOSE)
    ensures First(ANALYSIS_OPEN + (a + ANALYSIS_CLOSE + rest), ANALYSIS_CLOSE) == Some(|ANALYSIS_OPEN| + |a|)
  {
    hide Contains, First;
    TagBehindText(a, ANALYSIS_CLOSE, rest);
    OpenersCloseNothing(a + ANALYSIS_CLOSE + rest);
    NoTagInNothing(ANALYSIS_CLOSE);
    OtherTagBehind("", ANALYSIS_OPEN, a + ANALYSIS_CLOSE + rest, ANALYSIS_CLOSE);
    assert "" + ANALYSIS_OPEN + (a + ANALYSIS_CLOSE + rest) == ANALYSIS_OPEN + (a + ANALYSIS_CLOSE + rest);
  }

  /** The first analysis block, where it is a leading one and closed, goes without a trace. */
  lemma LeadingBlockGoes(front: string, a: string, rest: string)
    requires !Contains(front, ANALYSIS_OPEN) && !Contains(a, ANALYSIS_CLOSE)
    requires LeadsWithAnalysis(front + ANALYSIS_OPEN + (a + ANALYSIS_CLOSE + rest))
    ensures WithoutAnalysis(front + ANALYSIS_OPEN + (a + ANALYSIS_CLOSE + rest)) == WithoutAnalysis(front + rest)
  {
    hide Contains, First, IsLeading;
    var tail := a + ANALYSIS_CLOSE + rest;
    var s := front + ANALYSIS_OPEN + tail;
    TagBehindText(front, ANALYSIS_OPEN, tail);
    BlockCloses(a, rest);
    ConcatAssociates(front, ANALYSIS_OPEN, tail);
    DropOfConcat(front, ANALYSIS_OPEN + tail, |front|);
    var end := |front| + (|ANALYSIS_OPEN| + |a|) + |ANALYSIS_CLOSE|;
    assert s[|front|..] == ANALYSIS_OPEN + tail;
    BlockEnds(front, a, rest);
    assert s[..|front|] + s[end..] == front + rest;
  }

  lemma BlockEnds(front: string, a: string, rest: string)
    ensures var s := front + ANALYSIS_OPEN + (a + ANALYSIS_CLOSE + rest);
            && s[..|front|] == front
            && s[|front| + (|ANALYSIS_OPEN| + |a|) + |ANALYSIS_CLOSE|..] == rest
  {}

  /** A closed block that a summary follows, wherever the block itself may quote one, is a leading block. */
  lemma BlockBeforeSummaryGoes(front: string, a: string, rest: string)
    requires !Contains(front, ANALYSIS_OPEN) && !Contains(front, SUMMARY_OPEN)
    requires !Contains(a, ANALYSIS_CLOSE) && Contains(rest, SUMMARY_OPEN)
    ensures WithoutAnalysis(front + ANALYSIS_OPEN + (a + ANALYSIS_CLOSE + rest)) == WithoutAnalysis(front + rest)
  {
    hide Contains, First;
    var tail := a + ANALYSIS_CLOSE + rest;
    TagBehindText(front, ANALYSIS_OPEN, tail);
    OpenersCloseNothing(tail);
    OtherTagBehind(front, ANALYSIS_OPEN, tail, SUMMARY_OPEN);
    assert tail[|a + ANALYSIS_CLOSE|..] == rest;
    ContainsInTail(tail, |a + ANALYSIS_CLOSE|, SUMMARY_OPEN);
    assert First(tail, SUMMARY_OPEN) == Some(KnownFirst(tail, SUMMARY_OPEN));
    LeadingBlockGoes(front, a, rest);
  }

  /** And so is one that, but for blanks, a summary opens with. */
  lemma BlockInSummaryGoes(front: string, gap: string, a: string, rest: string)
    requires !Contains(front, ANALYSIS_OPEN) && !Contains(front, SUMMARY_OPEN)
    requires IsBlank(gap) && !Contains(a, ANALYSIS_CLOSE)
    ensures WithoutAnalysis((front + SUMMARY_OPEN + gap) + ANALYSIS_OPEN + (a + ANALYSIS_CLOSE + rest))
         == WithoutAnalysis((front + SUMMARY_OPEN + gap) + rest)
  {
    hide Contains, First, IsBlank, IsLeading;
    var before, tail := front + SUMMARY_OPEN + gap, a + ANALYSIS_CLOSE + rest;
    var inside := gap + (ANALYSIS_OPEN + tail);
    BlankHoldsNoTag(gap, ANALYSIS_OPEN);
    NoAnalysisBefore(front, gap);
    TagBehindText(before, ANALYSIS_OPEN, tail);
    ConcatAssociates(before, ANALYSIS_OPEN, tail);
    ConcatAssociates(front + SUMMARY_OPEN, gap, ANALYSIS_OPEN + tail);
    DropOfConcat(gap, ANALYSIS_OPEN + tail, |gap|);
    assert inside[..|gap|] == gap;
    BehindOnlySummary(front, inside, |gap|);
    LeadingBlockGoes(before, a, rest);
  }

  lemma BlankHoldsNoTag(s: string, tag: string)
    requires IsBlank(s) && IsTag(tag)
    ensures !Contains(s, tag)
  {
    BlankHasNoTag(s);
    TagNeedsBracket(s, tag);
  }

  lemma TagNeedsBracket(s: string, tag: string)
    requires IsTag(tag)
    ensures Contains(s, tag) ==> '<' in s
  {
    if Contains(s, tag) {
      var k := KnownFirst(s, tag);
      assert s[k..][0] == s[k] == '<';
    }
  }

  lemma NoAnalysisBefore(front: string, gap: string)
    requires !Contains(front, ANALYSIS_OPEN) && !Contains(gap, ANALYSIS_OPEN)
    ensures !Contains(front + SUMMARY_OPEN + gap, ANALYSIS_OPEN)
  {
    SummaryIsNoAnalysis(gap);
    hide Contains, SUMMARY_OPEN, ANALYSIS_OPEN;
    OtherTagBehind(front, SUMMARY_OPEN, gap, ANALYSIS_OPEN);
    FoundIff(front + SUMMARY_OPEN + gap, ANALYSIS_OPEN);
    FoundIff(gap, ANALYSIS_OPEN);
  }

  lemma FoundIff(s: string, p: string)
    ensures Contains(s, p) <==> First(s, p).Some?
  {}

  lemma PartsHoldNoTag(a: string, b: string, tag: string)
    requires !Contains(a + b, tag)
    ensures !Contains(a, tag)
  {
    hide Contains;
    assert (a + b)[0..|a|] == a;
    if Contains(a, tag) {
      ContainsInSlice(a + b, 0, |a|, tag);
    }
  }

  lemma {:induction false} RestIsInDraft(blocks: seq<Block>, rest: string, tag: string)
    requires Contains(rest, tag)
    ensures Contains(Draft(blocks, rest), tag)
  {
    hide Contains;
    if blocks != [] {
      RestIsInDraft(blocks[1..], rest, tag);
      var head := blocks[0].outside + ANALYSIS_OPEN + (blocks[0].scratch + ANALYSIS_CLOSE);
      assert Draft(blocks, rest)[|head|..] == Draft(blocks[1..], rest);
      ContainsInTail(Draft(blocks, rest), |head|, tag);
    }
  }

  /** Any number of closed blocks in front of a summary go; the text between them stays. */
  lemma {:induction false} DraftBeforeSummaryGoes(front: string, blocks: seq<Block>, rest: string)
    requires AreBlocks(blocks) && Contains(rest, SUMMARY_OPEN)
    requires !Contains(front + Outside(blocks), ANALYSIS_OPEN) && !Contains(front + Outside(blocks), SUMMARY_OPEN)
    ensures WithoutAnalysis(front + Draft(blocks, rest)) == WithoutAnalysis(front + Outside(blocks) + rest)
    decreases |blocks|
  {
    hide Contains, WithoutAnalysis;
    if blocks == [] {
      assert front + "" == front;
    } else {
      var b, later := blocks[0], blocks[1..];
      var more := front + b.outside;
      ConcatAssociates(front, b.outside, Outside(later));
      PartsHoldNoTag(more, Outside(later), ANALYSIS_OPEN);
      PartsHoldNoTag(more, Outside(later), SUMMARY_OPEN);
      RestIsInDraft(later, rest, SUMMARY_OPEN);
      BlockBeforeSummaryGoes(more, b.scratch, Draft(later, rest));
      DraftBehind(front, blocks, rest);
      DraftBeforeSummaryGoes(more, later, rest);
    }
  }

  lemma DraftBehind(front: string, blocks: seq<Block>, rest: string)
    requires blocks != []
    ensures front + Draft(blocks, rest)
         == (front + blocks[0].outside) + ANALYSIS_OPEN
            + (blocks[0].scratch + ANALYSIS_CLOSE + Draft(blocks[1..], rest))
  {
    var tail := blocks[0].scratch + ANALYSIS_CLOSE + Draft(blocks[1..], rest);
    hide Draft;
    ConcatAssociates(blocks[0].outside, ANALYSIS_OPEN, tail);
    ConcatAssociates(front, blocks[0].outside, ANALYSIS_OPEN + tail);
    ConcatAssociates(front + blocks[0].outside, ANALYSIS_OPEN, tail);
  }

  lemma {:induction false} DraftInSummaryGoes(front: string, gap: string, blocks: seq<Block>, rest: string)
    requires !Contains(front, ANALYSIS_OPEN) && !Contains(front, SUMMARY_OPEN)
    requires IsBlank(gap) && AreBlocks(blocks) && OnlyBlanksOutside(blocks)
    ensures WithoutAnalysis((front + SUMMARY_OPEN + gap) + Draft(blocks, rest))
         == WithoutAnalysis((front + SUMMARY_OPEN + gap) + (Outside(blocks) + rest))
    decreases |blocks|
  {
    hide Contains, WithoutAnalysis, IsBlank;
    if blocks == [] {
      assert "" + rest == rest;
    } else {
      var b, later := blocks[0], blocks[1..];
      BlanksJoin(gap, b.outside);
      ConcatAssociates(front + SUMMARY_OPEN, gap, b.outside);
      BlockInSummaryGoes(front, gap + b.outside, b.scratch, Draft(later, rest));
      DraftBehind(front + SUMMARY_OPEN + gap, blocks, rest);
      DraftInSummaryGoes(front, gap + b.outside, later, rest);
      ConcatAssociates(front + SUMMARY_OPEN + gap, b.outside, Outside(later) + rest);
      ConcatAssociates(b.outside, Outside(later), rest);
    }
  }

  lemma BlanksJoin(a: string, b: string)
    requires IsBlank(a) && IsBlank(b)
    ensures IsBlank(a + b)
  {}

  lemma {:induction false} OutsideIsBlank(blocks: seq<Block>)
    requires OnlyBlanksOutside(blocks)
    ensures IsBlank(Outside(blocks))
  {
    hide IsBlank;
    if blocks == [] {
      BlanksOfNothing();
    } else {
      OutsideIsBlank(blocks[1..]);
      BlanksJoin(blocks[0].outside, Outside(blocks[1..]));
    }
  }

  lemma BlanksOfNothing()
    ensures IsBlank("")
  {}

  lemma {:induction false} TrimPassesBlanks(gap: string, s: string)
    requires IsBlank(gap)
    ensures Trim(gap + s) == Trim(s)
  {
    if gap == "" {
      assert gap + s == s;
    } else {
      hide IsWhitespace, TrimEnd;
      assert (gap + s)[1..] == gap[1..] + s && (gap + s)[0] == gap[0];
      TrimPassesBlanks(gap[1..], s);
    }
  }

  lemma {:induction false} DraftThen(blocks: seq<Block>, rest: string, more: string)
    ensures Draft(blocks, rest) + more == Draft(blocks, rest + more)
  {
    if blocks != [] {
      var b, later := blocks[0], Draft(blocks[1..], rest);
      DraftThen(blocks[1..], rest, more);
      ConcatAssociates(b.outside + ANALYSIS_OPEN, b.scratch + ANALYSIS_CLOSE + later, more);
      ConcatAssociates(b.scratch + ANALYSIS_CLOSE, later, more);
    }
  }

  /** A summary with no block before it or at its start. */
  lemma SummaryAlone(before: string, body: string, after: string)
    requires !Contains(before, SUMMARY_OPEN) && !Contains(before, ANALYSIS_OPEN) && !Contains(after, SUMMARY_CLOSE)
    requires !(ANALYSIS_OPEN <= Trim(body))
    ensures Formatted(Wrapped(before, body, after))
         == Trim(Collapsed(Neutralized(before + SUMMARY_HEADING + WithoutScratchpad(Trim(body)) + after)))
    ensures WithoutAnalysis(Wrapped(before, body, after)) == Wrapped(before, body, after)
  {
    hide Trim, Collapsed, Neutralized, WithoutAnalysis, WithoutScratchpad, Contains, First, Last;
    var s := Wrapped(before, body, after);
    WrappedParts(before, body, after);
    WrappedHasNoLeadingAnalysis(before, body, after);
    LastOfTag(s, |before| + |SUMMARY_OPEN| + |body|, SUMMARY_CLOSE, after);
  }

  /** A whole reply: closed analysis blocks, then a summary that may open with more of them, then other text. */
  function Reply(front: seq<Block>, before: string, inside: seq<Block>, body: string, after: string): string {
    Draft(front, Wrapped(before, Draft(inside, body), after))
  }

  /** What the cleaner makes of a reply, but for what is peeled off the summary. */
  lemma ReplyIsKept(front: seq<Block>, before: string, inside: seq<Block>, body: string, after: string)
    requires AreBlocks(front) && AreBlocks(inside) && OnlyBlanksOutside(inside)
    requires !Contains(Outside(front) + before, SUMMARY_OPEN) && !Contains(Outside(front) + before, ANALYSIS_OPEN)
    requires !Contains(after, SUMMARY_CLOSE) && !(ANALYSIS_OPEN <= Trim(body))
    ensures Formatted(Reply(front, before, inside, body, after))
         == Trim(Collapsed(Neutralized(Outside(front) + before + SUMMARY_HEADING + WithoutScratchpad(Trim(body))
                                       + after)))
  {
    hide *;
    var text, gap := Outside(front) + before, Outside(inside);
    OutsideIsBlank(inside);
    TrimPassesBlanks(gap, body);
    SummaryAlone(text, gap + body, after);
    ReplyWithoutBlocks(front, before, inside, body, after);
    SameWithoutAnalysis(Reply(front, before, inside, body, after), Wrapped(text, gap + body, after));
  }

  /**
   * Of a reply whose summary leads with a numbered section the closed analysis blocks go, those in front of the
   * summary and those it opens with, even if they quote a summary.  The summary is kept whole, whatever tags it quotes
   * further on; with the text around it, it is only defused, collapsed and trimmed.
   */
  lemma NumberedSummaryIsKept(front: seq<Block>, before: string, inside: seq<Block>, body: string, after: string)
    requires AreBlocks(front) && AreBlocks(inside) && OnlyBlanksOutside(inside)
    requires !Contains(Outside(front) + before, SUMMARY_OPEN) && !Contains(Outside(front) + before, ANALYSIS_OPEN)
    requires !Contains(after, SUMMARY_CLOSE) && LeadsWithNumber(Trim(body))
    ensures Formatted(Reply(front, before, inside, body, after))
         == Trim(Collapsed(Neutralized(Outside(front) + before + "Summary:\n" + Trim(body) + after)))
  {
    hide *;
    NumberIsNoTag(Trim(body));
    TrimTwice(body);
    NumberIsKept(Trim(body), Trim(body));
    ReplyIsKept(front, before, inside, body, after);
    Heading();
  }

  lemma Heading()
    ensures SUMMARY_HEADING == "Summary:\n"
  {}

  /** The same of any other summary that closes no analysis: it is kept whole, out of an opening tag of its own. */
  lemma PlainSummaryIsKept(front: seq<Block>, before: string, inside: seq<Block>, body: string, after: string)
    requires AreBlocks(front) && AreBlocks(inside) && OnlyBlanksOutside(inside)
    requires !Contains(Outside(front) + before, SUMMARY_OPEN) && !Contains(Outside(front) + before, ANALYSIS_OPEN)
    requires !Contains(after, SUMMARY_CLOSE) && !(ANALYSIS_OPEN <= Trim(body)) && !Contains(body, ANALYSIS_CLOSE)
    ensures var kept := if SUMMARY_OPEN <= Trim(body) then Trim(Trim(body)[|SUMMARY_OPEN|..]) else Trim(body);
            Formatted(Reply(front, before, inside, body, after))
            == Trim(Collapsed(Neutralized(Outside(front) + before + "Summary:\n" + kept + after)))
  {
    hide *;
    PlainScratchpad(body);
    ReplyIsKept(front, before, inside, body, after);
    Heading();
  }

  /** And of one that does and leads with no number: what stands behind the last closing tag is kept. */
  lemma PeeledSummaryIsKept(front: seq<Block>, before: string, inside: seq<Block>,
                            scratch: string, body: string, after: string)
    requires AreBlocks(front) && AreBlocks(inside) && OnlyBlanksOutside(inside)
    requires !Contains(Outside(front) + before, SUMMARY_OPEN) && !Contains(Outside(front) + before, ANALYSIS_OPEN)
    requires !Contains(after, SUMMARY_CLOSE) && !Contains(body, ANALYSIS_CLOSE)
    requires var whole := Trim(scratch + ANALYSIS_CLOSE + body);
             !LeadsWithNumber(whole) && !(ANALYSIS_OPEN <= whole)
    ensures var kept := if SUMMARY_OPEN <= Trim(body) then Trim(Trim(body)[|SUMMARY_OPEN|..]) else Trim(body);
            Formatted(Reply(front, before, inside, scratch + ANALYSIS_CLOSE + body, after))
            == Trim(Collapsed(Neutralized(Outside(front) + before + "Summary:\n" + kept + after)))
  {
    hide *;
    PeeledScratchpad(scratch, body);
    ReplyIsKept(front, before, inside, scratch + ANALYSIS_CLOSE + body, after);
    Heading();
  }

  // ---- trimming ----

  lemma {:induction false} TrimEndOf(x: string, blank: string)
    requires IsBlank(blank) && (x != "" ==> !IsWhitespace(x[|x| - 1]))
    ensures TrimEnd(x + blank) == x
    decreases |blank|
  {
    if blank == "" {
      assert x + blank == x;
    } else {
      hide IsWhitespace;
      var n := |blank| - 1;
      assert (x + blank)[..|x| + n] == x + blank[..n] && (x + blank)[|x| + n] == blank[n];
      TrimEndOf(x, blank[..n]);
    }
  }

  /** Trimming is putting aside blanks at both ends. */
  lemma TrimOf(front: string, x: string, back: string)
    requires IsBlank(front) && IsBlank(back)
    requires x != "" ==> !IsWhitespace(x[0]) && !IsWhitespace(x[|x| - 1])
    ensures Trim(front + (x + back)) == x
  {
    hide TrimEnd, IsWhitespace;
    TrimPassesBlanks(front, x + back);
    if x == "" {
      assert "" + back == back && back + "" == back;
      TrimPassesBlanks(back, "");
    } else {
      assert (x + back)[0] == x[0];
      TrimEndOf(x, back);
    }
  }

  /** The same ends, put aside from the end first. */
  lemma TrimFromEnd(s: string)
    ensures TrimStart(TrimEnd(s)) == Trim(s)
  {
    var t := TrimEnd(s);
    TrimIsRest(s, t, TrimStart(t));
  }

  lemma TrimIsRest(s: string, t: string, x: string)
    requires IsTrimmedEnd(s, t) && (t != "" ==> !IsWhitespace(t[|t| - 1]))
    requires IsTrimmedStart(t, x) && (x != "" ==> !IsWhitespace(x[0]))
    ensures Trim(s) == x
  {
    hide Trim, IsWhitespace, IsBlank;
    var front, back := t[..|t| - |x|], s[|t|..];
    assert t == front + x && s == t + back;
    ConcatAssociates(front, x, back);
    if x != "" {
      SameEnd(t, x);
    }
    TrimOf(front, x, back);
  }

  lemma SameEnd(t: string, x: string)
    requires |x| <= |t| && x == t[|t| - |x|..] && x != ""
    ensures x[|x| - 1] == t[|t| - 1]
  {}

  lemma TrimmedTail(u: string, n: nat)
    requires Trim(u) == u && n <= |u|
    ensures TrimStart(u[n..]) == Trim(u[n..])
  {
    var x := TrimStart(u[n..]);
    assert u != "" ==> !IsWhitespace(u[|u| - 1]);
    hide IsWhitespace;
    assert x != "" ==> x[|x| - 1] == u[|u| - 1];
    assert x + "" == x;
    BlanksOfNothing();
    TrimEndOf(x, "");
  }

  // ---- what is peeled off a summary ----

  lemma PlainScratchpad(body: string)
    requires !Contains(body, ANALYSIS_CLOSE)
    ensures WithoutScratchpad(Trim(body))
         == if SUMMARY_OPEN <= Trim(body) then Trim(Trim(body)[|SUMMARY_OPEN|..]) else Trim(body)
  {
    hide Trim, TrimStart, Last, LeadsWithNumber, Contains, WithoutScratchpad;
    var u := Trim(body);
    TrimTwice(body);
    NothingTrimmedIsClosed(body);
    ScratchpadSteps(u, u);
    if SUMMARY_OPEN <= u {
      TrimmedTail(u, |SUMMARY_OPEN|);
    }
  }

  lemma NothingTrimmedIsClosed(body: string)
    requires !Contains(body, ANALYSIS_CLOSE)
    ensures PeeledTo(Trim(body)) == 0
  {
    hide Trim, Contains, LeadsWithNumber, First, Last;
    TrimIsSlice(body);
    var lo, hi :| 0 <= lo <= hi <= |body| && Trim(body) == body[lo..hi];
    if Contains(body[lo..hi], ANALYSIS_CLOSE) {
      ContainsInSlice(body, lo, hi, ANALYSIS_CLOSE);
    }
    NoLast(Trim(body), ANALYSIS_CLOSE);
  }

  lemma NoLast(s: string, tag: string)
    requires !Contains(s, tag)
    ensures Last(s, tag) == None
  {}

  lemma PeeledScratchpad(scratch: string, body: string)
    requires !Contains(body, ANALYSIS_CLOSE) && !LeadsWithNumber(Trim(scratch + ANALYSIS_CLOSE + body))
    ensures WithoutScratchpad(Trim(scratch + ANALYSIS_CLOSE + body))
         == if SUMMARY_OPEN <= Trim(body) then Trim(Trim(body)[|SUMMARY_OPEN|..]) else Trim(body)
  {
    hide Trim, TrimStart, TrimEnd, Last, LeadsWithNumber, Contains, WithoutScratchpad;
    var u, end := Trim(scratch + ANALYSIS_CLOSE + body), TrimEnd(body);
    TrimTwice(scratch + ANALYSIS_CLOSE + body);
    TrimAroundCloser(scratch, body);
    var n := |TrimStart(scratch)|;
    assert u[n..] == ANALYSIS_CLOSE + end && u[n + |ANALYSIS_CLOSE|..] == end;
    PrefixHoldsNoTag(end, body, ANALYSIS_CLOSE);
    LastOfTag(u, n, ANALYSIS_CLOSE, end);
    TrimFromEnd(body);
    ScratchpadSteps(u, u);
    TrimTwice(body);
    if SUMMARY_OPEN <= Trim(body) {
      TrimmedTail(Trim(body), |SUMMARY_OPEN|);
    }
  }

  lemma PrefixHoldsNoTag(a: string, b: string, tag: string)
    requires a <= b && !Contains(b, tag)
    ensures !Contains(a, tag)
  {
    hide Contains;
    assert b[0..|a|] == a;
    if Contains(a, tag) {
      ContainsInSlice(b, 0, |a|, tag);
    }
  }

  /** The ends that trimming takes lie on either side of a tag. */
  lemma TrimAroundCloser(scratch: string, body: string)
    ensures Trim(scratch + ANALYSIS_CLOSE + body) == TrimStart(scratch) + ANALYSIS_CLOSE + TrimEnd(body)
  {
    hide Trim, TrimStart, TrimEnd, IsWhitespace, ANALYSIS_CLOSE;
    var s, e := TrimStart(scratch), TrimEnd(body);
    var front, back := scratch[..|scratch| - |s|], body[|e|..];
    assert scratch == front + s && body == e + back;
    EndsAroundCloser(s, e);
    TrimOf(front, s + ANALYSIS_CLOSE + e, back);
    AroundCloser(front, s, e, back);
  }

  lemma EndsAroundCloser(s: string, e: string)
    requires (s != "" ==> !IsWhitespace(s[0])) && (e != "" ==> !IsWhitespace(e[|e| - 1]))
    ensures var x := s + ANALYSIS_CLOSE + e;
            x != "" && !IsWhitespace(x[0]) && !IsWhitespace(x[|x| - 1])
  {
    assert !IsWhitespace('<') && !IsWhitespace('>');
    hide IsWhitespace;
    var x := s + ANALYSIS_CLOSE + e;
    assert ANALYSIS_CLOSE[0] == '<' && ANALYSIS_CLOSE[|ANALYSIS_CLOSE| - 1] == '>';
    assert x[0] == (if s == "" then '<' else s[0]);
    assert x[|x| - 1] == (if e == "" then '>' else e[|e| - 1]);
  }

  lemma AroundCloser(front: string, s: string, e: string, back: string)
    ensures front + (s + ANALYSIS_CLOSE + e + back) == (front + s) + ANALYSIS_CLOSE + (e + back)
  {
    hide ANALYSIS_CLOSE;
    ConcatAssociates(s + ANALYSIS_CLOSE, e, back);
    ConcatAssociates(front, s + ANALYSIS_CLOSE, e + back);
    ConcatAssociates(front, s, ANALYSIS_CLOSE);
  }

  lemma SameWithoutAnalysis(s: string, t: string)
    requires WithoutAnalysis(s) == WithoutAnalysis(t)
    ensures Formatted(s) == Formatted(t)
  {
    hide WithoutAnalysis, Unwrapped, Neutralized, Collapsed, Trim;
  }

  lemma ReplyWithoutBlocks(front: seq<Block>, before: string, inside: seq<Block>, body: string, after: string)
    requires AreBlocks(front) && AreBlocks(inside) && OnlyBlanksOutside(inside)
    requires !Contains(Outside(front) + before, SUMMARY_OPEN) && !Contains(Outside(front) + before, ANALYSIS_OPEN)
    ensures WithoutAnalysis(Reply(front, before, inside, body, after))
         == WithoutAnalysis(Wrapped(Outside(front) + before, Outside(inside) + body, after))
  {
    hide Contains, WithoutAnalysis, IsBlank, Draft, Outside, AreBlocks, OnlyBlanksOutside;
    var text, close := Outside(front) + before, SUMMARY_CLOSE + after;
    var wrapped := Wrapped(before, Draft(inside, body), after);
    SummaryInWrapped(before, Draft(inside, body), after);
    PartsHoldNoTag(Outside(front), before, ANALYSIS_OPEN);
    PartsHoldNoTag(Outside(front), before, SUMMARY_OPEN);
    assert "" + Outside(front) == Outside(front) && "" + Draft(front, wrapped) == Draft(front, wrapped);
    DraftBeforeSummaryGoes("", front, wrapped);
    WrappedBehind(Outside(front), before, Draft(inside, body), after);
    BlanksOfNothing();
    DraftInSummaryGoes(text, "", inside, body + close);
    assert text + SUMMARY_OPEN + "" == text + SUMMARY_OPEN;
    ConcatAssociates(Draft(inside, body), SUMMARY_CLOSE, after);
    DraftThen(inside, body, close);
    ConcatAssociates(Outside(inside), body, close);
    ConcatAssociates(Outside(inside) + body, SUMMARY_CLOSE, after);
  }

  lemma SummaryInWrapped(before: string, body: string, after: string)
    ensures Contains(Wrapped(before, body, after), SUMMARY_OPEN)
  {
    hide Contains, SUMMARY_OPEN;
    var s := Wrapped(before, body, after);
    ContainsAtEnd(before, SUMMARY_OPEN);
    assert s[0..|before + SUMMARY_OPEN|] == before + SUMMARY_OPEN;
    ContainsInSlice(s, 0, |before + SUMMARY_OPEN|, SUMMARY_OPEN);
  }

  lemma WrappedBehind(front: string, before: string, body: string, after: string)
    ensures front + Wrapped(before, body, after) == Wrapped(front + before, body, after)
  {
    var tail := body + SUMMARY_CLOSE + after;
    ConcatAssociates(before, SUMMARY_OPEN, tail);
    ConcatAssociates(front, before, SUMMARY_OPEN + tail);
    ConcatAssociates(front + before, SUMMARY_OPEN, tail);
  }

  // ---- which blocks lead, and which summaries are unwrapped ----

  /**
   * The first analysis block is a leading one exactly when, with a summary opening in front of it, only blanks stand
   * between the first such opening and the block, or, with none in front, a summary opens behind it or only blanks
   * stand in front.
   */
  lemma BlockLeadsIff(front: string, rest: string)
    requires !Contains(front, ANALYSIS_OPEN)
    ensures LeadsWithAnalysis(front + ANALYSIS_OPEN + rest) <==>
              if Contains(front, SUMMARY_OPEN) then
                IsBlank(front[KnownFirst(front, SUMMARY_OPEN) + |SUMMARY_OPEN|..])
              else Contains(rest, SUMMARY_OPEN) || IsBlank(front)
  {
    hide Contains, First, IsBlank;
    var s := front + ANALYSIS_OPEN + rest;
    TagBehindText(front, ANALYSIS_OPEN, rest);
    assert s[..|front|] == front && s[|front|..] == ANALYSIS_OPEN + rest;
    if Contains(front, SUMMARY_OPEN) {
      var n := KnownFirst(front, SUMMARY_OPEN) + |SUMMARY_OPEN|;
      ConcatAssociates(front, ANALYSIS_OPEN, rest);
      TagInFront(front, ANALYSIS_OPEN + rest, SUMMARY_OPEN);
      LeadingBehind(s, n - |SUMMARY_OPEN|, |front|);
      assert s[n..|front|] == front[n..];
    } else {
      OpenersCloseNothing(rest);
      OtherTagBehind(front, ANALYSIS_OPEN, rest, SUMMARY_OPEN);
      FoundIff(rest, SUMMARY_OPEN);
    }
  }

  /** A text without a leading block and without a summary is only defused, collapsed and trimmed. */
  lemma NoSummaryToUnwrap(s: string)
    requires !LeadsWithAnalysis(s) && !Contains(s, SUMMARY_OPEN)
    ensures Formatted(s) == Trim(Collapsed(Neutralized(s)))
  {
    hide LeadsWithAnalysis, WithoutAnalysis, Neutralized, Collapsed, Trim, Contains, First, Last;
    NothingToDrop(s);
    FoundIff(s, SUMMARY_OPEN);
  }

  /** So is one whose summary is never closed. */
  lemma UnclosedSummaryStays(before: string, rest: string)
    requires !Contains(before, SUMMARY_OPEN) && !Contains(rest, SUMMARY_CLOSE)
    requires !LeadsWithAnalysis(before + SUMMARY_OPEN + rest)
    ensures Formatted(before + SUMMARY_OPEN + rest) == Trim(Collapsed(Neutralized(before + SUMMARY_OPEN + rest)))
  {
    hide LeadsWithAnalysis, WithoutAnalysis, Neutralized, Collapsed, Trim, Contains, First, Last, WithoutScratchpad;
    var s := before + SUMMARY_OPEN + rest;
    NothingToDrop(s);
    TagBehindText(before, SUMMARY_OPEN, rest);
    var close := Last(s, SUMMARY_CLOSE);
    if close.Some? && close.value > |before| {
      NoCloserInRest(before, rest, close.value);
    }
  }

  lemma NoCloserInRest(before: string, rest: string, j: nat)
    requires |before| < j <= |before + SUMMARY_OPEN + rest| && !Contains(rest, SUMMARY_CLOSE)
    ensures !(SUMMARY_CLOSE <= (before + SUMMARY_OPEN + rest)[j..])
  {
    hide Contains, First;
    if SUMMARY_CLOSE <= (before + SUMMARY_OPEN + rest)[j..] {
      CloserInRest(before, rest, j);
    }
  }

  lemma CloserInRest(before: string, rest: string, j: nat)
    requires |before| < j <= |before + SUMMARY_OPEN + rest| && SUMMARY_CLOSE <= (before + SUMMARY_OPEN + rest)[j..]
    ensures Contains(rest, SUMMARY_CLOSE)
  {
    hide Contains, First;
    var s := before + SUMMARY_OPEN + rest;
    assert s[|before|..] == SUMMARY_OPEN + rest;
    TagsDoNotOverlap(s, SUMMARY_OPEN, |before|, SUMMARY_CLOSE, j);
    OccursAt(rest, j - |before| - |SUMMARY_OPEN|, s[j..], SUMMARY_CLOSE);
  }

  lemma OccursAt(s: string, k: nat, behind: string, tag: string)
    requires k <= |s| && s[k..] == behind && tag <= behind
    ensures Contains(s, tag)
  {}

  // ---- what collapsing and defusing do ----

  /** Each run of newlines cut to two, counting those that stand in front already. */
  function Squeezed(s: string, newlines: nat): string {
    if s == "" then ""
    else if s[0] != '\n' then [s[0]] + Squeezed(s[1..], 0)
    else if newlines >= 2 then Squeezed(s[1..], newlines)
    else ['\n'] + Squeezed(s[1..], newlines + 1)
  }

  lemma SqueezedTwo(s: string, newlines: nat)
    requires newlines <= 2
    ensures Squeezed(TWO_NEWLINES + s, newlines) == Squeezed(THREE_NEWLINES + s, newlines)
  {
    assert (TWO_NEWLINES + s)[1..] == ['\n'] + s && (['\n'] + s)[1..] == s;
    assert (THREE_NEWLINES + s)[1..] == TWO_NEWLINES + s;
    assert Squeezed(['\n'] + s, 2) == Squeezed(s, 2);
    assert Squeezed(TWO_NEWLINES + s, 2) == Squeezed(s, 2);
  }

  /** Squeezing does not see how far the newlines in front go beyond two. */
  lemma SqueezedFurther(s: string, t: string, newlines: nat)
    requires newlines <= 2 && Squeezed(s, 2) == Squeezed(t, 2)
    ensures Squeezed(TWO_NEWLINES + s, newlines) == Squeezed(TWO_NEWLINES + t, newlines)
  {
    assert (TWO_NEWLINES + s)[1..] == ['\n'] + s && (['\n'] + s)[1..] == s;
    assert (TWO_NEWLINES + t)[1..] == ['\n'] + t && (['\n'] + t)[1..] == t;
  }

  lemma {:induction false} OnePassSqueezes(s: string, newlines: nat)
    requires newlines <= 2
    ensures Squeezed(ReplaceAll(s, THREE_NEWLINES, TWO_NEWLINES), newlines) == Squeezed(s, newlines)
    decreases |s|
  {
    if s == "" {
    } else if THREE_NEWLINES <= s {
      var rest := s[3..];
      OnePassSqueezes(rest, 2);
      SqueezedFurther(ReplaceAll(rest, THREE_NEWLINES, TWO_NEWLINES), rest, newlines);
      SqueezedTwo(rest, newlines);
      assert s == THREE_NEWLINES + rest;
    } else {
      var out := ReplaceAll(s[1..], THREE_NEWLINES, TWO_NEWLINES);
      OnePassSqueezes(s[1..], if s[0] != '\n' then 0 else if newlines >= 2 then newlines else newlines + 1);
      assert ([s[0]] + out)[1..] == out;
    }
  }

  function Newlines(n: nat): string {
    seq(n, i => '\n')
  }

  lemma {:induction false} NothingToSqueeze(s: string, newlines: nat)
    requires newlines <= 2 && !Contains(Newlines(newlines) + s, THREE_NEWLINES)
    ensures Squeezed(s, newlines) == s
  {
    if s != "" {
      hide Contains, Newlines, THREE_NEWLINES;
      if s[0] == '\n' {
        NewlinesShift(newlines, s);
        if newlines == 2 {
          ThreeNewlines(s);
        } else {
          NothingToSqueeze(s[1..], newlines + 1);
        }
      } else {
        NewlinesEnd(newlines, s);
        NotInTail(Newlines(newlines) + s, newlines + 1);
        NothingToSqueeze(s[1..], 0);
      }
    }
  }

  lemma NewlinesShift(n: nat, s: string)
    requires s != "" && s[0] == '\n'
    ensures Newlines(n) + s == Newlines(n + 1) + s[1..]
  {}

  lemma NewlinesEnd(n: nat, s: string)
    requires s != ""
    ensures |Newlines(n) + s| >= n + 1 && (Newlines(n) + s)[n + 1..] == Newlines(0) + s[1..]
  {}

  lemma ThreeNewlines(s: string)
    requires s != "" && s[0] == '\n'
    ensures Contains(Newlines(2) + s, THREE_NEWLINES)
  {
    var t := Newlines(2) + s;
    assert THREE_NEWLINES <= t && t[0..] == t;
  }

  lemma NotInTail(s: string, n: nat)
    requires n <= |s| && !Contains(s, THREE_NEWLINES)
    ensures !Contains(s[n..], THREE_NEWLINES)
  {
    hide Contains;
    if Contains(s[n..], THREE_NEWLINES) {
      ContainsInTail(s, n, THREE_NEWLINES);
    }
  }

  /** Collapsing cuts every run of newlines to at most two and does nothing else. */
  lemma {:induction false} CollapsedIsSqueezed(s: string)
    ensures Collapsed(s) == Squeezed(s, 0)
    decreases |s|
  {
    if Contains(s, THREE_NEWLINES) {
      ReplaceShortens(s, THREE_NEWLINES, TWO_NEWLINES);
      CollapsedIsSqueezed(ReplaceAll(s, THREE_NEWLINES, TWO_NEWLINES));
      OnePassSqueezes(s, 0);
    } else {
      assert Newlines(0) + s == s;
      NothingToSqueeze(s, 0);
    }
  }

  /** Replacing a tag acts on either side of an angle bracket by itself. */
  lemma {:induction false} ReplaceSplits(a: string, x: string, tag: string, sub: string)
    requires IsTag(tag) && x != "" && x[0] == '<'
    ensures ReplaceAll(a + x, tag, sub) == ReplaceAll(a, tag, sub) + ReplaceAll(x, tag, sub)
    decreases |a|
  {
    if a == "" {
      assert a + x == x;
    } else {
      assert (a + x)[1..] == a[1..] + x;
      TagEndsBefore(a, x, tag);
      if tag <= a + x {
        assert (a + x)[|tag|..] == a[|tag|..] + x;
        ReplaceSplits(a[|tag|..], x, tag, sub);
        ConcatAssociates(sub, ReplaceAll(a[|tag|..], tag, sub), ReplaceAll(x, tag, sub));
      } else {
        ReplaceSplits(a[1..], x, tag, sub);
        ConcatAssociates([a[0]], ReplaceAll(a[1..], tag, sub), ReplaceAll(x, tag, sub));
      }
    }
  }

  lemma TagEndsBefore(a: string, x: string, tag: string)
    requires IsTag(tag) && a != "" && x != "" && x[0] == '<'
    ensures tag <= a + x <==> tag <= a
  {
    assert (a + x)[|a|] == '<';
    assert |a| < |tag| ==> tag[|a|] != '<';
  }

  /** One replacement, past its own token and past another, which may have been defused before. */
  lemma DefuseOwn(a: string, p: ControlToken, b: string)
    ensures Defuse(a + p.Text() + b, p) == Defuse(a, p) + Defused(p.Text()) + Defuse(b, p)
  {
    hide IsTag, ReplaceAll, ControlToken.Text;
    var tag := p.Text();
    TagBrackets(tag);
    AroundBracket(a, tag, b, tag);
    TokenAtFront(tag, b, tag);
    ConcatAssociates(Defuse(a, p), Defused(tag), Defuse(b, p));
  }

  lemma DefusePast(a: string, t: string, b: string, p: ControlToken)
    requires t != "" && t[0] == '<' && '<' !in t[1..] && !(p.Text() <= t + b) && t != p.Text()
    ensures Defuse(a + t + b, p) == Defuse(a, p) + t + Defuse(b, p)
  {
    hide IsTag, ReplaceAll, ControlToken.Text;
    AroundBracket(a, t, b, p.Text());
    TokenAtFront(t, b, p.Text());
    ConcatAssociates(Defuse(a, p), t, Defuse(b, p));
  }

  lemma TagBrackets(tag: string)
    requires IsTag(tag)
    ensures tag[0] == '<' && '<' !in tag[1..] && Defused(tag) != "" && Defused(tag)[0] == '<' && '<' !in Defused(tag)[1..]
  {}

  lemma AroundBracket(a: string, t: string, b: string, tag: string)
    requires IsTag(tag) && t != "" && t[0] == '<'
    ensures ReplaceAll(a + t + b, tag, Defused(tag))
         == ReplaceAll(a, tag, Defused(tag)) + ReplaceAll(t + b, tag, Defused(tag))
  {
    hide IsTag, ReplaceAll, Defused;
    ConcatAssociates(a, t, b);
    ReplaceSplits(a, t + b, tag, Defused(tag));
  }

  lemma OneCloser(q: ControlToken)
    ensures |q.Text()| > 1 && q.Text()[|q.Text()| - 1] == '>'
    ensures forall i | 0 <= i < |q.Text()| - 1 :: q.Text()[i] != '>'
  {}

  lemma SameToken(p: ControlToken, q: ControlToken)
    requires p.Text() == q.Text()
    ensures p == q
  {
    assert p.Text()[1] == q.Text()[1];
  }

  /** No control token begins another, nor its defused form. */
  lemma TokensDiffer(p: ControlToken, q: ControlToken, b: string)
    ensures p != q ==> !(p.Text() <= q.Text() + b) && p.Text() != q.Text()
    ensures !(p.Text() <= Defused(q.Text()) + b) && p.Text() != Defused(q.Text())
  {
    hide ControlToken.Text;
    OneCloser(p);
    OneCloser(q);
    DefusedDiffers(p.Text(), q.Text(), b);
    if p.Text() <= q.Text() + b {
      SameTag(p.Text(), q.Text(), b);
      SameToken(p, q);
    }
    assert q.Text() <= q.Text() + b;
  }

  lemma SameTag(p: string, q: string, b: string)
    requires p <= q + b && p != "" && q != "" && p[|p| - 1] == q[|q| - 1] == '>'
    requires forall i | 0 <= i < |p| - 1 :: p[i] != '>'
    requires forall i | 0 <= i < |q| - 1 :: q[i] != '>'
    ensures p == q
  {
    assert p[|p| - 1] == (q + b)[|p| - 1];
    assert |q| <= |p| ==> p[|q| - 1] == (q + b)[|q| - 1] == '>';
    assert p == (q + b)[..|p|];
  }

  lemma DefusedDiffers(p: string, q: string, b: string)
    requires IsTag(p) && IsTag(q)
    ensures !(p <= Defused(q) + b) && p != Defused(q)
  {
    assert (Defused(q) + b)[1] == ZERO_WIDTH_SPACE && p[1] != ZERO_WIDTH_SPACE && Defused(q)[1] == ZERO_WIDTH_SPACE;
  }

  /** What begins with the only bracket of a token, and not with the pattern, is copied up to what follows it. */
  lemma TokenAtFront(t: string, b: string, tag: string)
    requires IsTag(tag) && t != "" && t[0] == '<' && '<' !in t[1..] && (t == tag || !(tag <= t + b))
    ensures ReplaceAll(t + b, tag, Defused(tag))
         == (if t == tag then Defused(tag) else t) + ReplaceAll(b, tag, Defused(tag))
  {
    if t == tag {
      assert (t + b)[|t|..] == b && t + b != "";
    } else {
      assert (t + b)[1..] == t[1..] + b && t == [t[0]] + t[1..];
      CopiedThrough(t[1..], b, tag);
      ConcatAssociates([t[0]], t[1..], ReplaceAll(b, tag, Defused(tag)));
    }
  }

  lemma {:induction false} CopiedThrough(t: string, b: string, tag: string)
    requires IsTag(tag) && '<' !in t
    ensures ReplaceAll(t + b, tag, Defused(tag)) == t + ReplaceAll(b, tag, Defused(tag))
  {
    if t == "" {
      assert t + b == b && "" + ReplaceAll(b, tag, Defused(tag)) == ReplaceAll(b, tag, Defused(tag));
    } else {
      assert (t + b)[0] == t[0] != '<' && (t + b)[1..] == t[1..] + b && t == [t[0]] + t[1..];
      CopiedThrough(t[1..], b, tag);
      ConcatAssociates([t[0]], t[1..], ReplaceAll(b, tag, Defused(tag)));
    }
  }

  /** A pass acts on the token it is for, and leaves others, and those defused before, as they are. */
  lemma PassAt(a: string, q: ControlToken, b: string, p: ControlToken)
    ensures Defuse(a + q.Text() + b, p)
         == Defuse(a, p) + (if p == q then Defused(q.Text()) else q.Text()) + Defuse(b, p)
    ensures p != q ==> Defuse(a + Defused(q.Text()) + b, p) == Defuse(a, p) + Defused(q.Text()) + Defuse(b, p)
  {
    hide Defuse, ControlToken.Text, IsTag, Defused;
    TagBrackets(q.Text());
    if p == q {
      DefuseOwn(a, p, b);
    } else {
      TokensDiffer(p, q, b);
      DefusePast(a, q.Text(), b, p);
      DefusePast(a, Defused(q.Text()), b, p);
    }
  }

  /** Whatever stands around a control token, just a zero-width space is put behind its bracket. */
  lemma TokenIsDefused(a: string, q: ControlToken, b: string)
    ensures Neutralized(a + q.Text() + b)
         == Neutralized(a) + ("<" + [ZERO_WIDTH_SPACE] + q.Text()[1..]) + Neutralized(b)
  {
    hide Defuse, ControlToken.Text, IsTag;
    var a1, b1 := Defuse(a, SummaryClose), Defuse(b, SummaryClose);
    var a2, b2 := Defuse(a1, SummaryOpen), Defuse(b1, SummaryOpen);
    var a3, b3 := Defuse(a2, AnalysisClose), Defuse(b2, AnalysisClose);
    var a4, b4 := Defuse(a3, AnalysisOpen), Defuse(b3, AnalysisOpen);
    var a5, b5 := Defuse(a4, RequestClose), Defuse(b4, RequestClose);
    PassAt(a, q, b, SummaryClose);
    PassAt(a1, q, b1, SummaryOpen);
    PassAt(a2, q, b2, AnalysisClose);
    PassAt(a3, q, b3, AnalysisOpen);
    PassAt(a4, q, b4, RequestClose);
    PassAt(a5, q, b5, RequestOpen);
  }
}
