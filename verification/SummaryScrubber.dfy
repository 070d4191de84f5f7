/** Cleaning a model-written summary so that it can seed the next turn (format_compact_summary). */
module SummaryScrubber {
  import opened Sequences

  const ZERO_WIDTH_SPACE := '\U{200B}'
  const THREE_NEWLINES := "\n\n\n"
  const TWO_NEWLINES := "\n\n"

  /** A tag: an opening angle bracket followed by text that holds neither another one nor the sentinel. */
  predicate IsTag(t: string)
    ensures IsTag(t) ==> t != ""
  {
    && |t| >= 2 && t[0] == '<'
    && forall i | 0 < i < |t| :: t[i] != '<' && t[i] != ZERO_WIDTH_SPACE && t[i] != '\n'
  }

  type Tag = t: string | IsTag(t) witness "<>"

  const SUMMARY_OPEN: Tag := "<summary>"
  const SUMMARY_CLOSE: Tag := "</summary>"
  const ANALYSIS_OPEN: Tag := "<analysis>"
  const ANALYSIS_CLOSE: Tag := "</analysis>"
  const REQUEST_OPEN: Tag := "<summary_request>"
  const REQUEST_CLOSE: Tag := "</summary_request>"

  /** The six compaction control tokens. */
  datatype ControlToken = SummaryClose | SummaryOpen | AnalysisClose | AnalysisOpen | RequestClose | RequestOpen {
    function Text(): Tag {
      match this
      case SummaryClose => SUMMARY_CLOSE
      case SummaryOpen => SUMMARY_OPEN
      case AnalysisClose => ANALYSIS_CLOSE
      case AnalysisOpen => ANALYSIS_OPEN
      case RequestClose => REQUEST_CLOSE
      case RequestOpen => REQUEST_OPEN
    }
  }

  /** The Unicode White_Space property. */
  predicate IsWhitespace(c: char) {
    '\t' <= c <= '\r' || c == ' ' || c == '\U{85}' || c == '\U{A0}' || c == '\U{1680}'
    || '\U{2000}' <= c <= '\U{200A}' || c == '\U{2028}' || c == '\U{2029}' || c == '\U{202F}'
    || c == '\U{205F}' || c == '\U{3000}'
  }

  predicate IsBlank(s: string) {
    forall i | 0 <= i < |s| :: IsWhitespace(s[i])
  }

  /** `r` is what is left of `s` when blanks at its start have gone. */
  predicate IsTrimmedStart(s: string, r: string) {
    |r| <= |s| && r == s[|s| - |r|..] && IsBlank(s[..|s| - |r|])
  }

  predicate IsTrimmedEnd(s: string, r: string) {
    r <= s && IsBlank(s[|r|..])
  }

  lemma NothingTrimmed(s: string)
    ensures IsTrimmedStart(s, s) && IsTrimmedEnd(s, s)
  {}

  lemma TrimmedBefore(s: string, r: string)
    requires s != "" && IsWhitespace(s[0]) && IsTrimmedStart(s[1..], r)
    ensures IsTrimmedStart(s, r)
  {
    hide IsWhitespace;
    var n := |s| - |r|;
    assert s[1..][n - 1..] == s[n..];
    assert s[..n] == [s[0]] + s[1..][..n - 1];
  }

  lemma TrimmedAfter(s: string, r: string)
    requires s != "" && IsWhitespace(s[|s| - 1]) && IsTrimmedEnd(s[..|s| - 1], r)
    ensures IsTrimmedEnd(s, r)
  {
    hide IsWhitespace;
    assert s[|r|..] == s[..|s| - 1][|r|..] + [s[|s| - 1]];
  }

  function TrimStart(s: string): (r: string)
    ensures IsTrimmedStart(s, r)
    ensures r != "" ==> !IsWhitespace(r[0])
  {
    hide IsWhitespace, IsTrimmedStart;
    if s != "" && IsWhitespace(s[0]) then
      TrimmedBefore(s, TrimStart(s[1..]));
      TrimStart(s[1..])
    else
      NothingTrimmed(s);
      s
  }

  function TrimEnd(s: string): (r: string)
    ensures IsTrimmedEnd(s, r)
    ensures r != "" ==> !IsWhitespace(r[|r| - 1])
  {
    hide IsWhitespace, IsTrimmedEnd;
    if s != "" && IsWhitespace(s[|s| - 1]) then
      TrimmedAfter(s, TrimEnd(s[..|s| - 1]));
      TrimEnd(s[..|s| - 1])
    else
      NothingTrimmed(s);
      s
  }

  function Trim(s: string): string {
    TrimEnd(TrimStart(s))
  }

  lemma TrimIsSlice(s: string)
    ensures exists lo, hi | 0 <= lo <= hi <= |s| :: Trim(s) == s[lo..hi]
  {
    hide TrimStart, TrimEnd, IsBlank, IsWhitespace;
    var t := TrimStart(s);
    var lo := |s| - |t|;
    assert Trim(s) == s[lo..lo + |Trim(s)|];
  }

  lemma TrimTwice(s: string)
    ensures Trim(Trim(s)) == Trim(s)
  {}

  /** Left-to-right replacement of the non-overlapping occurrences of a pattern. */
  function ReplaceAll(s: string, pattern: string, sub: string): string
    requires pattern != ""
  {
    if s == "" then ""
    else if pattern <= s then sub + ReplaceAll(s[|pattern|..], pattern, sub)
    else [s[0]] + ReplaceAll(s[1..], pattern, sub)
  }

  lemma {:induction false} ReplaceNothing(s: string, pattern: string, sub: string)
    requires pattern != "" && !Contains(s, pattern)
    ensures ReplaceAll(s, pattern, sub) == s
  {
    if s != "" {
      ReplaceNothing(s[1..], pattern, sub);
    }
  }

  /** A text that avoids the replacement's first character shows up at the front of the output only
      if it was at the front of the input. */
  lemma {:induction false} FrontSurvivesBackwards(s: string, pattern: string, sub: string, w: string)
    requires pattern != "" && sub != "" && sub[0] !in w
    requires w <= ReplaceAll(s, pattern, sub)
    ensures w <= s
  {
    if w != "" {
      var out := ReplaceAll(s, pattern, sub);
      assert out[0] == w[0];
      if !(pattern <= s) {
        assert out[1..] == ReplaceAll(s[1..], pattern, sub);
        assert w[1..] <= out[1..];
        FrontSurvivesBackwards(s[1..], pattern, sub, w[1..]);
        assert w == [w[0]] + w[1..] && s == [s[0]] + s[1..];
      }
    }
  }

  /** Text in front that nowhere holds t's first character adds no occurrence of t. */
  lemma {:induction false} OccursBehind(front: string, s: string, t: string)
    requires t != "" && t[0] !in front && Contains(front + s, t)
    ensures Contains(s, t)
  {
    if front == "" {
      assert front + s == s;
    } else {
      assert (front + s)[0] == front[0];
      assert (front + s)[1..] == front[1..] + s;
      OccursBehind(front[1..], s, t);
    }
  }

  // ---- defusing tokens ----

  function Defused(t: string): string
    requires IsTag(t)
  {
    "<" + [ZERO_WIDTH_SPACE] + t[1..]
  }

  lemma DefusedHidesNoTag(p: string, rest: string, q: string)
    requires IsTag(p) && IsTag(q) && Contains(Defused(p) + rest, q)
    ensures Contains(rest, q)
  {
    var d := Defused(p);
    assert (d + rest)[1] == ZERO_WIDTH_SPACE;
    assert !(q <= d + rest);
    assert (d + rest)[1..] == d[1..] + rest;
    OccursBehind(d[1..], rest, q);
  }

  lemma TagAtCopiedCharacter(s: string, p: string, q: string)
    requires IsTag(p) && IsTag(q) && s != "" && q <= [s[0]] + ReplaceAll(s[1..], p, Defused(p))
    ensures q <= s
  {
    var rest := ReplaceAll(s[1..], p, Defused(p));
    assert q[0] == s[0];
    assert q[1..] <= ([s[0]] + rest)[1..] == rest;
    FrontSurvivesBackwards(s[1..], p, Defused(p), q[1..]);
    assert q == [q[0]] + q[1..] && s == [s[0]] + s[1..];
  }

  /** Replacing one tag by its defused form removes that tag and brings in no other. */
  lemma {:induction false} DefusingAddsNoTag(s: string, p: string, q: string)
    requires IsTag(p) && IsTag(q) && Contains(ReplaceAll(s, p, Defused(p)), q)
    ensures Contains(s, q) && q != p
    decreases |s|
  {
    hide IsTag, Defused;
    var out := ReplaceAll(s, p, Defused(p));
    if s == "" {
      NoTagInNothing(q);
    } else if p <= s {
      var rest := ReplaceAll(s[|p|..], p, Defused(p));
      assert out == Defused(p) + rest;
      DefusedHidesNoTag(p, rest, q);
      DefusingAddsNoTag(s[|p|..], p, q);
      ContainsInTail(s, |p|, q);
    } else if q <= out {
      TagAtCopiedCharacter(s, p, q);
    } else {
      assert out[1..] == ReplaceAll(s[1..], p, Defused(p));
      DefusingAddsNoTag(s[1..], p, q);
    }
  }

  lemma NoTagInNothing(q: string)
    requires IsTag(q)
    ensures !Contains("", q)
  {}

  function Defuse(s: string, token: ControlToken): string {
    ReplaceAll(s, token.Text(), Defused(token.Text()))
  }

  /** neutralize_compaction_control_tokens: closers first, each followed by its opener. */
  function Neutralized(text: string): string {
    var s1 := Defuse(text, SummaryClose);
    var s2 := Defuse(s1, SummaryOpen);
    var s3 := Defuse(s2, AnalysisClose);
    var s4 := Defuse(s3, AnalysisOpen);
    var s5 := Defuse(s4, RequestClose);
    Defuse(s5, RequestOpen)
  }

  ghost predicate Quotes(s: string, t: ControlToken) {
    Contains(s, t.Text())
  }

  ghost predicate TokenFree(s: string) {
    forall t :: !Quotes(s, t)
  }

  lemma DefuseAddsNoToken(s: string, p: ControlToken, q: ControlToken)
    requires Quotes(Defuse(s, p), q)
    ensures Quotes(s, q) && q != p
  {
    hide IsTag, ControlToken.Text;
    DefusingAddsNoTag(s, p.Text(), q.Text());
  }

  lemma NeutralizedIsTokenFree(text: string)
    ensures TokenFree(Neutralized(text))
  {
    hide Defuse, Quotes;
    var s1 := Defuse(text, SummaryClose);
    var s2 := Defuse(s1, SummaryOpen);
    var s3 := Defuse(s2, AnalysisClose);
    var s4 := Defuse(s3, AnalysisOpen);
    var s5 := Defuse(s4, RequestClose);
    forall q ensures !Quotes(Neutralized(text), q) {
      if Quotes(Defuse(s5, RequestOpen), q) {
        DefuseAddsNoToken(s5, RequestOpen, q);
        DefuseAddsNoToken(s4, RequestClose, q);
        DefuseAddsNoToken(s3, AnalysisOpen, q);
        DefuseAddsNoToken(s2, AnalysisClose, q);
        DefuseAddsNoToken(s1, SummaryOpen, q);
        DefuseAddsNoToken(text, SummaryClose, q);
      }
    }
  }

  lemma NothingToDefuse(text: string, t: ControlToken)
    requires !Quotes(text, t)
    ensures Defuse(text, t) == text
  {
    hide IsTag, ControlToken.Text;
    ReplaceNothing(text, t.Text(), Defused(t.Text()));
  }

  lemma NothingToNeutralize(text: string)
    requires TokenFree(text)
    ensures Neutralized(text) == text
  {
    hide Defuse, Quotes;
    forall t ensures Defuse(text, t) == text {
      NothingToDefuse(text, t);
    }
  }

  // ---- what replacing keeps ----

  function Without(s: string, c: char): string {
    if s == "" then "" else if s[0] == c then Without(s[1..], c) else [s[0]] + Without(s[1..], c)
  }

  lemma {:induction false} WithoutConcat(a: string, b: string, c: char)
    ensures Without(a + b, c) == Without(a, c) + Without(b, c)
  {
    if a == "" {
      assert a + b == b;
    } else {
      assert (a + b)[1..] == a[1..] + b;
      WithoutConcat(a[1..], b, c);
    }
  }

  /** A replacement that differs from its pattern only in c leaves everything but c as it was. */
  lemma {:induction false} ReplaceKeepsRest(s: string, pattern: string, sub: string, c: char)
    requires pattern != "" && Without(pattern, c) == Without(sub, c)
    ensures Without(ReplaceAll(s, pattern, sub), c) == Without(s, c)
    decreases |s|
  {
    if s == "" {
    } else if pattern <= s {
      var rest := s[|pattern|..];
      ReplaceKeepsRest(rest, pattern, sub, c);
      WithoutConcat(sub, ReplaceAll(rest, pattern, sub), c);
      WithoutConcat(pattern, rest, c);
      assert s == pattern + rest;
    } else {
      ReplaceKeepsRest(s[1..], pattern, sub, c);
      WithoutConcat([s[0]], ReplaceAll(s[1..], pattern, sub), c);
      WithoutConcat([s[0]], s[1..], c);
      assert s == [s[0]] + s[1..];
    }
  }

  lemma {:induction false} NothingToRemove(s: string, c: char)
    requires c !in s
    ensures Without(s, c) == s
  {
    if s != "" {
      NothingToRemove(s[1..], c);
    }
  }

  lemma DefuseKeepsText(s: string, t: ControlToken)
    ensures Without(Defuse(s, t), ZERO_WIDTH_SPACE) == Without(s, ZERO_WIDTH_SPACE)
  {
    hide ControlToken.Text;
    var tag := t.Text();
    NothingToRemove(tag, ZERO_WIDTH_SPACE);
    NothingToRemove(tag[1..], ZERO_WIDTH_SPACE);
    var d := Defused(tag);
    assert d[1..][1..] == tag[1..];
    assert Without(d, ZERO_WIDTH_SPACE) == ['<'] + tag[1..] == tag;
    ReplaceKeepsRest(s, tag, d, ZERO_WIDTH_SPACE);
  }

  /** Neutralizing inserts zero-width spaces and does nothing else. */
  lemma NeutralizedKeepsText(text: string)
    ensures Without(Neutralized(text), ZERO_WIDTH_SPACE) == Without(text, ZERO_WIDTH_SPACE)
  {
    hide Defuse;
    forall s, t ensures Without(Defuse(s, t), ZERO_WIDTH_SPACE) == Without(s, ZERO_WIDTH_SPACE) {
      DefuseKeepsText(s, t);
    }
  }

  // ---- collapsing newlines ----

  lemma {:induction false} ReplaceShortens(s: string, pattern: string, sub: string)
    requires |sub| < |pattern|
    ensures |ReplaceAll(s, pattern, sub)| <= |s|
    ensures Contains(s, pattern) ==> |ReplaceAll(s, pattern, sub)| < |s|
    decreases |s|
  {
    if s != "" {
      if pattern <= s {
        ReplaceShortens(s[|pattern|..], pattern, sub);
      } else {
        ReplaceShortens(s[1..], pattern, sub);
      }
    }
  }

  function Collapsed(s: string): (r: string)
    ensures !Contains(r, THREE_NEWLINES)
    decreases |s|
  {
    if Contains(s, THREE_NEWLINES) then
      ReplaceShortens(s, THREE_NEWLINES, TWO_NEWLINES);
      Collapsed(ReplaceAll(s, THREE_NEWLINES, TWO_NEWLINES))
    else s
  }

  lemma {:induction false} NewlinesAddNoTag(s: string, q: string)
    requires IsTag(q) && Contains(ReplaceAll(s, THREE_NEWLINES, TWO_NEWLINES), q)
    ensures Contains(s, q)
    decreases |s|
  {
    hide IsTag;
    TagAvoidsNewline(q);
    var out := ReplaceAll(s, THREE_NEWLINES, TWO_NEWLINES);
    if q <= out {
      FrontSurvivesBackwards(s, THREE_NEWLINES, TWO_NEWLINES, q);
      assert q <= s[0..];
    } else {
      var n := if THREE_NEWLINES <= s then 3 else 1;
      NoTagInNothing(q);
      var rest := ReplaceAll(s[n..], THREE_NEWLINES, TWO_NEWLINES);
      if n == 3 {
        assert out == TWO_NEWLINES + rest;
        OccursBehind(TWO_NEWLINES, rest, q);
      } else {
        assert out[1..] == rest;
      }
      NewlinesAddNoTag(s[n..], q);
      ContainsInTail(s, n, q);
    }
  }

  lemma TagAvoidsNewline(q: string)
    requires IsTag(q)
    ensures '\n' !in q && q[0] !in TWO_NEWLINES
  {}

  lemma {:induction false} CollapsedAddsNoTag(s: string, q: string)
    requires IsTag(q) && Contains(Collapsed(s), q)
    ensures Contains(s, q)
    decreases |s|
  {
    if Contains(s, THREE_NEWLINES) {
      ReplaceShortens(s, THREE_NEWLINES, TWO_NEWLINES);
      CollapsedAddsNoTag(ReplaceAll(s, THREE_NEWLINES, TWO_NEWLINES), q);
      NewlinesAddNoTag(s, q);
    }
  }

  /** Collapsing removes newlines and nothing else. */
  lemma {:induction false} CollapsedKeepsText(s: string)
    ensures Without(Collapsed(s), '\n') == Without(s, '\n')
    decreases |s|
  {
    if Contains(s, THREE_NEWLINES) {
      ReplaceShortens(s, THREE_NEWLINES, TWO_NEWLINES);
      CollapsedKeepsText(ReplaceAll(s, THREE_NEWLINES, TWO_NEWLINES));
      assert THREE_NEWLINES[1..] == TWO_NEWLINES && TWO_NEWLINES[1..] == "\n";
      ReplaceKeepsRest(s, THREE_NEWLINES, TWO_NEWLINES, '\n');
    }
  }

  // ---- peeling the drafting scratchpad ----

  /** First and last occurrences, with no more said about them than slicing needs. */
  function First(s: string, p: string): (r: Option<nat>)
    ensures r.Some? ==> r.value + |p| <= |s| && p <= s[r.value..]
  {
    Find(s, p)
  }

  function Last(s: string, p: string): (r: Option<nat>)
    ensures r.Some? ==> r.value + |p| <= |s| && p <= s[r.value..]
  {
    FindLast(s, p)
  }

  lemma FirstIs(s: string, p: string, k: nat)
    requires k + |p| <= |s| && p <= s[k..] && forall j | 0 <= j < k :: !(p <= s[j..])
    ensures First(s, p) == Some(k)
  {}

  lemma FirstIsNone(s: string, p: string)
    requires forall j | 0 <= j <= |s| :: !(p <= s[j..])
    ensures First(s, p) == None
  {}

  lemma NotBeforeFirst(s: string, p: string, j: nat)
    requires j <= |s| && (First(s, p).Some? ==> j < First(s, p).value)
    ensures !(p <= s[j..])
  {}

  lemma LastIs(s: string, p: string, k: nat)
    requires k + |p| <= |s| && p <= s[k..] && forall j | k < j <= |s| :: !(p <= s[j..])
    ensures Last(s, p) == Some(k)
  {}

  lemma NotBehindLast(s: string, p: string, j: nat)
    requires j <= |s| && (Last(s, p).Some? ==> j > Last(s, p).value)
    ensures !(p <= s[j..])
  {}

  lemma TagsDoNotOverlap(s: string, p: string, i: nat, q: string, j: nat)
    requires IsTag(p) && IsTag(q) && i < j <= |s| && p <= s[i..] && q <= s[j..]
    ensures i + |p| <= j
  {}

  /** `start` is where an analysis block opens; is it a top-level or leading one? */
  predicate IsLeading(s: string, start: nat)
    requires start <= |s| && ANALYSIS_OPEN <= s[start..]
  {
    match First(s, SUMMARY_OPEN)
    case None => IsBlank(s[..start])
    case Some(sp) => start < sp || BlankBetween(s, sp, start)
  }

  predicate BlankBetween(s: string, sp: nat, start: nat)
    requires sp <= start <= |s| && SUMMARY_OPEN <= s[sp..] && ANALYSIS_OPEN <= s[start..]
  {
    SummaryEndsBefore(s, sp, start);
    IsBlank(s[sp + |SUMMARY_OPEN|..start])
  }

  lemma SummaryEndsBefore(s: string, sp: nat, start: nat)
    requires sp <= start <= |s| && SUMMARY_OPEN <= s[sp..] && ANALYSIS_OPEN <= s[start..]
    ensures sp + |SUMMARY_OPEN| <= start
  {
    assert s[sp..][1] == SUMMARY_OPEN[1] == 's' && s[start..][1] == ANALYSIS_OPEN[1] == 'a';
    assert IsTag(SummaryOpen.Text()) && IsTag(AnalysisOpen.Text());
    if sp < start {
      TagsDoNotOverlap(s, SUMMARY_OPEN, sp, ANALYSIS_OPEN, start);
    }
  }

  /** The text without its leading analysis blocks; an unclosed one runs to the summary or the end. */
  function WithoutAnalysis(s: string): string
    decreases |s|
  {
    match First(s, ANALYSIS_OPEN)
    case None => s
    case Some(start) =>
      if !IsLeading(s, start) then s
      else
        match First(s[start..], ANALYSIS_CLOSE)
        case Some(rel) => WithoutAnalysis(s[..start] + s[start + rel + |ANALYSIS_CLOSE|..])
        case None =>
          match First(s[start..], SUMMARY_OPEN)
          case Some(rel) => s[..start] + s[start + rel..]
          case None => s[..start]
  }

  // ---- when a leading block is left ----

  /** An occurrence that starts before a tag ends before it. */
  lemma TagWithinFront(front: string, tag: string, rest: string, other: string, j: nat)
    requires IsTag(tag) && IsTag(other) && j < |front| && other <= (front + tag + rest)[j..]
    ensures Contains(front, other)
  {
    hide IsTag, First;
    var s := front + tag + rest;
    assert s[|front|..] == tag + rest;
    TagsDoNotOverlap(s, other, j, tag, |front|);
    assert other <= front[j..];
  }

  /** The first occurrence of a tag in front of which only other text stands. */
  lemma TagBehindText(front: string, tag: string, rest: string)
    requires IsTag(tag) && !Contains(front, tag)
    ensures First(front + tag + rest, tag) == Some(|front|)
  {
    hide IsTag, Contains, First;
    var s := front + tag + rest;
    assert s[|front|..] == tag + rest && tag <= s[|front|..];
    forall j | 0 <= j < |front| ensures !(tag <= s[j..]) {
      if tag <= s[j..] {
        TagWithinFront(front, tag, rest, tag, j);
      }
    }
    FirstIs(s, tag, |front|);
  }

  /** The first occurrence of another tag is then in what follows. */
  lemma OtherTagBehind(front: string, tag: string, rest: string, other: string)
    requires IsTag(tag) && IsTag(other) && !Contains(front, other) && !(other <= tag + rest)
    ensures var found := First(rest, other);
            First(front + tag + rest, other) ==
              if found.Some? then Some(|front| + |tag| + found.value) else None
  {
    hide IsTag, Contains, First;
    var s, n := front + tag + rest, |front| + |tag|;
    forall j | 0 <= j < n ensures !(other <= s[j..]) {
      NotBefore(front, tag, rest, other, j);
    }
    ShiftedFirst(front + tag, rest, other);
  }

  lemma NotBefore(front: string, tag: string, rest: string, other: string, j: nat)
    requires IsTag(tag) && IsTag(other) && !Contains(front, other) && !(other <= tag + rest)
    requires j < |front| + |tag|
    ensures !(other <= (front + tag + rest)[j..])
  {
    hide IsTag, Contains, First;
    var s := front + tag + rest;
    assert s[|front|..] == tag + rest;
    if other <= s[j..] {
      if j < |front| {
        TagWithinFront(front, tag, rest, other, j);
      } else if j > |front| {
        TagsDoNotOverlap(s, tag, |front|, other, j);
      }
    }
  }

  lemma ShiftedFirst(front: string, rest: string, p: string)
    requires forall j | 0 <= j < |front| :: !(p <= (front + rest)[j..])
    ensures var found := First(rest, p);
            First(front + rest, p) == if found.Some? then Some(|front| + found.value) else None
  {
    hide First;
    var s, n, found := front + rest, |front|, First(rest, p);
    forall j | n <= j <= |s| && (found.Some? ==> j < n + found.value) ensures !(p <= s[j..]) {
      assert s[j..] == rest[j - n..];
      NotBeforeFirst(rest, p, j - n);
    }
    if found.Some? {
      assert s[n + found.value..] == rest[found.value..];
      FirstIs(s, p, n + found.value);
    } else {
      FirstIsNone(s, p);
    }
  }

  lemma TagInFront(front: string, rest: string, tag: string)
    requires IsTag(tag) && Contains(front, tag)
    ensures First(front + rest, tag) == First(front, tag)
  {
    hide IsTag, First, Contains;
    var s, k := front + rest, KnownFirst(front, tag);
    assert s[k..] == front[k..] + rest;
    forall j | 0 <= j < k ensures !(tag <= s[j..]) {
      NotBeforeFirst(front, tag, j);
      if tag <= s[j..] {
        EarlierTag(front, rest, tag, j, k);
      }
    }
    FirstIs(s, tag, k);
  }

  lemma EarlierTag(front: string, rest: string, tag: string, j: nat, k: nat)
    requires IsTag(tag) && j < k <= |front| && tag <= front[k..] && tag <= (front + rest)[j..]
    ensures tag <= front[j..]
  {
    hide IsTag;
    var s := front + rest;
    assert s[k..] == front[k..] + rest;
    TagsDoNotOverlap(s, tag, j, tag, k);
  }

  /** An analysis block stands at the front or, but for blanks, right behind the first opening of a summary. */
  predicate LeadsWithAnalysis(s: string) {
    First(s, ANALYSIS_OPEN).Some? && IsLeading(s, First(s, ANALYSIS_OPEN).value)
  }

  predicate LeadingIsClosed(s: string)
    requires LeadsWithAnalysis(s)
  {
    First(s[First(s, ANALYSIS_OPEN).value..], ANALYSIS_CLOSE).Some?
  }

  /** What is left when the leading blocks that are closed have gone, one after the other. */
  function ClosedBlocksDropped(s: string): (r: string)
    ensures LeadsWithAnalysis(r) ==> !LeadingIsClosed(r)
    decreases |s|
  {
    if !LeadsWithAnalysis(s) || !LeadingIsClosed(s) then s
    else
      var start := First(s, ANALYSIS_OPEN).value;
      var close := First(s[start..], ANALYSIS_CLOSE).value;
      ClosedBlocksDropped(s[..start] + s[start + close + |ANALYSIS_CLOSE|..])
  }

  lemma {:induction false} UnclosedIsDroppedLast(s: string)
    ensures WithoutAnalysis(s) == WithoutAnalysis(ClosedBlocksDropped(s))
    decreases |s|
  {
    hide First, IsLeading;
    if LeadsWithAnalysis(s) && LeadingIsClosed(s) {
      var start := First(s, ANALYSIS_OPEN).value;
      var close := First(s[start..], ANALYSIS_CLOSE).value;
      UnclosedIsDroppedLast(s[..start] + s[start + close + |ANALYSIS_CLOSE|..]);
    }
  }

  /**
   * Behind an unclosed leading block that no summary precedes, a summary opens with, but for blanks, another block.
   */
  predicate SummaryHidesAnother(s: string)
    requires LeadsWithAnalysis(s)
  {
    var start := First(s, ANALYSIS_OPEN).value;
    var next := First(s[start..], SUMMARY_OPEN);
    && !Contains(s[..start], SUMMARY_OPEN)
    && next.Some?
    && var inside := s[start + next.value + |SUMMARY_OPEN|..];
       var other := First(inside, ANALYSIS_OPEN);
       other.Some? && IsBlank(inside[..other.value])
  }

  lemma SummaryIsNoAnalysis(rest: string)
    ensures !(ANALYSIS_OPEN <= SUMMARY_OPEN + rest)
  {
    assert (SUMMARY_OPEN + rest)[1] == 's' && ANALYSIS_OPEN[1] == 'a';
  }

  lemma LeadingBehind(s: string, sp: nat, start: nat)
    requires First(s, SUMMARY_OPEN) == Some(sp) && sp <= start <= |s| && ANALYSIS_OPEN <= s[start..]
    ensures sp + |SUMMARY_OPEN| <= start
    ensures IsLeading(s, start) <==> IsBlank(s[sp + |SUMMARY_OPEN|..start])
  {
    hide First, IsBlank;
    SummaryEndsBefore(s, sp, start);
  }

  /** Text before a summary, the tag that opens it, and what it holds: is a leading block left in it? */
  lemma LeadingBehindSummary(front: string, inside: string)
    requires !Contains(front, ANALYSIS_OPEN)
    ensures LeadsWithAnalysis(front + SUMMARY_OPEN + inside) <==>
              && !Contains(front, SUMMARY_OPEN)
              && First(inside, ANALYSIS_OPEN).Some? && IsBlank(inside[..First(inside, ANALYSIS_OPEN).value])
  {
    hide IsBlank, Contains, First, IsLeading;
    SummaryIsNoAnalysis(inside);
    OtherTagBehind(front, SUMMARY_OPEN, inside, ANALYSIS_OPEN);
    if First(inside, ANALYSIS_OPEN).Some? {
      if Contains(front, SUMMARY_OPEN) {
        BehindEarlierSummary(front, inside, |front| + |SUMMARY_OPEN| + First(inside, ANALYSIS_OPEN).value);
      } else {
        BehindOnlySummary(front, inside, First(inside, ANALYSIS_OPEN).value);
      }
    }
  }

  lemma BehindEarlierSummary(front: string, inside: string, start: nat)
    requires Contains(front, SUMMARY_OPEN) && |front| < start <= |front + SUMMARY_OPEN + inside|
    requires ANALYSIS_OPEN <= (front + SUMMARY_OPEN + inside)[start..]
    ensures !IsLeading(front + SUMMARY_OPEN + inside, start)
  {
    hide IsBlank, Contains, First, IsLeading;
    var s, sp := front + SUMMARY_OPEN + inside, KnownFirst(front, SUMMARY_OPEN);
    ConcatAssociates(front, SUMMARY_OPEN, inside);
    TagInFront(front, SUMMARY_OPEN + inside, SUMMARY_OPEN);
    LeadingBehind(s, sp, start);
    TagIsNotBlank(s, sp + |SUMMARY_OPEN|, start, |front|);
  }

  lemma BehindOnlySummary(front: string, inside: string, at: nat)
    requires !Contains(front, SUMMARY_OPEN) && at <= |inside| && ANALYSIS_OPEN <= inside[at..]
    ensures var (s, start) := (front + SUMMARY_OPEN + inside, |front| + |SUMMARY_OPEN| + at);
            && ANALYSIS_OPEN <= s[start..]
            && (IsLeading(s, start) <==> IsBlank(inside[..at]))
  {
    hide IsBlank, Contains, First, IsLeading;
    var s, start := front + SUMMARY_OPEN + inside, |front| + |SUMMARY_OPEN| + at;
    assert s[start..] == inside[at..] && s[|front| + |SUMMARY_OPEN|..start] == inside[..at];
    TagBehindText(front, SUMMARY_OPEN, inside);
    LeadingBehind(s, |front|, start);
  }

  function KnownFirst(s: string, p: string): (r: nat)
    requires Contains(s, p)
    ensures First(s, p) == Some(r) && r + |p| <= |s|
  {
    First(s, p).value
  }

  lemma TagIsNotBlank(s: string, lo: nat, hi: nat, at: nat)
    requires lo <= at < hi <= |s| && s[at] == '<'
    ensures !IsBlank(s[lo..hi])
  {
    assert s[lo..hi][at - lo] == '<';
  }

  lemma NothingBeforeFirst(s: string, tag: string)
    requires IsTag(tag) && First(s, tag).Some?
    ensures !Contains(s[..First(s, tag).value], tag)
  {
    hide IsTag, First;
    var start := First(s, tag).value;
    forall j | 0 <= j <= start ensures !(tag <= s[..start][j..]) {
      if tag <= s[..start][j..] {
        TagInPrefix(s, start, tag, j);
        NotBeforeFirst(s, tag, j);
      }
    }
  }

  lemma TagInPrefix(s: string, n: nat, tag: string, j: nat)
    requires j <= n <= |s| && tag <= s[..n][j..] && IsTag(tag)
    ensures j < n && tag <= s[j..]
  {
    hide IsTag;
    assert s[..n][j..] <= s[j..];
  }

  /** Dropping an unclosed leading block. */
  lemma UnclosedDropped(s: string)
    requires LeadsWithAnalysis(s) && !LeadingIsClosed(s)
    ensures var start := First(s, ANALYSIS_OPEN).value;
            var next := First(s[start..], SUMMARY_OPEN);
            WithoutAnalysis(s) ==
              if next.Some? then s[..start] + SUMMARY_OPEN + s[start + next.value + |SUMMARY_OPEN|..] else s[..start]
  {
    hide First, IsLeading;
    var start := First(s, ANALYSIS_OPEN).value;
    var next := First(s[start..], SUMMARY_OPEN);
    if next.Some? {
      var at := start + next.value;
      assert s[at..] == s[start..][next.value..];
      assert s[at..] == SUMMARY_OPEN + s[at + |SUMMARY_OPEN|..];
      ConcatAssociates(s[..start], SUMMARY_OPEN, s[at + |SUMMARY_OPEN|..]);
    }
  }

  lemma UnclosedLeavesIff(s: string)
    requires LeadsWithAnalysis(s) && !LeadingIsClosed(s)
    ensures LeadsWithAnalysis(WithoutAnalysis(s)) <==> SummaryHidesAnother(s)
  {
    hide First, IsLeading, IsBlank, Contains, WithoutAnalysis;
    var start := First(s, ANALYSIS_OPEN).value;
    var next := First(s[start..], SUMMARY_OPEN);
    NothingBeforeFirst(s, ANALYSIS_OPEN);
    UnclosedDropped(s);
    if next.Some? {
      LeadingBehindSummary(s[..start], s[start + next.value + |SUMMARY_OPEN|..]);
    }
  }

  /** The loop leaves a leading analysis block exactly when it ends at an unclosed one whose summary hides another. */
  lemma AnalysisLeftIff(s: string)
    ensures var closed := ClosedBlocksDropped(s);
            LeadsWithAnalysis(WithoutAnalysis(s)) <==> LeadsWithAnalysis(closed) && SummaryHidesAnother(closed)
  {
    hide LeadsWithAnalysis, LeadingIsClosed, SummaryHidesAnother, WithoutAnalysis;
    UnclosedIsDroppedLast(s);
    var closed := ClosedBlocksDropped(s);
    if LeadsWithAnalysis(closed) {
      UnclosedLeavesIff(closed);
    } else {
      NothingToDrop(closed);
    }
  }

  lemma NothingToDrop(s: string)
    requires !LeadsWithAnalysis(s)
    ensures WithoutAnalysis(s) == s
  {
    hide First, IsLeading;
  }

  predicate IsListMark(c: char) {
    c == '#' || c == '*' || c == '-' || c == '>' || c == ' ' || c == '\t'
  }

  function SkipListMarks(s: string): (r: string)
    ensures |r| <= |s| && r == s[|s| - |r|..]
    ensures forall i | 0 <= i < |s| - |r| :: IsListMark(s[i])
  {
    if s != "" && IsListMark(s[0]) then SkipListMarks(s[1..]) else s
  }

  /** Does the text lead with a numbered section, perhaps a decorated one such as `## 1.`? */
  predicate LeadsWithNumber(s: string) {
    var lead := SkipListMarks(s);
    lead != "" && '0' <= lead[0] <= '9'
  }

  lemma {:induction false} MarksAreSkipped(marks: string, rest: string)
    requires (forall i | 0 <= i < |marks| :: IsListMark(marks[i])) && (rest != "" ==> !IsListMark(rest[0]))
    ensures SkipListMarks(marks + rest) == rest
  {
    hide IsListMark;
    if marks == "" {
      assert marks + rest == rest;
    } else {
      assert (marks + rest)[0] == marks[0] && (marks + rest)[1..] == marks[1..] + rest;
      MarksAreSkipped(marks[1..], rest);
    }
  }

  /** A text leads with a number exactly when the first character that decorates no list is an ASCII digit. */
  lemma NumberLeadsIff(marks: string, rest: string)
    requires forall c | c in marks :: c == '#' || c == '*' || c == '-' || c == '>' || c == ' ' || c == '\t'
    requires rest != "" ==> rest[0] != '#' && rest[0] != '*' && rest[0] != '-' && rest[0] != '>'
                            && rest[0] != ' ' && rest[0] != '\t'
    ensures LeadsWithNumber(marks + rest) <==> rest != "" && '0' <= rest[0] <= '9'
  {
    forall i | 0 <= i < |marks| ensures IsListMark(marks[i]) {
      assert marks[i] in marks;
    }
    hide SkipListMarks;
    MarksAreSkipped(marks, rest);
  }

  function WithoutScratchpad(inner: string): string {
    var s := Trim(inner);
    var last := Last(s, ANALYSIS_CLOSE);
    var peeled := if !LeadsWithNumber(s) && last.Some? then TrimStart(s[last.value + |ANALYSIS_CLOSE|..]) else s;
    if SUMMARY_OPEN <= peeled then TrimStart(peeled[|SUMMARY_OPEN|..]) else peeled
  }

  /** Where the part begins that peeling keeps: behind the last closing tag, unless a numbered section leads. */
  function PeeledTo(s: string): (r: nat)
    ensures r <= |s|
  {
    var last := Last(s, ANALYSIS_CLOSE);
    if !LeadsWithNumber(s) && last.Some? then last.value + |ANALYSIS_CLOSE| else 0
  }

  /** Blanks, or the tag that opens a summary with blanks on either side. */
  ghost predicate OnlyOpens(gap: string) {
    || IsBlank(gap)
    || exists b: nat | b + |SUMMARY_OPEN| <= |gap| ::
         IsBlank(gap[..b]) && SUMMARY_OPEN <= gap[b..] && IsBlank(gap[b + |SUMMARY_OPEN|..])
  }

  /**
   * Everything up to and including the last closing tag goes, and besides it at most blanks and the tag that opens a
   * summary; so no closing tag is left, unless the text leads with a numbered section, which is kept as it is.
   */
  lemma ScratchpadIsPeeled(inner: string)
    ensures var s, r := Trim(inner), WithoutScratchpad(inner);
            && PeeledTo(s) + |r| <= |s| && r == s[|s| - |r|..]
            && OnlyOpens(s[PeeledTo(s)..|s| - |r|])
            && (!LeadsWithNumber(s) ==> !Contains(r, ANALYSIS_CLOSE))
            && (LeadsWithNumber(s) ==> r == s)
  {
    hide *;
    var s, r := Trim(inner), WithoutScratchpad(inner);
    PeeledShape(inner, s, r);
    if LeadsWithNumber(s) {
      NumberIsKept(inner, s);
    } else {
      NoCloserBehind(s, r);
    }
  }

  lemma PeeledShape(inner: string, s: string, r: string)
    requires s == Trim(inner) && r == WithoutScratchpad(inner)
    ensures PeeledTo(s) + |r| <= |s| && r == s[|s| - |r|..]
    ensures OnlyOpens(s[PeeledTo(s)..|s| - |r|])
  {
    hide *;
    var n := PeeledTo(s);
    ScratchpadSteps(inner, s);
    PeelingTrims(s, n);
    OpeningTrims(s, n, TrimmedBehind(s, n));
  }

  function TrimmedBehind(s: string, n: nat): string
    requires n <= |s|
  {
    if n == 0 then s else TrimStart(s[n..])
  }

  function Opened(peeled: string): string {
    if SUMMARY_OPEN <= peeled then TrimStart(peeled[|SUMMARY_OPEN|..]) else peeled
  }

  lemma NumberIsNoTag(u: string)
    requires LeadsWithNumber(u)
    ensures !(SUMMARY_OPEN <= u) && !(ANALYSIS_OPEN <= u)
  {
    assert u[0] != '<' && SUMMARY_OPEN[0] == ANALYSIS_OPEN[0] == '<';
  }

  lemma NumberIsKept(inner: string, s: string)
    requires s == Trim(inner) && LeadsWithNumber(s)
    ensures WithoutScratchpad(inner) == s
  {
    hide Trim, LeadsWithNumber, TrimStart, WithoutScratchpad, PeeledTo;
    NumberIsNoTag(s);
    NothingPeeled(s);
    ScratchpadSteps(inner, s);
  }

  lemma NothingPeeled(s: string)
    requires LeadsWithNumber(s)
    ensures PeeledTo(s) == 0
  {}

  lemma ScratchpadSteps(inner: string, s: string)
    requires s == Trim(inner)
    ensures WithoutScratchpad(inner) == Opened(TrimmedBehind(s, PeeledTo(s)))
  {
    hide Trim, LeadsWithNumber, TrimStart, Last;
  }

  lemma NoCloserBehind(s: string, r: string)
    requires !LeadsWithNumber(s) && PeeledTo(s) + |r| <= |s| && r == s[|s| - |r|..]
    ensures !Contains(r, ANALYSIS_CLOSE)
  {
    hide LeadsWithNumber, Last, First;
    forall j | 0 <= j <= |r| ensures !(ANALYSIS_CLOSE <= r[j..]) {
      assert r[j..] == s[|s| - |r| + j..];
      NotBehindLast(s, ANALYSIS_CLOSE, |s| - |r| + j);
    }
  }

  lemma PeelingTrims(s: string, n: nat)
    requires n <= |s|
    ensures var peeled := TrimmedBehind(s, n);
            && n + |peeled| <= |s| && peeled == s[|s| - |peeled|..] && IsBlank(s[n..|s| - |peeled|])
  {
    hide TrimStart, IsWhitespace;
    var t, peeled := s[n..], TrimmedBehind(s, n);
    if n == 0 {
      assert s[0..0] == "";
    } else {
      assert t[|t| - |peeled|..] == s[|s| - |peeled|..];
      assert t[..|t| - |peeled|] == s[n..|s| - |peeled|];
    }
  }

  lemma OpeningTrims(s: string, n: nat, peeled: string)
    requires n + |peeled| <= |s| && peeled == s[|s| - |peeled|..] && IsBlank(s[n..|s| - |peeled|])
    ensures var r := Opened(peeled);
            n + |r| <= |s| && r == s[|s| - |r|..] && OnlyOpens(s[n..|s| - |r|])
  {
    hide TrimStart, IsBlank;
    if SUMMARY_OPEN <= peeled {
      OpenerGoes(s, n, peeled, Opened(peeled));
    }
  }

  lemma GapSlices(s: string, n: nat, at: nat, k: nat, end: nat)
    requires n <= at && at + k <= end <= |s|
    ensures s[n..end][..at - n] == s[n..at]
    ensures s[n..end][at - n..] == s[at..][..end - at]
    ensures s[n..end][at - n + k..] == s[at..][k..][..end - at - k]
    ensures s[end..] == s[at..][k..][end - at - k..]
  {}

  lemma OpenerGoes(s: string, n: nat, peeled: string, r: string)
    requires n + |peeled| <= |s| && peeled == s[|s| - |peeled|..] && IsBlank(s[n..|s| - |peeled|])
    requires SUMMARY_OPEN <= peeled && r == TrimStart(peeled[|SUMMARY_OPEN|..])
    ensures n + |r| <= |s| && r == s[|s| - |r|..] && OnlyOpens(s[n..|s| - |r|])
  {
    hide TrimStart, IsBlank, SUMMARY_OPEN;
    var b, k := |s| - |peeled| - n, |SUMMARY_OPEN|;
    assert r == peeled[k..][|peeled| - k - |r|..] && IsBlank(peeled[k..][..|peeled| - k - |r|]);
    GapSlices(s, n, n + b, k, |s| - |r|);
    var gap := s[n..|s| - |r|];
    assert IsBlank(gap[..b]) && SUMMARY_OPEN <= gap[b..] && IsBlank(gap[b + k..]);
  }

  lemma CloserAfterOpener(s: string, start: nat, end: nat)
    requires start < end <= |s| && SUMMARY_OPEN <= s[start..] && SUMMARY_CLOSE <= s[end..]
    ensures start + |SUMMARY_OPEN| <= end
  {
    assert IsTag(SummaryOpen.Text()) && IsTag(SummaryClose.Text());
    TagsDoNotOverlap(s, SUMMARY_OPEN, start, SUMMARY_CLOSE, end);
  }

  const SUMMARY_HEADING := "Summary:\n"

  function Unwrapped(s: string): string {
    var open := First(s, SUMMARY_OPEN);
    var close := Last(s, SUMMARY_CLOSE);
    if open.Some? && close.Some? && close.value > open.value then
      CloserAfterOpener(s, open.value, close.value);
      s[..open.value] + SUMMARY_HEADING
      + WithoutScratchpad(Trim(s[open.value + |SUMMARY_OPEN|..close.value]))
      + s[close.value + |SUMMARY_CLOSE|..]
    else s
  }

  function Formatted(summary: string): string {
    Trim(Collapsed(Neutralized(Unwrapped(WithoutAnalysis(summary)))))
  }

  method StripLeadingScratchpad(inner: string) returns (r: string)
    ensures r == WithoutScratchpad(inner)
    ensures !LeadsWithNumber(Trim(inner)) ==> !Contains(r, ANALYSIS_CLOSE)
    ensures LeadsWithNumber(Trim(inner)) ==> r == Trim(inner)
  {
    hide Trim, TrimStart, Last, LeadsWithNumber, Contains;
    ScratchpadIsPeeled(inner);
    var s := Trim(inner);
    if !LeadsWithNumber(s) {
      var pos := Last(s, ANALYSIS_CLOSE);
      if pos.Some? {
        s := TrimStart(s[pos.value + |ANALYSIS_CLOSE|..]);
      }
    }
    if SUMMARY_OPEN <= s {
      s := TrimStart(s[|SUMMARY_OPEN|..]);
    }
    return s;
  }

  method DropAnalysis(summary: string) returns (result: string)
    ensures result == WithoutAnalysis(summary)
    ensures LeadsWithAnalysis(result) <==>
            LeadsWithAnalysis(ClosedBlocksDropped(summary)) && SummaryHidesAnother(ClosedBlocksDropped(summary))
  {
    AnalysisLeftIff(summary);
    hide First, IsLeading, LeadsWithAnalysis, SummaryHidesAnother, ClosedBlocksDropped;
    result := summary;
    while true
      invariant WithoutAnalysis(result) == WithoutAnalysis(summary)
      decreases |result|
    {
      var open := First(result, ANALYSIS_OPEN);
      if open.None? || !IsLeading(result, open.value) {
        break;
      }
      var start := open.value;
      var close := First(result[start..], ANALYSIS_CLOSE);
      if close.None? {
        var next := First(result[start..], SUMMARY_OPEN);
        result := if next.Some? then result[..start] + result[start + next.value..] else result[..start];
        break;
      }
      result := result[..start] + result[start + close.value + |ANALYSIS_CLOSE|..];
    }
  }

  /** The summary out of its tags, with text before and after it left in place. */
  method UnwrapSummary(s: string) returns (r: string)
    ensures r == Unwrapped(s)
  {
    hide First, Last, WithoutScratchpad, Trim, LeadsWithNumber, Contains;
    var open, close := First(s, SUMMARY_OPEN), Last(s, SUMMARY_CLOSE);
    r := s;
    if open.Some? && close.Some? && close.value > open.value {
      CloserAfterOpener(s, open.value, close.value);
      var before, after := s[..open.value], s[close.value + |SUMMARY_CLOSE|..];
      var inner := StripLeadingScratchpad(Trim(s[open.value + |SUMMARY_OPEN|..close.value]));
      r := before + SUMMARY_HEADING + inner + after;
    }
  }

  method CollapseNewlines(s: string) returns (r: string)
    ensures r == Collapsed(s)
  {
    r := s;
    while Contains(r, THREE_NEWLINES)
      invariant Collapsed(r) == Collapsed(s)
      decreases |r|
    {
      ReplaceShortens(r, THREE_NEWLINES, TWO_NEWLINES);
      r := ReplaceAll(r, THREE_NEWLINES, TWO_NEWLINES);
    }
  }

  method FormatCompactSummary(summary: string) returns (r: string)
    ensures r == Formatted(summary)
  {
    hide WithoutAnalysis, Unwrapped, Neutralized, Collapsed, Trim;
    hide LeadsWithAnalysis, SummaryHidesAnother, ClosedBlocksDropped;
    var result := DropAnalysis(summary);
    result := UnwrapSummary(result);
    result := Neutralized(result);
    result := CollapseNewlines(result);
    r := Trim(result);
  }

  // ---- what a scrubbed summary is ----

  ghost predicate Scrubbed(s: string) {
    TokenFree(s) && !Contains(s, THREE_NEWLINES) && Trim(s) == s
  }

  lemma SliceIsTokenFree(s: string, lo: nat, hi: nat)
    requires TokenFree(s) && lo <= hi <= |s|
    ensures TokenFree(s[lo..hi])
  {
    forall t | Quotes(s[lo..hi], t) ensures Quotes(s, t) {
      ContainsInSlice(s, lo, hi, t.Text());
    }
  }

  lemma CollapsedIsTokenFree(s: string)
    requires TokenFree(s)
    ensures TokenFree(Collapsed(s))
  {
    forall t | Quotes(Collapsed(s), t) ensures Quotes(s, t) {
      CollapsedAddsNoTag(s, t.Text());
    }
  }

  lemma TrimmedStaysClean(s: string)
    requires TokenFree(s) && !Contains(s, THREE_NEWLINES)
    ensures Scrubbed(Trim(s))
  {
    hide TokenFree, Trim, Contains;
    TrimTwice(s);
    TrimIsSlice(s);
    var lo, hi :| 0 <= lo <= hi <= |s| && Trim(s) == s[lo..hi];
    SliceIsTokenFree(s, lo, hi);
    if Contains(s[lo..hi], THREE_NEWLINES) {
      ContainsInSlice(s, lo, hi, THREE_NEWLINES);
    }
  }

  /** Whatever the model wrote, the cleaned text holds none of the six control tokens and no three
      newlines in a row, and is trimmed. */
  lemma FormattedIsScrubbed(summary: string)
    ensures Scrubbed(Formatted(summary))
  {
    hide TokenFree, Scrubbed, Unwrapped, WithoutAnalysis, Neutralized;
    var n := Neutralized(Unwrapped(WithoutAnalysis(summary)));
    NeutralizedIsTokenFree(Unwrapped(WithoutAnalysis(summary)));
    CollapsedIsTokenFree(n);
    TrimmedStaysClean(Collapsed(n));
  }

  /** Without tokens there is nothing to peel, unwrap or neutralize. */
  lemma TokenFreeIsOnlyTidied(s: string)
    requires TokenFree(s)
    ensures Formatted(s) == Trim(Collapsed(s))
  {
    assert !Quotes(s, AnalysisOpen) && !Quotes(s, SummaryOpen);
    hide Contains, WithoutAnalysis, Unwrapped, Neutralized, Trim, Collapsed;
    NothingToPeel(s);
    NothingToNeutralize(s);
  }

  lemma NothingToPeel(s: string)
    requires !Contains(s, ANALYSIS_OPEN) && !Contains(s, SUMMARY_OPEN)
    ensures WithoutAnalysis(s) == s && Unwrapped(s) == s
  {}

  /** Cleaning a second time changes nothing; and the texts it leaves alone are the scrubbed ones. */
  lemma FormattedUnchangedIff(s: string)
    ensures Formatted(Formatted(s)) == Formatted(s)
    ensures Formatted(s) == s <==> Scrubbed(s)
  {
    FormattedIsScrubbed(s);
    ScrubbedIsFixed(Formatted(s));
    if Scrubbed(s) {
      ScrubbedIsFixed(s);
    }
  }

  lemma ScrubbedIsFixed(s: string)
    requires Scrubbed(s)
    ensures Formatted(s) == s
  {
    TokenFreeIsOnlyTidied(s);
  }
}
