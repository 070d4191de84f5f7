/**
 * A conflicted file is split into the text outside its conflict regions and the regions; a resolution is put together
 * again from the former and one replacement for each region, and checked for having kept the former in order.
 */
module ConflictSplit {
  import opened Sequences

  const OPENING := "<<<<<<< "
  const CLOSING := ">>>>>>> "

  /** The characters that end a line for splitlines; carriage returns do not survive reading in text mode. */
  predicate IsBreak(c: char) {
    c in ['\n', '\U{0B}', '\U{0C}', '\U{1C}', '\U{1D}', '\U{1E}', '\U{85}', '\U{2028}', '\U{2029}']
  }

  /** The first line of a text, with its line break. */
  function FirstLine(s: string): (r: string)
    ensures r <= s && (s != [] ==> r != [])
    ensures Complete(r) || r == s
  {
    if s == [] then []
    else if IsBreak(s[0]) then [s[0]]
    else [s[0]] + FirstLine(s[1..])
  }

  function Lines(s: string): seq<string>
    decreases |s|
  {
    if s == [] then [] else [FirstLine(s)] + Lines(s[|FirstLine(s)|..])
  }

  /** The text ends where a line ends. */
  predicate Complete(s: string) {
    s == [] || IsBreak(s[|s| - 1])
  }

  predicate Opens(line: string) {
    OPENING <= line
  }

  predicate Closes(line: string) {
    CLOSING <= line
  }

  /** No line of the text starts an opening marker. */
  predicate Clean(s: string) {
    forall line | line in Lines(s) :: !Opens(line)
  }

  function Concat(parts: seq<string>): string {
    if parts == [] then [] else parts[0] + Concat(parts[1..])
  }

  lemma {:induction false} FirstLineOfConcat(a: string, b: string)
    requires a != [] && Complete(a)
    ensures FirstLine(a + b) == FirstLine(a)
  {
    if !IsBreak(a[0]) {
      assert |a| > 1;
      FirstLineOfConcat(a[1..], b);
      assert (a + b)[1..] == a[1..] + b;
    }
  }

  /** Lines of a text that goes on behind the end of a line. */
  lemma {:induction false} LinesOfConcat(a: string, b: string)
    requires Complete(a)
    ensures Lines(a + b) == Lines(a) + Lines(b)
    decreases |a|
  {
    if a == [] {
      assert a + b == b;
    } else {
      FirstLineOfConcat(a, b);
      var n := |FirstLine(a)|;
      assert (a + b)[n..] == a[n..] + b;
      LinesOfConcat(a[n..], b);
    }
  }

  lemma {:induction false} FirstLineIsOneLine(s: string)
    requires s != []
    ensures Lines(FirstLine(s)) == [FirstLine(s)]
  {
    FirstLineTwice(s);
    var line := FirstLine(s);
    assert line[|line|..] == [];
  }

  lemma {:induction false} FirstLineTwice(s: string)
    ensures FirstLine(FirstLine(s)) == FirstLine(s)
  {
    if s != [] && !IsBreak(s[0]) {
      FirstLineTwice(s[1..]);
      assert ([s[0]] + FirstLine(s[1..]))[1..] == FirstLine(s[1..]);
    }
  }

  /** Lines put together again, each of them one line and all but the last complete. */
  predicate AreLines(lines: seq<string>) {
    && (forall i | 0 <= i < |lines| :: Lines(lines[i]) == [lines[i]])
    && (forall i | 0 <= i < |lines| - 1 :: Complete(lines[i]))
  }

  lemma {:induction false} LinesAreLines(s: string)
    ensures Concat(Lines(s)) == s && AreLines(Lines(s))
    decreases |s|
  {
    if s != [] {
      var line, rest := FirstLine(s), s[|FirstLine(s)|..];
      LinesAreLines(rest);
      FirstLineIsOneLine(s);
      assert s == line + rest;
      if rest == [] {
        assert line == s;
      }
    }
  }

  // ---- splitting ----

  /** Where the splitter stands: `cur` is the text of the segment or region it is in, `depth` the markers open. */
  datatype State = State(commons: seq<string>, regions: seq<string>, cur: string, depth: nat)

  function Step(s: State, line: string): State {
    if s.depth == 0 then
      if Opens(line) then State(s.commons + [s.cur], s.regions, line, 1)
      else s.(cur := s.cur + line)
    else
      var cur := s.cur + line;
      if Opens(line) then s.(cur := cur, depth := s.depth + 1)
      else if !Closes(line) then s.(cur := cur)
      else if s.depth > 1 then s.(cur := cur, depth := s.depth - 1)
      else State(s.commons, s.regions + [cur], [], 0)
  }

  function After(lines: seq<string>): State {
    if lines == [] then State([], [], [], 0)
    else Step(After(lines[..|lines| - 1]), lines[|lines| - 1])
  }

  datatype Parts = Parts(commons: seq<string>, regions: seq<string>)

  function Split(conflicted: string): Parts {
    var end := After(Lines(conflicted));
    Parts(end.commons + [end.cur], end.regions)
  }

  /** Every conflict region is closed: the markers of the file balance out. */
  predicate AllClosed(conflicted: string) {
    After(Lines(conflicted)).depth == 0
  }

  method SplitConflictFile(conflicted: string) returns (commons: seq<string>, regions: seq<string>)
    ensures Parts(commons, regions) == Split(conflicted)
  {
    commons, regions := [], [];
    var cur: string := [];
    var depth: nat := 0;
    var lines := Lines(conflicted);
    for i := 0 to |lines|
      invariant State(commons, regions, cur, depth) == After(lines[..i])
    {
      var line := lines[i];
      AfterThen(lines, i);
      if depth == 0 {
        if Opens(line) {
          commons, cur, depth := commons + [cur], line, 1;
        } else {
          cur := cur + line;
        }
      } else {
        cur := cur + line;
        if Opens(line) {
          depth := depth + 1;
        } else if Closes(line) {
          depth := depth - 1;
          if depth == 0 {
            regions, cur := regions + [cur], [];
          }
        }
      }
    }
    assert lines[..|lines|] == lines;
    commons := commons + [cur];
  }

  lemma AfterThen(lines: seq<string>, i: nat)
    requires i < |lines|
    ensures After(lines[..i + 1]) == Step(After(lines[..i]), lines[i])
  {
    assert lines[..i + 1][..i] == lines[..i];
  }

  /** Segments and regions in turn, and then the segments that have no region behind them. */
  function Woven(commons: seq<string>, regions: seq<string>): string
    decreases |commons|
  {
    if commons == [] then []
    else if regions == [] then commons[0] + Woven(commons[1..], [])
    else commons[0] + regions[0] + Woven(commons[1..], regions[1..])
  }

  lemma {:induction false} WovenThenCommon(commons: seq<string>, regions: seq<string>, c: string)
    requires |regions| <= |commons|
    ensures Woven(commons + [c], regions) == Woven(commons, regions) + c
    decreases |commons|
  {
    if commons == [] {
      assert [c][1..] == [];
    } else {
      var regionsLeft := if regions == [] then [] else regions[1..];
      WovenThenCommon(commons[1..], regionsLeft, c);
      assert (commons + [c])[1..] == commons[1..] + [c];
      ConcatAssociates(if regions == [] then commons[0] else commons[0] + regions[0],
                       Woven(commons[1..], regionsLeft), c);
    }
  }

  lemma {:induction false} WovenThenRegion(commons: seq<string>, regions: seq<string>, r: string)
    requires |commons| == |regions| + 1
    ensures Woven(commons, regions + [r]) == Woven(commons, regions) + r
    decreases |commons|
  {
    if regions == [] {
      assert commons[1..] == [] && [r][1..] == [];
    } else {
      WovenThenRegion(commons[1..], regions[1..], r);
      assert (regions + [r])[1..] == regions[1..] + [r];
      ConcatAssociates(commons[0] + regions[0], Woven(commons[1..], regions[1..]), r);
    }
  }

  /** Nothing is lost at any point of the splitting, and segments and regions keep in step. */
  lemma {:induction false} SplitKeepsText(lines: seq<string>)
    ensures var s := After(lines);
            && |s.commons| == |s.regions| + (if s.depth == 0 then 0 else 1)
            && Woven(s.commons, s.regions) + s.cur == Concat(lines)
  {
    if lines != [] {
      hide Woven;
      var before, line := lines[..|lines| - 1], lines[|lines| - 1];
      SplitKeepsText(before);
      var s := After(before);
      ConcatThen(before, line);
      assert before + [line] == lines;
      ConcatAssociates(Woven(s.commons, s.regions), s.cur, line);
      if s.depth == 0 && Opens(line) {
        WovenThenCommon(s.commons, s.regions, s.cur);
      } else if s.depth == 1 && Closes(line) && !Opens(line) {
        WovenThenRegion(s.commons, s.regions, s.cur + line);
      }
    }
  }

  lemma {:induction false} ConcatThen(parts: seq<string>, last: string)
    ensures Concat(parts + [last]) == Concat(parts) + last
  {
    if parts != [] {
      assert (parts + [last])[1..] == parts[1..] + [last];
      ConcatThen(parts[1..], last);
    }
  }

  /**
   * Weaving segments and regions together gives back the file, always; and there is one more segment than regions
   * exactly when every region is closed.  An unclosed one counts as a further segment.
   */
  lemma SplitRoundTrip(conflicted: string)
    ensures var p := Split(conflicted);
            && Woven(p.commons, p.regions) == conflicted
            && (AllClosed(conflicted) <==> |p.commons| == |p.regions| + 1)
            && (!AllClosed(conflicted) <==> |p.commons| == |p.regions| + 2)
  {
    var s := After(Lines(conflicted));
    SplitKeepsText(Lines(conflicted));
    LinesAreLines(conflicted);
    WovenThenCommon(s.commons, s.regions, s.cur);
  }

  // ---- what a region is ----

  /** Opening lines count up, closing lines down. */
  function Weight(line: string): int {
    if Opens(line) then 1 else if Closes(line) then -1 else 0
  }

  function Surplus(lines: seq<string>): int {
    if lines == [] then 0 else Surplus(lines[..|lines| - 1]) + Weight(lines[|lines| - 1])
  }

  /** From an opening line to the closing line that makes up for it, neither less nor more. */
  predicate IsRegion(region: string) {
    var lines := Lines(region);
    && lines != []
    && OPENING <= lines[0]
    && CLOSING <= lines[|lines| - 1]
    && (forall k | 0 < k < |lines| :: Surplus(lines[..k]) > 0)
    && Surplus(lines) == 0
  }

  /** The beginning of one, so many markers deep. */
  predicate IsOpenRegion(cur: string, depth: nat) {
    var lines := Lines(cur);
    && lines != []
    && OPENING <= lines[0]
    && (forall k | 0 < k <= |lines| :: Surplus(lines[..k]) > 0)
    && Surplus(lines) == depth
  }

  lemma OpeningLineOpens(line: string)
    requires Lines(line) == [line] && Opens(line)
    ensures IsOpenRegion(line, 1)
  {
    assert [line][..0] == [] && [line][..1] == [line];
    assert !Closes(line) by { assert OPENING[0] != CLOSING[0]; }
  }

  lemma LineGrows(cur: string, line: string)
    requires Complete(cur) && Lines(line) == [line]
    ensures Lines(cur + line) == Lines(cur) + [line]
    ensures Surplus(Lines(cur + line)) == Surplus(Lines(cur)) + Weight(line)
  {
    hide Lines, Complete;
    LinesOfConcat(cur, line);
    assert (Lines(cur) + [line])[..|Lines(cur)|] == Lines(cur);
  }

  lemma RegionGrows(cur: string, depth: nat, line: string)
    requires IsOpenRegion(cur, depth) && Complete(cur) && Lines(line) == [line]
    ensures depth + Weight(line) > 0 ==> IsOpenRegion(cur + line, depth + Weight(line))
    ensures depth + Weight(line) == 0 ==> IsRegion(cur + line)
  {
    hide Lines, Complete, Surplus, Opens, Closes;
    LineGrows(cur, line);
    var before, lines := Lines(cur), Lines(cur + line);
    forall k | 0 < k < |lines| ensures Surplus(lines[..k]) > 0 {
      assert lines[..k] == before[..k];
    }
    assert lines[..|lines|] == lines;
    if depth + Weight(line) == 0 {
      assert before[..|before|] == before && Surplus(before[..|before|]) > 0;
      assert Weight(line) < 0;
      ClosingLine(line);
    }
  }

  lemma ClosingLine(line: string)
    requires Weight(line) < 0
    ensures CLOSING <= line
  {}

  /**
   * Every region is whole: its first line opens it, its last line closes it, and no line before the last one does;
   * what the splitter is in the middle of is the beginning of one.
   */
  lemma {:induction false} RegionsAreWhole(lines: seq<string>)
    requires AreLines(lines)
    ensures var s := After(lines);
            && (forall r | r in s.regions :: IsRegion(r))
            && (s.depth > 0 ==> IsOpenRegion(s.cur, s.depth))
            && (s.depth > 0 && Complete(lines[|lines| - 1]) ==> Complete(s.cur))
  {
    hide IsRegion, IsOpenRegion, Lines, Opens, Closes, Complete;
    if lines != [] {
      var before, line := lines[..|lines| - 1], lines[|lines| - 1];
      RegionsAreWhole(before);
      var s := After(before);
      assert before != [] ==> Complete(before[|before| - 1]);
      if s.depth == 0 {
        if Opens(line) {
          OpeningLineOpens(line);
        }
      } else {
        RegionGrows(s.cur, s.depth, line);
        EndsAlike(s.cur, line);
        WeightOf(line);
      }
    }
  }

  lemma EndsAlike(cur: string, line: string)
    requires Lines(line) == [line]
    ensures Complete(line) ==> Complete(cur + line)
  {
    assert line != [];
  }

  lemma WeightOf(line: string)
    ensures Weight(line) == if Opens(line) then 1 else if Closes(line) then -1 else 0
  {}

  /** What the splitter takes for regions are whole regions, and nothing outside them opens one. */
  lemma SplitRegionsAreWhole(conflicted: string)
    ensures forall r | r in Split(conflicted).regions :: IsRegion(r)
    ensures AllClosed(conflicted) ==> forall c | c in Split(conflicted).commons :: Clean(c)
  {
    LinesAreLines(conflicted);
    RegionsAreWhole(Lines(conflicted));
    SegmentsAreClean(Lines(conflicted));
    hide After, Lines, IsRegion, Clean, AreLines;
  }

  // ---- which files have an unclosed region ----

  /** Opening lines less closing lines between two places. */
  function SurplusAt(lines: seq<string>, i: nat, n: nat): int
    requires i <= n <= |lines|
  {
    Surplus(lines[i..n])
  }

  /** From this opening line on, no stretch has as many closing lines as opening ones. */
  predicate NeverClosed(lines: seq<string>, i: nat)
    requires i < |lines|
  {
    Opens(lines[i]) && SurplusFrom(lines, i, |lines|)
  }

  predicate SurplusFrom(lines: seq<string>, i: nat, n: nat)
    requires i <= n <= |lines|
  {
    forall k | i < k <= n :: SurplusAt(lines, i, k) > 0
  }

  lemma SurplusThen(lines: seq<string>, i: nat, n: nat)
    requires i <= n < |lines|
    ensures SurplusAt(lines, i, n + 1) == SurplusAt(lines, i, n) + Weight(lines[n])
  {
    assert lines[i..n + 1][..n - i] == lines[i..n];
  }

  /** The splitter's depth behind so many lines. */
  function DepthAt(lines: seq<string>, n: nat): nat
    requires n <= |lines|
  {
    After(lines[..n]).depth
  }

  lemma DepthThen(lines: seq<string>, n: nat)
    requires n < |lines|
    ensures DepthAt(lines, n) == 0 ==> DepthAt(lines, n + 1) == if Opens(lines[n]) then 1 else 0
    ensures DepthAt(lines, n) > 0 ==> DepthAt(lines, n + 1) == DepthAt(lines, n) + Weight(lines[n])
  {
    hide After, Opens, Closes;
    AfterThen(lines, n);
  }

  lemma NothingYet(lines: seq<string>, i: nat)
    requires i <= |lines|
    ensures DepthAt(lines, 0) == 0 && SurplusAt(lines, i, i) == 0 && SurplusFrom(lines, i, i)
  {}

  lemma SurplusGoesOn(lines: seq<string>, i: nat, n: nat)
    requires i <= n < |lines| && SurplusFrom(lines, i, n) && SurplusAt(lines, i, n + 1) > 0
    ensures SurplusFrom(lines, i, n + 1)
  {
    hide SurplusAt;
  }

  /** Inside a region the splitter's depth is the surplus since a line that has not been closed. */
  lemma {:induction false} DepthHasOpener(lines: seq<string>, n: nat) returns (i: nat)
    requires n <= |lines| && DepthAt(lines, n) > 0
    ensures i < n && Opens(lines[i]) && DepthAt(lines, n) == SurplusAt(lines, i, n) && SurplusFrom(lines, i, n)
  {
    hide Opens, SurplusAt, SurplusFrom, DepthAt;
    NothingYet(lines, 0);
    DepthThen(lines, n - 1);
    if DepthAt(lines, n - 1) == 0 {
      i := n - 1;
      NothingYet(lines, i);
    } else {
      i := DepthHasOpener(lines, n - 1);
    }
    SurplusThen(lines, i, n - 1);
    SurplusGoesOn(lines, i, n - 1);
  }

  lemma {:induction false} DepthCoversSurplus(lines: seq<string>, i: nat, n: nat)
    requires i < n <= |lines| && NeverClosed(lines, i)
    ensures DepthAt(lines, n) >= SurplusAt(lines, i, n) > 0
  {
    hide Opens, SurplusAt, DepthAt;
    DepthThen(lines, n - 1);
    SurplusThen(lines, i, n - 1);
    if n - 1 == i {
      NothingYet(lines, i);
    } else {
      DepthCoversSurplus(lines, i, n - 1);
    }
  }

  /** A file has an unclosed region exactly when it has an opening line that is never closed. */
  lemma UnclosedIff(conflicted: string)
    ensures !AllClosed(conflicted) <==>
            exists i | 0 <= i < |Lines(conflicted)| :: NeverClosed(Lines(conflicted), i)
  {
    hide NeverClosed, Lines;
    var lines := Lines(conflicted);
    DepthAtEnd(conflicted);
    if !AllClosed(conflicted) {
      var i := UnclosedOpener(lines);
      assert NeverClosed(Lines(conflicted), i);
    }
    forall i: nat | i < |lines| && NeverClosed(lines, i) ensures DepthAt(lines, |lines|) > 0 {
      DepthCoversSurplus(lines, i, |lines|);
    }
  }

  lemma DepthAtEnd(conflicted: string)
    ensures AllClosed(conflicted) <==> DepthAt(Lines(conflicted), |Lines(conflicted)|) == 0
  {
    assert Lines(conflicted)[..|Lines(conflicted)|] == Lines(conflicted);
  }

  lemma UnclosedOpener(lines: seq<string>) returns (i: nat)
    requires DepthAt(lines, |lines|) > 0
    ensures i < |lines| && NeverClosed(lines, i)
  {
    i := DepthHasOpener(lines, |lines|);
  }

  /** A file that is one opening line is split into two segments and no region. */
  lemma OneOpeningLine(line: string)
    requires Lines(line) == [line] && Opens(line)
    ensures !AllClosed(line) && Split(line) == Parts(["", line], [])
  {
    hide Lines, Opens;
    assert [line][..0] == [];
    assert After([line]) == Step(After([]), line);
  }

  /** The marker by itself is such a file. */
  lemma LoneOpening()
    ensures !AllClosed(OPENING) && Split(OPENING) == Parts(["", OPENING], [])
  {
    hide Lines, AllClosed, Split;
    LoneLine(OPENING);
    OneOpeningLine(OPENING);
  }

  lemma LoneLine(s: string)
    requires s != [] && forall i | 0 <= i < |s| :: !IsBreak(s[i])
    ensures Lines(s) == [s]
  {
    hide IsBreak, FirstLine;
    NoBreaks(s);
    assert s[|s|..] == [] && Lines([]) == [];
  }

  lemma {:induction false} NoBreaks(s: string)
    requires forall i | 0 <= i < |s| :: !IsBreak(s[i])
    ensures FirstLine(s) == s
  {
    hide IsBreak;
    if s != [] {
      NoBreaks(s[1..]);
    }
  }

  // ---- putting a resolution together ----

  lemma CleanConcat(a: string, b: string)
    requires Complete(a) && Clean(a) && Clean(b)
    ensures Clean(a + b)
    ensures Complete(b) ==> Complete(a + b)
  {
    hide Lines, Opens;
    LinesOfConcat(a, b);
  }

  /** What lies outside the regions has no opening marker, and ends where a line ends if a region follows. */
  lemma {:induction false} SegmentsAreClean(lines: seq<string>)
    requires AreLines(lines)
    ensures var s := After(lines);
            && (forall c | c in s.commons :: Clean(c) && Complete(c))
            && (s.depth == 0 ==> Clean(s.cur))
            && (s.depth == 0 && (lines == [] || Complete(lines[|lines| - 1])) ==> Complete(s.cur))
  {
    hide Clean, Complete, Opens, Closes, Lines;
    if lines == [] {
      NothingIsClean();
    } else {
      var before, line := lines[..|lines| - 1], lines[|lines| - 1];
      SegmentsAreClean(before);
      NothingIsClean();
      var s := After(before);
      assert before != [] ==> Complete(before[|before| - 1]);
      if s.depth == 0 && !Opens(line) {
        OneLineIsClean(line);
        CleanConcat(s.cur, line);
      }
    }
  }

  lemma NothingIsClean()
    ensures Clean([]) && Complete([])
  {}

  lemma OneLineIsClean(line: string)
    requires Lines(line) == [line] && !Opens(line)
    ensures Clean(line)
  {}

  /** The segments and the replacements in turn, as far as both go, and then the last segment. */
  function Zipped(commons: seq<string>, replacements: seq<string>): string {
    if commons == [] || replacements == [] then []
    else commons[0] + replacements[0] + Zipped(commons[1..], replacements[1..])
  }

  function Rebuilt(commons: seq<string>, replacements: seq<string>): string
    requires commons != []
  {
    Zipped(commons, replacements) + commons[|commons| - 1]
  }

  lemma {:induction false} RebuiltIsWoven(commons: seq<string>, replacements: seq<string>)
    requires |commons| == |replacements| + 1
    ensures Rebuilt(commons, replacements) == Woven(commons, replacements)
  {
    if replacements == [] {
      assert commons[1..] == [];
    } else {
      RebuiltIsWoven(commons[1..], replacements[1..]);
      ConcatAssociates(commons[0] + replacements[0], Zipped(commons[1..], replacements[1..]), commons[|commons| - 1]);
    }
  }

  /** A replacement as it is accepted: it ends with a line break and has no line that starts a marker. */
  predicate MarkerFree(s: string) {
    forall line | line in Lines(s) :: !Opens(line) && !Closes(line)
  }

  method TextHasConflictMarkers(text: string) returns (r: bool)
    ensures r <==> !MarkerFree(text)
  {
    var lines := Lines(text);
    for i := 0 to |lines|
      invariant forall j | 0 <= j < i :: !Opens(lines[j]) && !Closes(lines[j])
    {
      if Opens(lines[i]) || Closes(lines[i]) {
        return true;
      }
    }
    return false;
  }

  predicate Acceptable(replacement: string) {
    replacement != [] && replacement[|replacement| - 1] == '\n' && MarkerFree(replacement)
  }

  lemma {:induction false} WovenIsClean(commons: seq<string>, replacements: seq<string>)
    requires |commons| == |replacements| + 1
    requires forall i | 0 <= i < |commons| :: Clean(commons[i]) && (i < |commons| - 1 ==> Complete(commons[i]))
    requires forall r | r in replacements :: Clean(r) && Complete(r)
    ensures Clean(Woven(commons, replacements))
  {
    hide Clean, Complete;
    if replacements == [] {
      assert commons[0] + [] == commons[0] && commons[1..] == [];
    } else {
      WovenIsClean(commons[1..], replacements[1..]);
      CleanConcat(commons[0], replacements[0]);
      CleanConcat(commons[0] + replacements[0], Woven(commons[1..], replacements[1..]));
    }
  }

  /**
   * When every region is closed, whatever acceptable replacements are put in their place, no line of the result
   * starts an opening marker.
   */
  lemma ResolutionHasNoOpening(conflicted: string, replacements: seq<string>)
    requires AllClosed(conflicted) && |replacements| == |Split(conflicted).regions|
    requires forall r | r in replacements :: Acceptable(r)
    ensures Clean(Rebuilt(Split(conflicted).commons, replacements))
  {
    hide Woven, After, Lines;
    SplitRoundTrip(conflicted);
    LinesAreLines(conflicted);
    SegmentsAreClean(Lines(conflicted));
    RebuiltIsWoven(Split(conflicted).commons, replacements);
    WovenIsClean(Split(conflicted).commons, replacements);
  }

  // ---- checking a resolution ----

  /** Places for the segments in the text from `from` on, in order and without overlap. */
  predicate PlacesFor(segments: seq<string>, text: string, from: nat, places: seq<nat>) {
    && |places| == |segments|
    && (forall i | 0 <= i < |places| ::
          from <= places[i] && places[i] + |segments[i]| <= |text| && segments[i] <= text[places[i]..])
    && (forall i | 0 < i < |places| :: places[i - 1] + |segments[i - 1]| <= places[i])
  }

  ghost predicate OccurInOrder(segments: seq<string>, text: string, from: nat) {
    exists places :: PlacesFor(segments, text, from, places)
  }

  /** The leftmost place of a segment at or behind `pos`. */
  function FindFrom(text: string, seg: string, pos: nat): (r: Option<nat>)
    requires pos <= |text|
    ensures r.Some? ==> pos <= r.value && r.value + |seg| <= |text|
  {
    var found := Find(text[pos..], seg);
    if found.Some? then Some(pos + found.value) else None
  }

  /** The check takes each segment at its leftmost place; empty ones are passed over. */
  predicate Preserves(segments: seq<string>, text: string, pos: nat)
    requires pos <= |text|
  {
    if segments == [] then true
    else if segments[0] == [] then Preserves(segments[1..], text, pos)
    else
      var found := FindFrom(text, segments[0], pos);
      found.Some? && Preserves(segments[1..], text, found.value + |segments[0]|)
  }

  method ResolutionPreservesCommon(conflicted: string, resolved: string) returns (r: bool)
    ensures r <==> OccurInOrder(Split(conflicted).commons, resolved, 0)
  {
    hide OccurInOrder, Split, FindFrom;
    var commons, _ := SplitConflictFile(conflicted);
    GreedyIff(commons, resolved, 0);
    var pos: nat := 0;
    assert commons[0..] == commons;
    for i := 0 to |commons|
      invariant pos <= |resolved|
      invariant Preserves(commons, resolved, 0) <==> Preserves(commons[i..], resolved, pos)
    {
      assert commons[i..][1..] == commons[i + 1..] && commons[i..][0] == commons[i];
      if commons[i] != [] {
        var found := FindFrom(resolved, commons[i], pos);
        if found.None? {
          return false;
        }
        pos := found.value + |commons[i]|;
      }
    }
    return true;
  }

  /** The check accepts exactly when the segments occur in order: the leftmost place never spoils a later one. */
  lemma GreedyIff(segments: seq<string>, text: string, pos: nat)
    requires pos <= |text|
    ensures Preserves(segments, text, pos) <==> OccurInOrder(segments, text, pos)
  {
    if Preserves(segments, text, pos) {
      var places := GreedyPlaces(segments, text, pos);
    } else if OccurInOrder(segments, text, pos) {
      var places :| PlacesFor(segments, text, pos, places);
      PlacesSuffice(segments, text, pos, places);
    }
  }

  lemma FoundIsFirst(seg: string, text: string, pos: nat, p: nat)
    requires pos <= p && p + |seg| <= |text| && seg <= text[p..]
    ensures FindFrom(text, seg, pos).Some? && FindFrom(text, seg, pos).value <= p
  {
    assert text[pos..][p - pos..] == text[p..];
  }

  lemma FoundIsThere(seg: string, text: string, pos: nat)
    requires pos <= |text| && FindFrom(text, seg, pos).Some?
    ensures seg <= text[FindFrom(text, seg, pos).value..]
  {
    var found := Find(text[pos..], seg).value;
    assert text[pos..][found..] == text[pos + found..];
  }

  lemma {:induction false} GreedyPlaces(segments: seq<string>, text: string, pos: nat) returns (places: seq<nat>)
    requires pos <= |text| && Preserves(segments, text, pos)
    ensures PlacesFor(segments, text, pos, places)
  {
    hide FindFrom;
    if segments == [] {
      places := [];
    } else {
      var seg := segments[0];
      var p := pos;
      if seg != [] {
        p := FindFrom(text, seg, pos).value;
        FoundIsThere(seg, text, pos);
      }
      var rest := GreedyPlaces(segments[1..], text, p + |seg|);
      places := [p] + rest;
      PlaceBefore(segments, text, pos, p, rest);
    }
  }

  lemma PlaceBefore(segments: seq<string>, text: string, pos: nat, p: nat, rest: seq<nat>)
    requires segments != [] && pos <= p && p + |segments[0]| <= |text| && segments[0] <= text[p..]
    requires PlacesFor(segments[1..], text, p + |segments[0]|, rest)
    ensures PlacesFor(segments, text, pos, [p] + rest)
  {
    var places := [p] + rest;
    forall i | 0 < i < |places| ensures places[i - 1] + |segments[i - 1]| <= places[i] {
      assert places[i] == rest[i - 1] && segments[i] == segments[1..][i - 1];
      assert i > 1 ==> places[i - 1] == rest[i - 2] && segments[i - 1] == segments[1..][i - 2];
    }
    forall i | 0 <= i < |places|
      ensures pos <= places[i] && places[i] + |segments[i]| <= |text| && segments[i] <= text[places[i]..]
    {
      assert i > 0 ==> places[i] == rest[i - 1] && segments[i] == segments[1..][i - 1];
    }
  }

  lemma PlacesBehind(segments: seq<string>, text: string, from: nat, earlier: nat, places: seq<nat>)
    requires segments != [] && PlacesFor(segments, text, from, places) && earlier <= places[0] + |segments[0]|
    ensures PlacesFor(segments[1..], text, earlier, places[1..])
  {
    var behind, rest := places[1..], segments[1..];
    forall i | 0 <= i < |behind| ensures earlier <= behind[i] {
      BehindFirst(segments, text, from, places, i + 1);
    }
    assert forall i | 0 <= i < |behind| :: behind[i] == places[i + 1] && rest[i] == segments[i + 1];
  }

  lemma {:induction false} BehindFirst(segments: seq<string>, text: string, from: nat, places: seq<nat>, i: nat)
    requires PlacesFor(segments, text, from, places) && 0 < i < |places|
    ensures places[0] + |segments[0]| <= places[i]
  {
    if i > 1 {
      BehindFirst(segments, text, from, places, i - 1);
    }
  }

  lemma FirstPlace(segments: seq<string>, text: string, from: nat, places: seq<nat>)
    requires segments != [] && PlacesFor(segments, text, from, places)
    ensures places != [] && from <= places[0] && places[0] + |segments[0]| <= |text|
    ensures segments[0] <= text[places[0]..]
  {}

  lemma PreservesFrom(segments: seq<string>, text: string, pos: nat, next: nat)
    requires segments != [] && pos <= |text| && next <= |text|
    requires segments[0] == [] ==> next == pos
    requires segments[0] != [] ==>
               FindFrom(text, segments[0], pos).Some? && next == FindFrom(text, segments[0], pos).value + |segments[0]|
    requires Preserves(segments[1..], text, next)
    ensures Preserves(segments, text, pos)
  {
    hide FindFrom;
  }

  lemma {:induction false} PlacesSuffice(segments: seq<string>, text: string, pos: nat, places: seq<nat>)
    requires pos <= |text| && PlacesFor(segments, text, pos, places)
    ensures Preserves(segments, text, pos)
  {
    if segments != [] {
      hide FindFrom, PlacesFor, Preserves;
      FirstPlace(segments, text, pos, places);
      var seg := segments[0];
      var next := pos;
      if seg != [] {
        FoundIsFirst(seg, text, pos, places[0]);
        next := FindFrom(text, seg, pos).value + |seg|;
      }
      PlacesBehind(segments, text, pos, next, places);
      PlacesSuffice(segments[1..], text, next, places[1..]);
      PreservesFrom(segments, text, pos, next);
    }
  }

  lemma {:induction false} WovenPlaces(before: string, commons: seq<string>, replacements: seq<string>)
    returns (places: seq<nat>)
    requires |commons| == |replacements| + 1
    ensures PlacesFor(commons, before + Woven(commons, replacements), |before|, places)
    decreases |commons|
  {
    var text := before + Woven(commons, replacements);
    var c, rest := commons[0], commons[1..];
    var behind: seq<nat> := [];
    if replacements == [] {
      assert Woven(commons, replacements) == c + Woven(rest, []);
    } else {
      var r := replacements[0];
      var tail := Woven(rest, replacements[1..]);
      assert Woven(commons, replacements) == c + r + tail;
      assert text == (before + c + r) + tail;
      behind := WovenPlaces(before + c + r, rest, replacements[1..]);
      PlacesEarlier(rest, text, |before + c + r|, |before| + |c|, behind);
    }
    assert text[|before|..] == Woven(commons, replacements);
    places := [|before|] + behind;
    PlaceBefore(commons, text, |before|, |before|, behind);
  }

  lemma PlacesEarlier(segments: seq<string>, text: string, from: nat, earlier: nat, places: seq<nat>)
    requires earlier <= from && PlacesFor(segments, text, from, places)
    ensures PlacesFor(segments, text, earlier, places)
  {}

  /** A resolution put together from a file whose regions are closed always passes the check. */
  lemma RebuiltIsAccepted(conflicted: string, replacements: seq<string>)
    requires AllClosed(conflicted) && |replacements| == |Split(conflicted).regions|
    ensures OccurInOrder(Split(conflicted).commons, Rebuilt(Split(conflicted).commons, replacements), 0)
  {
    hide Woven, After, Lines, Rebuilt, PlacesFor;
    var commons := Split(conflicted).commons;
    SplitRoundTrip(conflicted);
    RebuiltIsWoven(commons, replacements);
    var places := WovenPlaces([], commons, replacements);
    assert [] + Woven(commons, replacements) == Woven(commons, replacements);
  }
}
