/** What the recovered lines mean: their numbers point into the new file, they increase within a file,
    and no hunk id is shared between files. */
module DiffMeaning {
  import opened Wrappers
  import opened Text
  import opened DiffParser
  import opened DiffPrinter
  import opened DiffRoundTrip
  import opened DiffExactness

  function Texts(lines: seq<ChangedLine>): seq<string> {
    if lines == [] then [] else [lines[0].text] + Texts(lines[1..])
  }

  ghost predicate Increasing(lines: seq<ChangedLine>) {
    forall i, j | 0 <= i < j < |lines| :: lines[i].newLineno < lines[j].newLineno && lines[i].hunkId <= lines[j].hunkId
  }

  /** Every line sits strictly after `low` new-file lines, within the first `high`, and holds the text found there. */
  ghost predicate PointsInto(lines: seq<ChangedLine>, file: seq<string>, low: int, high: int) {
    forall line | line in lines ::
      0 <= low < line.newLineno <= high <= |file| && file[line.newLineno - 1] == line.text
  }

  ghost predicate HunkIdsIn(lines: seq<ChangedLine>, low: int, high: int) {
    forall line | line in lines :: low < line.hunkId <= high
  }

  lemma {:induction false} TextsConcat(a: seq<ChangedLine>, b: seq<ChangedLine>)
    ensures Texts(a + b) == Texts(a) + Texts(b)
  {
    if a == [] {
      assert a + b == b;
    } else {
      assert (a + b)[0] == a[0] && (a + b)[1..] == a[1..] + b;
      TextsConcat(a[1..], b);
    }
  }

  lemma {:induction false} AddTextsConcat(a: seq<Op>, b: seq<Op>)
    ensures AddTexts(a + b) == AddTexts(a) + AddTexts(b)
  {
    if a == [] {
      assert a + b == b;
    } else {
      assert (a + b)[0] == a[0] && (a + b)[1..] == a[1..] + b;
      AddTextsConcat(a[1..], b);
    }
  }

  /** The same facts, line by line: each line stands after `low` and the previous one, at most at `high`,
      with the text the file has there and a hunk id from first to last that never goes down. */
  ghost predicate Placed(lines: seq<ChangedLine>, file: seq<string>, low: nat, high: nat, first: int, last: int) {
    lines == [] ||
    (var line := lines[0];
     && low < line.newLineno <= high <= |file| && file[line.newLineno - 1] == line.text
     && first <= line.hunkId <= last
     && Placed(lines[1..], file, line.newLineno, high, line.hunkId, last))
  }

  /** Loosening the bounds of a run. */
  lemma {:induction false} PlacedLoosen(
      lines: seq<ChangedLine>, file: seq<string>, low: nat, high: nat, first: int, last: int,
      low': nat, high': nat, first': int, last': int)
    requires Placed(lines, file, low, high, first, last)
    requires low' <= low && high <= high' <= |file| && first' <= first && last <= last'
    ensures Placed(lines, file, low', high', first', last')
    decreases |lines|
  {
    if lines != [] {
      var line := lines[0];
      PlacedLoosen(lines[1..], file, line.newLineno, high, line.hunkId, last, line.newLineno, high', line.hunkId,
        last');
    }
  }

  /** Two runs, one after the other. */
  lemma {:induction false} PlacedConcat(
      a: seq<ChangedLine>, b: seq<ChangedLine>, file: seq<string>,
      low: nat, mid: nat, high: nat, first: int, middle: int, last: int)
    requires Placed(a, file, low, mid, first, middle) && Placed(b, file, mid, high, middle, last)
    requires low <= mid <= high <= |file| && first <= middle <= last
    ensures Placed(a + b, file, low, high, first, last)
    decreases |a|
  {
    if a == [] {
      assert a + b == b;
      PlacedLoosen(b, file, mid, high, middle, last, low, high, first, last);
    } else {
      assert (a + b)[0] == a[0] && (a + b)[1..] == a[1..] + b;
      PlacedConcat(a[1..], b, file, a[0].newLineno, mid, high, a[0].hunkId, middle, last);
    }
  }

  lemma {:induction false} PlacedMeans(
      lines: seq<ChangedLine>, file: seq<string>, low: nat, high: nat, first: int, last: int)
    requires Placed(lines, file, low, high, first, last) && high <= |file|
    ensures Increasing(lines) && PointsInto(lines, file, low, high) && HunkIdsIn(lines, first - 1, last)
    decreases |lines|
  {
    if lines != [] {
      var line := lines[0];
      PlacedMeans(lines[1..], file, line.newLineno, high, line.hunkId, last);
      HeadMeans(line, lines[1..], file, low, high, first, last);
      assert lines == [line] + lines[1..];
    }
  }

  lemma HeadMeans(
      line: ChangedLine, rest: seq<ChangedLine>, file: seq<string>, low: nat, high: nat, first: int, last: int)
    requires low < line.newLineno <= high <= |file| && file[line.newLineno - 1] == line.text
    requires first <= line.hunkId <= last
    requires Increasing(rest) && PointsInto(rest, file, line.newLineno, high) && HunkIdsIn(rest, line.hunkId - 1, last)
    ensures var lines := [line] + rest;
      Increasing(lines) && PointsInto(lines, file, low, high) && HunkIdsIn(lines, first - 1, last)
  {
    var lines := [line] + rest;
    assert forall i | 0 < i < |lines| :: lines[i] == rest[i - 1] && rest[i - 1] in rest;
  }

  lemma {:induction false} OpsBalance(ops: seq<Op>, before: int, hunkId: nat)
    ensures |NewOps(ops)| - |OldOps(ops)| == |OpsAdded(ops, before, hunkId)| - DelCount(ops, Always)
  {
    if ops != [] {
      OpsBalance(ops[1..], before, hunkId);
      OpsBalance(ops[1..], before + 1, hunkId);
    }
  }

  lemma {:induction false} OpsTexts(ops: seq<Op>, before: int, hunkId: nat)
    ensures Texts(OpsAdded(ops, before, hunkId)) == AddTexts(ops)
  {
    if ops != [] {
      OpsTexts(ops[1..], before, hunkId);
      OpsTexts(ops[1..], before + 1, hunkId);
      if ops[0].Add? {
        TextsConcat([ChangedLine(before + 1, ops[0].text, hunkId)], OpsAdded(ops[1..], before + 1, hunkId));
      }
    }
  }

  /** The texts stand in the file after `before` lines. */
  ghost predicate StandsAt(texts: seq<string>, before: nat, file: seq<string>) {
    before + |texts| <= |file| && file[before..before + |texts|] == texts
  }

  /** Inside one hunk, whose new side stands in the file after `before` lines. */
  lemma {:induction false} OpsPlaced(ops: seq<Op>, before: nat, hunkId: nat, file: seq<string>)
    requires StandsAt(NewOps(ops), before, file)
    ensures Placed(OpsAdded(ops, before, hunkId), file, before, before + |NewOps(ops)|, hunkId, hunkId)
    decreases |ops|, 1
  {
    if ops != [] {
      if ops[0].Keep? || ops[0].Add? {
        NewSideFirst(ops, before, hunkId, file);
      } else {
        OldSideOnly(ops, before, hunkId);
        OpsPlaced(ops[1..], before, hunkId, file);
      }
    }
  }

  lemma {:induction false} NewSideFirst(ops: seq<Op>, before: nat, hunkId: nat, file: seq<string>)
    requires ops != [] && (ops[0].Keep? || ops[0].Add?) && StandsAt(NewOps(ops), before, file)
    ensures Placed(OpsAdded(ops, before, hunkId), file, before, before + |NewOps(ops)|, hunkId, hunkId)
    decreases |ops|, 0
  {
    WindowStep(ops, before, file);
    OpsPlaced(ops[1..], before + 1, hunkId, file);
    PlacedStep(ops, before, hunkId, file);
  }

  lemma OldSideOnly(ops: seq<Op>, before: nat, hunkId: nat)
    requires ops != [] && !ops[0].Keep? && !ops[0].Add?
    ensures NewOps(ops) == NewOps(ops[1..]) && OpsAdded(ops, before, hunkId) == OpsAdded(ops[1..], before, hunkId)
  {
  }

  lemma PlacedStep(ops: seq<Op>, before: nat, hunkId: nat, file: seq<string>)
    requires ops != [] && (ops[0].Keep? || ops[0].Add?)
    requires before + 1 + |NewOps(ops[1..])| <= |file| && file[before] == ops[0].text
    requires Placed(OpsAdded(ops[1..], before + 1, hunkId), file, before + 1, before + 1 + |NewOps(ops[1..])|, hunkId,
      hunkId)
    ensures Placed(OpsAdded(ops, before, hunkId), file, before, before + |NewOps(ops)|, hunkId, hunkId)
  {
    var rest, high := OpsAdded(ops[1..], before + 1, hunkId), before + 1 + |NewOps(ops[1..])|;
    if ops[0].Add? {
      PlacedFirst(ops[0].text, rest, before, high, hunkId, file);
    } else {
      PlacedLoosen(rest, file, before + 1, high, hunkId, hunkId, before, high, hunkId, hunkId);
    }
  }

  lemma PlacedFirst(text: string, rest: seq<ChangedLine>, before: nat, high: nat, hunkId: nat, file: seq<string>)
    requires before < high <= |file| && file[before] == text
    requires Placed(rest, file, before + 1, high, hunkId, hunkId)
    ensures Placed([ChangedLine(before + 1, text, hunkId)] + rest, file, before, high, hunkId, hunkId)
  {
    assert ([ChangedLine(before + 1, text, hunkId)] + rest)[1..] == rest;
  }

  lemma WindowStep(ops: seq<Op>, before: nat, file: seq<string>)
    requires ops != [] && (ops[0].Keep? || ops[0].Add?)
    requires StandsAt(NewOps(ops), before, file)
    ensures before < |file| && file[before] == ops[0].text && |NewOps(ops)| == 1 + |NewOps(ops[1..])|
    ensures StandsAt(NewOps(ops[1..]), before + 1, file)
  {
    var whole := NewOps(ops);
    assert whole[0] == ops[0].text && whole[1..] == NewOps(ops[1..]);
    assert file[before] == whole[0];
    assert file[before + 1..before + |whole|] == file[before..before + |whole|][1..];
  }

  lemma {:induction false} SegmentsBalance(segments: seq<Segment>, before: nat, hunkId: nat)
    ensures |NewText(segments)| - |OldText(segments)|
      == |AddedLines(segments, before, hunkId)| - DelCount(AllOps(segments), Always)
    decreases |segments|
  {
    if segments != [] {
      if segments[0].Gap? {
        GapBalance(segments, before, hunkId);
        SegmentsBalance(segments[1..], before + |segments[0].lines|, hunkId);
      } else {
        SegmentsBalance(segments[1..], before + |NewOps(segments[0].ops)|, hunkId + 1);
        HunkBalance(segments, before, hunkId);
      }
    }
  }

  lemma GapBalance(segments: seq<Segment>, before: nat, hunkId: nat)
    requires segments != [] && segments[0].Gap?
    ensures |NewText(segments)| - |OldText(segments)| == |NewText(segments[1..])| - |OldText(segments[1..])|
    ensures AddedLines(segments, before, hunkId) == AddedLines(segments[1..], before + |segments[0].lines|, hunkId)
    ensures AllOps(segments) == AllOps(segments[1..])
  {
  }

  lemma HunkBalance(segments: seq<Segment>, before: nat, hunkId: nat)
    requires segments != [] && segments[0].Hunk?
    requires var after := before + |NewOps(segments[0].ops)|;
      |NewText(segments[1..])| - |OldText(segments[1..])|
      == |AddedLines(segments[1..], after, hunkId + 1)| - DelCount(AllOps(segments[1..]), Always)
    ensures |NewText(segments)| - |OldText(segments)|
      == |AddedLines(segments, before, hunkId)| - DelCount(AllOps(segments), Always)
  {
    OpsBalance(segments[0].ops, before, hunkId + 1);
    DelCountConcat(segments[0].ops, AllOps(segments[1..]), Always);
  }

  lemma {:induction false} SegmentTexts(segments: seq<Segment>, before: nat, hunkId: nat)
    ensures Texts(AddedLines(segments, before, hunkId)) == AddTexts(AllOps(segments))
    decreases |segments|
  {
    if segments != [] {
      var rest := segments[1..];
      if segments[0].Gap? {
        GapBalance(segments, before, hunkId);
        SegmentTexts(rest, before + |segments[0].lines|, hunkId);
      } else {
        var ops := segments[0].ops;
        SegmentTexts(rest, before + |NewOps(ops)|, hunkId + 1);
        HunkTexts(ops, AddedLines(rest, before + |NewOps(ops)|, hunkId + 1), AllOps(rest), before, hunkId + 1);
      }
    }
  }

  lemma HunkTexts(ops: seq<Op>, lines: seq<ChangedLine>, rest: seq<Op>, before: nat, hunkId: nat)
    requires Texts(lines) == AddTexts(rest)
    ensures Texts(OpsAdded(ops, before, hunkId) + lines) == AddTexts(ops + rest)
  {
    OpsTexts(ops, before, hunkId);
    TextsConcat(OpsAdded(ops, before, hunkId), lines);
    AddTextsConcat(ops, rest);
  }

  lemma Window(file: seq<string>, before: nat, first: seq<string>, rest: seq<string>)
    requires before <= |file| && file[before..] == first + rest
    ensures before + |first| <= |file| && file[before..before + |first|] == first && file[before + |first|..] == rest
  {
    assert |file[before..]| == |first| + |rest|;
    assert file[before..before + |first|] == file[before..][..|first|];
    assert file[before + |first|..] == file[before..][|first|..];
  }

  /** A whole file, by segments; file is the new text, of which `before` lines come first. */
  lemma {:induction false} SegmentsPlaced(
      segments: seq<Segment>, before: nat, hunkId: nat, file: seq<string>, low: nat, first: int)
    requires before <= |file| && file[before..] == NewText(segments) && low <= before && first <= hunkId + 1
    ensures Placed(AddedLines(segments, before, hunkId), file, low, |file|, first, hunkId + HunkCount(segments))
    decreases |segments|, 0
  {
    if segments != [] {
      if segments[0].Gap? {
        FirstGapAdds(segments, before, hunkId);
        GapPlaced(segments[0].lines, segments[1..], before, hunkId, file, low, first);
      } else {
        FirstHunkAdds(segments, before, hunkId);
        HunkFirstPlaced(segments[0].ops, segments[1..], before, hunkId, file, low, first);
      }
    }
  }

  lemma FirstGapAdds(segments: seq<Segment>, before: nat, hunkId: nat)
    requires segments != [] && segments[0].Gap?
    ensures var lines, rest := segments[0].lines, segments[1..];
      && NewText(segments) == lines + NewText(rest)
      && AddedLines(segments, before, hunkId) == AddedLines(rest, before + |lines|, hunkId)
      && HunkCount(segments) == HunkCount(rest)
  {
  }

  lemma FirstHunkAdds(segments: seq<Segment>, before: nat, hunkId: nat)
    requires segments != [] && segments[0].Hunk?
    ensures var ops, rest := segments[0].ops, segments[1..];
      && NewText(segments) == NewOps(ops) + NewText(rest)
      && AddedLines(segments, before, hunkId)
         == OpsAdded(ops, before, hunkId + 1) + AddedLines(rest, before + |NewOps(ops)|, hunkId + 1)
      && HunkCount(segments) == 1 + HunkCount(rest)
  {
  }

  lemma {:induction false} GapPlaced(
      lines: seq<string>, rest: seq<Segment>, before: nat, hunkId: nat, file: seq<string>, low: nat, first: int)
    requires before <= |file| && file[before..] == lines + NewText(rest) && low <= before && first <= hunkId + 1
    ensures Placed(AddedLines(rest, before + |lines|, hunkId), file, low, |file|, first, hunkId + HunkCount(rest))
    decreases |rest|, 1
  {
    Window(file, before, lines, NewText(rest));
    SegmentsPlaced(rest, before + |lines|, hunkId, file, low, first);
  }

  lemma {:induction false} HunkFirstPlaced(
      ops: seq<Op>, rest: seq<Segment>, before: nat, hunkId: nat, file: seq<string>, low: nat, first: int)
    requires before <= |file| && file[before..] == NewOps(ops) + NewText(rest) && low <= before && first <= hunkId + 1
    ensures Placed(OpsAdded(ops, before, hunkId + 1) + AddedLines(rest, before + |NewOps(ops)|, hunkId + 1),
                   file, low, |file|, first, hunkId + 1 + HunkCount(rest))
    decreases |rest|, 2
  {
    HunkPlaced(ops, NewText(rest), before, hunkId + 1, file);
    RestPlaced(OpsAdded(ops, before, hunkId + 1), rest, before, before + |NewOps(ops)|, hunkId + 1, file, low, first);
  }

  /** The hunk's own lines, where its new side comes first. */
  lemma HunkPlaced(ops: seq<Op>, restText: seq<string>, before: nat, hunkId: nat, file: seq<string>)
    requires before <= |file| && file[before..] == NewOps(ops) + restText
    ensures var mid := before + |NewOps(ops)|;
      mid <= |file| && file[mid..] == restText
        && Placed(OpsAdded(ops, before, hunkId), file, before, mid, hunkId, hunkId)
  {
    Window(file, before, NewOps(ops), restText);
    OpsPlaced(ops, before, hunkId, file);
  }

  /** Placed lines, then those of the rest. */
  lemma {:induction false} RestPlaced(
      here: seq<ChangedLine>, rest: seq<Segment>, before: nat, mid: nat, hunkId: nat, file: seq<string>, low: nat,
      first: int)
    requires before <= mid <= |file| && file[mid..] == NewText(rest) && low <= before && first <= hunkId
    requires Placed(here, file, before, mid, hunkId, hunkId)
    ensures Placed(here + AddedLines(rest, mid, hunkId), file, low, |file|, first, hunkId + HunkCount(rest))
    decreases |rest|, 1
  {
    var added, last := AddedLines(rest, mid, hunkId), hunkId + HunkCount(rest);
    SegmentsPlaced(rest, mid, hunkId, file, mid, hunkId);
    JoinPlaced(here, added, file, before, mid, hunkId, last, low, first);
  }

  lemma JoinPlaced(
      here: seq<ChangedLine>, rest: seq<ChangedLine>, file: seq<string>, before: nat, mid: nat, hunkId: nat, last: nat,
      low: nat, first: int)
    requires before <= mid <= |file| && low <= before && first <= hunkId <= last
    requires Placed(here, file, before, mid, hunkId, hunkId) && Placed(rest, file, mid, |file|, hunkId, last)
    ensures Placed(here + rest, file, low, |file|, first, last)
  {
    PlacedConcat(here, rest, file, before, mid, |file|, hunkId, hunkId, last);
    PlacedLoosen(here + rest, file, before, |file|, hunkId, last, low, |file|, first, last);
  }

  /** The added lines of a whole file, hunks numbered from base + 1. */
  lemma AddedOrdered(segments: seq<Segment>, base: nat)
    ensures var lines, file := AddedLines(segments, 0, base), NewText(segments);
      Increasing(lines) && PointsInto(lines, file, 0, |file|) && HunkIdsIn(lines, base, base + HunkCount(segments))
  {
    var file := NewText(segments);
    assert file[0..] == file;
    SegmentsPlaced(segments, 0, base, file, 0, base + 1);
    PlacedMeans(AddedLines(segments, 0, base), file, 0, |file|, base + 1, base + HunkCount(segments));
  }

  // --- Skipped additions leave the order as it is ---

  function Blanks(n: nat): seq<Op> { if n == 0 then [] else [Keep("")] + Blanks(n - 1) }

  /** The hunk as the parser numbers it, filled up to its true length. */
  function Padded(ops: seq<Op>): seq<Op> { Seen(ops) + Blanks(SkippedIn(ops)) }

  function SkippedIn(ops: seq<Op>): nat {
    if ops == [] then 0 else (if ops[0].Add? && Doubled(ops[0].text, '+') then 1 else 0) + SkippedIn(ops[1..])
  }

  function PaddedAll(segments: seq<Segment>): seq<Segment> {
    if segments == [] then []
    else [if segments[0].Hunk? then Hunk(Padded(segments[0].ops), "") else segments[0]] + PaddedAll(segments[1..])
  }

  lemma {:induction false} BlanksOnly(n: nat, before: int, hunkId: nat)
    ensures OpsAdded(Blanks(n), before, hunkId) == [] && |NewOps(Blanks(n))| == n
  {
    if n > 0 {
      BlanksOnly(n - 1, before + 1, hunkId);
    }
  }

  lemma {:induction false} BlanksAddNothing(ops: seq<Op>, n: nat, before: int, hunkId: nat)
    ensures OpsAdded(ops + Blanks(n), before, hunkId) == OpsAdded(ops, before, hunkId)
    ensures |NewOps(ops + Blanks(n))| == |NewOps(ops)| + n
    decreases |ops|
  {
    if ops == [] {
      assert ops + Blanks(n) == Blanks(n);
      BlanksOnly(n, before, hunkId);
    } else {
      assert (ops + Blanks(n))[0] == ops[0] && (ops + Blanks(n))[1..] == ops[1..] + Blanks(n);
      BlanksAddNothing(ops[1..], n, before, hunkId);
      BlanksAddNothing(ops[1..], n, before + 1, hunkId);
    }
  }

  lemma {:induction false} SkippedLength(ops: seq<Op>)
    ensures |NewOps(Seen(ops))| + SkippedIn(ops) == |NewOps(ops)|
  {
    if ops != [] {
      SkippedLength(ops[1..]);
    }
  }

  lemma PaddedHunk(ops: seq<Op>, before: int, hunkId: nat)
    ensures OpsAdded(Padded(ops), before, hunkId) == OpsAdded(Seen(ops), before, hunkId)
    ensures |NewOps(Padded(ops))| == |NewOps(ops)|
  {
    BlanksAddNothing(Seen(ops), SkippedIn(ops), before, hunkId);
    SkippedLength(ops);
  }

  lemma {:induction false} KeptArePadded(segments: seq<Segment>, before: nat, hunkId: nat)
    ensures KeptLines(segments, before, hunkId) == AddedLines(PaddedAll(segments), before, hunkId)
    ensures HunkCount(PaddedAll(segments)) == HunkCount(segments)
    decreases |segments|
  {
    if segments != [] {
      if segments[0].Gap? {
        PaddedGapFirst(segments, before, hunkId);
        KeptArePadded(segments[1..], before + |segments[0].lines|, hunkId);
      } else {
        PaddedHunkFirst(segments, before, hunkId);
        KeptArePadded(segments[1..], before + |NewOps(segments[0].ops)|, hunkId + 1);
      }
    }
  }

  lemma PaddedGapFirst(segments: seq<Segment>, before: nat, hunkId: nat)
    requires segments != [] && segments[0].Gap?
    ensures var rest, after := segments[1..], before + |segments[0].lines|;
      && KeptLines(segments, before, hunkId) == KeptLines(rest, after, hunkId)
      && AddedLines(PaddedAll(segments), before, hunkId) == AddedLines(PaddedAll(rest), after, hunkId)
      && HunkCount(segments) == HunkCount(rest) && HunkCount(PaddedAll(segments)) == HunkCount(PaddedAll(rest))
  {
    var padded := PaddedAll(segments);
    assert padded[0] == segments[0] && padded[1..] == PaddedAll(segments[1..]);
    FirstGapAdds(padded, before, hunkId);
  }

  lemma PaddedHunkFirst(segments: seq<Segment>, before: nat, hunkId: nat)
    requires segments != [] && segments[0].Hunk?
    ensures var ops, rest := segments[0].ops, segments[1..];
      var here, after := OpsAdded(Seen(ops), before, hunkId + 1), before + |NewOps(ops)|;
      && KeptLines(segments, before, hunkId) == here + KeptLines(rest, after, hunkId + 1)
      && AddedLines(PaddedAll(segments), before, hunkId) == here + AddedLines(PaddedAll(rest), after, hunkId + 1)
      && HunkCount(segments) == 1 + HunkCount(rest)
      && HunkCount(PaddedAll(segments)) == 1 + HunkCount(PaddedAll(rest))
  {
    var ops, padded := segments[0].ops, PaddedAll(segments);
    assert padded[0] == Hunk(Padded(ops), "") && padded[1..] == PaddedAll(segments[1..]);
    FirstHunkAdds(padded, before, hunkId);
    PaddedHunk(ops, before, hunkId + 1);
  }

  /** What the parser keeps of a file is in order, whatever it skips, and carries the file's own hunk ids. */
  lemma KeptOrdered(segments: seq<Segment>, base: nat)
    ensures Increasing(KeptLines(segments, 0, base))
    ensures HunkIdsIn(KeptLines(segments, 0, base), base, base + HunkCount(segments))
  {
    KeptArePadded(segments, 0, base);
    AddedOrdered(PaddedAll(segments), base);
  }

  // --- From the recovered state back to each file ---

  /** Hunks printed for surviving files before file i. */
  function HunksBefore(edits: seq<FileEdit>, i: nat): nat
    requires i <= |edits|
  {
    if i == 0 then 0
    else HunksBefore(edits, i - 1) + (if edits[i - 1].target.Some? then HunkCount(edits[i - 1].segments) else 0)
  }

  /** No two files are read under one path. */
  ghost predicate DistinctTargets(edits: seq<FileEdit>) {
    forall i, j | 0 <= i < j < |edits| ::
      edits[i].target.Some? ==> ReadTarget(edits[i].target) != ReadTarget(edits[j].target)
  }

  lemma {:induction false} HunksBeforeShift(edits: seq<FileEdit>, i: nat)
    requires 0 < i <= |edits|
    ensures HunksBefore(edits, i)
      == (if edits[0].target.Some? then HunkCount(edits[0].segments) else 0) + HunksBefore(edits[1..], i - 1)
  {
    if i > 1 {
      HunksBeforeShift(edits, i - 1);
      assert edits[1..][i - 2] == edits[i - 1];
    }
  }

  lemma {:induction false} RecoverLeavesAlone(st: ParserState, edits: seq<FileEdit>, path: string)
    requires path in st.files && forall edit | edit in edits :: ReadTarget(edit.target) != Some(path)
    ensures var end := RecoverAll(st, edits);
      path in end.files && end.files[path] == st.files[path] && end.deleted[path] == st.deleted[path]
    decreases |edits|
  {
    if edits != [] {
      assert edits[0] in edits;
      RecoverLeavesAlone(Recover(st, edits[0]), edits[1..], path);
    }
  }

  /** The state's entry for file i, whose hunks are numbered from base + 1. */
  ghost predicate Entered(st: ParserState, edit: FileEdit, base: nat)
    requires edit.target.Some?
  {
    var path := Trimmed(edit.target.value);
    && path in st.files
    && st.files[path] == KeptLines(edit.segments, 0, base)
    && st.deleted[path] == DelCount(AllOps(edit.segments), NoDashes)
  }

  lemma {:induction false} RecoveredEntry(st: ParserState, edits: seq<FileEdit>, i: nat)
    requires i < |edits| && edits[i].target.Some? && DistinctTargets(edits)
    requires Trimmed(edits[i].target.value) !in st.files
    ensures Entered(RecoverAll(st, edits), edits[i], st.hunkId + HunksBefore(edits, i))
    decreases |edits|, 1
  {
    if i == 0 {
      FirstEntry(st, edits);
    } else {
      NextHasRoom(st, edits, i);
      LaterEntry(st, Recover(st, edits[0]), edits, i);
    }
  }

  /** Behind the first file. */
  lemma {:induction false} LaterEntry(st: ParserState, next: ParserState, edits: seq<FileEdit>, i: nat)
    requires 0 < i < |edits| && edits[i].target.Some? && DistinctTargets(edits[1..])
    requires Trimmed(edits[i].target.value) !in next.files
    requires next.hunkId == st.hunkId + (if edits[0].target.Some? then HunkCount(edits[0].segments) else 0)
    ensures Entered(RecoverAll(next, edits[1..]), edits[i], st.hunkId + HunksBefore(edits, i))
    decreases |edits|, 0
  {
    var rest := edits[1..];
    assert rest[i - 1] == edits[i];
    RecoveredEntry(next, rest, i - 1);
    HunksBeforeShift(edits, i);
  }

  /** The first file opens another path, and its hunks are counted. */
  lemma NextHasRoom(st: ParserState, edits: seq<FileEdit>, i: nat)
    requires 0 < i < |edits| && edits[i].target.Some? && DistinctTargets(edits)
      && Trimmed(edits[i].target.value) !in st.files
    ensures var next := Recover(st, edits[0]);
      && Trimmed(edits[i].target.value) !in next.files && DistinctTargets(edits[1..])
      && next.hunkId == st.hunkId + (if edits[0].target.Some? then HunkCount(edits[0].segments) else 0)
  {
    var rest := edits[1..];
    assert forall j | 0 <= j < |rest| :: rest[j] == edits[j + 1];
    assert edits[0].target.Some? ==> ReadTarget(edits[0].target) != ReadTarget(edits[i].target);
  }

  lemma FirstEntry(st: ParserState, edits: seq<FileEdit>)
    requires edits != [] && edits[0].target.Some? && DistinctTargets(edits)
      && Trimmed(edits[0].target.value) !in st.files
    ensures Entered(RecoverAll(st, edits), edits[0], st.hunkId)
  {
    forall edit | edit in edits[1..] ensures ReadTarget(edit.target) != ReadTarget(edits[0].target) {
      var j :| 0 <= j < |edits[1..]| && edits[1..][j] == edit;
      assert edits[j + 1] == edit;
    }
    var lines := KeptLines(edits[0].segments, 0, st.hunkId);
    assert [] + lines == lines;
    RecoverLeavesAlone(Recover(st, edits[0]), edits[1..], Trimmed(edits[0].target.value));
  }

  /** The parser's account of file i. */
  lemma RecoveredFile(edits: seq<FileEdit>, i: nat)
    requires DistinctTargets(edits) && i < |edits| && edits[i].target.Some?
    ensures var path := Trimmed(edits[i].target.value);
      path in Recovered(edits)
      && Recovered(edits)[path] == ChangedFile(path, KeptLines(edits[i].segments, 0, HunksBefore(edits, i)),
        DelCount(AllOps(edits[i].segments), NoDashes))
  {
    RecoveredEntry(INITIAL, edits, i);
  }

  /** It has no other files. */
  lemma {:induction false} RecoveredPath(st: ParserState, edits: seq<FileEdit>, path: string) returns (i: nat)
    requires path in RecoverAll(st, edits).files && path !in st.files
    ensures i < |edits| && ReadTarget(edits[i].target) == Some(path)
    decreases |edits|
  {
    if ReadTarget(edits[0].target) == Some(path) {
      i := 0;
    } else {
      i := RecoveredPath(Recover(st, edits[0]), edits[1..], path);
      i := i + 1;
    }
  }

  lemma {:induction false} HunksBeforeGrows(edits: seq<FileEdit>, i: nat, j: nat)
    requires i < j <= |edits| && edits[i].target.Some?
    ensures HunksBefore(edits, i) + HunkCount(edits[i].segments) <= HunksBefore(edits, j)
  {
    if i + 1 < j {
      HunksBeforeGrows(edits, i, j - 1);
    }
  }

  /** A parsed file tells the truth about an edit whose hunks were numbered from base + 1: exactly the texts
      it adds, in order, each at the line of the new file where that text stands, line numbers increasing,
      hunk ids its own; and if no deletion was hidden, the counts account for the change in length. */
  ghost predicate Describes(file: ChangedFile, segments: seq<Segment>, base: nat) {
    && Texts(file.addedLines) == AddTexts(AllOps(segments))
    && PointsInto(file.addedLines, NewText(segments), 0, |NewText(segments)|)
    && Increasing(file.addedLines)
    && HunkIdsIn(file.addedLines, base, base + HunkCount(segments))
    && (NoDashDash(AllOps(segments)) ==>
          |NewText(segments)| - |OldText(segments)| == |file.addedLines| - file.deletedLineCount)
  }

  lemma RecordDescribes(path: string, segments: seq<Segment>, base: nat)
    ensures Describes(ChangedFile(path, AddedLines(segments, 0, base), DelCount(AllOps(segments), NoDashes)), segments,
      base)
  {
    SegmentTexts(segments, 0, base);
    AddedOrdered(segments, base);
    SegmentsBalance(segments, 0, base);
    DelCountsCompare(AllOps(segments));
  }

  /** A script whose files are read under different paths and none of whose added texts reads as a file header. */
  ghost predicate Readable(edits: seq<FileEdit>) {
    Printable(edits) && NoFalseHeaders(edits) && DistinctTargets(edits)
  }

  /** Every surviving file that adds no text beginning `++` is described by the parser's entry for it. */
  lemma ParsedFileMeaning(edits: seq<FileEdit>, trailer: seq<string>, i: nat)
    requires Readable(edits) && forall line | line in trailer :: Quiet(line)
    requires i < |edits| && edits[i].target.Some? && NoPlusPlus(AllOps(edits[i].segments))
    ensures Trimmed(edits[i].target.value) in Parsed(Print(edits) + trailer)
    ensures Describes(Parsed(Print(edits) + trailer)[Trimmed(edits[i].target.value)], edits[i].segments,
      HunksBefore(edits, i))
  {
    ParserRecovers(edits, trailer);
    RecoveredFile(edits, i);
    KeptAreAdded(edits[i].segments, 0, HunksBefore(edits, i));
    RecordDescribes(Trimmed(edits[i].target.value), edits[i].segments, HunksBefore(edits, i));
  }

  /** Every surviving file is recorded in order, with hunk ids of its own, whatever the parser skips in it. */
  lemma ParsedFileOrdered(edits: seq<FileEdit>, trailer: seq<string>, i: nat)
    requires Readable(edits) && forall line | line in trailer :: Quiet(line)
    requires i < |edits| && edits[i].target.Some?
    ensures Trimmed(edits[i].target.value) in Parsed(Print(edits) + trailer)
    ensures var lines := Parsed(Print(edits) + trailer)[Trimmed(edits[i].target.value)].addedLines;
      && Increasing(lines)
      && HunkIdsIn(lines, HunksBefore(edits, i), HunksBefore(edits, i) + HunkCount(edits[i].segments))
  {
    ParserRecovers(edits, trailer);
    RecoveredFile(edits, i);
    KeptOrdered(edits[i].segments, HunksBefore(edits, i));
  }

  /** A hunk id seen in two parsed files would be a hunk of both; there is none. */
  lemma HunkIdsNotShared(edits: seq<FileEdit>, trailer: seq<string>, i: nat, j: nat, a: ChangedLine, b: ChangedLine)
    requires Readable(edits) && forall line | line in trailer :: Quiet(line)
    requires i < j < |edits| && edits[i].target.Some? && edits[j].target.Some?
    requires Trimmed(edits[i].target.value) in Parsed(Print(edits) + trailer)
      && Trimmed(edits[j].target.value) in Parsed(Print(edits) + trailer)
    requires a in Parsed(Print(edits) + trailer)[Trimmed(edits[i].target.value)].addedLines
    requires b in Parsed(Print(edits) + trailer)[Trimmed(edits[j].target.value)].addedLines
    ensures a.hunkId < b.hunkId
  {
    ParsedFileOrdered(edits, trailer, i);
    ParsedFileOrdered(edits, trailer, j);
    HunksBeforeGrows(edits, i, j);
  }
}
