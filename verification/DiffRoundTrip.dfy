/** The parser inverts the printer exactly on the unambiguous edit scripts. */
module DiffRoundTrip {
  import opened Wrappers
  import opened Text
  import opened Sums
  import opened DiffParser
  import opened DiffPrinter

  // --- What each printed line is ---

  lemma RecordTwice(st: RawState, path: string, a: seq<ChangedLine>, m: nat, b: seq<ChangedLine>, n: nat)
    requires path in st.files && path in st.deleted
    ensures st.Record(path, a, m).Record(path, b, n) == st.Record(path, a + b, m + n)
  {
    assert st.files[path] + a + b == st.files[path] + (a + b);
  }

  lemma RecordNothing(st: RawState, path: string)
    requires path in st.files && path in st.deleted
    ensures st.Record(path, [], 0) == st
  {
    assert st.files[path] + [] == st.files[path];
  }

  function OpLine(op: Op): DiffLine {
    match op
    case Keep(_) => Context
    case Add(text) => Addition(text)
    case Del(_) => Deletion
    case NoNewline => Other
  }

  function OpLines(ops: seq<Op>): seq<DiffLine> {
    if ops == [] then [] else [OpLine(ops[0])] + OpLines(ops[1..])
  }

  function HunkLines(ops: seq<Op>, newBefore: nat): seq<DiffLine> {
    [HunkMark(Some(if NewOps(ops) == [] then newBefore else newBefore + 1))] + OpLines(Seen(ops))
  }

  function SegmentLines(segments: seq<Segment>, newBefore: nat): seq<DiffLine> {
    if segments == [] then []
    else match segments[0]
      case Gap(lines) => SegmentLines(segments[1..], newBefore + |lines|)
      case Hunk(ops, _) => HunkLines(ops, newBefore) + SegmentLines(segments[1..], newBefore + |NewOps(ops)|)
  }

  /** What the printer relies on: a classifier that recognises hunk headers and marked lines. */
  ghost predicate ReadsBack(kind: string -> DiffLine, header: HeaderPrinter) {
    && (forall op: Op :: (op.Add? ==> !LooksLikeHeader(op.text)) ==> kind(PrintOp(op)) == OpLine(SeenOp(op)))
    && (forall ops, section, oldBefore, newBefore :: kind(header(ops, section, oldBefore, newBefore))
          == HunkMark(Some(if NewOps(ops) == [] then newBefore else newBefore + 1)))
  }

  lemma ClassifyOp(op: Op)
    requires op.Add? ==> !LooksLikeHeader(op.text)
    ensures Classify(PrintOp(op)) == OpLine(SeenOp(op))
  {
    if op.NoNewline? {
      assert PrintOp(op)[0] == '\\';
    } else {
      assert PrintOp(op)[1..] == op.text;
    }
  }

  lemma ClassifyMark(line: string)
    requires IsHunkMark(line)
    ensures Classify(line) == HunkMark(HunkStart(line))
  {
  }

  lemma ParserReadsBack()
    ensures ReadsBack(Classify, HunkHeader)
  {
    forall op: Op | op.Add? ==> !LooksLikeHeader(op.text)
      ensures Classify(PrintOp(op)) == OpLine(SeenOp(op))
    {
      ClassifyOp(op);
    }
    forall ops: seq<Op>, section: string, oldBefore: nat, newBefore: nat
      ensures Classify(HunkHeader(ops, section, oldBefore, newBefore))
        == HunkMark(Some(if NewOps(ops) == [] then newBefore else newBefore + 1))
    {
      HeaderRead(ops, section, oldBefore, newBefore);
      ClassifyMark(HunkHeader(ops, section, oldBefore, newBefore));
    }
  }

  lemma KindsCons(kind: string -> DiffLine, line: string, rest: seq<string>)
    ensures KindsOf(kind, [line] + rest) == [kind(line)] + KindsOf(kind, rest)
  {
    assert ([line] + rest)[1..] == rest;
  }

  lemma {:induction false} KindsOfOps(kind: string -> DiffLine, header: HeaderPrinter, ops: seq<Op>)
    requires ReadsBack(kind, header) && NoFalseHeader(ops)
    ensures KindsOf(kind, PrintOps(ops)) == OpLines(Seen(ops))
    decreases |ops|
  {
    if ops != [] {
      KindsOfOps(kind, header, ops[1..]);
      KindsCons(kind, PrintOp(ops[0]), PrintOps(ops[1..]));
    }
  }

  lemma NoFalseHeaderParts(segments: seq<Segment>)
    requires segments != [] && NoFalseHeader(AllOps(segments))
    ensures NoFalseHeader(AllOps(segments[1..]))
    ensures segments[0].Hunk? ==> NoFalseHeader(segments[0].ops)
  {
    var first := if segments[0].Hunk? then segments[0].ops else [];
    assert AllOps(segments) == first + AllOps(segments[1..]);
  }

  lemma KindsOfHunk(
      kind: string -> DiffLine, header: HeaderPrinter, ops: seq<Op>, section: string, oldBefore: nat, newBefore: nat)
    requires ReadsBack(kind, header) && NoFalseHeader(ops)
    ensures KindsOf(kind, PrintHunk(header(ops, section, oldBefore, newBefore), ops)) == HunkLines(ops, newBefore)
  {
    KindsCons(kind, header(ops, section, oldBefore, newBefore), PrintOps(ops));
    KindsOfOps(kind, header, ops);
  }

  lemma {:induction false} KindsOfSegments(
      kind: string -> DiffLine, header: HeaderPrinter, segments: seq<Segment>, oldBefore: nat, newBefore: nat)
    requires ReadsBack(kind, header) && NoFalseHeader(AllOps(segments))
    ensures KindsOf(kind, PrintSegments(header, segments, oldBefore, newBefore)) == SegmentLines(segments, newBefore)
    decreases |segments|, 1
  {
    if segments != [] {
      NoFalseHeaderParts(segments);
      match segments[0]
      case Gap(_) => KindsFromGap(kind, header, segments, oldBefore, newBefore);
      case Hunk(_, _) => KindsFromHunk(kind, header, segments, oldBefore, newBefore);
    }
  }

  lemma {:induction false} KindsFromGap(
      kind: string -> DiffLine, header: HeaderPrinter, segments: seq<Segment>, oldBefore: nat, newBefore: nat)
    requires ReadsBack(kind, header) && segments != [] && segments[0].Gap? && NoFalseHeader(AllOps(segments[1..]))
    ensures KindsOf(kind, PrintSegments(header, segments, oldBefore, newBefore)) == SegmentLines(segments, newBefore)
    decreases |segments|, 0
  {
    var size := |segments[0].lines|;
    FirstGap(header, segments, oldBefore, newBefore);
    KindsOfSegments(kind, header, segments[1..], oldBefore + size, newBefore + size);
  }

  lemma FirstGap(header: HeaderPrinter, segments: seq<Segment>, oldBefore: nat, newBefore: nat)
    requires segments != [] && segments[0].Gap?
    ensures var rest, size := segments[1..], |segments[0].lines|;
      && PrintSegments(header, segments, oldBefore, newBefore)
         == PrintSegments(header, rest, oldBefore + size, newBefore + size)
      && SegmentLines(segments, newBefore) == SegmentLines(rest, newBefore + size)
      && AllOps(segments) == AllOps(rest)
  {
    assert AllOps(segments) == [] + AllOps(segments[1..]);
  }

  lemma {:induction false} KindsFromHunk(
      kind: string -> DiffLine, header: HeaderPrinter, segments: seq<Segment>, oldBefore: nat, newBefore: nat)
    requires ReadsBack(kind, header) && segments != [] && segments[0].Hunk?
    requires NoFalseHeader(segments[0].ops) && NoFalseHeader(AllOps(segments[1..]))
    ensures KindsOf(kind, PrintSegments(header, segments, oldBefore, newBefore)) == SegmentLines(segments, newBefore)
    decreases |segments|, 0
  {
    var ops, section, rest := segments[0].ops, segments[0].section, segments[1..];
    var oldAfter, newAfter := oldBefore + |OldOps(ops)|, newBefore + |NewOps(ops)|;
    KindsOfSegments(kind, header, rest, oldAfter, newAfter);
    KindsOfHunk(kind, header, ops, section, oldBefore, newBefore);
    HunkThenPrinted(kind, PrintHunk(header(ops, section, oldBefore, newBefore), ops),
                    PrintSegments(header, rest, oldAfter, newAfter),
                    HunkLines(ops, newBefore), SegmentLines(rest, newAfter));
    FirstHunkUnfolded(header, segments, oldBefore, newBefore);
  }

  lemma HunkThenPrinted(
      kind: string -> DiffLine, hunk: seq<string>, rest: seq<string>, a: seq<DiffLine>, b: seq<DiffLine>)
    requires KindsOf(kind, hunk) == a && KindsOf(kind, rest) == b
    ensures KindsOf(kind, hunk + rest) == a + b
  {
    KindsConcat(kind, hunk, rest);
  }

  lemma FirstHunkUnfolded(header: HeaderPrinter, segments: seq<Segment>, oldBefore: nat, newBefore: nat)
    requires segments != [] && segments[0].Hunk?
    ensures var ops, section, rest := segments[0].ops, segments[0].section, segments[1..];
      var oldAfter, newAfter := oldBefore + |OldOps(ops)|, newBefore + |NewOps(ops)|;
      && PrintSegments(header, segments, oldBefore, newBefore)
         == PrintHunk(header(ops, section, oldBefore, newBefore), ops) + PrintSegments(header, rest, oldAfter, newAfter)
      && SegmentLines(segments, newBefore) == HunkLines(ops, newBefore) + SegmentLines(rest, newAfter)
  {
  }

  // --- What the lines of a hunk and of a file do to the parser ---

  lemma FoldCons(st: ParserState, line: DiffLine, rest: seq<DiffLine>)
    ensures Fold(st, [line] + rest) == Fold(Step(st, line), rest)
  {
    assert ([line] + rest)[1..] == rest;
  }

  /** One operation's share of a hunk. */
  function OpAdded(op: Op, start: int, hunkId: nat): seq<ChangedLine> {
    if op.Add? then [ChangedLine(start, op.text, hunkId)] else []
  }

  /** What a run of body lines does: texts added, deletions counted, new lines passed. */
  function Recorded(st: ParserState, added: seq<ChangedLine>, deleted: nat, passed: nat): ParserState
    requires st.currentPath.Some? && st.newLineno.Some?
  {
    st.Record(st.currentPath.value, added, deleted).(newLineno := Some(st.newLineno.value + passed))
  }

  lemma RecordedTwice(st: ParserState, a: seq<ChangedLine>, m: nat, i: nat, b: seq<ChangedLine>, n: nat, j: nat)
    requires st.currentPath.Some? && st.newLineno.Some?
    ensures Recorded(Recorded(st, a, m, i), b, n, j) == Recorded(st, a + b, m + n, i + j)
  {
    RecordTwice(st, st.currentPath.value, a, m, b, n);
  }

  lemma StepOp(st: ParserState, op: Op)
    requires st.currentPath.Some? && st.newLineno.Some?
    ensures Step(st, OpLine(op))
      == Recorded(st, OpAdded(op, st.newLineno.value, st.hunkId), DelCount([op], Always), |NewOps([op])|)
  {
    RecordNothing(st, st.currentPath.value);
    assert NewOps([op]) == if op.Keep? || op.Add? then [op.text] else [];
  }

  lemma OpsParts(ops: seq<Op>, before: int, hunkId: nat)
    requires ops != []
    ensures OpsAdded(ops, before, hunkId)
      == OpAdded(ops[0], before + 1, hunkId) + OpsAdded(ops[1..], before + |NewOps([ops[0]])|, hunkId)
    ensures DelCount(ops, Always) == DelCount([ops[0]], Always) + DelCount(ops[1..], Always)
    ensures |NewOps(ops)| == |NewOps([ops[0]])| + |NewOps(ops[1..])|
  {
    assert NewOps([ops[0]]) == if ops[0].Keep? || ops[0].Add? then [ops[0].text] else [];
  }

  function OpsRecord(st: ParserState, ops: seq<Op>): ParserState
    requires st.currentPath.Some? && st.newLineno.Some?
  {
    Recorded(st, OpsAdded(ops, st.newLineno.value - 1, st.hunkId), DelCount(ops, Always), |NewOps(ops)|)
  }

  lemma JoinOp(st: ParserState, ops: seq<Op>)
    requires st.currentPath.Some? && st.newLineno.Some? && ops != []
    ensures OpsRecord(Step(st, OpLine(ops[0])), ops[1..]) == OpsRecord(st, ops)
  {
    var start, passed := st.newLineno.value, |NewOps([ops[0]])|;
    StepOp(st, ops[0]);
    OpsParts(ops, start - 1, st.hunkId);
    RecordedTwice(st, OpAdded(ops[0], start, st.hunkId), DelCount([ops[0]], Always), passed,
                  OpsAdded(ops[1..], start + passed - 1, st.hunkId), DelCount(ops[1..], Always), |NewOps(ops[1..])|);
  }

  lemma {:induction false} FoldOps(st: ParserState, ops: seq<Op>)
    requires st.currentPath.Some? && st.newLineno.Some?
    ensures Fold(st, OpLines(ops)) == OpsRecord(st, ops)
    decreases |ops|
  {
    if ops == [] {
      RecordNothing(st, st.currentPath.value);
    } else {
      FoldCons(st, OpLine(ops[0]), OpLines(ops[1..]));
      FoldOps(Step(st, OpLine(ops[0])), ops[1..]);
      JoinOp(st, ops);
    }
  }

  lemma {:induction false} SeenDels(ops: seq<Op>)
    ensures DelCount(Seen(ops), Always) == DelCount(ops, NoDashes)
  {
    if ops != [] {
      SeenDels(ops[1..]);
    }
  }

  lemma {:induction false} SeenNew(ops: seq<Op>)
    requires NewOps(ops) == []
    ensures NewOps(Seen(ops)) == []
  {
    if ops != [] {
      SeenNew(ops[1..]);
    }
  }

  lemma {:induction false} NothingAdded(ops: seq<Op>, before: int, other: int, hunkId: nat)
    requires NewOps(ops) == []
    ensures OpsAdded(ops, before, hunkId) == OpsAdded(ops, other, hunkId) == []
  {
    if ops != [] {
      NothingAdded(ops[1..], before, other, hunkId);
    }
  }

  /** What a run of hunks does, line number forgotten. */
  function HunksRecorded(st: ParserState, added: seq<ChangedLine>, deleted: nat, hunks: nat): (after: ParserState)
    requires st.currentPath.Some?
    ensures after.currentPath == st.currentPath
  {
    st.Record(st.currentPath.value, added, deleted).(newLineno := None, hunkId := st.hunkId + hunks)
  }

  lemma HunksRecordedTwice(
      st: ParserState, a: seq<ChangedLine>, m: nat, i: nat, b: seq<ChangedLine>, n: nat, j: nat)
    requires st.currentPath.Some?
    ensures HunksRecorded(HunksRecorded(st, a, m, i), b, n, j) == HunksRecorded(st, a + b, m + n, i + j)
  {
    RecordTwice(st, st.currentPath.value, a, m, b, n);
  }

  /** The state after a hunk whose new side starts after newBefore lines. */
  function HunkRecord(st: ParserState, ops: seq<Op>, newBefore: nat): ParserState
    requires st.currentPath.Some?
  {
    HunksRecorded(st, OpsAdded(Seen(ops), newBefore, st.hunkId + 1), DelCount(ops, NoDashes), 1)
  }

  /** The same for a run of segments. */
  function SegmentsRecord(st: ParserState, segments: seq<Segment>, newBefore: nat): ParserState
    requires st.currentPath.Some?
  {
    HunksRecorded(st, KeptLines(segments, newBefore, st.hunkId), DelCount(AllOps(segments), NoDashes),
                  HunkCount(segments))
  }

  /** The state after a hunk header. */
  function Marked(st: ParserState, start: nat): (next: ParserState)
    requires st.currentPath.Some?
    ensures next.currentPath.Some? && next.newLineno.Some? && next == Step(st, HunkMark(Some(start)))
  {
    st.(newLineno := Some(start), hunkId := st.hunkId + 1)
  }

  lemma HunkFromOps(st: ParserState, ops: seq<Op>, start: nat, newBefore: nat)
    requires st.currentPath.Some? && start == if NewOps(ops) == [] then newBefore else newBefore + 1
    ensures OpsRecord(Marked(st, start), Seen(ops)).(newLineno := None) == HunkRecord(st, ops, newBefore)
  {
    var seen := Seen(ops);
    SeenDels(ops);
    KeptFromStart(ops, start, newBefore, st.hunkId + 1);
    RecordedMarked(st, start, OpsAdded(seen, start - 1, st.hunkId + 1), DelCount(seen, Always), |NewOps(seen)|);
  }

  lemma RecordedMarked(st: ParserState, start: nat, added: seq<ChangedLine>, deleted: nat, passed: nat)
    requires st.currentPath.Some?
    ensures Recorded(Marked(st, start), added, deleted, passed).(newLineno := None)
      == HunksRecorded(st, added, deleted, 1)
  {
  }

  lemma KeptFromStart(ops: seq<Op>, start: nat, newBefore: nat, hunkId: nat)
    requires start == if NewOps(ops) == [] then newBefore else newBefore + 1
    ensures OpsAdded(Seen(ops), start - 1, hunkId) == OpsAdded(Seen(ops), newBefore, hunkId)
  {
    if NewOps(ops) == [] {
      SeenNew(ops);
      NothingAdded(Seen(ops), newBefore - 1, newBefore, hunkId);
    }
  }

  lemma FoldHunk(st: ParserState, ops: seq<Op>, newBefore: nat)
    requires st.currentPath.Some?
    ensures Fold(st, HunkLines(ops, newBefore)).(newLineno := None) == HunkRecord(st, ops, newBefore)
  {
    var start := if NewOps(ops) == [] then newBefore else newBefore + 1;
    FoldMarked(st, start, Seen(ops));
    HunkFromOps(st, ops, start, newBefore);
  }

  lemma FoldMarked(st: ParserState, start: nat, ops: seq<Op>)
    requires st.currentPath.Some?
    ensures Fold(st, [HunkMark(Some(start))] + OpLines(ops)) == OpsRecord(Marked(st, start), ops)
  {
    FoldCons(st, HunkMark(Some(start)), OpLines(ops));
    FoldOps(Marked(st, start), ops);
  }

  lemma ForgottenLineno(st: ParserState, segments: seq<Segment>, newBefore: nat)
    requires st.currentPath.Some?
    ensures SegmentsRecord(st, segments, newBefore) == SegmentsRecord(st.(newLineno := None), segments, newBefore)
  {
  }

  /** What a hunk and the segments after it record, put together. */
  lemma JoinHunk(st: ParserState, segments: seq<Segment>, newBefore: nat)
    requires st.currentPath.Some? && segments != [] && segments[0].Hunk?
    ensures SegmentsRecord(HunkRecord(st, segments[0].ops, newBefore), segments[1..],
                           newBefore + |NewOps(segments[0].ops)|)
      == SegmentsRecord(st, segments, newBefore)
  {
    var ops := segments[0].ops;
    var rest := segments[1..];
    SegmentParts(segments, newBefore, st.hunkId);
    HunksRecordedTwice(st, OpsAdded(Seen(ops), newBefore, st.hunkId + 1), DelCount(ops, NoDashes), 1,
                       KeptLines(rest, newBefore + |NewOps(ops)|, st.hunkId + 1), DelCount(AllOps(rest), NoDashes),
                       HunkCount(rest));
  }

  lemma SegmentParts(segments: seq<Segment>, newBefore: nat, hunkId: nat)
    requires segments != [] && segments[0].Hunk?
    ensures var ops, rest := segments[0].ops, segments[1..];
      && KeptLines(segments, newBefore, hunkId)
         == OpsAdded(Seen(ops), newBefore, hunkId + 1) + KeptLines(rest, newBefore + |NewOps(ops)|, hunkId + 1)
      && DelCount(AllOps(segments), NoDashes) == DelCount(ops, NoDashes) + DelCount(AllOps(rest), NoDashes)
      && HunkCount(segments) == 1 + HunkCount(rest)
  {
    DelCountConcat(segments[0].ops, AllOps(segments[1..]), NoDashes);
  }

  /** Gaps print nothing; a hunk prints its header and its operations. */
  lemma {:induction false} FoldSegments(st: ParserState, segments: seq<Segment>, newBefore: nat)
    requires st.currentPath.Some?
    ensures Fold(st, SegmentLines(segments, newBefore)).(newLineno := None) == SegmentsRecord(st, segments, newBefore)
    decreases |segments|
  {
    if segments == [] {
      RecordNothing(st, st.currentPath.value);
    } else {
      match segments[0]
      case Gap(lines) =>
        FoldSegments(st, segments[1..], newBefore + |lines|);
        GapSkipped(st, segments, newBefore);
      case Hunk(ops, _) =>
        var next := AfterHunk(st, ops, newBefore);
        FoldSegments(next, segments[1..], newBefore + |NewOps(ops)|);
        FoldHunkSegment(st, segments, newBefore);
    }
  }

  lemma GapSkipped(st: ParserState, segments: seq<Segment>, newBefore: nat)
    requires st.currentPath.Some? && segments != [] && segments[0].Gap?
    ensures var newAfter := newBefore + |segments[0].lines|;
      && SegmentLines(segments, newBefore) == SegmentLines(segments[1..], newAfter)
      && SegmentsRecord(st, segments, newBefore) == SegmentsRecord(st, segments[1..], newAfter)
  {
    assert AllOps(segments) == AllOps(segments[1..]);
  }

  lemma AfterHunk(st: ParserState, ops: seq<Op>, newBefore: nat) returns (next: ParserState)
    requires st.currentPath.Some?
    ensures next == Fold(st, HunkLines(ops, newBefore)) && next.currentPath.Some?
  {
    FoldHunk(st, ops, newBefore);
    next := Fold(st, HunkLines(ops, newBefore));
  }

  lemma FirstHunkLines(segments: seq<Segment>, newBefore: nat)
    requires segments != [] && segments[0].Hunk?
    ensures var ops := segments[0].ops;
      SegmentLines(segments, newBefore)
      == HunkLines(ops, newBefore) + SegmentLines(segments[1..], newBefore + |NewOps(ops)|)
  {
  }

  /** A hunk in front of segments that fold as they should. */
  lemma FoldHunkSegment(st: ParserState, segments: seq<Segment>, newBefore: nat)
    requires st.currentPath.Some? && segments != [] && segments[0].Hunk?
    requires var next := Fold(st, HunkLines(segments[0].ops, newBefore));
      var newAfter := newBefore + |NewOps(segments[0].ops)|;
      next.currentPath.Some?
      && Fold(next, SegmentLines(segments[1..], newAfter)).(newLineno := None)
        == SegmentsRecord(next, segments[1..], newAfter)
    ensures Fold(st, SegmentLines(segments, newBefore)).(newLineno := None) == SegmentsRecord(st, segments, newBefore)
  {
    var ops := segments[0].ops;
    var newAfter := newBefore + |NewOps(ops)|;
    FirstHunkLines(segments, newBefore);
    FoldConcat(st, HunkLines(ops, newBefore), SegmentLines(segments[1..], newAfter));
    FoldHunk(st, ops, newBefore);
    ForgottenLineno(Fold(st, HunkLines(ops, newBefore)), segments[1..], newAfter);
    JoinHunk(st, segments, newBefore);
  }

  lemma {:induction false} DelCountConcat(a: seq<Op>, b: seq<Op>, p: string -> bool)
    ensures DelCount(a + b, p) == DelCount(a, p) + DelCount(b, p)
  {
    if a == [] {
      assert a + b == b;
    } else {
      assert (a + b)[0] == a[0] && (a + b)[1..] == a[1..] + b;
      DelCountConcat(a[1..], b, p);
    }
  }

  // --- Whole files and whole scripts ---

  /** What the printer relies on for the lines around the hunks. */
  ghost predicate FramesRead(kind: string -> DiffLine) {
    && (forall line: string :: Quiet(line) ==> kind(line) == Other)
    && (forall source: string :: kind(SourceHeader(source)) == Other)
    && (forall target: Option<string> :: (target.Some? ==> PrintablePath(target.value)) ==>
          kind(TargetHeader(target)) == FileHeader(ReadTarget(target)))
  }

  lemma ParserReadsFrames()
    ensures FramesRead(Classify)
  {
    forall source: string ensures Classify(SourceHeader(source)) == Other {
      var line := SourceHeader(source);
      assert line[0] == '-' && line[1] == '-' && line[2] == '-';
    }
    forall target: Option<string> | target.Some? ==> PrintablePath(target.value)
      ensures Classify(TargetHeader(target)) == FileHeader(ReadTarget(target))
    {
      TargetRead(target);
    }
  }

  lemma {:induction false} FoldQuiet(kind: string -> DiffLine, st: ParserState, lines: seq<string>)
    requires FramesRead(kind) && forall line | line in lines :: Quiet(line)
    ensures Fold(st, KindsOf(kind, lines)) == st
    decreases |lines|
  {
    if lines != [] {
      FoldQuiet(kind, st, lines[1..]);
      FoldCons(st, Other, KindsOf(kind, lines[1..]));
    }
  }

  lemma {:induction false} FoldIgnored(st: ParserState, lines: seq<DiffLine>)
    requires st.currentPath.None? && forall line | line in lines :: !line.FileHeader?
    ensures Fold(st, lines) == st
    decreases |lines|
  {
    if lines != [] {
      FoldIgnored(st, lines[1..]);
    }
  }

  lemma {:induction false} NoHeadersInOps(ops: seq<Op>)
    ensures forall line | line in OpLines(ops) :: !line.FileHeader?
  {
    if ops != [] {
      NoHeadersInOps(ops[1..]);
    }
  }

  lemma {:induction false} NoHeadersInSegments(segments: seq<Segment>, newBefore: nat)
    ensures forall line | line in SegmentLines(segments, newBefore) :: !line.FileHeader?
    decreases |segments|
  {
    if segments != [] {
      match segments[0]
      case Gap(lines) => NoHeadersInSegments(segments[1..], newBefore + |lines|);
      case Hunk(ops, _) =>
        NoHeadersInOps(Seen(ops));
        NoHeadersInSegments(segments[1..], newBefore + |NewOps(ops)|);
    }
  }

  lemma {:induction false} EmptyNewOps(ops: seq<Op>)
    requires NewOps(ops) == []
    ensures forall op | op in ops :: !op.Add?
  {
    if ops != [] {
      EmptyNewOps(ops[1..]);
    }
  }

  lemma {:induction false} EmptyNewText(segments: seq<Segment>)
    requires NewText(segments) == []
    ensures forall op | op in AllOps(segments) :: !op.Add?
  {
    if segments != [] {
      EmptyNewText(segments[1..]);
      if segments[0].Hunk? {
        EmptyNewOps(segments[0].ops);
      }
    }
  }

  /** From the target header on. */
  lemma FoldTarget(st: ParserState, edit: FileEdit)
    ensures Fold(st, [FileHeader(ReadTarget(edit.target))] + SegmentLines(edit.segments, 0)).(newLineno := None)
      == Recover(st, edit)
  {
    var body := SegmentLines(edit.segments, 0);
    var target := ReadTarget(edit.target);
    FoldCons(st, FileHeader(target), body);
    var next := Step(st, FileHeader(target));
    if target.None? {
      NoHeadersInSegments(edit.segments, 0);
      FoldIgnored(next, body);
    } else {
      FoldSegments(next, edit.segments, 0);
    }
  }

  lemma KindsOfFile(kind: string -> DiffLine, header: HeaderPrinter, edit: FileEdit)
    requires ReadsBack(kind, header) && FramesRead(kind) && PrintableFile(edit) && NoFalseHeader(AllOps(edit.segments))
    ensures var start := [FileHeader(ReadTarget(edit.target))];
      KindsOf(kind, PrintFile(header, edit))
      == KindsOf(kind, edit.preamble) + ([Other] + (start + SegmentLines(edit.segments, 0)))
  {
    var body := PrintSegments(header, edit.segments, 0, 0);
    var source, target := SourceHeader(edit.source), TargetHeader(edit.target);
    assert [source, target] + body == [source] + ([target] + body);
    KindsConcat(kind, edit.preamble, [source, target] + body);
    KindsCons(kind, source, [target] + body);
    KindsCons(kind, target, body);
    KindsOfSegments(kind, header, edit.segments, 0, 0);
  }

  lemma FoldPreamble(kind: string -> DiffLine, st: ParserState, preamble: seq<string>, rest: seq<DiffLine>)
    requires FramesRead(kind) && forall line | line in preamble :: Quiet(line)
    ensures Fold(st, KindsOf(kind, preamble) + ([Other] + rest)) == Fold(st, rest)
  {
    FoldConcat(st, KindsOf(kind, preamble), [Other] + rest);
    FoldQuiet(kind, st, preamble);
    FoldCons(st, Other, rest);
  }

  lemma RecoverForgets(st: ParserState, edit: FileEdit)
    ensures Recover(st, edit) == Recover(st.(newLineno := None), edit)
  {
  }

  lemma FoldFile(kind: string -> DiffLine, header: HeaderPrinter, st: ParserState, edit: FileEdit)
    requires ReadsBack(kind, header) && FramesRead(kind) && PrintableFile(edit) && NoFalseHeader(AllOps(edit.segments))
    ensures Fold(st, KindsOf(kind, PrintFile(header, edit))).(newLineno := None)
      == Recover(st.(newLineno := None), edit)
  {
    var rest := [FileHeader(ReadTarget(edit.target))] + SegmentLines(edit.segments, 0);
    KindsOfFile(kind, header, edit);
    FoldPreamble(kind, st, edit.preamble, rest);
    FoldTarget(st, edit);
    RecoverForgets(st, edit);
  }

  lemma {:induction false} FoldScript(
      kind: string -> DiffLine, header: HeaderPrinter, st: ParserState, edits: seq<FileEdit>)
    requires ReadsBack(kind, header) && FramesRead(kind) && Printable(edits) && NoFalseHeaders(edits)
    ensures Fold(st, KindsOf(kind, PrintAll(header, edits))).(newLineno := None)
      == RecoverAll(st.(newLineno := None), edits)
    decreases |edits|
  {
    if edits != [] {
      var edit := edits[0];
      assert PrintableFile(edit);
      if edit.target.None? {
        EmptyNewText(edit.segments);
      }
      KindsConcat(kind, PrintFile(header, edit), PrintAll(header, edits[1..]));
      FoldConcat(st, KindsOf(kind, PrintFile(header, edit)), KindsOf(kind, PrintAll(header, edits[1..])));
      FoldFile(kind, header, st, edit);
      FoldScript(kind, header, Fold(st, KindsOf(kind, PrintFile(header, edit))), edits[1..]);
    }
  }

  /** Short of an added text that reads as a file header, the parser recovers every file of any script: its path without
      white space at the end, every added line whose text does not begin `++`, with its hunk and, unless the hunk adds
      such a text before it, its number, and every deletion whose text does not begin `--`. */
  lemma ParserRecovers(edits: seq<FileEdit>, trailer: seq<string>)
    requires Printable(edits) && NoFalseHeaders(edits) && forall line | line in trailer :: Quiet(line)
    ensures Parsed(Print(edits) + trailer) == Recovered(edits)
  {
    ParserReadsBack();
    ParserReadsFrames();
    FoldScript(Classify, HunkHeader, INITIAL, edits);
    KindsConcat(Classify, Print(edits), trailer);
    FoldConcat(INITIAL, KindsOf(Classify, Print(edits)), KindsOf(Classify, trailer));
    FoldQuiet(Classify, Fold(INITIAL, KindsOf(Classify, Print(edits))), trailer);
  }

  // --- Where nothing added is skipped, the lines and their numbers are the true ones ---

  lemma {:induction false} SeenAdds(ops: seq<Op>, before: int, hunkId: nat)
    requires NoPlusPlus(ops)
    ensures OpsAdded(Seen(ops), before, hunkId) == OpsAdded(ops, before, hunkId)
    decreases |ops|
  {
    if ops != [] {
      SeenAdds(ops[1..], before, hunkId);
      SeenAdds(ops[1..], before + 1, hunkId);
    }
  }

  lemma {:induction false} KeptAreAdded(segments: seq<Segment>, before: nat, hunkId: nat)
    requires NoPlusPlus(AllOps(segments))
    ensures KeptLines(segments, before, hunkId) == AddedLines(segments, before, hunkId)
    decreases |segments|
  {
    if segments != [] {
      var first := if segments[0].Hunk? then segments[0].ops else [];
      assert AllOps(segments) == first + AllOps(segments[1..]);
      if segments[0].Gap? {
        KeptAreAdded(segments[1..], before + |segments[0].lines|, hunkId);
      } else {
        SeenAdds(first, before, hunkId + 1);
        KeptAreAdded(segments[1..], before + |NewOps(first)|, hunkId + 1);
      }
    }
  }

  lemma RecoverIsReplay(st: ParserState, edit: FileEdit)
    requires edit.target.Some? ==> NoPlusPlus(AllOps(edit.segments)) && EndsPlain(edit.target.value)
    ensures Recover(st, edit) == Replay(st, edit, NoDashes)
  {
    if edit.target.Some? {
      KeptAreAdded(edit.segments, 0, st.hunkId);
      PlainIsTrimmed(edit.target.value);
    }
  }

  lemma {:induction false} RecoverAllIsReplay(st: ParserState, edits: seq<FileEdit>)
    requires AllNoPlusPlus(edits) && PathsPlain(edits)
    ensures RecoverAll(st, edits) == ReplayAll(st, edits, NoDashes)
    decreases |edits|
  {
    if edits != [] {
      assert edits[0] in edits;
      RecoverIsReplay(st, edits[0]);
      RecoverAllIsReplay(Recover(st, edits[0]), edits[1..]);
    }
  }

  /** Then the parser keeps every added line with its true number. */
  lemma ParserKeepsAdded(edits: seq<FileEdit>, trailer: seq<string>)
    requires WellFormed(edits) && AllNoPlusPlus(edits) && forall line | line in trailer :: Quiet(line)
    ensures Parsed(Print(edits) + trailer) == Finish(ReplayAll(INITIAL, edits, NoDashes))
  {
    ParserRecovers(edits, trailer);
    RecoverAllIsReplay(INITIAL, edits);
  }
}
