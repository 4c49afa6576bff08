/** Exactly which edit scripts survive printing and parsing, shown by counting what the parser can record. */
module DiffExactness {
  import opened Wrappers
  import opened Text
  import opened Sums
  import opened DiffParser
  import opened DiffPrinter
  import opened DiffRoundTrip

  predicate NoPluses(text: string) { !Doubled(text, '+') }

  function AddCount(ops: seq<Op>, p: string -> bool): nat {
    if ops == [] then 0
    else (if ops[0].Add? && p(ops[0].text) then 1 else 0) + AddCount(ops[1..], p)
  }

  /** Added lines in the files that still exist. */
  function VisibleAdds(edits: seq<FileEdit>, p: string -> bool): nat {
    if edits == [] then 0
    else (if edits[0].target.Some? then AddCount(AllOps(edits[0].segments), p) else 0) + VisibleAdds(edits[1..], p)
  }

  function VisibleDels(edits: seq<FileEdit>, p: string -> bool): nat {
    if edits == [] then 0
    else (if edits[0].target.Some? then DelCount(AllOps(edits[0].segments), p) else 0) + VisibleDels(edits[1..], p)
  }

  // --- Totals over all files of a parser state ---

  ghost function LineCounts(files: map<string, seq<ChangedLine>>): map<string, int> {
    map path | path in files :: |files[path]|
  }

  ghost function TotalAdded(st: ParserState): int { MapSum(LineCounts(st.files)) }

  ghost function TotalDeleted(st: ParserState): int { MapSum(map path | path in st.deleted :: st.deleted[path] as int) }

  lemma TotalOpen(st: ParserState, path: string)
    ensures TotalAdded(st.Open(path)) == TotalAdded(st) && TotalDeleted(st.Open(path)) == TotalDeleted(st)
  {
    if path !in st.files {
      MapSumUpdate(LineCounts(st.files), path, 0);
      assert LineCounts(st.Open(path).files) == LineCounts(st.files)[path := 0];
      var dels: map<string, int> := map p | p in st.deleted :: st.deleted[p] as int;
      MapSumUpdate(dels, path, 0);
      assert (map p | p in st.Open(path).deleted :: st.Open(path).deleted[p] as int) == dels[path := 0];
    }
  }

  lemma TotalRecord(st: ParserState, path: string, lines: seq<ChangedLine>, deletions: nat)
    requires path in st.files
    ensures TotalAdded(st.Record(path, lines, deletions)) == TotalAdded(st) + |lines|
    ensures TotalDeleted(st.Record(path, lines, deletions)) == TotalDeleted(st) + deletions
  {
    var after := st.Record(path, lines, deletions);
    MapSumUpdate(LineCounts(st.files), path, |st.files[path]| + |lines|);
    assert LineCounts(after.files) == LineCounts(st.files)[path := |st.files[path]| + |lines|];
    var dels: map<string, int> := map p | p in st.deleted :: st.deleted[p] as int;
    MapSumUpdate(dels, path, st.deleted[path] + deletions);
    assert (map p | p in after.deleted :: after.deleted[p] as int) == dels[path := st.deleted[path] + deletions];
  }

  // --- The parser never records more added lines than it reads additions ---

  function Additions(lines: seq<DiffLine>): nat {
    if lines == [] then 0 else (if lines[0].Addition? then 1 else 0) + Additions(lines[1..])
  }

  lemma {:induction false} AdditionsConcat(a: seq<DiffLine>, b: seq<DiffLine>)
    ensures Additions(a + b) == Additions(a) + Additions(b)
  {
    if a == [] {
      assert a + b == b;
    } else {
      assert (a + b)[0] == a[0] && (a + b)[1..] == a[1..] + b;
      AdditionsConcat(a[1..], b);
    }
  }

  lemma StepBound(st: ParserState, line: DiffLine)
    ensures TotalAdded(Step(st, line)) <= TotalAdded(st) + (if line.Addition? then 1 else 0)
  {
    if line.FileHeader? {
      if line.path.Some? {
        TotalOpen(st, line.path.value);
      }
    } else if st.currentPath.Some? && st.newLineno.Some? {
      if line.Addition? {
        TotalRecord(st, st.currentPath.value, [ChangedLine(st.newLineno.value, line.text, st.hunkId)], 0);
      } else if line.Deletion? {
        TotalRecord(st, st.currentPath.value, [], 1);
      }
    }
  }

  lemma {:induction false} FoldBound(st: ParserState, lines: seq<DiffLine>)
    ensures TotalAdded(Fold(st, lines)) <= TotalAdded(st) + Additions(lines)
    decreases |lines|
  {
    if lines != [] {
      StepBound(st, lines[0]);
      FoldBound(Step(st, lines[0]), lines[1..]);
    }
  }

  // --- How many additions a printed script contains ---

  /** Which printed lines can be read as additions at all. */
  ghost predicate AdditionsRead(kind: string -> DiffLine, header: HeaderPrinter) {
    && (forall op: Op :: kind(PrintOp(op)).Addition? <==> op.Add? && NoPluses(op.text))
    && (forall ops, section, oldBefore, newBefore :: kind(header(ops, section, oldBefore, newBefore)).HunkMark?)
  }

  lemma ParserReadsAdditions()
    ensures AdditionsRead(Classify, HunkHeader)
  {
    ParserReadsBack();
    forall op: Op ensures Classify(PrintOp(op)).Addition? <==> op.Add? && NoPluses(op.text) {
      if op.Add? {
        assert PrintOp(op)[1..] == op.text && PrintOp(op)[0] == '+';
      } else {
        ClassifyOp(op);
      }
    }
  }

  lemma {:induction false} AdditionsInOps(kind: string -> DiffLine, header: HeaderPrinter, ops: seq<Op>)
    requires AdditionsRead(kind, header)
    ensures Additions(KindsOf(kind, PrintOps(ops))) == AddCount(ops, NoPluses)
    decreases |ops|
  {
    if ops != [] {
      AdditionsInOps(kind, header, ops[1..]);
      KindsCons(kind, PrintOp(ops[0]), PrintOps(ops[1..]));
      AdditionsConcat([kind(PrintOp(ops[0]))], KindsOf(kind, PrintOps(ops[1..])));
    }
  }

  lemma {:induction false} AddCountConcat(a: seq<Op>, b: seq<Op>, p: string -> bool)
    ensures AddCount(a + b, p) == AddCount(a, p) + AddCount(b, p)
    decreases |a|
  {
    if a == [] {
      assert a + b == b;
    } else {
      assert (a + b)[0] == a[0] && (a + b)[1..] == a[1..] + b;
      AddCountConcat(a[1..], b, p);
    }
  }

  lemma AdditionsInHunk(kind: string -> DiffLine, header: HeaderPrinter, line: string, ops: seq<Op>)
    requires AdditionsRead(kind, header) && kind(line).HunkMark?
    ensures Additions(KindsOf(kind, PrintHunk(line, ops))) == AddCount(ops, NoPluses)
  {
    KindsCons(kind, line, PrintOps(ops));
    AdditionsConcat([kind(line)], KindsOf(kind, PrintOps(ops)));
    AdditionsInOps(kind, header, ops);
  }

  lemma {:induction false} AdditionsInSegments(
      kind: string -> DiffLine, header: HeaderPrinter, segments: seq<Segment>, oldBefore: nat, newBefore: nat)
    requires AdditionsRead(kind, header)
    ensures Additions(KindsOf(kind, PrintSegments(header, segments, oldBefore, newBefore)))
      == AddCount(AllOps(segments), NoPluses)
    decreases |segments|, 1
  {
    if segments != [] {
      match segments[0]
      case Gap(_) => AdditionsFromGap(kind, header, segments, oldBefore, newBefore);
      case Hunk(_, _) => AdditionsFromHunk(kind, header, segments, oldBefore, newBefore);
    }
  }

  lemma {:induction false} AdditionsFromGap(
      kind: string -> DiffLine, header: HeaderPrinter, segments: seq<Segment>, oldBefore: nat, newBefore: nat)
    requires AdditionsRead(kind, header) && segments != [] && segments[0].Gap?
    ensures Additions(KindsOf(kind, PrintSegments(header, segments, oldBefore, newBefore)))
      == AddCount(AllOps(segments), NoPluses)
    decreases |segments|, 0
  {
    var size := |segments[0].lines|;
    AdditionsInSegments(kind, header, segments[1..], oldBefore + size, newBefore + size);
    AdditionsPastGap(kind, header, segments, oldBefore, newBefore);
  }

  lemma {:induction false} AdditionsFromHunk(
      kind: string -> DiffLine, header: HeaderPrinter, segments: seq<Segment>, oldBefore: nat, newBefore: nat)
    requires AdditionsRead(kind, header) && segments != [] && segments[0].Hunk?
    ensures Additions(KindsOf(kind, PrintSegments(header, segments, oldBefore, newBefore)))
      == AddCount(AllOps(segments), NoPluses)
    decreases |segments|, 0
  {
    var ops := segments[0].ops;
    AdditionsInSegments(kind, header, segments[1..], oldBefore + |OldOps(ops)|, newBefore + |NewOps(ops)|);
    AdditionsFirstHunk(kind, header, segments, oldBefore, newBefore);
  }

  lemma AdditionsPastGap(
      kind: string -> DiffLine, header: HeaderPrinter, segments: seq<Segment>, oldBefore: nat, newBefore: nat)
    requires segments != [] && segments[0].Gap?
    requires var size := |segments[0].lines|;
      Additions(KindsOf(kind, PrintSegments(header, segments[1..], oldBefore + size, newBefore + size)))
      == AddCount(AllOps(segments[1..]), NoPluses)
    ensures Additions(KindsOf(kind, PrintSegments(header, segments, oldBefore, newBefore)))
      == AddCount(AllOps(segments), NoPluses)
  {
    FirstGap(header, segments, oldBefore, newBefore);
  }

  lemma AdditionsFirstHunk(
      kind: string -> DiffLine, header: HeaderPrinter, segments: seq<Segment>, oldBefore: nat, newBefore: nat)
    requires AdditionsRead(kind, header) && segments != [] && segments[0].Hunk?
    requires var ops := segments[0].ops;
      var rest := PrintSegments(header, segments[1..], oldBefore + |OldOps(ops)|, newBefore + |NewOps(ops)|);
      Additions(KindsOf(kind, rest)) == AddCount(AllOps(segments[1..]), NoPluses)
    ensures Additions(KindsOf(kind, PrintSegments(header, segments, oldBefore, newBefore)))
      == AddCount(AllOps(segments), NoPluses)
  {
    var ops, section := segments[0].ops, segments[0].section;
    var rest := PrintSegments(header, segments[1..], oldBefore + |OldOps(ops)|, newBefore + |NewOps(ops)|);
    assert AllOps(segments) == ops + AllOps(segments[1..]);
    AdditionsHunkFirst(kind, header, header(ops, section, oldBefore, newBefore), ops, rest, AllOps(segments[1..]));
  }

  lemma AdditionsHunkFirst(
      kind: string -> DiffLine, header: HeaderPrinter, line: string, ops: seq<Op>, rest: seq<string>, restOps: seq<Op>)
    requires AdditionsRead(kind, header) && kind(line).HunkMark?
    requires Additions(KindsOf(kind, rest)) == AddCount(restOps, NoPluses)
    ensures Additions(KindsOf(kind, PrintHunk(line, ops) + rest)) == AddCount(ops + restOps, NoPluses)
  {
    AdditionsInHunk(kind, header, line, ops);
    KindsConcat(kind, PrintHunk(line, ops), rest);
    AdditionsConcat(KindsOf(kind, PrintHunk(line, ops)), KindsOf(kind, rest));
    AddCountConcat(ops, restOps, NoPluses);
  }

  lemma {:induction false} AdditionsInQuiet(kind: string -> DiffLine, lines: seq<string>)
    requires FramesRead(kind) && forall line | line in lines :: Quiet(line)
    ensures Additions(KindsOf(kind, lines)) == 0
    decreases |lines|
  {
    if lines != [] {
      AdditionsInQuiet(kind, lines[1..]);
    }
  }

  lemma AdditionsInFile(kind: string -> DiffLine, header: HeaderPrinter, edit: FileEdit)
    requires AdditionsRead(kind, header) && FramesRead(kind) && WellFormedFile(edit)
    ensures Additions(KindsOf(kind, PrintFile(header, edit))) == AddCount(AllOps(edit.segments), NoPluses)
  {
    var body := PrintSegments(header, edit.segments, 0, 0);
    var source, target := SourceHeader(edit.source), TargetHeader(edit.target);
    assert [source, target] + body == [source] + ([target] + body);
    KindsConcat(kind, edit.preamble, [source, target] + body);
    KindsCons(kind, source, [target] + body);
    KindsCons(kind, target, body);
    var start := [FileHeader(ReadTarget(edit.target))];
    AdditionsConcat(KindsOf(kind, edit.preamble), [Other] + (start + KindsOf(kind, body)));
    AdditionsConcat([Other], start + KindsOf(kind, body));
    AdditionsConcat(start, KindsOf(kind, body));
    AdditionsInQuiet(kind, edit.preamble);
    AdditionsInSegments(kind, header, edit.segments, 0, 0);
  }

  lemma {:induction false} NoAdds(ops: seq<Op>, p: string -> bool)
    requires forall op | op in ops :: !op.Add?
    ensures AddCount(ops, p) == 0
    decreases |ops|
  {
    if ops != [] {
      NoAdds(ops[1..], p);
    }
  }

  lemma {:induction false} AdditionsInScript(kind: string -> DiffLine, header: HeaderPrinter, edits: seq<FileEdit>)
    requires AdditionsRead(kind, header) && FramesRead(kind) && WellFormed(edits)
    ensures Additions(KindsOf(kind, PrintAll(header, edits))) == VisibleAdds(edits, NoPluses)
    decreases |edits|
  {
    if edits != [] {
      var edit := edits[0];
      assert WellFormedFile(edit);
      AdditionsInFile(kind, header, edit);
      AdditionsInScript(kind, header, edits[1..]);
      KindsConcat(kind, PrintFile(header, edit), PrintAll(header, edits[1..]));
      AdditionsConcat(KindsOf(kind, PrintFile(header, edit)), KindsOf(kind, PrintAll(header, edits[1..])));
      if edit.target.None? {
        EmptyNewText(edit.segments);
        NoAdds(AllOps(edit.segments), NoPluses);
      }
    }
  }

  // --- How many additions and deletions the script intends ---

  lemma {:induction false} OpsAddedCount(ops: seq<Op>, before: int, hunkId: nat)
    ensures |OpsAdded(ops, before, hunkId)| == AddCount(ops, Always)
  {
    if ops != [] {
      OpsAddedCount(ops[1..], before, hunkId);
      OpsAddedCount(ops[1..], before + 1, hunkId);
    }
  }

  lemma {:induction false} AddedLinesCount(segments: seq<Segment>, before: nat, hunkId: nat)
    ensures |AddedLines(segments, before, hunkId)| == AddCount(AllOps(segments), Always)
    decreases |segments|
  {
    if segments != [] {
      match segments[0]
      case Gap(lines) =>
        AddedLinesCount(segments[1..], before + |lines|, hunkId);
        assert AllOps(segments) == AllOps(segments[1..]);
      case Hunk(ops, _) =>
        AddedLinesCount(segments[1..], before + |NewOps(ops)|, hunkId + 1);
        AddedInFirstHunk(segments, before, hunkId);
    }
  }

  /** Of the added lines the parser keeps those that do not begin `++`. */
  lemma {:induction false} KeptLinesCount(segments: seq<Segment>, before: nat, hunkId: nat)
    ensures |KeptLines(segments, before, hunkId)| == AddCount(AllOps(segments), NoPluses)
    decreases |segments|
  {
    if segments != [] {
      var rest := segments[1..];
      if segments[0].Gap? {
        KeptLinesCount(rest, before + |segments[0].lines|, hunkId);
        assert AllOps(segments) == AllOps(rest);
      } else {
        var ops := segments[0].ops;
        KeptLinesCount(rest, before + |NewOps(ops)|, hunkId + 1);
        OpsAddedCount(Seen(ops), before, hunkId + 1);
        SeenAddCount(ops);
        AddCountConcat(ops, AllOps(rest), NoPluses);
        assert AllOps(segments) == ops + AllOps(rest);
      }
    }
  }

  lemma {:induction false} SeenAddCount(ops: seq<Op>)
    ensures AddCount(Seen(ops), Always) == AddCount(ops, NoPluses)
  {
    if ops != [] {
      SeenAddCount(ops[1..]);
    }
  }

  lemma AddedInFirstHunk(segments: seq<Segment>, before: nat, hunkId: nat)
    requires segments != [] && segments[0].Hunk?
    requires var after := before + |NewOps(segments[0].ops)|;
      |AddedLines(segments[1..], after, hunkId + 1)| == AddCount(AllOps(segments[1..]), Always)
    ensures |AddedLines(segments, before, hunkId)| == AddCount(AllOps(segments), Always)
  {
    var ops := segments[0].ops;
    OpsAddedCount(ops, before, hunkId + 1);
    AddCountConcat(ops, AllOps(segments[1..]), Always);
    assert AllOps(segments) == ops + AllOps(segments[1..]);
  }

  lemma {:induction false} ReplayTotals(st: ParserState, edits: seq<FileEdit>, p: string -> bool)
    ensures TotalAdded(ReplayAll(st, edits, p)) == TotalAdded(st) + VisibleAdds(edits, Always)
    ensures TotalDeleted(ReplayAll(st, edits, p)) == TotalDeleted(st) + VisibleDels(edits, p)
    decreases |edits|
  {
    if edits != [] {
      var edit := edits[0];
      if edit.target.Some? {
        var path := edit.target.value;
        TotalOpen(st, path);
        TotalRecord(st.Open(path), path, AddedLines(edit.segments, 0, st.hunkId), DelCount(AllOps(edit.segments), p));
        AddedLinesCount(edit.segments, 0, st.hunkId);
      }
      ReplayTotals(Replay(st, edit, p), edits[1..], p);
    }
  }

  // --- A doubled marker makes the counts differ ---

  lemma {:induction false} AddCountsCompare(ops: seq<Op>)
    ensures AddCount(ops, NoPluses) <= AddCount(ops, Always)
    ensures AddCount(ops, NoPluses) == AddCount(ops, Always) <==> NoPlusPlus(ops)
  {
    if ops != [] {
      AddCountsCompare(ops[1..]);
      assert NoPlusPlus(ops) <==> (ops[0].Add? ==> NoPluses(ops[0].text)) && NoPlusPlus(ops[1..]);
    }
  }

  lemma {:induction false} DelCountsCompare(ops: seq<Op>)
    ensures DelCount(ops, NoDashes) <= DelCount(ops, Always)
    ensures DelCount(ops, NoDashes) == DelCount(ops, Always) <==> NoDashDash(ops)
  {
    if ops != [] {
      DelCountsCompare(ops[1..]);
      assert NoDashDash(ops) <==> (ops[0].Del? ==> NoDashes(ops[0].text)) && NoDashDash(ops[1..]);
    }
  }

  lemma {:induction false} VisibleAddsCompare(edits: seq<FileEdit>)
    ensures VisibleAdds(edits, NoPluses) <= VisibleAdds(edits, Always)
    ensures VisibleAdds(edits, NoPluses) == VisibleAdds(edits, Always) <==> AllNoPlusPlus(edits)
  {
    if edits != [] {
      VisibleAddsCompare(edits[1..]);
      AddCountsCompare(AllOps(edits[0].segments));
      assert AllNoPlusPlus(edits) <==>
        (edits[0].target.Some? ==> NoPlusPlus(AllOps(edits[0].segments))) && AllNoPlusPlus(edits[1..]);
    }
  }

  ghost predicate AllNoDashDash(edits: seq<FileEdit>) {
    forall edit | edit in edits :: edit.target.Some? ==> NoDashDash(AllOps(edit.segments))
  }

  lemma {:induction false} VisibleDelsCompare(edits: seq<FileEdit>)
    ensures VisibleDels(edits, NoDashes) <= VisibleDels(edits, Always)
    ensures VisibleDels(edits, NoDashes) == VisibleDels(edits, Always) <==> AllNoDashDash(edits)
  {
    if edits != [] {
      VisibleDelsCompare(edits[1..]);
      DelCountsCompare(AllOps(edits[0].segments));
      assert AllNoDashDash(edits) <==>
        (edits[0].target.Some? ==> NoDashDash(AllOps(edits[0].segments))) && AllNoDashDash(edits[1..]);
    }
  }

  lemma FinishInjective(a: ParserState, b: ParserState)
    requires Finish(a) == Finish(b)
    ensures a.files == b.files && a.deleted == b.deleted
  {
    assert Finish(a).Keys == a.files.Keys && Finish(b).Keys == b.files.Keys;
    forall path | path in a.files ensures a.files[path] == b.files[path] && a.deleted[path] == b.deleted[path] {
      assert Finish(a)[path] == Finish(b)[path];
    }
  }

  lemma {:induction false} SameReplay(st: ParserState, edits: seq<FileEdit>)
    requires AllNoDashDash(edits)
    ensures ReplayAll(st, edits, NoDashes) == ReplayAll(st, edits, Always)
    decreases |edits|
  {
    if edits != [] {
      DelCountsCompare(AllOps(edits[0].segments));
      assert edits[0] in edits;
      SameReplay(Replay(st, edits[0], NoDashes), edits[1..]);
    }
  }

  /** For paths that do not end with white space. */
  lemma PlainScriptInverted(edits: seq<FileEdit>, trailer: seq<string>)
    requires WellFormed(edits) && forall line | line in trailer :: Quiet(line)
    ensures Parsed(Print(edits) + trailer) == Intended(edits) <==> Unambiguous(edits)
  {
    assert Unambiguous(edits) <==> AllNoPlusPlus(edits) && AllNoDashDash(edits);
    var intended := ReplayAll(INITIAL, edits, Always);
    ReplayTotals(INITIAL, edits, Always);
    VisibleAddsCompare(edits);
    VisibleDelsCompare(edits);
    if AllNoPlusPlus(edits) {
      ParserKeepsAdded(edits, trailer);
      var recovered := ReplayAll(INITIAL, edits, NoDashes);
      ReplayTotals(INITIAL, edits, NoDashes);
      if AllNoDashDash(edits) {
        SameReplay(INITIAL, edits);
      } else if Finish(recovered) == Finish(intended) {
        FinishInjective(recovered, intended);
        assert false;
      }
    } else {
      var kinds := KindsOf(Classify, Print(edits) + trailer);
      PrintedAdditions(edits, trailer);
      FoldBound(INITIAL, kinds);
      if Finish(Fold(INITIAL, kinds)) == Finish(intended) {
        FinishInjective(Fold(INITIAL, kinds), intended);
        assert false;
      }
    }
  }

  // --- A path that ends with white space is never among the keys ---

  ghost predicate KeysPlain(st: ParserState) { forall path | path in st.files :: EndsPlain(path) }

  lemma PrefixStrippedPlain(path: string)
    ensures EndsPlain(StripGitPrefix(path))
  {
  }

  lemma {:induction false} FoldKeysPlain(kind: string -> DiffLine, st: ParserState, lines: seq<string>)
    requires forall s: string :: kind(s).FileHeader? && kind(s).path.Some? ==> EndsPlain(kind(s).path.value)
    requires KeysPlain(st)
    ensures KeysPlain(Fold(st, KindsOf(kind, lines)))
    decreases |lines|
  {
    if lines != [] {
      var next := Step(st, kind(lines[0]));
      forall path | path in next.files ensures EndsPlain(path) {
        assert path in st.files || kind(lines[0]) == FileHeader(Some(path));
      }
      FoldCons(st, kind(lines[0]), KindsOf(kind, lines[1..]));
      FoldKeysPlain(kind, next, lines[1..]);
    }
  }

  lemma ParsedKeysPlain(lines: seq<string>)
    ensures forall path | path in Parsed(lines) :: EndsPlain(path)
  {
    forall s: string | Classify(s).FileHeader? && Classify(s).path.Some? ensures EndsPlain(Classify(s).path.value) {
      var target := s[4..];
      PrefixStrippedPlain(target[..Span(target, DiffParser.IsNotTab)]);
    }
    FoldKeysPlain(Classify, INITIAL, lines);
  }

  lemma {:induction false} ReplayHas(st: ParserState, edits: seq<FileEdit>, p: string -> bool, path: string)
    requires path in st.files || exists edit | edit in edits :: edit.target == Some(path)
    ensures path in ReplayAll(st, edits, p).files
    decreases |edits|
  {
    if edits != [] {
      assert edits[0].target == Some(path) || path in st.files || exists edit | edit in edits[1..] ::
        edit.target == Some(path);
      ReplayHas(Replay(st, edits[0], p), edits[1..], p, path);
    }
  }

  /** The parser returns exactly the edit script's own account of every file if and only if, in files that still
      exist, no added text begins `++`, no deleted text begins `--` and no path ends with white space. */
  lemma ParserInvertsPrinter(edits: seq<FileEdit>, trailer: seq<string>)
    requires Printable(edits) && forall line | line in trailer :: Quiet(line)
    ensures Parsed(Print(edits) + trailer) == Intended(edits) <==> Unambiguous(edits) && PathsPlain(edits)
  {
    if PathsPlain(edits) {
      PlainScriptInverted(edits, trailer);
    } else {
      var edit :| edit in edits && edit.target.Some? && !EndsPlain(edit.target.value);
      ReplayHas(INITIAL, edits, Always, edit.target.value);
      ParsedKeysPlain(Print(edits) + trailer);
      assert edit.target.value in Intended(edits);
    }
  }

  lemma PrintedAdditions(edits: seq<FileEdit>, trailer: seq<string>)
    requires WellFormed(edits) && forall line | line in trailer :: Quiet(line)
    ensures Additions(KindsOf(Classify, Print(edits) + trailer)) == VisibleAdds(edits, NoPluses)
  {
    ParserReadsAdditions();
    ParserReadsFrames();
    AdditionsInScript(Classify, HunkHeader, edits);
    KindsConcat(Classify, Print(edits), trailer);
    AdditionsConcat(KindsOf(Classify, Print(edits)), KindsOf(Classify, trailer));
    AdditionsInQuiet(Classify, trailer);
  }

  /** A deleted SQL comment `-- retired` is enough: it prints as `--- retired`, which the parser skips. */
  lemma DashDashDeletionLost(path: string, text: string)
    requires PlainPath(path) && Doubled(text, '-')
    ensures var edits := [FileEdit([], "a/" + path, Some(path), [Hunk([Del(text)], "")])];
      WellFormed(edits) && Parsed(Print(edits)) != Intended(edits)
  {
    var ops := [Del(text)];
    var edits := [FileEdit([], "a/" + path, Some(path), [Hunk(ops, "")])];
    OneHunk(ops);
    assert ops[0] in ops && !NoDashDash(ops);
    assert edits[0] in edits && !Unambiguous(edits);
    ParserInvertsPrinter(edits, []);
    assert Print(edits) + [] == Print(edits);
  }
}
