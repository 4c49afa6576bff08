/** The gate end to end: from a policy payload and a printed diff to the report. */
module Gate {
  import opened Wrappers
  import opened DiffParser
  import opened DiffPrinter
  import DiffExactness
  import DiffRoundTrip
  import DiffMeaning
  import opened HotspotPolicy
  import PolicyValidation
  import opened Classifier
  import ClassifierTheorems
  import opened Report

  /** Every rule of a policy that was built blocks some category. */
  lemma BuiltRulesBlock(iso: string -> Option<int>, today: int, payload: PolicyValidation.Yaml, inputs: Inputs)
    requires payload.Map? && PolicyValidation.PolicyOf(iso, today, payload) == Ok(inputs.hotspots)
    ensures RulesBlock(inputs)
  {
    PolicyValidation.PolicyBuilds(iso, today, payload);
    assert forall k | 0 <= k < |inputs.hotspots| :: PolicyValidation.Usable(inputs.hotspots[k].1);
  }

  /** Under a policy that was built from a payload, and whatever the diff and numstat say, the report raises exactly
      when the counts fail a changed hotspot, and otherwise fails exactly when one blocks; counts that agree with the
      diff never make it raise. */
  lemma BuiltPolicyReports(iso: string -> Option<int>, today: int, payload: PolicyValidation.Yaml, inputs: Inputs)
    requires payload.Map? && PolicyValidation.PolicyOf(iso, today, payload) == Ok(inputs.hotspots)
    ensures ReportOf(inputs).Raised? <==> SomeRaises(inputs)
    ensures ReportOf(inputs).Ok? ==> (ReportOf(inputs).value.strictFailed <==> SomeBlocks(inputs))
    ensures NumstatAgrees(inputs) ==> ReportOf(inputs).Ok?
  {
    BuiltRulesBlock(iso, today, payload, inputs);
    ReportRaisesExactlyWhen(inputs);
    if ReportOf(inputs).Ok? {
      StrictVerdict(inputs);
    }
    if NumstatAgrees(inputs) {
      AgreeingCountsReport(inputs);
    }
  }

  /** On a parsed diff the size check of a file counts line k exactly when it is significant, its hunk counts, and
      it was not itself classified: equal lines elsewhere in the file make no difference. */
  lemma SizeCheckOnParsedDiff(edits: seq<FileEdit>, trailer: seq<string>, i: nat, t: Tests, rule: HotspotRule, k: nat)
    requires DiffMeaning.Readable(edits) && forall line | line in trailer :: Quiet(line)
    requires i < |edits| && edits[i].target.Some? && Trimmed(edits[i].target.value) in Parsed(Print(edits) + trailer)
    requires k < |Parsed(Print(edits) + trailer)[Trimmed(edits[i].target.value)].addedLines|
    ensures var file := Parsed(Print(edits) + trailer)[Trimmed(edits[i].target.value)];
      file.addedLines[k] in Unclassified(t, rule, file) <==>
        && t.significant(file.addedLines[k].text)
        && file.addedLines[k].hunkId !in IgnoredHunks(t, rule, file)
        && LineVerdict(t, rule, file, k).None?
  {
    DiffMeaning.ParsedFileOrdered(edits, trailer, i);
    ClassifierTheorems.SizeCheckIsExact(t, rule, Parsed(Print(edits) + trailer)[Trimmed(edits[i].target.value)], k);
  }

  // --- When the counts fail a script ---

  function Added(edit: FileEdit): nat { DiffExactness.AddCount(AllOps(edit.segments), Always) }

  function Deleted(edit: FileEdit): nat { DelCount(AllOps(edit.segments), Always) }

  /** numstat counts what the script does, for the files it names. */
  ghost predicate HonestCounts(edits: seq<FileEdit>, numstat: map<string, DiffStat>) {
    forall edit | edit in edits && edit.target.Some? && Trimmed(edit.target.value) in numstat ::
      var stat := numstat[Trimmed(edit.target.value)];
      stat.addedLineCount == Some(Added(edit)) && stat.deletedLineCount == Some(Deleted(edit))
  }

  /** Whatever the edit adds begins `++` and whatever it deletes begins `--`. */
  ghost predicate AllHidden(edit: FileEdit) {
    forall op | op in AllOps(edit.segments) ::
      (op.Add? ==> Doubled(op.text, '+')) && (op.Del? ==> Doubled(op.text, '-'))
  }

  /** A reduction of a compact surface, counted by numstat, of which the parser sees nothing: 25 lines deleted, no more
      added, at most 600 left on disk. */
  ghost predicate HiddenReduction(inputs: Inputs, edit: FileEdit) {
    && edit.target.Some?
    && (var path := Trimmed(edit.target.value);
        && path in inputs.compactPaths && path in inputs.numstat
        && AllHidden(edit) && Deleted(edit) >= 25 && Deleted(edit) >= Added(edit)
        && inputs.LengthOf(path).Some? && inputs.LengthOf(path).value <= 600)
  }

  lemma HiddenCounts(edit: FileEdit)
    ensures AllHidden(edit) <==>
      DiffExactness.AddCount(AllOps(edit.segments), DiffExactness.NoPluses) == 0
      && DelCount(AllOps(edit.segments), NoDashes) == 0
  {
    NothingSeen(AllOps(edit.segments));
  }

  lemma {:induction false} NothingSeen(ops: seq<Op>)
    ensures (forall op | op in ops :: (op.Add? ==> Doubled(op.text, '+')) && (op.Del? ==> Doubled(op.text, '-'))) <==>
      DiffExactness.AddCount(ops, DiffExactness.NoPluses) == 0 && DelCount(ops, NoDashes) == 0
  {
    if ops != [] {
      NothingSeen(ops[1..]);
      assert forall op :: op in ops <==> op == ops[0] || op in ops[1..];
    }
  }

  /** The counts fail a file of the script exactly when the edit is a hidden reduction of it. */
  lemma EditFails(edits: seq<FileEdit>, inputs: Inputs, i: nat)
    requires DiffMeaning.DistinctTargets(edits) && inputs.changed == Recovered(edits)
    requires HonestCounts(edits, inputs.numstat)
    requires i < |edits| && edits[i].target.Some?
    ensures var path := Trimmed(edits[i].target.value);
      && path in inputs.changed
      && (ClassifierTheorems.CountsFail(inputs.compactPaths, inputs.changed[path], inputs.StatFor(path),
            inputs.LengthOf(path))
          <==> HiddenReduction(inputs, edits[i]))
  {
    assert edits[i] in edits;
    DiffMeaning.RecoveredFile(edits, i);
    DiffExactness.KeptLinesCount(edits[i].segments, 0, DiffMeaning.HunksBefore(edits, i));
    HiddenCounts(edits[i]);
  }

  /** An edit reduces hotspot k and the parser sees nothing of it. */
  ghost predicate ReducedUnseen(inputs: Inputs, edits: seq<FileEdit>, k: nat)
    requires k < |inputs.hotspots|
  {
    exists i | 0 <= i < |edits| ::
      ReadTarget(edits[i].target) == Some(inputs.hotspots[k].0) && HiddenReduction(inputs, edits[i])
  }

  ghost predicate SomeHiddenReduction(inputs: Inputs, edits: seq<FileEdit>) {
    exists k | 0 <= k < |inputs.hotspots| :: ReducedUnseen(inputs, edits, k)
  }

  lemma HotspotOfScript(edits: seq<FileEdit>, inputs: Inputs, k: nat)
    requires DiffMeaning.DistinctTargets(edits) && inputs.changed == Recovered(edits)
    requires HonestCounts(edits, inputs.numstat) && k < |inputs.hotspots|
    ensures HotspotRaises(inputs, k) <==> ReducedUnseen(inputs, edits, k)
  {
    var path := inputs.hotspots[k].0;
    forall i | 0 <= i < |edits| && ReadTarget(edits[i].target) == Some(path)
      ensures HotspotRaises(inputs, k) <==> HiddenReduction(inputs, edits[i])
    {
      EditFails(edits, inputs, i);
    }
    if path in inputs.changed {
      var i := DiffMeaning.RecoveredPath(INITIAL, edits, path);
    }
  }

  /** With counts that are the script's own, some hotspot raises exactly when one is reduced by an edit whose lines the
      parser skips, every one. */
  lemma SomeOfScript(edits: seq<FileEdit>, inputs: Inputs)
    requires DiffMeaning.DistinctTargets(edits) && inputs.changed == Recovered(edits)
    requires HonestCounts(edits, inputs.numstat)
    ensures SomeRaises(inputs) <==> SomeHiddenReduction(inputs, edits)
  {
    forall k | 0 <= k < |inputs.hotspots| ensures HotspotRaises(inputs, k) <==> ReducedUnseen(inputs, edits, k) {
      HotspotOfScript(edits, inputs, k);
    }
  }

  // --- End to end ---

  /** For a script printed as a diff and judged with its own counts under a policy built from a payload, the gate raises
      exactly when some hotspot is reduced by lines the parser skips, and otherwise fails exactly when a hotspot blocks
      on what the parser recovers of the script. */
  lemma GateVerdict(
      edits: seq<FileEdit>, trailer: seq<string>, iso: string -> Option<int>, today: int,
      payload: PolicyValidation.Yaml, inputs: Inputs)
    requires DiffMeaning.Readable(edits) && forall line | line in trailer :: Quiet(line)
    requires payload.Map? && PolicyValidation.PolicyOf(iso, today, payload) == Ok(inputs.hotspots)
    requires inputs.changed == Parsed(Print(edits) + trailer) && HonestCounts(edits, inputs.numstat)
    ensures ReportOf(inputs).Raised? <==> SomeHiddenReduction(inputs, edits)
    ensures ReportOf(inputs).Ok? ==>
      (ReportOf(inputs).value.strictFailed <==> SomeBlocks(inputs.(changed := Recovered(edits))))
  {
    DiffRoundTrip.ParserRecovers(edits, trailer);
    ChangedAs(inputs, Recovered(edits));
    SomeOfScript(edits, inputs);
    BuiltPolicyReports(iso, today, payload, inputs);
  }

  lemma ChangedAs(inputs: Inputs, changed: map<string, ChangedFile>)
    requires inputs.changed == changed
    ensures inputs.(changed := changed) == inputs
  {
  }

  /** If nothing in the script is ambiguous, what the parser recovers is the script's own account of every file,
      whatever numstat says. */
  lemma UnambiguousVerdict(
      edits: seq<FileEdit>, trailer: seq<string>, iso: string -> Option<int>, today: int,
      payload: PolicyValidation.Yaml, inputs: Inputs)
    requires Printable(edits) && Unambiguous(edits) && PathsPlain(edits) && forall line | line in trailer :: Quiet(line)
    requires payload.Map? && PolicyValidation.PolicyOf(iso, today, payload) == Ok(inputs.hotspots)
    requires inputs.changed == Parsed(Print(edits) + trailer)
    ensures ReportOf(inputs).Raised? <==> SomeRaises(inputs.(changed := Intended(edits)))
    ensures ReportOf(inputs).Ok? ==>
      (ReportOf(inputs).value.strictFailed <==> SomeBlocks(inputs.(changed := Intended(edits))))
  {
    DiffExactness.ParserInvertsPrinter(edits, trailer);
    ChangedAs(inputs, Intended(edits));
    BuiltPolicyReports(iso, today, payload, inputs);
  }

  // --- A reduction that makes the gate raise ---

  function Dels(texts: seq<string>): seq<Op> { if texts == [] then [] else [Del(texts[0])] + Dels(texts[1..]) }

  lemma {:induction false} OnlyDeletions(texts: seq<string>)
    ensures forall op | op in Dels(texts) :: op.Del? && op.text in texts
    ensures DelCount(Dels(texts), Always) == |texts|
    ensures DiffExactness.AddCount(Dels(texts), Always) == 0
  {
    if texts != [] {
      OnlyDeletions(texts[1..]);
    }
  }

  /** The script that deletes the texts, in one hunk. */
  function Deletion(path: string, texts: seq<string>): FileEdit {
    FileEdit([], "a/" + path, Some(path), [Hunk(Dels(texts), "")])
  }

  lemma DeletionReadable(path: string, texts: seq<string>)
    requires PlainPath(path)
    ensures DiffMeaning.Readable([Deletion(path, texts)]) && ReadTarget(Some(path)) == Some(path)
    ensures Added(Deletion(path, texts)) == 0 && Deleted(Deletion(path, texts)) == |texts|
    ensures (forall text | text in texts :: Doubled(text, '-')) ==> AllHidden(Deletion(path, texts))
  {
    OnlyDeletions(texts);
    OneHunk(Dels(texts));
    PlainIsTrimmed(path);
  }

  /** A script of one file that is a hidden reduction of a hotspot. */
  lemma OneReductionRaises(edit: FileEdit, inputs: Inputs, k: nat)
    requires DiffMeaning.Readable([edit]) && inputs.changed == Parsed(Print([edit]) + [])
    requires HonestCounts([edit], inputs.numstat) && RulesBlock(inputs) && k < |inputs.hotspots|
    requires ReadTarget(edit.target) == Some(inputs.hotspots[k].0) && HiddenReduction(inputs, edit)
    ensures ReportOf(inputs).Raised?
  {
    DiffRoundTrip.ParserRecovers([edit], []);
    SomeOfScript([edit], inputs);
    assert HiddenReduction(inputs, [edit][0]);
    assert ReducedUnseen(inputs, [edit], k);
    ReportRaisesExactlyWhen(inputs);
  }

  /** Deleting 25 lines that begin `--` from a compact surface of at most 600 lines makes the report raise, with the
      counts git gives for it. */
  lemma DashedReductionRaises(path: string, texts: seq<string>, inputs: Inputs, k: nat)
    requires PlainPath(path) && |texts| >= 25 && forall text | text in texts :: Doubled(text, '-')
    requires inputs.changed == Parsed(Print([Deletion(path, texts)]))
    requires inputs.numstat == map[path := DiffStat(path, Some(0), Some(|texts|))]
    requires RulesBlock(inputs) && k < |inputs.hotspots| && inputs.hotspots[k].0 == path
    requires path in inputs.compactPaths && path in inputs.lengths && inputs.lengths[path] <= 600
    ensures ReportOf(inputs).Raised?
  {
    DeletionReadable(path, texts);
    DeletionHidden(path, texts, inputs);
    NoTrailer(Print([Deletion(path, texts)]));
    OneReductionRaises(Deletion(path, texts), inputs, k);
  }

  lemma NoTrailer(lines: seq<string>)
    ensures lines + [] == lines
  {
  }

  lemma DeletionHidden(path: string, texts: seq<string>, inputs: Inputs)
    requires PlainPath(path) && |texts| >= 25 && forall text | text in texts :: Doubled(text, '-')
    requires inputs.numstat == map[path := DiffStat(path, Some(0), Some(|texts|))]
    requires path in inputs.compactPaths && path in inputs.lengths && inputs.lengths[path] <= 600
    ensures HonestCounts([Deletion(path, texts)], inputs.numstat) && HiddenReduction(inputs, Deletion(path, texts))
  {
    DeletionReadable(path, texts);
  }
}
