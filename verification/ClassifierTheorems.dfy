/** What the driver's findings amount to: one per excused hunk, one per individually classified line of the
    other hunks, at most one size block; when it blocks; and exactly when it raises. */
module ClassifierTheorems {
  import opened Wrappers
  import opened DiffParser
  import opened HotspotPolicy
  import opened Classifier
  import DiffMeaning

  // --- One finding per excused hunk ---

  lemma {:induction false} HunkTextsIndex(lines: seq<ChangedLine>, hunkId: nat, j: nat) returns (k: nat)
    requires j < |HunkTexts(lines, hunkId)|
    ensures k < |lines| && lines[k].hunkId == hunkId && lines[k].text == HunkTexts(lines, hunkId)[j]
    decreases |lines|
  {
    var first := if lines[0].hunkId == hunkId then [lines[0].text] else [];
    if j < |first| {
      k := 0;
    } else {
      var rest := HunkTextsIndex(lines[1..], hunkId, j - |first|);
      k := rest + 1;
    }
  }

  /** Some line of an excused hunk may report it. */
  lemma SomeLineCanReport(t: Tests, rule: HotspotRule, file: ChangedFile, i: nat, excuse: Excuse) returns (k: nat)
    requires CallsFound(t) && i < |file.addedLines|
    requires ExcuseOf(t, rule, file, file.addedLines[i].hunkId) == Some(excuse)
    ensures k < |file.addedLines| && file.addedLines[k].hunkId == file.addedLines[i].hunkId
    ensures CanReport(t, file.addedLines[k], excuse)
  {
    var hunkId := file.addedLines[i].hunkId;
    if excuse == ForwardingHunk {
      ExcusedPasses(t, rule, file, hunkId);
      k := CallOfHunk(t, file.addedLines, hunkId);
    } else {
      k := i;
    }
  }

  lemma ExcusedPasses(t: Tests, rule: HotspotRule, file: ChangedFile, hunkId: nat)
    requires ExcuseOf(t, rule, file, hunkId) == Some(ForwardingHunk)
    ensures t.forwarding(HunkTexts(file.addedLines, hunkId))
  {
    assert hunkId in ExcusedBy(t, rule, file, ForwardingHunk);
  }

  lemma CallOfHunk(t: Tests, lines: seq<ChangedLine>, hunkId: nat) returns (k: nat)
    requires CallsFound(t) && t.forwarding(HunkTexts(lines, hunkId))
    ensures k < |lines| && lines[k].hunkId == hunkId && t.callLine(lines[k].text)
  {
    var texts := HunkTexts(lines, hunkId);
    var j :| 0 <= j < |texts| && t.callLine(texts[j]);
    k := HunkTextsIndex(lines, hunkId, j);
  }

  /** The first line of a hunk that may report it, found by walking back from one that may. */
  lemma {:induction false} FirstReporter(t: Tests, lines: seq<ChangedLine>, k: nat, excuse: Excuse) returns (first: nat)
    requires k < |lines| && CanReport(t, lines[k], excuse)
    ensures first <= k && lines[first].hunkId == lines[k].hunkId && Reports(t, lines, first, excuse)
    decreases k
  {
    if earlier: nat :| earlier < k && lines[earlier].hunkId == lines[k].hunkId && CanReport(t, lines[earlier], excuse) {
      first := FirstReporter(t, lines, earlier, excuse);
    } else {
      first := k;
    }
  }

  /** Every excused hunk is reported by exactly one of its lines. */
  lemma ExactlyOneReport(t: Tests, rule: HotspotRule, file: ChangedFile, i: nat) returns (k: nat)
    requires CallsFound(t) && i < |file.addedLines|
    requires ExcuseOf(t, rule, file, file.addedLines[i].hunkId).Some?
    ensures k < |file.addedLines| && file.addedLines[k].hunkId == file.addedLines[i].hunkId
    ensures LineVerdict(t, rule, file, k)
      == Some(ExcuseVerdict(rule, ExcuseOf(t, rule, file, file.addedLines[i].hunkId).value))
    ensures forall j | 0 <= j < |file.addedLines| && file.addedLines[j].hunkId == file.addedLines[i].hunkId && j != k ::
      LineVerdict(t, rule, file, j) == None
  {
    var excuse := ExcuseOf(t, rule, file, file.addedLines[i].hunkId).value;
    var reporter := SomeLineCanReport(t, rule, file, i, excuse);
    k := FirstReporter(t, file.addedLines, reporter, excuse);
    forall j | 0 <= j < |file.addedLines| && file.addedLines[j].hunkId == file.addedLines[i].hunkId && j != k
      ensures LineVerdict(t, rule, file, j) == None
    {
      assert j < k ==> !CanReport(t, file.addedLines[j], excuse);
    }
  }

  // --- Counting the findings ---

  /** Excused hunks of the file. */
  ghost function ExcusedHunks(t: Tests, rule: HotspotRule, file: ChangedFile): set<nat> {
    set i | 0 <= i < |file.addedLines| && ExcuseOf(t, rule, file, file.addedLines[i].hunkId).Some? ::
      file.addedLines[i].hunkId
  }

  /** Excused hunks already reported by the first n lines. */
  ghost function ReportedHunks(t: Tests, rule: HotspotRule, file: ChangedFile, n: nat): set<nat>
    requires n <= |file.addedLines|
  {
    set k | 0 <= k < n && ReportsHunk(t, rule, file, k) :: file.addedLines[k].hunkId
  }

  ghost predicate ReportsHunk(t: Tests, rule: HotspotRule, file: ChangedFile, k: nat)
    requires k < |file.addedLines|
  {
    var excuse := ExcuseOf(t, rule, file, file.addedLines[k].hunkId);
    excuse.Some? && Reports(t, file.addedLines, k, excuse.value)
  }

  function CountBelow(p: nat -> bool, n: nat): nat {
    if n == 0 then 0 else CountBelow(p, n - 1) + (if p(n - 1) then 1 else 0)
  }

  /** Lines of hunks without an excuse that the per-line rules classify. */
  ghost function OnItsOwn(t: Tests, rule: HotspotRule, file: ChangedFile): nat -> bool {
    (i: nat) => i < |file.addedLines| && ExcuseOf(t, rule, file, file.addedLines[i].hunkId).None?
                && t.lineRule(rule, file, file.addedLines[i]).Some?
  }

  ghost function ForItsHunk(t: Tests, rule: HotspotRule, file: ChangedFile): nat -> bool {
    (i: nat) => i < |file.addedLines| && ReportsHunk(t, rule, file, i)
  }

  /** How many of them there are among the first n lines. */
  ghost function IndividuallyClassified(t: Tests, rule: HotspotRule, file: ChangedFile, n: nat): nat {
    CountBelow(OnItsOwn(t, rule, file), n)
  }

  /** A hunk is not reported again: its earlier reporter would have been able to report under the same excuse. */
  lemma ReportedOnce(t: Tests, rule: HotspotRule, file: ChangedFile, n: nat)
    requires n < |file.addedLines| && ReportsHunk(t, rule, file, n)
    ensures file.addedLines[n].hunkId !in ReportedHunks(t, rule, file, n)
  {
    forall k | 0 <= k < n && ReportsHunk(t, rule, file, k)
      ensures file.addedLines[k].hunkId != file.addedLines[n].hunkId
    {
      var excuse := ExcuseOf(t, rule, file, file.addedLines[k].hunkId).value;
      assert CanReport(t, file.addedLines[k], excuse);
    }
  }

  /** A line with a verdict is judged on its own or reports its hunk, never both. */
  lemma {:induction false} VerdictsSplit(
      lines: seq<ChangedLine>, at: nat -> Option<Verdict>, own: nat -> bool, report: nat -> bool, n: nat)
    requires n <= |lines|
    requires forall i | 0 <= i < n :: (at(i).Some? <==> own(i) || report(i)) && !(own(i) && report(i))
    ensures |WithVerdict(lines, at, n)| == CountBelow(report, n) + CountBelow(own, n)
  {
    if n > 0 {
      VerdictsSplit(lines, at, own, report, n - 1);
    }
  }

  ghost function HunksOf(lines: seq<ChangedLine>, report: nat -> bool, n: nat): set<nat>
    requires n <= |lines|
  {
    set k: nat | k < n && report(k) :: lines[k].hunkId
  }

  /** Lines of different hunks: as many hunks as lines. */
  lemma {:induction false} HunksCounted(lines: seq<ChangedLine>, report: nat -> bool, n: nat)
    requires n <= |lines|
    requires forall i: nat, j: nat | i < j < n && report(i) && report(j) :: lines[i].hunkId != lines[j].hunkId
    ensures |HunksOf(lines, report, n)| == CountBelow(report, n)
  {
    if n == 0 {
      assert HunksOf(lines, report, 0) == {};
    } else {
      HunksCounted(lines, report, n - 1);
      var before := HunksOf(lines, report, n - 1);
      assert HunksOf(lines, report, n) == before + (if report(n - 1) then {lines[n - 1].hunkId} else {});
      assert report(n - 1) ==> lines[n - 1].hunkId !in before;
    }
  }

  lemma ReportedCount(t: Tests, rule: HotspotRule, file: ChangedFile, n: nat)
    requires n <= |file.addedLines|
    ensures |ReportedHunks(t, rule, file, n)| == CountBelow(ForItsHunk(t, rule, file), n)
  {
    var lines, report := file.addedLines, ForItsHunk(t, rule, file);
    forall i: nat, j: nat | i < j < n && report(i) && report(j) ensures lines[i].hunkId != lines[j].hunkId {
      ReportedOnce(t, rule, file, j);
      assert ReportsHunk(t, rule, file, i);
    }
    HunksCounted(lines, report, n);
    assert ReportedHunks(t, rule, file, n) == HunksOf(lines, report, n);
  }

  lemma ClassifiedCount(t: Tests, rule: HotspotRule, file: ChangedFile, n: nat)
    requires n <= |file.addedLines|
    ensures |Classified(t, rule, file, n)|
      == |ReportedHunks(t, rule, file, n)| + IndividuallyClassified(t, rule, file, n)
  {
    ReportedCount(t, rule, file, n);
    VerdictsSplit(file.addedLines, VerdictAt(t, rule, file), OnItsOwn(t, rule, file), ForItsHunk(t, rule, file), n);
  }

  lemma AllExcusedReported(t: Tests, rule: HotspotRule, file: ChangedFile)
    requires CallsFound(t)
    ensures ReportedHunks(t, rule, file, |file.addedLines|) == ExcusedHunks(t, rule, file)
  {
    var lines := file.addedLines;
    forall hunkId | hunkId in ExcusedHunks(t, rule, file) ensures hunkId in ReportedHunks(t, rule, file, |lines|) {
      var i: nat :| i < |lines| && ExcuseOf(t, rule, file, lines[i].hunkId).Some? && lines[i].hunkId == hunkId;
      var k := ExactlyOneReport(t, rule, file, i);
      assert ReportsHunk(t, rule, file, k);
    }
  }

  /** Past the early returns there is one finding per excused hunk, one per individually classified line of
      the other hunks, and one more if and only if eight significant lines stay unclassified. */
  lemma FindingCount(t: Tests, rule: HotspotRule, file: ChangedFile, stat: DiffStat)
    requires CallsFound(t) && LineFindings(t, rule, file, stat).Ok?
    ensures |LineFindings(t, rule, file, stat).value| ==
      |ExcusedHunks(t, rule, file)| + IndividuallyClassified(t, rule, file, |file.addedLines|)
      + (if |Unclassified(t, rule, file)| >= LARGE_BLOCK then 1 else 0)
  {
    ClassifiedCount(t, rule, file, |file.addedLines|);
    AllExcusedReported(t, rule, file);
  }

  // --- When a file blocks ---

  /** A line of a hunk without an excuse that the per-line rules block. */
  ghost predicate BlockedLine(t: Tests, rule: HotspotRule, file: ChangedFile, i: nat)
    requires i < |file.addedLines|
  {
    ExcuseOf(t, rule, file, file.addedLines[i].hunkId).None?
    && t.lineRule(rule, file, file.addedLines[i]).Some?
    && t.lineRule(rule, file, file.addedLines[i]).value.status == Blocked
  }

  ghost predicate HasBlocked(findings: seq<Finding>) {
    exists k | 0 <= k < |findings| :: findings[k].status == FindingBlocked
  }

  /** c is line i with the verdict it was given. */
  ghost predicate IsVerdictOf(t: Tests, rule: HotspotRule, file: ChangedFile, i: nat, c: ClassifiedLine)
    requires i < |file.addedLines|
  {
    c.line == file.addedLines[i] && LineVerdict(t, rule, file, i) == Some(c.verdict)
  }

  lemma {:induction false} MembersWithVerdict(
      lines: seq<ChangedLine>, at: nat -> Option<Verdict>, n: nat, c: ClassifiedLine)
    requires n <= |lines|
    ensures c in WithVerdict(lines, at, n) <==> exists i | 0 <= i < n :: lines[i] == c.line && at(i) == Some(c.verdict)
    decreases n
  {
    if n > 0 {
      MembersWithVerdict(lines, at, n - 1, c);
      var last := if at(n - 1).Some? then [ClassifiedLine(lines[n - 1], at(n - 1).value)] else [];
      assert c in last <==> lines[n - 1] == c.line && at(n - 1) == Some(c.verdict);
    }
  }

  lemma ClassifiedMembers(t: Tests, rule: HotspotRule, file: ChangedFile, n: nat, c: ClassifiedLine)
    requires n <= |file.addedLines|
    ensures c in Classified(t, rule, file, n) <==> exists i | 0 <= i < n :: IsVerdictOf(t, rule, file, i, c)
  {
    var lines, at := file.addedLines, VerdictAt(t, rule, file);
    MembersWithVerdict(lines, at, n, c);
    if c in Classified(t, rule, file, n) {
      var i: nat :| i < n && lines[i] == c.line && at(i) == Some(c.verdict);
      assert IsVerdictOf(t, rule, file, i, c);
    }
    if i :| 0 <= i < n && IsVerdictOf(t, rule, file, i, c) {
      assert lines[i] == c.line && at(i) == Some(c.verdict);
    }
  }

  ghost predicate SomeBlocked(cs: seq<ClassifiedLine>) { exists c | c in cs :: c.verdict.status == Blocked }

  ghost predicate SomeBlockedLine(t: Tests, rule: HotspotRule, file: ChangedFile) {
    exists i | 0 <= i < |file.addedLines| :: BlockedLine(t, rule, file, i)
  }

  lemma BlockedClassified(t: Tests, rule: HotspotRule, file: ChangedFile)
    ensures SomeBlocked(Classified(t, rule, file, |file.addedLines|)) <==> SomeBlockedLine(t, rule, file)
  {
    var lines := file.addedLines;
    if SomeBlocked(Classified(t, rule, file, |lines|)) {
      var c :| c in Classified(t, rule, file, |lines|) && c.verdict.status == Blocked;
      ClassifiedMembers(t, rule, file, |lines|, c);
      var i :| 0 <= i < |lines| && IsVerdictOf(t, rule, file, i, c);
      BlockedVerdict(t, rule, file, i, c);
    }
    if SomeBlockedLine(t, rule, file) {
      var i :| 0 <= i < |lines| && BlockedLine(t, rule, file, i);
      var c := ClassifiedLine(lines[i], t.lineRule(rule, file, lines[i]).value);
      assert IsVerdictOf(t, rule, file, i, c);
      ClassifiedMembers(t, rule, file, |lines|, c);
      assert c in Classified(t, rule, file, |lines|) && c.verdict.status == Blocked;
    }
  }

  /** An excuse never blocks. */
  lemma BlockedVerdict(t: Tests, rule: HotspotRule, file: ChangedFile, i: nat, c: ClassifiedLine)
    requires i < |file.addedLines| && IsVerdictOf(t, rule, file, i, c) && c.verdict.status == Blocked
    ensures BlockedLine(t, rule, file, i)
  {
  }

  /** Whether the file alone makes the strict gate fail. */
  ghost predicate BlocksFile(
      t: Tests, compactPaths: set<string>, rule: HotspotRule, file: ChangedFile, stat: DiffStat,
      currentLength: Option<nat>)
  {
    && PastEarlyReturns(compactPaths, file, stat, currentLength)
    && (forall e | e in rule.exceptions :: !e.Matches(Classifier.Texts(file.addedLines)))
    && (SomeBlockedLine(t, rule, file) || |Unclassified(t, rule, file)| >= LARGE_BLOCK)
  }

  lemma PayloadBlocked(cs: seq<ClassifiedLine>, rule: HotspotRule, stat: DiffStat, e: Option<HotspotException>)
    ensures HasBlocked(Payloads(cs, rule, stat, e)) <==> e.None? && SomeBlocked(cs)
  {
    var findings := Payloads(cs, rule, stat, e);
    assert forall k | 0 <= k < |cs| :: findings[k] == FindingPayload(cs[k], rule, stat, e);
    if e.None? {
      if c :| c in cs && c.verdict.status == Blocked {
        var k: nat :| k < |cs| && cs[k] == c;
        assert findings[k].status == FindingBlocked;
      }
    }
  }

  lemma HasBlockedConcat(a: seq<Finding>, b: seq<Finding>)
    ensures HasBlocked(a + b) <==> HasBlocked(a) || HasBlocked(b)
  {
    var both := a + b;
    if k: nat :| k < |a| && a[k].status == FindingBlocked { assert both[k] == a[k]; }
    if k: nat :| k < |b| && b[k].status == FindingBlocked { assert both[|a| + k] == b[k]; }
    if k: nat :| k < |both| && both[k].status == FindingBlocked {
      assert k < |a| ==> a[k] == both[k];
      assert k >= |a| ==> b[k - |a|] == both[k];
    }
  }

  lemma SizeBlockBlocked(rule: HotspotRule, line: ChangedLine, stat: DiffStat, e: Option<HotspotException>)
    requires rule.blockNew != []
    ensures HasBlocked([FindingPayload(SizeBlock(rule, line), rule, stat, e)]) <==> e.None?
  {
    var findings := [FindingPayload(SizeBlock(rule, line), rule, stat, e)];
    assert findings[0].status == (if e.None? then FindingBlocked else FindingException);
  }

  lemma BlockedLineFindings(t: Tests, rule: HotspotRule, file: ChangedFile, stat: DiffStat)
    requires LineFindings(t, rule, file, stat).Ok?
    ensures HasBlocked(LineFindings(t, rule, file, stat).value) <==>
      (forall e | e in rule.exceptions :: !e.Matches(Classifier.Texts(file.addedLines)))
      && (SomeBlockedLine(t, rule, file) || |Unclassified(t, rule, file)| >= LARGE_BLOCK)
  {
    var e := ExceptionForAdditions(rule, Classifier.Texts(file.addedLines));
    var payloads := Payloads(Classified(t, rule, file, |file.addedLines|), rule, stat, e);
    BlockedClassified(t, rule, file);
    PayloadBlocked(Classified(t, rule, file, |file.addedLines|), rule, stat, e);
    var rest := Unclassified(t, rule, file);
    if |rest| >= LARGE_BLOCK {
      SizeBlockBlocked(rule, rest[0], stat, e);
      HasBlockedConcat(payloads, [FindingPayload(SizeBlock(rule, rest[0]), rule, stat, e)]);
    }
  }

  /** A file's findings contain a blocked one exactly when the file blocks. */
  lemma BlockedFindings(
      t: Tests, compactPaths: set<string>, rule: HotspotRule, file: ChangedFile, stat: DiffStat,
      currentLength: Option<nat>)
    requires FileFindings(t, compactPaths, rule, file, stat, currentLength).Ok?
    ensures HasBlocked(FileFindings(t, compactPaths, rule, file, stat, currentLength).value)
      <==> BlocksFile(t, compactPaths, rule, file, stat, currentLength)
  {
    if PastEarlyReturns(compactPaths, file, stat, currentLength) {
      BlockedLineFindings(t, rule, file, stat);
    }
  }

  // --- Exactly when the driver raises ---

  /** A file the driver reports as deleted lines only. */
  predicate DeletionOnly(file: ChangedFile) { file.addedLines == [] && file.deletedLineCount > 0 }

  predicate MissesCount(stat: DiffStat) { stat.addedLineCount.None? || stat.deletedLineCount.None? }

  /** At least 25 lines deleted, no more added than deleted, and at most 600 left on disk. */
  predicate ReadsAsReduction(stat: DiffStat, currentLength: Option<nat>) {
    && !MissesCount(stat)
    && stat.deletedLineCount.value >= 25 && stat.deletedLineCount.value >= stat.addedLineCount.value
    && currentLength.Some? && currentLength.value <= 600
  }

  /** A file of a compact surface whose counts do not fit it: one is missing, or they read as a reduction of a file
      with no added line to report it by. */
  predicate CountsFail(compactPaths: set<string>, file: ChangedFile, stat: DiffStat, currentLength: Option<nat>) {
    && !DeletionOnly(file)
    && file.relativePath in compactPaths
    && (MissesCount(stat) || (file.addedLines == [] && ReadsAsReduction(stat, currentLength)))
  }

  /** The driver raises in two situations only: the counts fail a compact surface, or eight significant lines stay
      unclassified past both early returns under a rule that blocks no category. */
  lemma RaisesExactlyWhen(
      t: Tests, compactPaths: set<string>, rule: HotspotRule, file: ChangedFile, stat: DiffStat,
      currentLength: Option<nat>)
    ensures FileFindings(t, compactPaths, rule, file, stat, currentLength).Raised? <==>
      || CountsFail(compactPaths, file, stat, currentLength)
      || (!DeletionOnly(file)
          && !(file.relativePath in compactPaths && (MissesCount(stat) || ReadsAsReduction(stat, currentLength)))
          && rule.blockNew == [] && |Unclassified(t, rule, file)| >= LARGE_BLOCK)
  {
    ReductionRead(compactPaths, file, stat, currentLength);
    SizeCheckRaises(t, rule, file, stat);
  }

  lemma ReductionRead(compactPaths: set<string>, file: ChangedFile, stat: DiffStat, currentLength: Option<nat>)
    ensures CompactReduction(compactPaths, file, stat, currentLength) ==
      if file.relativePath in compactPaths && MissesCount(stat) then Raised(MissingCount)
      else Ok(file.relativePath in compactPaths && ReadsAsReduction(stat, currentLength))
  {
  }

  lemma SizeCheckRaises(t: Tests, rule: HotspotRule, file: ChangedFile, stat: DiffStat)
    ensures LineFindings(t, rule, file, stat).Raised? <==>
      rule.blockNew == [] && |Unclassified(t, rule, file)| >= LARGE_BLOCK
  {
  }

  /** With counts taken from the parsed diff and a rule that blocks some category, it never raises. */
  lemma NeverRaises(
      t: Tests, compactPaths: set<string>, rule: HotspotRule, file: ChangedFile, stat: DiffStat,
      currentLength: Option<nat>)
    requires rule.blockNew != []
    requires stat.addedLineCount == Some(|file.addedLines|) && stat.deletedLineCount == Some(file.deletedLineCount)
    ensures FileFindings(t, compactPaths, rule, file, stat, currentLength).Ok?
  {
    RaisesExactlyWhen(t, compactPaths, rule, file, stat, currentLength);
  }

  // --- What the size check counts ---

  lemma {:induction false} UnclassifiedMembers(
      significant: string -> bool, lines: seq<ChangedLine>, classified: seq<ClassifiedLine>, ignored: set<nat>)
    ensures forall line :: line in SignificantUnclassified(significant, lines, classified, ignored) <==>
      line in lines && line.hunkId !in ignored && significant(line.text)
      && forall c | c in classified :: (c.line.newLineno, c.line.text) != (line.newLineno, line.text)
    decreases |lines|
  {
    if lines != [] {
      UnclassifiedMembers(significant, lines[1..], classified, ignored);
    }
  }

  /** With increasing line numbers, as the parser gives for a real diff, the size check drops exactly the
      classified lines: a line is counted if and only if it is significant, its hunk is not ignored, and it
      was not itself classified, whatever equal texts stand around it. */
  lemma SizeCheckIsExact(t: Tests, rule: HotspotRule, file: ChangedFile, i: nat)
    requires DiffMeaning.Increasing(file.addedLines) && i < |file.addedLines|
    ensures file.addedLines[i] in Unclassified(t, rule, file) <==>
      && t.significant(file.addedLines[i].text)
      && file.addedLines[i].hunkId !in IgnoredHunks(t, rule, file)
      && LineVerdict(t, rule, file, i).None?
  {
    var lines := file.addedLines;
    var classified := Classified(t, rule, file, |lines|);
    UnclassifiedMembers(t.significant, lines, classified, IgnoredHunks(t, rule, file));
    forall k | 0 <= k < |lines| && k != i ensures lines[k].newLineno != lines[i].newLineno {
      var first, second := if k < i then k else i, if k < i then i else k;
      assert lines[first].newLineno < lines[second].newLineno;
    }
    if c :| c in classified && (c.line.newLineno, c.line.text) == (lines[i].newLineno, lines[i].text) {
      ClassifiedMembers(t, rule, file, |lines|, c);
      var k: nat :| k < |lines| && IsVerdictOf(t, rule, file, k, c);
    }
    var verdict := LineVerdict(t, rule, file, i);
    if verdict.Some? {
      var c := ClassifiedLine(lines[i], verdict.value);
      assert IsVerdictOf(t, rule, file, i, c);
      ClassifiedMembers(t, rule, file, |lines|, c);
    }
  }
}
