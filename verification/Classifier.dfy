/** The classifier driver: one pass over a hotspot's added lines that decides, hunk by hunk and line by
    line, what is reported. */
module Classifier {
  import opened Wrappers
  import opened Text
  import opened DiffParser
  import opened HunkRecognizers
  import opened HotspotPolicy

  datatype Status = Allowed | Blocked

  datatype Verdict = Verdict(status: Status, category: string, message: string, policyRule: string)

  datatype ClassifiedLine = ClassifiedLine(line: ChangedLine, verdict: Verdict)

  datatype DiffStat = DiffStat(relativePath: string, addedLineCount: Option<nat>, deletedLineCount: Option<nat>)

  datatype FindingStatus = FindingAllowed | FindingBlocked | FindingException

  datatype Finding = Finding(
    status: FindingStatus,
    category: string,
    relativePath: string,
    line: Option<int>,
    policyRule: string,
    targetRole: string,
    preferredOwnerModules: seq<string>,
    addedLineCount: Option<nat>,
    deletedLineCount: Option<nat>,
    message: string,
    addedLine: Option<string>,
    exceptionId: Option<string>,
    remediation: Option<string>)

  datatype ClassifyError = MissingCount | NoAddedLine | NoBlockCategory

  // --- The tests the driver relies on ---

  /** The hunk recognisers, the forwarding-call test, the significance test and the per-line rules. */
  datatype Tests = Tests(
    alias: seq<string> -> bool,
    registry: seq<string> -> bool,
    forwarding: seq<string> -> bool,
    compatibility: seq<string> -> bool,
    signature: seq<string> -> bool,
    callLine: string -> bool,
    significant: string -> bool,
    lineRule: (HotspotRule, ChangedFile, ChangedLine) -> Option<Verdict>)

  /** A forwarding hunk always holds a line the call test accepts. */
  ghost predicate CallsFound(t: Tests) {
    forall texts: seq<string> :: t.forwarding(texts) ==> exists k | 0 <= k < |texts| :: t.callLine(texts[k])
  }

  /** The path-specific rule tables, left uninterpreted. */
  datatype PathRules = PathRules(
    hasSchemaFacade: string -> bool,
    schemaFacade: (string, string, ChangedLine, seq<string>) -> Option<Verdict>,
    implementation: (string, string, ChangedLine, HotspotRule) -> Option<Verdict>)

  predicate IsMultilineImportContinuation(stripped: string, hunkTexts: seq<string>) {
    ImportItem(stripped) && exists k | 0 <= k < |hunkTexts| :: MultilineImportOpen(Strip(hunkTexts[k]))
  }

  /** The order of the per-line tests: comments, schema facades, imports, forwarding definitions, path rules. */
  function ClassifyPythonAddition(rules: PathRules, rule: HotspotRule, file: ChangedFile, line: ChangedLine)
    : Option<Verdict>
  {
    var path := file.relativePath;
    var stripped := Strip(line.text);
    var hunkTexts := HunkTexts(file.addedLines, line.hunkId);
    if IsCommentOrBlank(line.text) then None
    else if rules.hasSchemaFacade(path) then rules.schemaFacade(path, stripped, line, hunkTexts)
    else
      var importCategory := AllowedCategoryForImport(rule);
      if importCategory.Some? && (IsImportOrAlias(line.text) || IsMultilineImportContinuation(stripped, hunkTexts)) then
        Some(Verdict(Allowed, importCategory.value, "facade import or alias maintenance is allowed",
                     "allow." + importCategory.value))
      else
        var forwarder := AllowedCategoryForForwarder(rule);
        if forwarder.Some? && DefLine(stripped) && IsForwardingHunk(hunkTexts) then
          Some(Verdict(Allowed, forwarder.value, "narrow forwarding wrapper is allowed", "allow." + forwarder.value))
        else rules.implementation(path, stripped, line, rule)
  }

  function StandardTests(rules: PathRules): Tests {
    Tests(IsAliasOnlyHunk, IsRegistryCompositionHunk, IsForwardingHunk, IsCompatibilityTestHunk,
          IsTestSignatureContinuationHunk, text => IsForwardingCallLine(Strip(text)), IsSignificantAddedText,
          (rule, file, line) => ClassifyPythonAddition(rules, rule, file, line))
  }

  lemma StandardCallsFound(rules: PathRules)
    ensures CallsFound(StandardTests(rules))
  {
    var t := StandardTests(rules);
    forall texts: seq<string> | t.forwarding(texts) ensures exists k | 0 <= k < |texts| :: t.callLine(texts[k]) {
      ForwardingHunkHasCall(texts);
      var k :| 0 <= k < |texts| && IsForwardingCallLine(Strip(texts[k]));
      assert t.callLine(texts[k]);
    }
  }

  // --- Hunks of a file ---

  /** The added texts of one hunk, in order. */
  function HunkTexts(lines: seq<ChangedLine>, hunkId: nat): seq<string> {
    if lines == [] then []
    else (if lines[0].hunkId == hunkId then [lines[0].text] else []) + HunkTexts(lines[1..], hunkId)
  }

  /** The hunks of the file whose texts pass the test; none when the test is switched off. */
  function HunkIds(lines: seq<ChangedLine>, enabled: bool, test: seq<string> -> bool): set<nat> {
    set line | line in lines && enabled && test(HunkTexts(lines, line.hunkId)) :: line.hunkId
  }

  lemma {:induction false} HunkTextsSnoc(lines: seq<ChangedLine>, line: ChangedLine, hunkId: nat)
    ensures HunkTexts(lines + [line], hunkId)
      == HunkTexts(lines, hunkId) + (if line.hunkId == hunkId then [line.text] else [])
  {
    if lines == [] {
      assert [] + [line] == [line] && [line][1..] == [];
    } else {
      var all, added := lines + [line], if line.hunkId == hunkId then [line.text] else [];
      var first := if lines[0].hunkId == hunkId then [lines[0].text] else [];
      HunkTextsSnoc(lines[1..], line, hunkId);
      assert all[0] == lines[0] && all[1..] == lines[1..] + [line];
      assert HunkTexts(all, hunkId) == first + HunkTexts(all[1..], hunkId);
      assert first + (HunkTexts(lines[1..], hunkId) + added) == (first + HunkTexts(lines[1..], hunkId)) + added;
    }
  }

  lemma {:induction false} HunkTextsEmpty(lines: seq<ChangedLine>, hunkId: nat)
    ensures HunkTexts(lines, hunkId) != [] <==> exists line | line in lines :: line.hunkId == hunkId
  {
    if lines != [] {
      HunkTextsEmpty(lines[1..], hunkId);
    }
  }

  /** Groups the texts by hunk, then keeps the ids that pass. */
  method HunkIdsMatching(lines: seq<ChangedLine>, enabled: bool, test: seq<string> -> bool) returns (ids: set<nat>)
    ensures ids == HunkIds(lines, enabled, test)
  {
    if !enabled { return {}; }
    var textsByHunk: map<nat, seq<string>> := map[];
    for i := 0 to |lines|
      invariant Grouped(textsByHunk, lines[..i])
    {
      var line := lines[i];
      GroupedNext(textsByHunk, lines[..i], line);
      assert lines[..i + 1] == lines[..i] + [line];
      if line.hunkId !in textsByHunk {
        textsByHunk := textsByHunk[line.hunkId := []];
      }
      textsByHunk := textsByHunk[line.hunkId := textsByHunk[line.hunkId] + [line.text]];
    }
    assert lines[..|lines|] == lines;
    ids := set hunkId | hunkId in textsByHunk && test(textsByHunk[hunkId]);
  }

  /** The texts of each hunk that has one. */
  ghost predicate Grouped(texts: map<nat, seq<string>>, lines: seq<ChangedLine>) {
    && texts.Keys == (set line | line in lines :: line.hunkId)
    && forall hunkId | hunkId in texts :: texts[hunkId] == HunkTexts(lines, hunkId)
  }

  lemma GroupedNext(texts: map<nat, seq<string>>, lines: seq<ChangedLine>, line: ChangedLine)
    requires Grouped(texts, lines)
    ensures Grouped(texts[line.hunkId := (if line.hunkId in texts then texts[line.hunkId] else []) + [line.text]],
                    lines + [line])
  {
    var next := texts[line.hunkId := (if line.hunkId in texts then texts[line.hunkId] else []) + [line.text]];
    HunkTextsEmpty(lines, line.hunkId);
    forall hunkId | hunkId in next ensures next[hunkId] == HunkTexts(lines + [line], hunkId) {
      HunkTextsSnoc(lines, line, hunkId);
    }
    assert next.Keys == texts.Keys + {line.hunkId};
    assert forall x :: x in lines + [line] <==> x in lines || x == line;
  }

  // --- What each line is reported as ---

  datatype Excuse = AliasHunk | RegistryHunk | ForwardingHunk | CompatibilityHunk | SignatureHunk

  predicate Enabled(rule: HotspotRule, excuse: Excuse) {
    match excuse
    case AliasHunk => AllowedCategoryForImport(rule).Some?
    case RegistryHunk => "registry_composition" in rule.allow
    case ForwardingHunk => AllowedCategoryForForwarder(rule).Some?
    case CompatibilityHunk => "compatibility_assertion" in rule.allow
    case SignatureHunk => "compatibility_assertion" in rule.allow
  }

  function TestFor(t: Tests, excuse: Excuse): seq<string> -> bool {
    match excuse
    case AliasHunk => t.alias
    case RegistryHunk => t.registry
    case ForwardingHunk => t.forwarding
    case CompatibilityHunk => t.compatibility
    case SignatureHunk => t.signature
  }

  function ExcusedBy(t: Tests, rule: HotspotRule, file: ChangedFile, excuse: Excuse): set<nat> {
    HunkIds(file.addedLines, Enabled(rule, excuse), TestFor(t, excuse))
  }

  /** The strongest excuse a hunk has: alias, registry, forwarding, compatibility test, signature. */
  function ExcuseOf(t: Tests, rule: HotspotRule, file: ChangedFile, hunkId: nat): Option<Excuse> {
    if hunkId in ExcusedBy(t, rule, file, AliasHunk) then Some(AliasHunk)
    else if hunkId in ExcusedBy(t, rule, file, RegistryHunk) then Some(RegistryHunk)
    else if hunkId in ExcusedBy(t, rule, file, ForwardingHunk) then Some(ForwardingHunk)
    else if hunkId in ExcusedBy(t, rule, file, CompatibilityHunk) then Some(CompatibilityHunk)
    else if hunkId in ExcusedBy(t, rule, file, SignatureHunk) then Some(SignatureHunk)
    else None
  }

  function ExcuseVerdict(rule: HotspotRule, excuse: Excuse): Verdict {
    match excuse
    case AliasHunk =>
      var category := AllowedCategoryForImport(rule);
      var name := if category.Some? then category.value else "";
      Verdict(Allowed, name, "facade import or alias maintenance is allowed", "allow." + name)
    case RegistryHunk =>
      Verdict(Allowed, "registry_composition", "owner-registry composition is allowed on the facade",
              "allow.registry_composition")
    case ForwardingHunk =>
      Verdict(Allowed, "explicit_forwarding_function", "narrow forwarding wrapper is allowed",
              "allow.explicit_forwarding_function")
    case CompatibilityHunk =>
      Verdict(Allowed, "compatibility_assertion", "residual compatibility or smoke test hunk is allowed",
              "allow.compatibility_assertion")
    case SignatureHunk =>
      Verdict(Allowed, "compatibility_assertion", "residual test signature maintenance is allowed",
              "allow.compatibility_assertion")
  }

  /** A line that may report its hunk under this excuse. */
  predicate CanReport(t: Tests, line: ChangedLine, excuse: Excuse) {
    excuse == ForwardingHunk ==> t.callLine(line.text)
  }

  /** Line i is the first of its hunk that may report it. */
  predicate Reports(t: Tests, lines: seq<ChangedLine>, i: nat, excuse: Excuse)
    requires i < |lines|
  {
    CanReport(t, lines[i], excuse)
    && forall k | 0 <= k < i :: lines[k].hunkId == lines[i].hunkId ==> !CanReport(t, lines[k], excuse)
  }

  /** What line i is classified as, if it is reported at all. */
  function LineVerdict(t: Tests, rule: HotspotRule, file: ChangedFile, i: nat): Option<Verdict>
    requires i < |file.addedLines|
  {
    var line := file.addedLines[i];
    match ExcuseOf(t, rule, file, line.hunkId)
    case None => t.lineRule(rule, file, line)
    case Some(excuse) =>
      if Reports(t, file.addedLines, i, excuse) then Some(ExcuseVerdict(rule, excuse)) else None
  }

  function VerdictAt(t: Tests, rule: HotspotRule, file: ChangedFile): nat -> Option<Verdict> {
    (i: nat) => if i < |file.addedLines| then LineVerdict(t, rule, file, i) else None
  }

  /** The lines with a verdict among the first n, in order. */
  function WithVerdict(lines: seq<ChangedLine>, at: nat -> Option<Verdict>, n: nat): seq<ClassifiedLine>
    requires n <= |lines|
  {
    if n == 0 then []
    else
      WithVerdict(lines, at, n - 1)
      + (if at(n - 1).Some? then [ClassifiedLine(lines[n - 1], at(n - 1).value)] else [])
  }

  /** The classified lines among the first n. */
  function Classified(t: Tests, rule: HotspotRule, file: ChangedFile, n: nat): seq<ClassifiedLine>
    requires n <= |file.addedLines|
  {
    WithVerdict(file.addedLines, VerdictAt(t, rule, file), n)
  }

  predicate ForwardedByLine(t: Tests, rule: HotspotRule, file: ChangedFile, i: nat)
    requires i < |file.addedLines|
  {
    ExcuseOf(t, rule, file, file.addedLines[i].hunkId).None?
    && var verdict := t.lineRule(rule, file, file.addedLines[i]);
       verdict.Some? && verdict.value.policyRule == "allow.explicit_forwarding_function"
  }

  /** Hunks whose unclassified lines do not count: excused ones, and ones with a line classified as forwarding. */
  function IgnoredHunks(t: Tests, rule: HotspotRule, file: ChangedFile): set<nat> {
    set i | 0 <= i < |file.addedLines|
      && (ExcuseOf(t, rule, file, file.addedLines[i].hunkId).Some? || ForwardedByLine(t, rule, file, i))
      :: file.addedLines[i].hunkId
  }

  /** Significant lines of the hunks that count whose number and text no classified line has. */
  function SignificantUnclassified(
      significant: string -> bool, lines: seq<ChangedLine>, classified: seq<ClassifiedLine>,
      ignored: set<nat>): seq<ChangedLine>
  {
    if lines == [] then []
    else
      var line := lines[0];
      var kept := line.hunkId !in ignored && significant(line.text)
        && forall c | c in classified :: (c.line.newLineno, c.line.text) != (line.newLineno, line.text);
      (if kept then [line] else []) + SignificantUnclassified(significant, lines[1..], classified, ignored)
  }

  function Unclassified(t: Tests, rule: HotspotRule, file: ChangedFile): seq<ChangedLine> {
    SignificantUnclassified(t.significant, file.addedLines, Classified(t, rule, file, |file.addedLines|),
                            IgnoredHunks(t, rule, file))
  }

  // --- Findings ---

  function ExceptionForAdditions(rule: HotspotRule, texts: seq<string>): Option<HotspotException> {
    FirstMatching(rule.exceptions, texts)
  }

  function FirstMatching(exceptions: seq<HotspotException>, texts: seq<string>): (first: Option<HotspotException>)
    ensures first.Some? <==> exists e | e in exceptions :: e.Matches(texts)
    ensures first.Some? ==> first.value in exceptions && first.value.Matches(texts)
  {
    if exceptions == [] then None
    else if exceptions[0].Matches(texts) then Some(exceptions[0])
    else FirstMatching(exceptions[1..], texts)
  }

  function Texts(lines: seq<ChangedLine>): seq<string> {
    seq(|lines|, i requires 0 <= i < |lines| => lines[i].text)
  }

  /** An exception turns a blocked finding into an allowed one and leaves every other status alone. */
  function FindingPayload(c: ClassifiedLine, rule: HotspotRule, stat: DiffStat, e: Option<HotspotException>): Finding {
    var excepted := e.Some? && c.verdict.status == Blocked;
    Finding(
      if excepted then FindingException else if c.verdict.status == Blocked then FindingBlocked else FindingAllowed,
      c.verdict.category, rule.relativePath, Some(c.line.newLineno), c.verdict.policyRule, rule.targetRole,
      rule.preferredOwnerModules, stat.addedLineCount, stat.deletedLineCount,
      if excepted then c.verdict.message + "; allowed by exception " + e.value.exceptionId else c.verdict.message,
      Some(Strip(c.line.text)),
      if e.Some? then Some(e.value.exceptionId) else None,
      Some("Move the implementation to " + Join(rule.preferredOwnerModules, ", ") + " and keep "
           + rule.relativePath + " as " + rule.targetRole + "."))
  }

  function DeletionFinding(rule: HotspotRule, stat: DiffStat): Finding {
    Finding(FindingAllowed, "deletion", rule.relativePath, None, "allow.deletion", rule.targetRole,
            rule.preferredOwnerModules, stat.addedLineCount, stat.deletedLineCount,
            "deletion-only hotspot reduction is allowed", None, None, None)
  }

  function Payloads(cs: seq<ClassifiedLine>, rule: HotspotRule, stat: DiffStat, e: Option<HotspotException>)
    : (findings: seq<Finding>)
    ensures |findings| == |cs|
  {
    seq(|cs|, i requires 0 <= i < |cs| => FindingPayload(cs[i], rule, stat, e))
  }

  const LARGE_BLOCK := 8

  function SizeBlock(rule: HotspotRule, line: ChangedLine): ClassifiedLine
    requires rule.blockNew != []
  {
    var category := FallbackBlockCategory(rule);
    ClassifiedLine(line, Verdict(Blocked, category, "large unclassified implementation block added to a known hotspot",
                                 "block_new." + category))
  }

  const COMPACT_SURFACE_MAX_LINES := 600

  /** compactPaths: the claim-support surfaces the driver lists. currentLength: lines of the file on disk, None if
      it does not exist. Comparing a missing count raises. */
  function CompactReduction(
      compactPaths: set<string>, file: ChangedFile, stat: DiffStat, currentLength: Option<nat>): Result<bool,
        ClassifyError>
  {
    if file.relativePath !in compactPaths then Ok(false)
    else if stat.addedLineCount.None? || stat.deletedLineCount.None? then Raised(MissingCount)
    else if stat.deletedLineCount.value < (if stat.addedLineCount.value > 25 then stat.addedLineCount.value else 25)
      then Ok(false)
    else Ok(currentLength.Some? && currentLength.value <= COMPACT_SURFACE_MAX_LINES)
  }

  function ReductionVerdict(): Verdict {
    Verdict(Allowed, "net_reduction_refactor", "substantial reduction to a compact claim-support surface is allowed",
            "allow.net_reduction_refactor")
  }

  /** Neither early return applies. */
  predicate PastEarlyReturns(compactPaths: set<string>, file: ChangedFile, stat: DiffStat, currentLength: Option<nat>) {
    !(file.addedLines == [] && file.deletedLineCount > 0)
    && CompactReduction(compactPaths, file, stat, currentLength) == Ok(false)
  }

  /** Findings of the main loop and of the size check. */
  function LineFindings(t: Tests, rule: HotspotRule, file: ChangedFile, stat: DiffStat)
    : Result<seq<Finding>, ClassifyError>
  {
    var e := ExceptionForAdditions(rule, Texts(file.addedLines));
    var findings := Payloads(Classified(t, rule, file, |file.addedLines|), rule, stat, e);
    var rest := Unclassified(t, rule, file);
    if |rest| < LARGE_BLOCK then Ok(findings)
    else if rule.blockNew == [] then Raised(NoBlockCategory)
    else Ok(findings + [FindingPayload(SizeBlock(rule, rest[0]), rule, stat, e)])
  }

  function FileFindings(
      t: Tests, compactPaths: set<string>, rule: HotspotRule, file: ChangedFile, stat: DiffStat,
      currentLength: Option<nat>)
    : Result<seq<Finding>, ClassifyError>
  {
    if file.addedLines == [] && file.deletedLineCount > 0 then Ok([DeletionFinding(rule, stat)])
    else
      match CompactReduction(compactPaths, file, stat, currentLength)
      case Raised(error) => Raised(error)
      case Ok(true) =>
        if file.addedLines == [] then Raised(NoAddedLine)
        else Ok([FindingPayload(ClassifiedLine(file.addedLines[0], ReductionVerdict()), rule, stat, None)])
      case Ok(false) => LineFindings(t, rule, file, stat)
  }
}
