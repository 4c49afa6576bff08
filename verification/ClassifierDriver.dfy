/** The driver loop with its five "already reported" sets, proved to produce the declarative findings. */
module ClassifierDriver {
  import opened Wrappers
  import opened Text
  import opened DiffParser
  import opened HotspotPolicy
  import opened Classifier

  /** Hunks with this excuse already reported by the first n lines. */
  ghost function ReportedBy(t: Tests, rule: HotspotRule, file: ChangedFile, excuse: Excuse, n: nat): set<nat>
    requires n <= |file.addedLines|
  {
    set k | 0 <= k < n && ExcuseOf(t, rule, file, file.addedLines[k].hunkId) == Some(excuse)
      && CanReport(t, file.addedLines[k], excuse) :: file.addedLines[k].hunkId
  }

  /** Hunks the loop has marked as forwarding after the first n lines. */
  ghost function ForwardedBy(t: Tests, rule: HotspotRule, file: ChangedFile, n: nat): set<nat>
    requires n <= |file.addedLines|
  {
    set k | 0 <= k < n && (ExcuseOf(t, rule, file, file.addedLines[k].hunkId) == Some(ForwardingHunk)
      || ForwardedByLine(t, rule, file, k)) :: file.addedLines[k].hunkId
  }

  lemma ReportedStep(t: Tests, rule: HotspotRule, file: ChangedFile, excuse: Excuse, i: nat)
    requires i < |file.addedLines|
    ensures var line := file.addedLines[i];
      ReportedBy(t, rule, file, excuse, i + 1) ==
        if ExcuseOf(t, rule, file, line.hunkId) == Some(excuse) && CanReport(t, line, excuse)
        then ReportedBy(t, rule, file, excuse, i) + {line.hunkId}
        else ReportedBy(t, rule, file, excuse, i)
  {
  }

  lemma ReportsStep(t: Tests, rule: HotspotRule, file: ChangedFile, excuse: Excuse, i: nat)
    requires i < |file.addedLines| && ExcuseOf(t, rule, file, file.addedLines[i].hunkId) == Some(excuse)
    ensures Reports(t, file.addedLines, i, excuse) <==>
      file.addedLines[i].hunkId !in ReportedBy(t, rule, file, excuse, i) && CanReport(t, file.addedLines[i], excuse)
  {
    var lines := file.addedLines;
    forall k | 0 <= k < i && lines[k].hunkId == lines[i].hunkId && CanReport(t, lines[k], excuse)
      ensures lines[i].hunkId in ReportedBy(t, rule, file, excuse, i)
    {
      assert ExcuseOf(t, rule, file, lines[k].hunkId) == Some(excuse);
    }
  }

  lemma ForwardedStep(t: Tests, rule: HotspotRule, file: ChangedFile, i: nat)
    requires i < |file.addedLines|
    ensures var line := file.addedLines[i];
      ForwardedBy(t, rule, file, i + 1) ==
        if ExcuseOf(t, rule, file, line.hunkId) == Some(ForwardingHunk) || ForwardedByLine(t, rule, file, i)
        then ForwardedBy(t, rule, file, i) + {line.hunkId}
        else ForwardedBy(t, rule, file, i)
  {
  }

  lemma PayloadsSnoc(
      cs: seq<ClassifiedLine>, c: ClassifiedLine, rule: HotspotRule, stat: DiffStat, e: Option<HotspotException>)
    ensures Payloads(cs + [c], rule, stat, e) == Payloads(cs, rule, stat, e) + [FindingPayload(c, rule, stat, e)]
  {
  }

  lemma ExcusedIsIgnored(t: Tests, rule: HotspotRule, file: ChangedFile, excuse: Excuse)
    ensures ExcusedBy(t, rule, file, excuse) <= IgnoredHunks(t, rule, file)
  {
    var lines := file.addedLines;
    forall hunkId | hunkId in ExcusedBy(t, rule, file, excuse) ensures hunkId in IgnoredHunks(t, rule, file) {
      var line :| line in lines && line.hunkId == hunkId;
      var i :| 0 <= i < |lines| && lines[i] == line;
      assert ExcuseOf(t, rule, file, lines[i].hunkId).Some?;
    }
  }

  /** The sets the size check ignores. */
  ghost function IgnoredSets(t: Tests, rule: HotspotRule, file: ChangedFile): set<nat> {
    ForwardedBy(t, rule, file, |file.addedLines|)
    + ExcusedBy(t, rule, file, AliasHunk) + ExcusedBy(t, rule, file, RegistryHunk)
    + ExcusedBy(t, rule, file, CompatibilityHunk) + ExcusedBy(t, rule, file, SignatureHunk)
  }

  lemma IgnoredIsCovered(t: Tests, rule: HotspotRule, file: ChangedFile)
    ensures IgnoredHunks(t, rule, file) <= IgnoredSets(t, rule, file)
  {
    forall i | 0 <= i < |file.addedLines|
      && (ExcuseOf(t, rule, file, file.addedLines[i].hunkId).Some? || ForwardedByLine(t, rule, file, i))
      ensures file.addedLines[i].hunkId in IgnoredSets(t, rule, file)
    {
    }
  }

  /** Their union is the set of hunks the specification ignores. */
  lemma IgnoredUnion(t: Tests, rule: HotspotRule, file: ChangedFile)
    ensures IgnoredHunks(t, rule, file) == IgnoredSets(t, rule, file)
  {
    IgnoredIsCovered(t, rule, file);
    ExcusedIsIgnored(t, rule, file, AliasHunk);
    ExcusedIsIgnored(t, rule, file, RegistryHunk);
    ExcusedIsIgnored(t, rule, file, CompatibilityHunk);
    ExcusedIsIgnored(t, rule, file, SignatureHunk);
  }

  // --- The variables the loop updates, and what they hold after n lines ---

  datatype LoopState = LoopState(
    classified: seq<ClassifiedLine>, findings: seq<Finding>, forwarded: set<nat>,
    alias: set<nat>, registry: set<nat>, forwarding: set<nat>, compatibility: set<nat>, signature: set<nat>)

  /** Appends a classified line and its finding. */
  function Report(
      rule: HotspotRule, stat: DiffStat, e: Option<HotspotException>, st: LoopState, line: ChangedLine,
      verdict: Verdict): LoopState
  {
    var c := ClassifiedLine(line, verdict);
    st.(classified := st.classified + [c], findings := st.findings + [FindingPayload(c, rule, stat, e)])
  }

  /** Marks a hunk as reported under an excuse. */
  function MarkReported(st: LoopState, excuse: Excuse, hunkId: nat): LoopState {
    match excuse
    case AliasHunk => st.(alias := st.alias + {hunkId})
    case RegistryHunk => st.(registry := st.registry + {hunkId})
    case ForwardingHunk => st.(forwarding := st.forwarding + {hunkId})
    case CompatibilityHunk => st.(compatibility := st.compatibility + {hunkId})
    case SignatureHunk => st.(signature := st.signature + {hunkId})
  }

  ghost function StateAt(
      t: Tests, rule: HotspotRule, file: ChangedFile, stat: DiffStat, e: Option<HotspotException>, n: nat): LoopState
    requires n <= |file.addedLines|
  {
    LoopState(
      Classified(t, rule, file, n), Payloads(Classified(t, rule, file, n), rule, stat, e),
      ForwardedBy(t, rule, file, n), ReportedBy(t, rule, file, AliasHunk, n),
      ReportedBy(t, rule, file, RegistryHunk, n), ReportedBy(t, rule, file, ForwardingHunk, n),
      ReportedBy(t, rule, file, CompatibilityHunk, n), ReportedBy(t, rule, file, SignatureHunk, n))
  }

  lemma NextClassified(
      t: Tests, rule: HotspotRule, file: ChangedFile, stat: DiffStat, e: Option<HotspotException>, i: nat)
    requires i < |file.addedLines|
    ensures var before := Classified(t, rule, file, i); var after := Classified(t, rule, file, i + 1);
      match LineVerdict(t, rule, file, i)
      case None => after == before
      case Some(verdict) =>
        var c := ClassifiedLine(file.addedLines[i], verdict);
        after == before + [c]
        && Payloads(after, rule, stat, e) == Payloads(before, rule, stat, e) + [FindingPayload(c, rule, stat, e)]
  {
    var verdict := LineVerdict(t, rule, file, i);
    if verdict.Some? {
      PayloadsSnoc(Classified(t, rule, file, i), ClassifiedLine(file.addedLines[i], verdict.value), rule, stat, e);
    }
  }

  lemma NextReported(
      t: Tests, rule: HotspotRule, file: ChangedFile, stat: DiffStat, e: Option<HotspotException>, i: nat)
    requires i < |file.addedLines|
    ensures var line := file.addedLines[i]; var excuse := ExcuseOf(t, rule, file, line.hunkId);
      var before := StateAt(t, rule, file, stat, e, i);
      var after := StateAt(t, rule, file, stat, e, i + 1);
      after == (if excuse.Some? && CanReport(t, line, excuse.value) then MarkReported(before, excuse.value, line.hunkId)
        else before)
        .(classified := after.classified, findings := after.findings, forwarded := after.forwarded)
  {
    ReportedStep(t, rule, file, AliasHunk, i);
    ReportedStep(t, rule, file, RegistryHunk, i);
    ReportedStep(t, rule, file, ForwardingHunk, i);
    ReportedStep(t, rule, file, CompatibilityHunk, i);
    ReportedStep(t, rule, file, SignatureHunk, i);
  }

  function ReportedIn(st: LoopState, excuse: Excuse): set<nat> {
    match excuse
    case AliasHunk => st.alias
    case RegistryHunk => st.registry
    case ForwardingHunk => st.forwarding
    case CompatibilityHunk => st.compatibility
    case SignatureHunk => st.signature
  }

  lemma AlreadyMarked(st: LoopState, excuse: Excuse, hunkId: nat)
    requires hunkId in ReportedIn(st, excuse)
    ensures MarkReported(st, excuse, hunkId) == st
  {
    assert ReportedIn(st, excuse) + {hunkId} == ReportedIn(st, excuse);
  }

  lemma MarkCommutes(
      st: LoopState, excuse: Excuse, hunkId: nat, classified: seq<ClassifiedLine>, findings: seq<Finding>,
      forwarded: set<nat>)
    ensures MarkReported(st, excuse, hunkId).(classified := classified, findings := findings, forwarded := forwarded)
      == MarkReported(st.(classified := classified, findings := findings, forwarded := forwarded), excuse, hunkId)
  {
  }

  /** The state after line i, excused or not, in terms of what the line is classified as. */
  lemma NextState(t: Tests, rule: HotspotRule, file: ChangedFile, stat: DiffStat, e: Option<HotspotException>, i: nat)
    requires i < |file.addedLines|
    ensures var before := StateAt(t, rule, file, stat, e, i); var line := file.addedLines[i];
      var verdict := LineVerdict(t, rule, file, i); var excuse := ExcuseOf(t, rule, file, line.hunkId);
      var reported := if verdict.Some? then Report(rule, stat, e, before, line, verdict.value) else before;
      var marked := reported.(forwarded := ForwardedBy(t, rule, file, i + 1));
      StateAt(t, rule, file, stat, e, i + 1) ==
        if excuse.Some? && CanReport(t, line, excuse.value) then MarkReported(marked, excuse.value, line.hunkId)
          else marked
  {
    var before, after := StateAt(t, rule, file, stat, e, i), StateAt(t, rule, file, stat, e, i + 1);
    NextClassified(t, rule, file, stat, e, i);
    NextReported(t, rule, file, stat, e, i);
    var excuse := ExcuseOf(t, rule, file, file.addedLines[i].hunkId);
    if excuse.Some? {
      MarkCommutes(before, excuse.value, file.addedLines[i].hunkId, after.classified, after.findings, after.forwarded);
    }
  }

  /** Reports a hunk under an excuse unless it has been, or the line may not. */
  function ReportOnce(rule: HotspotRule, stat: DiffStat, e: Option<HotspotException>, st: LoopState, line: ChangedLine,
                      excuse: Excuse, verdict: Verdict, can: bool): LoopState
  {
    if line.hunkId in ReportedIn(st, excuse) || !can then st
    else MarkReported(Report(rule, stat, e, st, line, verdict), excuse, line.hunkId)
  }

  /** What one turn of the loop makes of the state: an excused hunk is reported once, by a line that may report it;
      any other line is judged on its own. */
  function Advance(t: Tests, rule: HotspotRule, file: ChangedFile, stat: DiffStat, e: Option<HotspotException>,
                   found: Option<Excuse>, st: LoopState, line: ChangedLine): LoopState
  {
    match found
    case Some(excuse) =>
      var marked := if excuse == ForwardingHunk then st.(forwarded := st.forwarded + {line.hunkId}) else st;
      ReportOnce(rule, stat, e, marked, line, excuse, ExcuseVerdict(rule, excuse), CanReport(t, line, excuse))
    case None =>
      match t.lineRule(rule, file, line)
      case None => st
      case Some(verdict) =>
        var after := Report(rule, stat, e, st, line, verdict);
        if verdict.policyRule == "allow.explicit_forwarding_function"
        then after.(forwarded := st.forwarded + {line.hunkId}) else after
  }

  /** Classifying a line, then marking it as forwarded and its hunk as reported, in either order. */
  lemma ReportedOnceAsStep(
      rule: HotspotRule, stat: DiffStat, e: Option<HotspotException>, st: LoopState, line: ChangedLine, excuse: Excuse,
      verdict: Verdict, can: bool, forwarded: set<nat>)
    ensures var reports := line.hunkId !in ReportedIn(st, excuse) && can;
      var reported := if reports then Report(rule, stat, e, st, line, verdict) else st;
      var marked := reported.(forwarded := forwarded);
      (if can then MarkReported(marked, excuse, line.hunkId) else marked)
      == ReportOnce(rule, stat, e, st.(forwarded := forwarded), line, excuse, verdict, can)
  {
    var marked := st.(forwarded := forwarded);
    assert ReportedIn(marked, excuse) == ReportedIn(st, excuse);
    if line.hunkId in ReportedIn(st, excuse) {
      AlreadyMarked(marked, excuse, line.hunkId);
    }
  }

  lemma AdvanceExcused(t: Tests, rule: HotspotRule, file: ChangedFile, stat: DiffStat, e: Option<HotspotException>,
                       st: LoopState, line: ChangedLine, excuse: Excuse, verdict: Verdict, forwarded: set<nat>)
    requires verdict == ExcuseVerdict(rule, excuse)
    requires forwarded == if excuse == ForwardingHunk then st.forwarded + {line.hunkId} else st.forwarded
    ensures Advance(t, rule, file, stat, e, Some(excuse), st, line)
      == ReportOnce(rule, stat, e, st.(forwarded := forwarded), line, excuse, verdict, CanReport(t, line, excuse))
  {
  }

  lemma NextExcused(
      t: Tests, rule: HotspotRule, file: ChangedFile, stat: DiffStat, e: Option<HotspotException>, i: nat,
      excuse: Excuse)
    requires i < |file.addedLines| && ExcuseOf(t, rule, file, file.addedLines[i].hunkId) == Some(excuse)
    ensures StateAt(t, rule, file, stat, e, i + 1)
      == Advance(t, rule, file, stat, e, Some(excuse), StateAt(t, rule, file, stat, e, i), file.addedLines[i])
  {
    var verdict := ExcuseVerdict(rule, excuse);
    NextReportedOnce(t, rule, file, stat, e, i, excuse, verdict);
    ForwardedAfter(t, rule, file, i, excuse);
    AdvanceExcused(t, rule, file, stat, e, StateAt(t, rule, file, stat, e, i), file.addedLines[i], excuse, verdict,
                   ForwardedBy(t, rule, file, i + 1));
  }

  lemma NextReportedOnce(
      t: Tests, rule: HotspotRule, file: ChangedFile, stat: DiffStat, e: Option<HotspotException>, i: nat, excuse:
      Excuse, verdict: Verdict)
    requires i < |file.addedLines| && ExcuseOf(t, rule, file, file.addedLines[i].hunkId) == Some(excuse)
    requires verdict == ExcuseVerdict(rule, excuse)
    ensures var before, line := StateAt(t, rule, file, stat, e, i), file.addedLines[i];
      StateAt(t, rule, file, stat, e, i + 1)
      == ReportOnce(rule, stat, e, before.(forwarded := ForwardedBy(t, rule, file, i + 1)), line, excuse, verdict,
                    CanReport(t, line, excuse))
  {
    var before, line := StateAt(t, rule, file, stat, e, i), file.addedLines[i];
    NextState(t, rule, file, stat, e, i);
    VerdictOfExcused(t, rule, file, i, excuse, verdict);
    ReportedInState(t, rule, file, stat, e, i, excuse);
    ReportedOnceAsStep(rule, stat, e, before, line, excuse, verdict, CanReport(t, line, excuse),
      ForwardedBy(t, rule, file, i + 1));
  }

  lemma VerdictOfExcused(t: Tests, rule: HotspotRule, file: ChangedFile, i: nat, excuse: Excuse, verdict: Verdict)
    requires i < |file.addedLines| && ExcuseOf(t, rule, file, file.addedLines[i].hunkId) == Some(excuse)
    requires verdict == ExcuseVerdict(rule, excuse)
    ensures var line := file.addedLines[i];
      LineVerdict(t, rule, file, i) ==
        if line.hunkId !in ReportedBy(t, rule, file, excuse, i) && CanReport(t, line, excuse) then Some(verdict)
          else None
  {
    ReportsStep(t, rule, file, excuse, i);
  }

  lemma ReportedInState(
      t: Tests, rule: HotspotRule, file: ChangedFile, stat: DiffStat, e: Option<HotspotException>, n: nat,
      excuse: Excuse)
    requires n <= |file.addedLines|
    ensures ReportedIn(StateAt(t, rule, file, stat, e, n), excuse) == ReportedBy(t, rule, file, excuse, n)
  {
  }

  lemma ForwardedAfter(t: Tests, rule: HotspotRule, file: ChangedFile, i: nat, excuse: Excuse)
    requires i < |file.addedLines| && ExcuseOf(t, rule, file, file.addedLines[i].hunkId) == Some(excuse)
    ensures var before := ForwardedBy(t, rule, file, i);
      ForwardedBy(t, rule, file, i + 1) == if excuse == ForwardingHunk then before + {file.addedLines[i].hunkId}
        else before
  {
    ForwardedStep(t, rule, file, i);
  }

  lemma NextUnexcused(
      t: Tests, rule: HotspotRule, file: ChangedFile, stat: DiffStat, e: Option<HotspotException>, i: nat)
    requires i < |file.addedLines| && ExcuseOf(t, rule, file, file.addedLines[i].hunkId) == None
    ensures StateAt(t, rule, file, stat, e, i + 1)
      == Advance(t, rule, file, stat, e, None, StateAt(t, rule, file, stat, e, i), file.addedLines[i])
  {
    NextState(t, rule, file, stat, e, i);
    ForwardedStep(t, rule, file, i);
  }

  lemma NextLine(t: Tests, rule: HotspotRule, file: ChangedFile, stat: DiffStat, e: Option<HotspotException>, i: nat)
    requires i < |file.addedLines|
    ensures var line := file.addedLines[i];
      StateAt(t, rule, file, stat, e, i + 1)
      == Advance(t, rule, file, stat, e, ExcuseOf(t, rule, file, line.hunkId), StateAt(t, rule, file, stat, e, i), line)
  {
    var excuse := ExcuseOf(t, rule, file, file.addedLines[i].hunkId);
    if excuse.Some? {
      NextExcused(t, rule, file, stat, e, i, excuse.value);
    } else {
      NextUnexcused(t, rule, file, stat, e, i);
    }
  }

  /** Alias hunks exist only when the rule allows an import category: the driver's assertion cannot fail. */
  lemma AliasNeedsCategory(t: Tests, rule: HotspotRule, file: ChangedFile, hunkId: nat)
    requires hunkId in ExcusedBy(t, rule, file, AliasHunk)
    ensures AllowedCategoryForImport(rule).Some?
  {
  }

  // --- The loop and the driver ---

  /** The hunk-id sets computed before the loop. */
  datatype HunkSets = HunkSets(
    alias: set<nat>, registry: set<nat>, forwarding: set<nat>, compatibility: set<nat>, signature: set<nat>)

  predicate AreHunkSets(hunks: HunkSets, t: Tests, rule: HotspotRule, file: ChangedFile) {
    && hunks.alias == ExcusedBy(t, rule, file, AliasHunk)
    && hunks.registry == ExcusedBy(t, rule, file, RegistryHunk)
    && hunks.forwarding == ExcusedBy(t, rule, file, ForwardingHunk)
    && hunks.compatibility == ExcusedBy(t, rule, file, CompatibilityHunk)
    && hunks.signature == ExcusedBy(t, rule, file, SignatureHunk)
  }

  /** The first set that holds the hunk. */
  function ExcuseFrom(hunks: HunkSets, hunkId: nat): Option<Excuse> {
    if hunkId in hunks.alias then Some(AliasHunk)
    else if hunkId in hunks.registry then Some(RegistryHunk)
    else if hunkId in hunks.forwarding then Some(ForwardingHunk)
    else if hunkId in hunks.compatibility then Some(CompatibilityHunk)
    else if hunkId in hunks.signature then Some(SignatureHunk)
    else None
  }

  lemma SetsGiveExcuse(hunks: HunkSets, t: Tests, rule: HotspotRule, file: ChangedFile, hunkId: nat)
    requires AreHunkSets(hunks, t, rule, file)
    ensures ExcuseFrom(hunks, hunkId) == ExcuseOf(t, rule, file, hunkId)
  {
  }

  /** Reports a hunk, once. */
  method ReportHunk(rule: HotspotRule, stat: DiffStat, e: Option<HotspotException>, st: LoopState, line: ChangedLine,
                    excuse: Excuse, can: bool) returns (next: LoopState)
    ensures next == ReportOnce(rule, stat, e, st, line, excuse, ExcuseVerdict(rule, excuse), can)
  {
    next := st;
    if line.hunkId !in ReportedIn(st, excuse) && can {
      next := Report(rule, stat, e, st, line, ExcuseVerdict(rule, excuse));
      next := MarkReported(next, excuse, line.hunkId);
    }
  }

  /** The loop body. */
  method ClassifyLine(t: Tests, rule: HotspotRule, file: ChangedFile, stat: DiffStat, e: Option<HotspotException>,
                      hunks: HunkSets, line: ChangedLine, st: LoopState) returns (next: LoopState)
    requires line.hunkId in hunks.alias ==> AllowedCategoryForImport(rule).Some?
    ensures next == Advance(t, rule, file, stat, e, ExcuseFrom(hunks, line.hunkId), st, line)
  {
    next := st;
    if line.hunkId in hunks.alias {
      assert AllowedCategoryForImport(rule).Some?;
      next := ReportHunk(rule, stat, e, st, line, AliasHunk, true);
      return;
    }
    if line.hunkId in hunks.registry {
      next := ReportHunk(rule, stat, e, st, line, RegistryHunk, true);
      return;
    }
    if line.hunkId in hunks.forwarding {
      next := st.(forwarded := st.forwarded + {line.hunkId});
      next := ReportHunk(rule, stat, e, next, line, ForwardingHunk, t.callLine(line.text));
      return;
    }
    if line.hunkId in hunks.compatibility {
      next := ReportHunk(rule, stat, e, st, line, CompatibilityHunk, true);
      return;
    }
    if line.hunkId in hunks.signature {
      next := ReportHunk(rule, stat, e, st, line, SignatureHunk, true);
      return;
    }
    var verdict := t.lineRule(rule, file, line);
    if verdict.None? { return; }
    next := Report(rule, stat, e, st, line, verdict.value);
    if verdict.value.policyRule == "allow.explicit_forwarding_function" {
      next := next.(forwarded := st.forwarded + {line.hunkId});
    }
  }

  /** The loop over the added lines. */
  lemma LoopTurn(
      t: Tests, rule: HotspotRule, file: ChangedFile, stat: DiffStat, e: Option<HotspotException>, hunks: HunkSets,
      i: nat)
    requires AreHunkSets(hunks, t, rule, file) && i < |file.addedLines|
    ensures var line := file.addedLines[i];
      && (line.hunkId in hunks.alias ==> AllowedCategoryForImport(rule).Some?)
      && StateAt(t, rule, file, stat, e, i + 1)
         == Advance(t, rule, file, stat, e, ExcuseFrom(hunks, line.hunkId), StateAt(t, rule, file, stat, e, i), line)
  {
    var line := file.addedLines[i];
    NextLine(t, rule, file, stat, e, i);
    SetsGiveExcuse(hunks, t, rule, file, line.hunkId);
    if line.hunkId in hunks.alias {
      AliasNeedsCategory(t, rule, file, line.hunkId);
    }
  }

  method ClassifyLines(
      t: Tests, rule: HotspotRule, file: ChangedFile, stat: DiffStat, e: Option<HotspotException>, hunks: HunkSets)
    returns (st: LoopState)
    requires AreHunkSets(hunks, t, rule, file)
    ensures st == StateAt(t, rule, file, stat, e, |file.addedLines|)
  {
    st := LoopState([], [], {}, {}, {}, {}, {}, {});
    for i := 0 to |file.addedLines|
      invariant st == StateAt(t, rule, file, stat, e, i)
    {
      var line := file.addedLines[i];
      LoopTurn(t, rule, file, stat, e, hunks, i);
      st := ClassifyLine(t, rule, file, stat, e, hunks, line, st);
    }
  }

  /** From the hunk-id sets on. */
  method ClassifyAddedLines(t: Tests, rule: HotspotRule, file: ChangedFile, stat: DiffStat)
    returns (result: Result<seq<Finding>, ClassifyError>)
    ensures result == LineFindings(t, rule, file, stat)
  {
    var e := ExceptionForAdditions(rule, Texts(file.addedLines));
    var aliasIds := HunkIdsMatching(file.addedLines, Enabled(rule, AliasHunk), t.alias);
    var registryIds := HunkIdsMatching(file.addedLines, Enabled(rule, RegistryHunk), t.registry);
    var forwardingIds := HunkIdsMatching(file.addedLines, Enabled(rule, ForwardingHunk), t.forwarding);
    var compatibilityIds := HunkIdsMatching(file.addedLines, Enabled(rule, CompatibilityHunk), t.compatibility);
    var signatureIds := HunkIdsMatching(file.addedLines, Enabled(rule, SignatureHunk), t.signature);
    var hunks := HunkSets(aliasIds, registryIds, forwardingIds, compatibilityIds, signatureIds);
    var st := ClassifyLines(t, rule, file, stat, e, hunks);
    IgnoredUnion(t, rule, file);
    var rest := SignificantUnclassified(t.significant, file.addedLines, st.classified,
                                        st.forwarded + aliasIds + registryIds + compatibilityIds + signatureIds);
    assert rest == Unclassified(t, rule, file);
    if |rest| < LARGE_BLOCK {
      return Ok(st.findings);
    }
    if rule.blockNew == [] {
      return Raised(NoBlockCategory);
    }
    result := Ok(st.findings + [FindingPayload(SizeBlock(rule, rest[0]), rule, stat, e)]);
  }

  /** The whole driver, with its two early returns. */
  method ClassifyChangedFile(
      t: Tests, compactPaths: set<string>, rule: HotspotRule, file: ChangedFile, stat: DiffStat,
      currentLength: Option<nat>)
    returns (result: Result<seq<Finding>, ClassifyError>)
    ensures result == FileFindings(t, compactPaths, rule, file, stat, currentLength)
  {
    if file.addedLines == [] && file.deletedLineCount > 0 {
      return Ok([DeletionFinding(rule, stat)]);
    }
    var compact := CompactReduction(compactPaths, file, stat, currentLength);
    if compact.Raised? {
      return Raised(compact.error);
    }
    if compact.value {
      if file.addedLines == [] {
        return Raised(NoAddedLine);
      }
      return Ok([FindingPayload(ClassifiedLine(file.addedLines[0], ReductionVerdict()), rule, stat, None)]);
    }
    result := ClassifyAddedLines(t, rule, file, stat);
  }
}
