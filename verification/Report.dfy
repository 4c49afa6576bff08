/** The hotspot-prevention report: every changed hotspot classified, the findings counted, and the strict verdict. */
module Report {
  import opened Wrappers
  import opened DiffParser
  import opened HotspotPolicy
  import opened Classifier
  import opened ClassifierDriver
  import opened ClassifierTheorems

  /** What the report is computed from. hotspots: the policy's paths and rules in order. numstat: counts that
      override the parsed ones. lengths: current line counts of the files that exist. */
  datatype Inputs = Inputs(
    tests: Tests,
    compactPaths: set<string>,
    hotspots: seq<(string, HotspotRule)>,
    changed: map<string, ChangedFile>,
    numstat: map<string, DiffStat>,
    lengths: map<string, nat>)
  {
    function StatFor(path: string): DiffStat
      requires path in changed
    {
      if path in numstat then numstat[path]
      else DiffStat(path, Some(|changed[path].addedLines|), Some(changed[path].deletedLineCount))
    }

    function LengthOf(path: string): Option<nat> { if path in lengths then Some(lengths[path]) else None }
  }

  datatype Summary = Summary(
    findings: seq<Finding>,
    changedHotspotCount: nat,
    findingCount: nat,
    blockedCount: nat,
    allowedCount: nat,
    exceptionCount: nat,
    strictFailed: bool)

  function CountStatus(findings: seq<Finding>, status: FindingStatus): nat {
    if findings == [] then 0 else (if findings[0].status == status then 1 else 0) + CountStatus(findings[1..], status)
  }

  /** Findings for hotspot k, none if its path is unchanged. */
  function HotspotFindings(inputs: Inputs, k: nat): Result<seq<Finding>, ClassifyError>
    requires k < |inputs.hotspots|
  {
    var (path, rule) := inputs.hotspots[k];
    if path !in inputs.changed then Ok([])
    else FileFindings(inputs.tests, inputs.compactPaths, rule, inputs.changed[path], inputs.StatFor(path),
      inputs.LengthOf(path))
  }

  type Finder = nat -> Result<seq<Finding>, ClassifyError>

  function FindingsOf(inputs: Inputs): Finder {
    (k: nat) => if k < |inputs.hotspots| then HotspotFindings(inputs, k) else Ok([])
  }

  /** What the first n give, in order; the first error stops the rest. */
  function CollectFrom(find: Finder, n: nat): Result<seq<Finding>, ClassifyError> {
    if n == 0 then Ok([])
    else
      var before := CollectFrom(find, n - 1);
      if before.Raised? then before
      else
        var here := find(n - 1);
        if here.Raised? then here else Ok(before.value + here.value)
  }

  /** Findings of the first n hotspots. */
  function Collected(inputs: Inputs, n: nat): Result<seq<Finding>, ClassifyError> { CollectFrom(FindingsOf(inputs), n) }

  function ChangedCount(inputs: Inputs, n: nat): nat
    requires n <= |inputs.hotspots|
  {
    if n == 0 then 0 else ChangedCount(inputs, n - 1) + (if inputs.hotspots[n - 1].0 in inputs.changed then 1 else 0)
  }

  function SummaryOf(findings: seq<Finding>, changedHotspots: nat): Summary {
    Summary(findings, changedHotspots, |findings|, CountStatus(findings, FindingBlocked),
      CountStatus(findings, FindingAllowed), CountStatus(findings, FindingException),
      CountStatus(findings, FindingBlocked) > 0)
  }

  /** The report. */
  function ReportOf(inputs: Inputs): Result<Summary, ClassifyError> {
    match Collected(inputs, |inputs.hotspots|)
    case Raised(error) => Raised(error)
    case Ok(findings) => Ok(SummaryOf(findings, ChangedCount(inputs, |inputs.hotspots|)))
  }

  lemma {:induction false} CollectError(find: Finder, n: nat, m: nat)
    requires n <= m && CollectFrom(find, n).Raised?
    ensures CollectFrom(find, m) == CollectFrom(find, n)
    decreases m
  {
    if n < m {
      CollectError(find, n, m - 1);
    }
  }

  lemma {:induction false} CollectOk(find: Finder, n: nat)
    ensures CollectFrom(find, n).Ok? <==> forall k | 0 <= k < n :: find(k).Ok?
  {
    if n > 0 {
      CollectOk(find, n - 1);
    }
  }

  lemma CollectedNext(inputs: Inputs, k: nat, before: seq<Finding>)
    requires k < |inputs.hotspots| && Collected(inputs, k) == Ok(before)
    ensures Collected(inputs, k + 1) ==
      match HotspotFindings(inputs, k)
      case Raised(error) => Raised(error)
      case Ok(here) => Ok(before + here)
  {
  }

  lemma UnchangedAddsNothing(inputs: Inputs, k: nat, before: seq<Finding>)
    requires k < |inputs.hotspots| && inputs.hotspots[k].0 !in inputs.changed
    ensures HotspotFindings(inputs, k) == Ok([]) && before + [] == before
  {
  }

  /** A changed hotspot, classified with its counts. */
  method ClassifyHotspot(inputs: Inputs, k: nat) returns (result: Result<seq<Finding>, ClassifyError>)
    requires k < |inputs.hotspots| && inputs.hotspots[k].0 in inputs.changed
    ensures result == HotspotFindings(inputs, k)
  {
    var (path, rule) := inputs.hotspots[k];
    result := ClassifyChangedFile(inputs.tests, inputs.compactPaths, rule, inputs.changed[path],
                                  inputs.StatFor(path), inputs.LengthOf(path));
  }

  /** The report loop. */
  method BuildReport(inputs: Inputs) returns (report: Result<Summary, ClassifyError>)
    ensures report == ReportOf(inputs)
  {
    var findings: seq<Finding> := [];
    var changedHotspotCount: nat := 0;
    for k := 0 to |inputs.hotspots|
      invariant Collected(inputs, k) == Ok(findings)
      invariant changedHotspotCount == ChangedCount(inputs, k)
    {
      var path := inputs.hotspots[k].0;
      CollectedNext(inputs, k, findings);
      if path !in inputs.changed {
        UnchangedAddsNothing(inputs, k, findings);
        continue;
      }
      changedHotspotCount := changedHotspotCount + 1;
      var result := ClassifyHotspot(inputs, k);
      if result.Raised? {
        CollectError(FindingsOf(inputs), k + 1, |inputs.hotspots|);
        return Raised(result.error);
      }
      findings := findings + result.value;
    }
    report := Ok(SummaryOf(findings, changedHotspotCount));
  }

  // --- The verdict ---

  lemma {:induction false} CountsSum(findings: seq<Finding>)
    ensures |findings| == CountStatus(findings, FindingBlocked) + CountStatus(findings, FindingAllowed)
      + CountStatus(findings, FindingException)
  {
    if findings != [] {
      CountsSum(findings[1..]);
    }
  }

  lemma {:induction false} CountPositive(findings: seq<Finding>)
    ensures CountStatus(findings, FindingBlocked) > 0 <==> HasBlocked(findings)
  {
    if findings != [] {
      CountPositive(findings[1..]);
      assert findings == [findings[0]] + findings[1..];
      HasBlockedConcat([findings[0]], findings[1..]);
      assert HasBlocked([findings[0]]) <==> findings[0].status == FindingBlocked by {
        assert [findings[0]][0] == findings[0];
      }
    }
  }

  ghost predicate Blocks(result: Result<seq<Finding>, ClassifyError>) { result.Ok? && HasBlocked(result.value) }

  lemma {:induction false} CollectBlocked(find: Finder, n: nat)
    requires CollectFrom(find, n).Ok?
    ensures HasBlocked(CollectFrom(find, n).value) <==> exists k | 0 <= k < n :: Blocks(find(k))
  {
    if n > 0 {
      CollectBlocked(find, n - 1);
      HasBlockedConcat(CollectFrom(find, n - 1).value, find(n - 1).value);
    }
  }

  /** Whether hotspot k is changed and blocks. */
  ghost predicate HotspotBlocks(inputs: Inputs, k: nat)
    requires k < |inputs.hotspots|
  {
    var (path, rule) := inputs.hotspots[k];
    path in inputs.changed
    && BlocksFile(inputs.tests, inputs.compactPaths, rule, inputs.changed[path], inputs.StatFor(path),
      inputs.LengthOf(path))
  }

  lemma HotspotVerdict(inputs: Inputs, k: nat)
    requires k < |inputs.hotspots| && HotspotFindings(inputs, k).Ok?
    ensures Blocks(HotspotFindings(inputs, k)) <==> HotspotBlocks(inputs, k)
  {
    var (path, rule) := inputs.hotspots[k];
    if path in inputs.changed {
      BlockedFindings(inputs.tests, inputs.compactPaths, rule, inputs.changed[path], inputs.StatFor(path),
        inputs.LengthOf(path));
    }
  }

  lemma CollectedVerdict(inputs: Inputs, n: nat)
    requires n <= |inputs.hotspots| && Collected(inputs, n).Ok?
    ensures HasBlocked(Collected(inputs, n).value) <==> exists k | 0 <= k < n :: HotspotBlocks(inputs, k)
  {
    var find := FindingsOf(inputs);
    CollectBlocked(find, n);
    CollectOk(find, n);
    forall k | 0 <= k < n ensures Blocks(find(k)) <==> HotspotBlocks(inputs, k) {
      assert find(k) == HotspotFindings(inputs, k);
      HotspotVerdict(inputs, k);
    }
  }

  ghost predicate SomeBlocks(inputs: Inputs) { exists k | 0 <= k < |inputs.hotspots| :: HotspotBlocks(inputs, k) }

  /** The strict verdict: it fails exactly when some changed hotspot, past the early returns and without a matching
      exception, has a blocked line outside excused hunks or eight significant unclassified lines outside ignored
      ones. Every finding is counted once. */
  lemma StrictVerdict(inputs: Inputs)
    requires ReportOf(inputs).Ok?
    ensures var summary := ReportOf(inputs).value;
      && (summary.strictFailed <==> SomeBlocks(inputs))
      && summary.findingCount == summary.blockedCount + summary.allowedCount + summary.exceptionCount
  {
    var findings := Collected(inputs, |inputs.hotspots|).value;
    CountsSum(findings);
    CountPositive(findings);
    CollectedVerdict(inputs, |inputs.hotspots|);
  }

  /** Hotspot k is changed and the counts fail its file. */
  predicate HotspotRaises(inputs: Inputs, k: nat)
    requires k < |inputs.hotspots|
  {
    var path := inputs.hotspots[k].0;
    path in inputs.changed
    && CountsFail(inputs.compactPaths, inputs.changed[path], inputs.StatFor(path), inputs.LengthOf(path))
  }

  lemma HotspotRaisesExactlyWhen(inputs: Inputs, k: nat)
    requires k < |inputs.hotspots| && inputs.hotspots[k].1.blockNew != []
    ensures HotspotFindings(inputs, k).Raised? <==> HotspotRaises(inputs, k)
  {
    var (path, rule) := inputs.hotspots[k];
    if path in inputs.changed {
      RaisesExactlyWhen(inputs.tests, inputs.compactPaths, rule, inputs.changed[path], inputs.StatFor(path),
        inputs.LengthOf(path));
    }
  }

  ghost predicate SomeRaises(inputs: Inputs) { exists k | 0 <= k < |inputs.hotspots| :: HotspotRaises(inputs, k) }

  predicate RulesBlock(inputs: Inputs) {
    forall k | 0 <= k < |inputs.hotspots| :: inputs.hotspots[k].1.blockNew != []
  }

  /** Under rules that block some category, and whatever numstat says, the report raises exactly when the counts fail a
      changed hotspot. */
  lemma ReportRaisesExactlyWhen(inputs: Inputs)
    requires RulesBlock(inputs)
    ensures ReportOf(inputs).Raised? <==> SomeRaises(inputs)
  {
    var find := FindingsOf(inputs);
    CollectOk(find, |inputs.hotspots|);
    forall k | 0 <= k < |inputs.hotspots| ensures find(k).Ok? <==> !HotspotRaises(inputs, k) {
      assert find(k) == HotspotFindings(inputs, k);
      HotspotRaisesExactlyWhen(inputs, k);
    }
  }

  /** numstat counts what the diff shows: of the changed files it names, each has the parsed counts. */
  predicate NumstatAgrees(inputs: Inputs) {
    forall path | path in inputs.changed :: path in inputs.numstat ==>
      && inputs.numstat[path].addedLineCount == Some(|inputs.changed[path].addedLines|)
      && inputs.numstat[path].deletedLineCount == Some(inputs.changed[path].deletedLineCount)
  }

  /** Counts that agree with the diff, or none at all, never fail a hotspot. */
  lemma AgreeingCountsReport(inputs: Inputs)
    requires NumstatAgrees(inputs) && RulesBlock(inputs)
    ensures ReportOf(inputs).Ok?
  {
    forall k | 0 <= k < |inputs.hotspots| ensures !HotspotRaises(inputs, k) {
      AgreeingCountsFit(inputs, k);
    }
    ReportRaisesExactlyWhen(inputs);
  }

  lemma AgreeingCountsFit(inputs: Inputs, k: nat)
    requires NumstatAgrees(inputs) && k < |inputs.hotspots|
    ensures !HotspotRaises(inputs, k)
  {
    var path := inputs.hotspots[k].0;
    if path in inputs.changed {
      var file, stat := inputs.changed[path], inputs.StatFor(path);
      assert stat.addedLineCount == Some(|file.addedLines|) && stat.deletedLineCount == Some(file.deletedLineCount);
    }
  }
}
