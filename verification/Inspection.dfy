/** The architecture inspection: rules check what their checkers emit, the policy decides severities, ignored violations
    are dropped and the rest is sorted. */
module Inspection {
  import opened Wrappers
  import opened Ordering

  datatype Severity = Error | Warning | Info | Ignore

  function SeverityName(s: Severity): string {
    match s
    case Error => "error"
    case Warning => "warning"
    case Info => "info"
    case Ignore => "ignore"
  }

  datatype Violation = Violation(
    contract: string, field: string, message: string, ruleId: Option<string>, path: Option<string>, lineno: Option<int>,
    symbol: Option<string>, severity: Severity)

  datatype Rule = Rule(ruleId: string, contract: string, defaultSeverity: Severity)

  datatype CheckError = WrongContract | WrongRule

  // --- One rule ---

  function CheckOne(rule: Rule, v: Violation): Result<Violation, CheckError> {
    if v.contract != rule.contract then Raised(WrongContract)
    else if v.ruleId.Some? && v.ruleId.value != rule.ruleId then Raised(WrongRule)
    else Ok(v.(ruleId := Some(rule.ruleId), severity := if v.severity == Error then rule.defaultSeverity
      else v.severity))
  }

  /** The first n emitted violations; the first bad one stops the check. */
  function Checked(rule: Rule, emitted: seq<Violation>, n: nat): Result<seq<Violation>, CheckError>
    requires n <= |emitted|
  {
    if n == 0 then Ok([])
    else
      match Checked(rule, emitted, n - 1)
      case Raised(error) => Raised(error)
      case Ok(before) =>
        match CheckOne(rule, emitted[n - 1])
        case Raised(error) => Raised(error)
        case Ok(v) => Ok(before + [v])
  }

  lemma {:induction false} CheckedStops(rule: Rule, emitted: seq<Violation>, n: nat, m: nat)
    requires n <= m <= |emitted| && Checked(rule, emitted, n).Raised?
    ensures Checked(rule, emitted, m) == Checked(rule, emitted, n)
    decreases m
  {
    if n < m {
      CheckedStops(rule, emitted, n, m - 1);
    }
  }

  method Check(rule: Rule, emitted: seq<Violation>) returns (result: Result<seq<Violation>, CheckError>)
    ensures result == Checked(rule, emitted, |emitted|)
  {
    var violations: seq<Violation> := [];
    for i := 0 to |emitted|
      invariant Checked(rule, emitted, i) == Ok(violations)
    {
      var checked := CheckOne(rule, emitted[i]);
      if checked.Raised? {
        CheckedStops(rule, emitted, i + 1, |emitted|);
        return Raised(checked.error);
      }
      violations := violations + [checked.value];
    }
    result := Ok(violations);
  }

  /** What the rules emitted, rule by rule. */
  type Emissions = seq<(Rule, seq<Violation>)>

  function Collected(runs: Emissions, n: nat): Result<seq<Violation>, CheckError>
    requires n <= |runs|
  {
    if n == 0 then Ok([])
    else
      match Collected(runs, n - 1)
      case Raised(error) => Raised(error)
      case Ok(before) =>
        match Checked(runs[n - 1].0, runs[n - 1].1, |runs[n - 1].1|)
        case Raised(error) => Raised(error)
        case Ok(here) => Ok(before + here)
  }

  /** Some run reports this violation as its rule's own. */
  ghost predicate ReportedBy(runs: Emissions, v: Violation) {
    exists i | 0 <= i < |runs| :: v.contract == runs[i].0.contract && v.ruleId == Some(runs[i].0.ruleId)
  }

  lemma {:induction false} CheckedBelong(rule: Rule, emitted: seq<Violation>, n: nat)
    requires n <= |emitted| && Checked(rule, emitted, n).Ok?
    ensures |Checked(rule, emitted, n).value| == n
    ensures forall v | v in Checked(rule, emitted, n).value ::
      v.contract == rule.contract && v.ruleId == Some(rule.ruleId)
  {
    if n > 0 {
      CheckedBelong(rule, emitted, n - 1);
    }
  }

  lemma {:induction false} CollectedBelong(runs: Emissions, n: nat)
    requires n <= |runs| && Collected(runs, n).Ok?
    ensures forall v | v in Collected(runs, n).value :: ReportedBy(runs, v)
  {
    if n > 0 {
      CollectedBelong(runs, n - 1);
      CheckedBelong(runs[n - 1].0, runs[n - 1].1, |runs[n - 1].1|);
    }
  }

  // --- The policy ---

  datatype Policy = Policy(defaultSeverity: Severity, overrides: map<string, Severity>)

  function FirstOverride(keys: seq<string>, policy: Policy): Severity {
    if keys == [] then policy.defaultSeverity
    else if keys[0] in policy.overrides then policy.overrides[keys[0]]
    else FirstOverride(keys[1..], policy)
  }

  /** The keys a violation answers to, most specific first. */
  function MatchKeys(v: Violation): seq<string> {
    var symbol := if v.symbol.Some? then v.symbol.value else "None";
    (if v.ruleId.Some? && v.ruleId.value != "" then ["rule." + v.ruleId.value, v.ruleId.value] else [])
    + [v.contract + "." + v.field + "." + symbol, v.contract + "." + v.field, v.contract]
  }

  function SeverityFor(v: Violation, policy: Policy): Severity { FirstOverride(MatchKeys(v), policy) }

  function Apply(vs: seq<Violation>, policy: Policy): (applied: seq<Violation>)
    ensures |applied| == |vs|
  {
    if vs == [] then [] else [vs[0].(severity := SeverityFor(vs[0], policy))] + Apply(vs[1..], policy)
  }

  function DropIgnored(vs: seq<Violation>): (kept: seq<Violation>)
    ensures forall v :: v in kept <==> v in vs && v.severity != Ignore
  {
    if vs == [] then [] else (if vs[0].severity == Ignore then [] else [vs[0]]) + DropIgnored(vs[1..])
  }

  /** A text in a sort key, ended by a number below every code point. */
  function TextKey(s: string): Key { Codes(s) + [-1] }

  function Text(o: Option<string>): string { if o.Some? then o.value else "" }

  function ReportKey(v: Violation): Key {
    TextKey(SeverityName(v.severity)) + TextKey(v.contract) + TextKey(Text(v.path))
    + [if v.lineno.Some? then v.lineno.value else 0] + TextKey(v.field) + TextKey(Text(v.symbol))
  }

  function Reported(vs: seq<Violation>, policy: Policy): seq<Violation> {
    Sort(ReportKey, DropIgnored(Apply(vs, policy)))
  }

  function Inspect(runs: Emissions, policy: Policy): Result<seq<Violation>, CheckError> {
    match Collected(runs, |runs|)
    case Raised(error) => Raised(error)
    case Ok(violations) => Ok(Reported(violations, policy))
  }

  lemma {:induction false} AppliedComeFrom(vs: seq<Violation>, policy: Policy)
    ensures forall a | a in Apply(vs, policy) :: exists v | v in vs :: a == v.(severity := SeverityFor(v, policy))
  {
    if vs != [] {
      AppliedComeFrom(vs[1..], policy);
      forall a | a in Apply(vs, policy) ensures exists v | v in vs :: a == v.(severity := SeverityFor(v, policy)) {
        if a in Apply(vs[1..], policy) {
          var v :| v in vs[1..] && a == v.(severity := SeverityFor(v, policy));
          assert v in vs;
        } else {
          assert a == vs[0].(severity := SeverityFor(vs[0], policy)) && vs[0] in vs;
        }
      }
    }
  }

  /** What is reported is sorted, never ignored, carries the policy's severity, and belongs to the rule and contract
      it names. */
  lemma ReportedViolations(runs: Emissions, policy: Policy)
    requires Inspect(runs, policy).Ok?
    ensures var reported := Inspect(runs, policy).value;
      && Sorted(ReportKey, reported)
      && forall v | v in reported :: v.severity != Ignore && v.severity == SeverityFor(v, policy) && ReportedBy(runs, v)
  {
    var collected := Collected(runs, |runs|).value;
    var kept := DropIgnored(Apply(collected, policy));
    SortIsSorted(ReportKey, kept);
    SortIsPermutation(ReportKey, kept);
    CollectedBelong(runs, |runs|);
    AppliedComeFrom(collected, policy);
    forall v | v in Inspect(runs, policy).value
      ensures v.severity != Ignore && v.severity == SeverityFor(v, policy) && ReportedBy(runs, v)
    {
      assert v in kept && v in Apply(collected, policy);
      var w :| w in collected && v == w.(severity := SeverityFor(w, policy));
      assert MatchKeys(v) == MatchKeys(w);
      assert ReportedBy(runs, w);
      var i :| 0 <= i < |runs| && w.contract == runs[i].0.contract && w.ruleId == Some(runs[i].0.ruleId);
    }
  }

  // --- Severities set before the policy do not matter ---

  predicate SameButSeverity(a: seq<Violation>, b: seq<Violation>) {
    |a| == |b| && forall i | 0 <= i < |a| :: a[i].(severity := Error) == b[i].(severity := Error)
  }

  ghost predicate SameRuns(a: Emissions, b: Emissions) {
    |a| == |b| && forall i | 0 <= i < |a| ::
      a[i].0.ruleId == b[i].0.ruleId && a[i].0.contract == b[i].0.contract && SameButSeverity(a[i].1, b[i].1)
  }

  ghost predicate SameOutcome(a: Result<seq<Violation>, CheckError>, b: Result<seq<Violation>, CheckError>) {
    if a.Raised? then a == b else b.Ok? && SameButSeverity(a.value, b.value)
  }

  lemma {:induction false} SameChecked(r: Rule, s: Rule, a: seq<Violation>, b: seq<Violation>, n: nat)
    requires r.ruleId == s.ruleId && r.contract == s.contract && SameButSeverity(a, b) && n <= |a|
    ensures SameOutcome(Checked(r, a, n), Checked(s, b, n))
  {
    if n > 0 {
      SameChecked(r, s, a, b, n - 1);
      assert a[n - 1].(severity := Error) == b[n - 1].(severity := Error);
    }
  }

  lemma {:induction false} SameCollected(a: Emissions, b: Emissions, n: nat)
    requires SameRuns(a, b) && n <= |a|
    ensures SameOutcome(Collected(a, n), Collected(b, n))
  {
    if n > 0 {
      SameCollected(a, b, n - 1);
      SameChecked(a[n - 1].0, b[n - 1].0, a[n - 1].1, b[n - 1].1, |a[n - 1].1|);
    }
  }

  lemma {:induction false} SameApplied(a: seq<Violation>, b: seq<Violation>, policy: Policy)
    requires SameButSeverity(a, b)
    ensures Apply(a, policy) == Apply(b, policy)
    decreases |a|
  {
    if a != [] {
      assert a[0].(severity := Error) == b[0].(severity := Error);
      assert MatchKeys(a[0]) == MatchKeys(b[0]);
      SameApplied(a[1..], b[1..], policy);
    }
  }

  /** The severities of checkers and the default severities of rules have no effect: the policy replaces them all. */
  lemma DefaultSeverityInert(a: Emissions, b: Emissions, policy: Policy)
    requires SameRuns(a, b)
    ensures Inspect(a, policy) == Inspect(b, policy)
  {
    SameCollected(a, b, |a|);
    if Collected(a, |a|).Ok? {
      SameApplied(Collected(a, |a|).value, Collected(b, |b|).value, policy);
    }
  }
}
