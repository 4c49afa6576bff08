/** Counting the reported violations, recording the counts in a history, and comparing the last two records. */
module Measurements {
  import opened Wrappers
  import opened Sums
  import T = Text
  import opened Inspection

  // --- Counting by key ---

  function Count(keys: seq<string>, k: string): nat {
    if keys == [] then 0 else Count(keys[..|keys| - 1], k) + (if keys[|keys| - 1] == k then 1 else 0)
  }

  function Zeros(names: set<string>): map<string, int> { map name | name in names :: 0 }

  /** Counts per key, starting from zero for each seed. */
  function Tally(seeds: set<string>, keys: seq<string>): map<string, int> {
    if keys == [] then Zeros(seeds)
    else
      var before, k := Tally(seeds, keys[..|keys| - 1]), keys[|keys| - 1];
      before[k := (if k in before then before[k] else 0) + 1]
  }

  method CountByKey(seeds: set<string>, keys: seq<string>) returns (counts: map<string, int>)
    ensures counts == Tally(seeds, keys)
  {
    counts := Zeros(seeds);
    for i := 0 to |keys|
      invariant counts == Tally(seeds, keys[..i])
    {
      assert keys[..i + 1][..i] == keys[..i];
      counts := counts[keys[i] := (if keys[i] in counts then counts[keys[i]] else 0) + 1];
    }
    assert keys[..|keys|] == keys;
  }

  lemma {:induction false} TallyCounts(seeds: set<string>, keys: seq<string>)
    ensures forall k :: k in Tally(seeds, keys) <==> k in seeds || k in keys
    ensures forall k | k in Tally(seeds, keys) :: Tally(seeds, keys)[k] == Count(keys, k)
  {
    if keys != [] {
      var front, last := keys[..|keys| - 1], keys[|keys| - 1];
      assert keys == front + [last];
      TallyCounts(seeds, front);
      if last !in front {
        NotCounted(front, last);
      }
    }
  }

  lemma {:induction false} NotCounted(keys: seq<string>, k: string)
    requires k !in keys
    ensures Count(keys, k) == 0
  {
    if keys != [] {
      NotCounted(keys[..|keys| - 1], k);
    }
  }

  lemma {:induction false} ZerosSum(names: set<string>)
    ensures MapSum(Zeros(names)) == 0
  {
    if names == {} {
      assert Zeros(names) == map[];
    } else {
      var k :| k in names;
      ZerosSum(names - {k});
      MapSumRemove(Zeros(names), k);
      assert Zeros(names) - {k} == Zeros(names - {k});
    }
  }

  /** The counts of a tally sum to the number of keys counted. */
  lemma {:induction false} TallySum(seeds: set<string>, keys: seq<string>)
    ensures MapSum(Tally(seeds, keys)) == |keys|
  {
    if keys == [] {
      ZerosSum(seeds);
    } else {
      var front, k := keys[..|keys| - 1], keys[|keys| - 1];
      var before := Tally(seeds, front);
      TallySum(seeds, front);
      MapSumUpdate(before, k, (if k in before then before[k] else 0) + 1);
    }
  }

  // --- The snapshot ---

  function RuleName(v: Violation): string {
    if v.ruleId.Some? && v.ruleId.value != "" then v.ruleId.value else "unattributed"
  }

  function RuleNames(vs: seq<Violation>): (names: seq<string>)
    ensures |names| == |vs|
  {
    seq(|vs|, i requires 0 <= i < |vs| => RuleName(vs[i]))
  }

  function ContractNames(vs: seq<Violation>): (names: seq<string>)
    ensures |names| == |vs|
  {
    seq(|vs|, i requires 0 <= i < |vs| => vs[i].contract)
  }

  function SeverityCount(vs: seq<Violation>, s: Severity): nat {
    if vs == [] then 0 else (if vs[0].severity == s then 1 else 0) + SeverityCount(vs[1..], s)
  }

  datatype Snapshot = Snapshot(
    errors: nat, warnings: nat, infos: nat, violations: nat, ruleCounts: map<string, int>,
    contractCounts: map<string, int>)

  /** contracts: names in the contract map. rules: the rule manifest. */
  function SnapshotOf(vs: seq<Violation>, contracts: set<string>, rules: seq<Rule>): Snapshot {
    Snapshot(SeverityCount(vs, Error), SeverityCount(vs, Warning), SeverityCount(vs, Info), |vs|,
             Tally(set r | r in rules :: r.ruleId, RuleNames(vs)),
             Tally(contracts + (set r | r in rules :: r.contract), ContractNames(vs)))
  }

  method BuildSnapshot(vs: seq<Violation>, contracts: set<string>, rules: seq<Rule>) returns (snapshot: Snapshot)
    ensures snapshot == SnapshotOf(vs, contracts, rules)
  {
    var ruleCounts := CountByKey(set r | r in rules :: r.ruleId, RuleNames(vs));
    var contractCounts := CountByKey(contracts + (set r | r in rules :: r.contract), ContractNames(vs));
    snapshot := Snapshot(SeverityCount(vs, Error), SeverityCount(vs, Warning), SeverityCount(vs, Info), |vs|,
      ruleCounts, contractCounts);
  }

  lemma {:induction false} SeveritiesSum(vs: seq<Violation>)
    ensures SeverityCount(vs, Error) + SeverityCount(vs, Warning) + SeverityCount(vs, Info) + SeverityCount(vs, Ignore)
      == |vs|
    ensures SeverityCount(vs, Ignore) == 0 <==> forall v | v in vs :: v.severity != Ignore
  {
    if vs != [] {
      SeveritiesSum(vs[1..]);
      assert vs == [vs[0]] + vs[1..];
    }
  }

  ghost predicate Conserves(s: Snapshot) {
    && s.errors + s.warnings + s.infos == s.violations
    && MapSum(s.ruleCounts) == s.violations
    && MapSum(s.contractCounts) == s.violations
  }

  /** Rule counts and contract counts always sum to the violation count; severity counts do exactly when nothing ignored
      was counted. */
  lemma SnapshotConserves(vs: seq<Violation>, contracts: set<string>, rules: seq<Rule>)
    ensures var s := SnapshotOf(vs, contracts, rules);
      && MapSum(s.ruleCounts) == |vs| && MapSum(s.contractCounts) == |vs|
      && (Conserves(s) <==> forall v | v in vs :: v.severity != Ignore)
  {
    SeveritiesSum(vs);
    TallySum(set r | r in rules :: r.ruleId, RuleNames(vs));
    TallySum(contracts + (set r | r in rules :: r.contract), ContractNames(vs));
  }

  /** A snapshot of what the inspection reports conserves all three counts. */
  lemma PipelineConserves(runs: Emissions, policy: Policy, contracts: set<string>, rules: seq<Rule>)
    requires Inspect(runs, policy).Ok?
    ensures Conserves(SnapshotOf(Inspect(runs, policy).value, contracts, rules))
  {
    ReportedViolations(runs, policy);
    SnapshotConserves(Inspect(runs, policy).value, contracts, rules);
  }

  // --- Contract counts roll up rule counts ---

  /** Every rule's contract, for rules with distinct non-empty ids. */
  ghost predicate ContractOf(runs: Emissions, contractOf: map<string, string>) {
    forall i | 0 <= i < |runs| ::
      runs[i].0.ruleId != "" && runs[i].0.ruleId in contractOf && contractOf[runs[i].0.ruleId] == runs[i].0.contract
  }

  /** How many names lead to contract c. */
  ghost function CountInto(names: seq<string>, contractOf: map<string, string>, c: string): nat {
    if names == [] then 0
    else
      var k := names[|names| - 1];
      CountInto(names[..|names| - 1], contractOf, c) + (if k in contractOf && contractOf[k] == c then 1 else 0)
  }

  ghost function RulesInto(counts: map<string, int>, contractOf: map<string, string>, c: string): map<string, int> {
    map id | id in counts && id in contractOf && contractOf[id] == c :: counts[id]
  }

  lemma {:induction false} RulesIntoSum(
      seeds: set<string>, names: seq<string>, contractOf: map<string, string>, c: string)
    ensures MapSum(RulesInto(Tally(seeds, names), contractOf, c)) == CountInto(names, contractOf, c)
  {
    if names == [] {
      assert RulesInto(Zeros(seeds), contractOf, c)
        == Zeros(set id | id in seeds && id in contractOf && contractOf[id] == c);
      ZerosSum(set id | id in seeds && id in contractOf && contractOf[id] == c);
    } else {
      var front, k := names[..|names| - 1], names[|names| - 1];
      var before, after := Tally(seeds, front), Tally(seeds, names);
      RulesIntoSum(seeds, front, contractOf, c);
      if k in contractOf && contractOf[k] == c {
        assert RulesInto(after, contractOf, c) == RulesInto(before, contractOf, c)[k := after[k]];
        MapSumUpdate(RulesInto(before, contractOf, c), k, after[k]);
      } else {
        assert RulesInto(after, contractOf, c) == RulesInto(before, contractOf, c);
      }
    }
  }

  ghost predicate Attributed(vs: seq<Violation>, contractOf: map<string, string>) {
    forall i | 0 <= i < |vs| :: RuleName(vs[i]) in contractOf && contractOf[RuleName(vs[i])] == vs[i].contract
  }

  lemma {:induction false} CountsAgree(vs: seq<Violation>, contractOf: map<string, string>, c: string)
    requires Attributed(vs, contractOf)
    ensures CountInto(RuleNames(vs), contractOf, c) == Count(ContractNames(vs), c)
  {
    if vs != [] {
      var front := vs[..|vs| - 1];
      assert RuleNames(vs)[..|vs| - 1] == RuleNames(front) && ContractNames(vs)[..|vs| - 1] == ContractNames(front);
      CountsAgree(front, contractOf, c);
    }
  }

  /** For rules with distinct ids, each contract's count is the sum of the counts of its rules. */
  lemma ContractCountsRollUp(
      runs: Emissions, policy: Policy, contracts: set<string>, rules: seq<Rule>, contractOf: map<string, string>,
      c: string)
    requires Inspect(runs, policy).Ok? && ContractOf(runs, contractOf)
    ensures var s := SnapshotOf(Inspect(runs, policy).value, contracts, rules);
      c in s.contractCounts ==> s.contractCounts[c] == MapSum(RulesInto(s.ruleCounts, contractOf, c))
  {
    var vs := Inspect(runs, policy).value;
    ReportedViolations(runs, policy);
    forall i | 0 <= i < |vs| ensures RuleName(vs[i]) in contractOf && contractOf[RuleName(vs[i])] == vs[i].contract {
      assert ReportedBy(runs, vs[i]);
    }
    CountsAgree(vs, contractOf, c);
    RulesIntoSum(set r | r in rules :: r.ruleId, RuleNames(vs), contractOf, c);
    TallyCounts(contracts + (set r | r in rules :: r.contract), ContractNames(vs));
  }

  // --- History ---

  datatype Entry = Number(n: int) | NotNumber

  datatype Field = Missing | NotObject | Object(entries: map<string, Entry>)

  /** A history record as it is read back: anything may be missing, and the two counts of the wrong type. */
  datatype Record = Record(
    violations: Option<int>, severityCounts: map<string, int>, ruleCounts: Field, contractCounts: Field)

  datatype HistoryError = BadJson(lineno: nat) | MustBeObject | MustBeNumeric

  function Numbers(counts: map<string, int>): Field { Object(map k | k in counts :: Number(counts[k])) }

  function RecordOf(s: Snapshot): Record {
    Record(Some(s.violations), Severities(s), Numbers(s.ruleCounts), Numbers(s.contractCounts))
  }

  function Severities(s: Snapshot): map<string, int> {
    map[SeverityName(Error) := s.errors, SeverityName(Warning) := s.warnings, SeverityName(Info) := s.infos]
  }

  /** A line the loader skips. */
  predicate Blank(line: string) { T.Strip(line) == "" }

  /** One line added to the records so far; a blank line is skipped. */
  function ReadRecord(parse: string -> Option<Record>, line: string, number: nat, before: seq<Record>)
    : Result<seq<Record>, HistoryError>
  {
    if Blank(line) then Ok(before)
    else if parse(line).None? then Raised(BadJson(number))
    else Ok(before + [parse(line).value])
  }

  /** Reads line i after the records before it. */
  type Reader = (nat, seq<Record>) -> Result<seq<Record>, HistoryError>

  function ReaderOf(parse: string -> Option<Record>, lines: seq<string>): Reader {
    (i: nat, before: seq<Record>) => if i < |lines| then ReadRecord(parse, lines[i], i + 1, before) else Ok(before)
  }

  /** The first n reads; the first error stops the rest. */
  function LoadFrom(read: Reader, n: nat): Result<seq<Record>, HistoryError> {
    if n == 0 then Ok([])
    else
      match LoadFrom(read, n - 1)
      case Raised(error) => Raised(error)
      case Ok(before) => read(n - 1, before)
  }

  /** The records of the first n lines. */
  function Loaded(parse: string -> Option<Record>, lines: seq<string>, n: nat): Result<seq<Record>, HistoryError>
    requires n <= |lines|
  {
    LoadFrom(ReaderOf(parse, lines), n)
  }

  lemma {:induction false} LoadStops(read: Reader, n: nat, m: nat)
    requires n <= m && LoadFrom(read, n).Raised?
    ensures LoadFrom(read, m) == LoadFrom(read, n)
    decreases m
  {
    if n < m {
      LoadStops(read, n, m - 1);
    }
  }

  lemma {:induction false} LoadSame(a: Reader, b: Reader, n: nat)
    requires forall i, before | 0 <= i < n :: a(i, before) == b(i, before)
    ensures LoadFrom(a, n) == LoadFrom(b, n)
  {
    if n > 0 {
      LoadSame(a, b, n - 1);
    }
  }

  lemma BadLineStops(parse: string -> Option<Record>, lines: seq<string>, i: nat)
    requires i < |lines| && Loaded(parse, lines, i).Ok? && !Blank(lines[i]) && parse(lines[i]).None?
    ensures Loaded(parse, lines, |lines|) == Raised(BadJson(i + 1))
  {
    LoadStops(ReaderOf(parse, lines), i + 1, |lines|);
  }

  lemma LoadedNext(parse: string -> Option<Record>, lines: seq<string>, i: nat, before: seq<Record>)
    requires i < |lines| && Loaded(parse, lines, i) == Ok(before)
    ensures Loaded(parse, lines, i + 1) == ReadRecord(parse, lines[i], i + 1, before)
  {
  }

  method LoadHistory(parse: string -> Option<Record>, lines: seq<string>)
    returns (result: Result<seq<Record>, HistoryError>)
    ensures result == Loaded(parse, lines, |lines|)
  {
    var records: seq<Record> := [];
    for i := 0 to |lines|
      invariant Loaded(parse, lines, i) == Ok(records)
    {
      var line := lines[i];
      LoadedNext(parse, lines, i, records);
      if Blank(line) { continue; }
      var record := parse(line);
      if record.None? {
        BadLineStops(parse, lines, i);
        return Raised(BadJson(i + 1));
      }
      records := records + [record.value];
    }
    result := Ok(records);
  }

  /** The history file, one line a record. */
  class HistoryFile {
    var lines: seq<string>

    /** Appends a record; reading back gives what was there and the new record. */
    method Append(show: Record -> string, parse: string -> Option<Record>, record: Record)
      requires parse(show(record)) == Some(record) && !Blank(show(record))
      modifies this
      ensures lines == old(lines) + [show(record)]
      ensures Loaded(parse, lines, |lines|) ==
        match Loaded(parse, old(lines), |old(lines)|)
        case Raised(error) => Raised(error)
        case Ok(records) => Ok(records + [record])
    {
      LoadedLast(parse, lines, show(record));
      lines := lines + [show(record)];
    }
  }

  lemma LoadedLast(parse: string -> Option<Record>, lines: seq<string>, last: string)
    ensures Loaded(parse, lines + [last], |lines| + 1) ==
      match Loaded(parse, lines, |lines|)
      case Raised(error) => Raised(error)
      case Ok(before) => ReadRecord(parse, last, |lines| + 1, before)
  {
    var read, longer := ReaderOf(parse, lines), ReaderOf(parse, lines + [last]);
    forall i, before | 0 <= i < |lines| ensures longer(i, before) == read(i, before) {
      assert (lines + [last])[i] == lines[i];
    }
    LoadSame(longer, read, |lines|);
    assert (lines + [last])[|lines|] == last;
  }

  // --- Deltas ---

  function MetricMapping(field: Field): Result<map<string, int>, HistoryError> {
    match field
    case Missing => Ok(map[])
    case NotObject => Raised(MustBeObject)
    case Object(entries) =>
      if exists k | k in entries :: entries[k].NotNumber? then Raised(MustBeNumeric)
      else Ok(map k | k in entries :: entries[k].n)
  }

  function ValueAt(m: map<string, int>, k: string): int { if k in m then m[k] else 0 }

  function DeltaMap(latest: map<string, int>, previous: map<string, int>): map<string, int> {
    map k | k in latest.Keys + previous.Keys :: ValueAt(latest, k) - ValueAt(previous, k)
  }

  /** Both mappings of a record, the rules' first. */
  function Mappings(record: Record): Result<(map<string, int>, map<string, int>), HistoryError> {
    match MetricMapping(record.ruleCounts)
    case Raised(error) => Raised(error)
    case Ok(rules) =>
      match MetricMapping(record.contractCounts)
      case Raised(error) => Raised(error)
      case Ok(contracts) => Ok((rules, contracts))
  }

  datatype Deltas = Deltas(
    violations: Option<int>, errors: int, warnings: int, infos: int,
    ruleCounts: map<string, int>, contractCounts: map<string, int>)

  /** A severity that is not counted counts as none. */
  function SeverityDelta(latest: Record, previous: Record, s: Severity): int {
    ValueAt(latest.severityCounts, SeverityName(s)) - ValueAt(previous.severityCounts, SeverityName(s))
  }

  /** The deltas between the last two records, None with fewer than two. A malformed record among them raises, even
      if it is the only one. */
  function Summary(records: seq<Record>): Result<Option<Deltas>, HistoryError> {
    if records == [] then Ok(None)
    else
      var latest := records[|records| - 1];
      match Mappings(latest)
      case Raised(error) => Raised(error)
      case Ok(after) =>
        if |records| == 1 then Ok(None)
        else
          var previous := records[|records| - 2];
          match Mappings(previous)
          case Raised(error) => Raised(error)
          case Ok(before) =>
            Ok(Some(Deltas(if latest.violations.Some? && previous.violations.Some?
                           then Some(latest.violations.value - previous.violations.value) else None,
                           SeverityDelta(latest, previous, Error), SeverityDelta(latest, previous, Warning),
                           SeverityDelta(latest, previous, Info),
                           DeltaMap(after.0, before.0), DeltaMap(after.1, before.1))))
  }

  lemma NumbersMapping(counts: map<string, int>)
    ensures MetricMapping(Numbers(counts)) == Ok(counts)
  {
    var entries := Numbers(counts).entries;
    assert (map k | k in entries :: entries[k].n) == counts;
  }

  lemma SumWithout(m: map<string, int>, k: string)
    ensures MapSum(m) == ValueAt(m, k) + MapSum(m - {k})
  {
    if k in m {
      MapSumRemove(m, k);
    } else {
      assert m - {k} == m;
    }
  }

  lemma DeltaWithout(a: map<string, int>, b: map<string, int>, k: string)
    ensures DeltaMap(a, b) - {k} == DeltaMap(a - {k}, b - {k})
  {
  }

  lemma {:induction false} DeltaSum(a: map<string, int>, b: map<string, int>, keys: set<string>)
    requires keys == a.Keys + b.Keys
    ensures MapSum(DeltaMap(a, b)) == MapSum(a) - MapSum(b)
    decreases keys
  {
    if keys == {} {
      assert a == map[] && b == map[] && DeltaMap(a, b) == map[];
    } else {
      var k :| k in keys;
      DeltaSum(a - {k}, b - {k}, keys - {k});
      DeltaWithout(a, b, k);
      SumWithout(DeltaMap(a, b), k);
      SumWithout(a, k);
      SumWithout(b, k);
    }
  }

  lemma SeverityDeltasSum(previous: Snapshot, latest: Snapshot)
    requires Conserves(previous) && Conserves(latest)
    ensures var a, b := RecordOf(latest), RecordOf(previous);
      SeverityDelta(a, b, Error) + SeverityDelta(a, b, Warning) + SeverityDelta(a, b, Info)
      == latest.violations - previous.violations
  {
    var error, warning, info := SeverityName(Error), SeverityName(Warning), SeverityName(Info);
    assert error[0] != warning[0] && error[0] != info[0] && warning[0] != info[0];
    assert Severities(latest)[error] == latest.errors && Severities(previous)[error] == previous.errors;
  }

  /** Snapshots read back as they were recorded. */
  lemma SummaryOfTwo(records: seq<Record>, previous: Snapshot, latest: Snapshot)
    ensures var a, b := RecordOf(latest), RecordOf(previous);
      Summary(records + [b, a]) == Ok(Some(Deltas(
        Some(latest.violations - previous.violations), SeverityDelta(a, b, Error), SeverityDelta(a, b, Warning),
        SeverityDelta(a, b, Info), DeltaMap(latest.ruleCounts, previous.ruleCounts),
        DeltaMap(latest.contractCounts, previous.contractCounts))))
  {
    NumbersMapping(latest.ruleCounts);
    NumbersMapping(previous.ruleCounts);
    NumbersMapping(latest.contractCounts);
    NumbersMapping(previous.contractCounts);
  }

  /** Between two records of conserving snapshots the summary never raises, and the error, warning and info deltas, the
      key-wise rule deltas and the key-wise contract deltas each sum to the delta of the violation count. */
  lemma SummaryConserves(records: seq<Record>, previous: Snapshot, latest: Snapshot)
    requires Conserves(previous) && Conserves(latest)
    ensures var summary := Summary(records + [RecordOf(previous), RecordOf(latest)]);
      && summary.Ok? && summary.value.Some?
      && summary.value.value.violations == Some(latest.violations - previous.violations)
      && summary.value.value.errors + summary.value.value.warnings + summary.value.value.infos
         == latest.violations - previous.violations
      && MapSum(summary.value.value.ruleCounts) == latest.violations - previous.violations
      && MapSum(summary.value.value.contractCounts) == latest.violations - previous.violations
  {
    SummaryOfTwo(records, previous, latest);
    SeverityDeltasSum(previous, latest);
    DeltaSum(latest.ruleCounts, previous.ruleCounts, latest.ruleCounts.Keys + previous.ruleCounts.Keys);
    DeltaSum(latest.contractCounts, previous.contractCounts, latest.contractCounts.Keys + previous.contractCounts.Keys);
  }

  /** The delta of key k from each record to the next, added up. */
  ghost function SumOfDeltas(history: seq<map<string, int>>, k: string): int {
    if |history| < 2 then 0
    else
      var last := |history| - 1;
      SumOfDeltas(history[..last], k) + ValueAt(DeltaMap(history[last], history[last - 1]), k)
  }

  /** Per-key deltas telescope over any history, keys that come and go included. */
  lemma {:induction false} DeltasTelescope(history: seq<map<string, int>>, k: string)
    requires history != []
    ensures SumOfDeltas(history, k) == ValueAt(history[|history| - 1], k) - ValueAt(history[0], k)
  {
    if |history| > 1 {
      DeltasTelescope(history[..|history| - 1], k);
    }
  }
}
