/** Ranking source files by risk, routing the ranked hotspots, and choosing broader rebaseline candidates. */
module Hotspots {
  import opened Wrappers
  import opened Ordering
  import opened HotspotPolicy

  // --- Risk scores ---

  datatype Structure = Structure(lines: nat, publicFunctions: nat, privateFunctions: nat, classes: nat)

  datatype Churn = Churn(changes30: nat, changes90: nat)

  datatype FileMetrics = FileMetrics(structure: Structure, churn: Churn, hygieneFindings: nat, openCases: nat)

  /** One hundred times the unrounded score. */
  function ExactHundredths(m: FileMetrics): real {
    100.0 * ((m.structure.lines as real) / 150.0 + (m.structure.publicFunctions as real) * 2.0
             + (m.structure.privateFunctions as real) * 0.75 + (m.structure.classes as real) * 1.5
             + (m.churn.changes30 as real) * 5.0 + (m.churn.changes90 as real) * 2.0
             + (m.hygieneFindings as real) * 8.0 + (m.openCases as real) * 6.0)
  }

  /** The score rounded to two decimals, in hundredths. */
  function RiskScore(m: FileMetrics): nat {
    (2 * m.structure.lines + 1) / 3 + 200 * m.structure.publicFunctions + 75 * m.structure.privateFunctions
    + 150 * m.structure.classes + 500 * m.churn.changes30 + 200 * m.churn.changes90 + 800 * m.hygieneFindings
      + 600 * m.openCases
  }

  lemma Thirds(lines: nat)
    ensures var third := (2 * lines + 1) / 3;
      -1.0 / 3.0 <= 100.0 * ((lines as real) / 150.0) - (third as real) <= 1.0 / 3.0
  {
    var third := (2 * lines + 1) / 3;
    assert -1 <= 2 * lines - 3 * third <= 1;
    assert 100.0 * ((lines as real) / 150.0) == (2 * lines) as real / 3.0;
  }

  /** The score is the one whole number of hundredths nearest to the exact value: no tie exists, so the rounding
      mode never matters. */
  lemma ScoreIsNearest(m: FileMetrics, n: int)
    ensures -0.5 <= ExactHundredths(m) - (n as real) <= 0.5 <==> n == RiskScore(m)
  {
    Thirds(m.structure.lines);
    var third := (2 * m.structure.lines + 1) / 3;
    var rest := RiskScore(m) - third;
    assert ExactHundredths(m) == 100.0 * ((m.structure.lines as real) / 150.0) + (rest as real);
    assert ExactHundredths(m) - (RiskScore(m) as real)
      == 100.0 * ((m.structure.lines as real) / 150.0) - (third as real);
    if n < RiskScore(m) {
      assert (n as real) <= (RiskScore(m) as real) - 1.0;
    } else if n > RiskScore(m) {
      assert (n as real) >= (RiskScore(m) as real) + 1.0;
    }
  }

  predicate AtMost(a: FileMetrics, b: FileMetrics) {
    && a.structure.lines <= b.structure.lines && a.structure.publicFunctions <= b.structure.publicFunctions
    && a.structure.privateFunctions <= b.structure.privateFunctions && a.structure.classes <= b.structure.classes
    && a.churn.changes30 <= b.churn.changes30 && a.churn.changes90 <= b.churn.changes90
    && a.hygieneFindings <= b.hygieneFindings && a.openCases <= b.openCases
  }

  /** More of anything never scores less, and only a file with nothing at all scores zero. */
  lemma ScoreMonotone(a: FileMetrics, b: FileMetrics)
    ensures AtMost(a, b) ==> RiskScore(a) <= RiskScore(b)
    ensures RiskScore(a) == 0 <==> AtMost(a, FileMetrics(Structure(0, 0, 0, 0), Churn(0, 0), 0, 0))
  {
    if AtMost(a, b) {
      assert (2 * a.structure.lines + 1) / 3 <= (2 * b.structure.lines + 1) / 3;
    }
    assert (2 * a.structure.lines + 1) / 3 == 0 <==> a.structure.lines == 0;
  }

  // --- The ranking ---

  /** What is known of the repository's files. */
  datatype Repository = Repository(
    files: map<string, Structure>, churn: map<string, Churn>, hygiene: map<string, nat>, openCases: map<string, nat>)

  function MetricsOf(repo: Repository, path: string): FileMetrics
    requires path in repo.files
  {
    FileMetrics(repo.files[path],
                if path in repo.churn then repo.churn[path] else Churn(0, 0),
                if path in repo.hygiene then repo.hygiene[path] else 0,
                if path in repo.openCases then repo.openCases[path] else 0)
  }

  datatype Row = Row(path: string, score: int, metrics: FileMetrics)

  function RowOf(repo: Repository, path: string): Row
    requires path in repo.files
  {
    Row(path, RiskScore(MetricsOf(repo, path)), MetricsOf(repo, path))
  }

  function RowKey(row: Row): Key { [-row.score] + Codes(row.path) }

  /** order lists every file once: the order of the metrics dictionary. */
  ghost predicate Enumerates(order: seq<string>, repo: Repository) {
    && (forall path :: path in order <==> path in repo.files)
    && forall i, j | 0 <= i < j < |order| :: order[i] != order[j]
  }

  function PositiveRows(repo: Repository, order: seq<string>, n: nat): seq<Row>
    requires n <= |order| && forall i | 0 <= i < |order| :: order[i] in repo.files
  {
    if n == 0 then []
    else
      var row := RowOf(repo, order[n - 1]);
      PositiveRows(repo, order, n - 1) + (if row.score > 0 then [row] else [])
  }

  function Ranked(repo: Repository, order: seq<string>, maxHotspots: int): seq<Row>
    requires forall i | 0 <= i < |order| :: order[i] in repo.files
  {
    TakeFirst(Sort(RowKey, PositiveRows(repo, order, |order|)), maxHotspots)
  }

  method CollectPositive(repo: Repository, order: seq<string>) returns (rows: seq<Row>)
    requires forall i | 0 <= i < |order| :: order[i] in repo.files
    ensures rows == PositiveRows(repo, order, |order|)
  {
    rows := [];
    for i := 0 to |order|
      invariant rows == PositiveRows(repo, order, i)
    {
      var row := RowOf(repo, order[i]);
      if row.score <= 0 { continue; }
      rows := rows + [row];
    }
  }

  method BuildHotspots(repo: Repository, order: seq<string>, maxHotspots: int) returns (hotspots: seq<Row>)
    requires forall i | 0 <= i < |order| :: order[i] in repo.files
    ensures hotspots == Ranked(repo, order, maxHotspots)
  {
    var rows := CollectPositive(repo, order);
    hotspots := TakeFirst(Sort(RowKey, rows), maxHotspots);
  }

  /** The row of a file with a positive score. */
  ghost predicate IsPositive(repo: Repository, row: Row) {
    row.path in repo.files && row == RowOf(repo, row.path) && row.score > 0
  }

  lemma {:induction false} PositiveMembers(repo: Repository, order: seq<string>, n: nat)
    requires n <= |order| && Enumerates(order, repo)
    ensures forall row :: row in PositiveRows(repo, order, n) <==>
      IsPositive(repo, row) && exists i | 0 <= i < n :: order[i] == row.path
    ensures KeysDistinct(RowKey, PositiveRows(repo, order, n))
  {
    if n > 0 {
      PositiveMembers(repo, order, n - 1);
      var before, last := PositiveRows(repo, order, n - 1), RowOf(repo, order[n - 1]);
      forall row | row in before ensures RowKey(row) != RowKey(last) {
        DifferentPaths(row, last);
      }
    }
  }

  lemma DifferentPaths(a: Row, b: Row)
    requires a.path != b.path
    ensures RowKey(a) != RowKey(b)
  {
    CodesInjective(a.path, b.path);
    assert RowKey(a)[1..] == Codes(a.path) && RowKey(b)[1..] == Codes(b.path);
  }

  lemma AllPositive(repo: Repository, order: seq<string>)
    requires Enumerates(order, repo)
    ensures forall row :: row in PositiveRows(repo, order, |order|) <==> IsPositive(repo, row)
  {
    PositiveMembers(repo, order, |order|);
    forall row | IsPositive(repo, row) ensures row in PositiveRows(repo, order, |order|) {
      assert row.path in order;
    }
  }

  /** For a limit that is not negative, the ranking is exactly the best files: strictly ordered by falling score and
      then by path, nothing but rows of files with a positive score, as many as the limit and the files allow, and every
      file left out ranks after every file kept. */
  lemma BestFiles(repo: Repository, order: seq<string>, maxHotspots: nat)
    requires Enumerates(order, repo)
    ensures var hotspots := Ranked(repo, order, maxHotspots);
      && StrictlySorted(RowKey, hotspots)
      && (forall row | row in hotspots :: IsPositive(repo, row))
      && |hotspots| <= maxHotspots
      && (|hotspots| < maxHotspots ==> forall row | IsPositive(repo, row) :: row in hotspots)
      && (forall row, kept | IsPositive(repo, row) && row !in hotspots && kept in hotspots ::
        Less(RowKey(kept), RowKey(row)))
  {
    var rows := PositiveRows(repo, order, |order|);
    var sorted := Sort(RowKey, rows);
    PositiveMembers(repo, order, |order|);
    SortIsStrict(RowKey, rows);
    SortedRows(repo, order);
    PrefixIsBest(sorted, maxHotspots);
    forall row | row in Ranked(repo, order, maxHotspots) ensures IsPositive(repo, row) {
      assert row in sorted;
    }
    forall row | IsPositive(repo, row) ensures row in sorted {
    }
  }

  lemma SortedRows(repo: Repository, order: seq<string>)
    requires Enumerates(order, repo)
    ensures forall row :: row in Sort(RowKey, PositiveRows(repo, order, |order|)) <==> IsPositive(repo, row)
  {
    AllPositive(repo, order);
    SortIsPermutation(RowKey, PositiveRows(repo, order, |order|));
  }

  /** In a strict order, what the prefix leaves out comes after what it keeps. */
  lemma PrefixIsBest(sorted: seq<Row>, k: nat)
    requires StrictlySorted(RowKey, sorted)
    ensures StrictlySorted(RowKey, TakeFirst(sorted, k))
    ensures |TakeFirst(sorted, k)| <= k && (|TakeFirst(sorted, k)| < k ==> TakeFirst(sorted, k) == sorted)
    ensures forall row, kept | row in sorted && row !in TakeFirst(sorted, k) && kept in TakeFirst(sorted, k) ::
      Less(RowKey(kept), RowKey(row))
  {
    var first := TakeFirst(sorted, k);
    forall row, kept | row in sorted && row !in first && kept in first ensures Less(RowKey(kept), RowKey(row)) {
      var i :| 0 <= i < |sorted| && sorted[i] == row;
      var j :| 0 <= j < |first| && first[j] == kept;
      assert sorted[j] == kept;
      assert i >= |first| by {
        assert forall h | 0 <= h < |first| :: first[h] == sorted[h] && first[h] in first;
      }
    }
  }

  /** The order of the metrics dictionary does not matter. */
  lemma RankingIgnoresOrder(repo: Repository, order: seq<string>, other: seq<string>, maxHotspots: int)
    requires Enumerates(order, repo) && Enumerates(other, repo)
    ensures Ranked(repo, order, maxHotspots) == Ranked(repo, other, maxHotspots)
  {
    var a, b := PositiveRows(repo, order, |order|), PositiveRows(repo, other, |other|);
    PositiveMembers(repo, order, |order|);
    PositiveMembers(repo, other, |other|);
    AllPositive(repo, order);
    AllPositive(repo, other);
    SortIsStrict(RowKey, a);
    SortIsStrict(RowKey, b);
    SortIsPermutation(RowKey, a);
    SortIsPermutation(RowKey, b);
    forall row ensures row in Sort(RowKey, a) <==> row in Sort(RowKey, b) {
      assert row in a <==> IsPositive(repo, row);
      assert row in b <==> IsPositive(repo, row);
    }
    StrictIsUnique(RowKey, Sort(RowKey, a), Sort(RowKey, b));
  }

  // --- Quality candidates ---

  /** 40.0, in hundredths. */
  const MIN_CANDIDATE_SCORE := 4000

  /** The candidates are a prefix of the ranking. */
  method QualityCandidates(hotspots: seq<Row>, minScore: int := MIN_CANDIDATE_SCORE) returns (candidates: seq<Row>)
    requires Sorted(RowKey, hotspots)
    ensures candidates <= hotspots
    ensures forall i | 0 <= i < |hotspots| :: i < |candidates| <==> hotspots[i].score >= minScore
  {
    candidates := [];
    for i := 0 to |hotspots|
      invariant |candidates| <= i && candidates == hotspots[..|candidates|]
      invariant forall k | 0 <= k < |candidates| :: hotspots[k].score >= minScore
      invariant forall k | |candidates| <= k < i :: hotspots[k].score < minScore
    {
      if hotspots[i].score < minScore { continue; }
      if i > 0 {
        ScoreFalls(hotspots[i - 1], hotspots[i]);
      }
      assert |candidates| == i;
      assert hotspots[..i + 1] == hotspots[..i] + [hotspots[i]];
      candidates := candidates + [hotspots[i]];
    }
  }

  lemma ScoreFalls(a: Row, b: Row)
    requires LessEq(RowKey(a), RowKey(b))
    ensures a.score >= b.score
  {
    assert RowKey(a)[0] == -a.score && RowKey(b)[0] == -b.score;
  }
}
