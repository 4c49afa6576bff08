/** Routing annotations on the ranked hotspots, and the broader rebaseline candidates chosen from them. */
module Rebaseline {
  import opened Wrappers
  import opened Ordering
  import opened HotspotPolicy
  import opened Hotspots

  // --- Routing ---

  datatype RoutedHotspot = RoutedHotspot(
    row: Row, status: string, reason: string, caseIds: seq<string>, caseStatuses: map<string, string>,
    paths: seq<string>, planPaths: seq<string>, selected: bool)

  const ACTIVE := "active_owner"

  /** A missing or empty status reads as unknown. */
  function StatusOf(caseStatuses: map<string, string>, caseId: string): string {
    if caseId in caseStatuses && caseStatuses[caseId] != "" then caseStatuses[caseId] else "unknown"
  }

  function Annotated(row: Row, policy: map<string, HotspotRule>, caseStatuses: map<string, string>): RoutedHotspot {
    if row.path !in policy || policy[row.path].routing.None? then
      RoutedHotspot(row, ACTIVE, "Raw hotspot remains the honest next owner surface.", [], map[], [], [], true)
    else
      var routing := policy[row.path].routing.value;
      RoutedHotspot(row, routing.status, routing.reason, routing.routeToCaseIds,
                    map caseId | caseId in routing.routeToCaseIds :: StatusOf(caseStatuses, caseId),
                    routing.routeToPaths, routing.routeToPlanPaths, routing.status == ACTIVE)
  }

  method AnnotateHotspots(rows: seq<Row>, policy: map<string, HotspotRule>, caseStatuses: map<string, string>)
    returns (hotspots: seq<RoutedHotspot>)
    ensures |hotspots| == |rows| && forall i | 0 <= i < |rows| ::
      hotspots[i] == Annotated(rows[i], policy, caseStatuses)
  {
    hotspots := [];
    for i := 0 to |rows|
      invariant |hotspots| == i && forall k | 0 <= k < i :: hotspots[k] == Annotated(rows[k], policy, caseStatuses)
    {
      hotspots := hotspots + [Annotated(rows[i], policy, caseStatuses)];
    }
  }

  // --- Candidates ---

  predicate IsTrap(status: string) { status == "compatibility_facade_trap" || status == "deferred_reduced_facade" }

  const MIN_LINES := 600

  /** A trap status, and at least one routed case, all of them deployed. */
  predicate Eligible(h: RoutedHotspot) {
    IsTrap(h.status) && h.caseStatuses != map[] && forall caseId | caseId in h.caseStatuses ::
      h.caseStatuses[caseId] == "deployed"
  }

  /** A known file of at least the minimum length. */
  predicate LongEnough(repo: Repository, path: string) { path in repo.files && repo.files[path].lines >= MIN_LINES }

  datatype Candidate = Candidate(path: string, score: int, metrics: FileMetrics, source: RoutedHotspot)

  function CandidateFor(repo: Repository, path: string, source: RoutedHotspot): Candidate
    requires path in repo.files
  {
    Candidate(path, RiskScore(MetricsOf(repo, path)), MetricsOf(repo, path), source)
  }

  function SurfacePriority(path: string): int {
    if "app/services/" <= path then 0 else if "app/" <= path then 1 else if "tests/" <= path then 2 else 3
  }

  function KeyOf(path: string, score: int, metrics: FileMetrics): Key {
    var lines: int, changes: int := metrics.structure.lines, metrics.churn.changes90;
    [SurfacePriority(path), -score, -lines, -changes] + Codes(path)
  }

  function CandidateKey(c: Candidate): Key { KeyOf(c.path, c.score, c.metrics) }

  lemma SameKeyNotLess(a: Key, b: Key)
    requires a == b
    ensures !Less(a, b)
  {
    Irreflexive(a);
  }

  /** The key is a function of the path, so no later candidate for a path is ever smaller than the stored one. */
  lemma KeyDependsOnPath(repo: Repository, path: string, a: RoutedHotspot, b: RoutedHotspot)
    requires path in repo.files
    ensures !Less(CandidateKey(CandidateFor(repo, path, a)), CandidateKey(CandidateFor(repo, path, b)))
  {
    SameKeyNotLess(CandidateKey(CandidateFor(repo, path, a)), CandidateKey(CandidateFor(repo, path, b)));
  }

  function PositionOf(kept: seq<Candidate>, path: string): (position: Option<nat>)
    ensures position.Some? ==> position.value < |kept| && kept[position.value].path == path
    ensures position.None? ==> forall k | 0 <= k < |kept| :: kept[k].path != path
  {
    if kept == [] then None
    else if kept[|kept| - 1].path == path then Some(|kept| - 1)
    else PositionOf(kept[..|kept| - 1], path)
  }

  /** Keeps the first candidate of each path. */
  function Keep(kept: seq<Candidate>, c: Candidate): seq<Candidate> {
    if PositionOf(kept, c.path).Some? then kept else kept + [c]
  }

  /** After the first m routed paths of a hotspot. */
  function KeepPaths(repo: Repository, h: RoutedHotspot, kept: seq<Candidate>, m: nat): seq<Candidate>
    requires m <= |h.paths|
  {
    if m == 0 then kept
    else
      var before := KeepPaths(repo, h, kept, m - 1);
      if LongEnough(repo, h.paths[m - 1]) then Keep(before, CandidateFor(repo, h.paths[m - 1], h)) else before
  }

  /** After the first n hotspots. */
  function KeepHotspots(repo: Repository, hotspots: seq<RoutedHotspot>, n: nat): seq<Candidate>
    requires n <= |hotspots|
  {
    if n == 0 then []
    else
      var before := KeepHotspots(repo, hotspots, n - 1);
      if Eligible(hotspots[n - 1]) then KeepPaths(repo, hotspots[n - 1], before, |hotspots[n - 1].paths|) else before
  }

  function Candidates(repo: Repository, hotspots: seq<RoutedHotspot>): seq<Candidate> {
    if exists i | 0 <= i < |hotspots| :: hotspots[i].selected then []
    else Sort(CandidateKey, KeepHotspots(repo, hotspots, |hotspots|))
  }

  ghost predicate FromRepository(repo: Repository, kept: seq<Candidate>) {
    forall k | 0 <= k < |kept| ::
      kept[k].path in repo.files && kept[k] == CandidateFor(repo, kept[k].path, kept[k].source)
  }

  /** The inner loop: a stored candidate gives way to one with a smaller key, which never happens. */
  method CollectPaths(repo: Repository, h: RoutedHotspot, before: seq<Candidate>) returns (candidates: seq<Candidate>)
    requires FromRepository(repo, before)
    ensures candidates == KeepPaths(repo, h, before, |h.paths|) && FromRepository(repo, candidates)
  {
    candidates := before;
    for m := 0 to |h.paths|
      invariant candidates == KeepPaths(repo, h, before, m) && FromRepository(repo, candidates)
    {
      var path := h.paths[m];
      if path !in repo.files { continue; }
      if repo.files[path].lines < MIN_LINES { continue; }
      var candidate := CandidateFor(repo, path, h);
      var existing := PositionOf(candidates, path);
      if existing.None? {
        candidates := candidates + [candidate];
      } else {
        KeyDependsOnPath(repo, path, h, candidates[existing.value].source);
        if Less(CandidateKey(candidate), CandidateKey(candidates[existing.value])) {
          candidates := candidates[existing.value := candidate];
        }
      }
    }
  }

  method BuildCandidates(repo: Repository, hotspots: seq<RoutedHotspot>) returns (chosen: seq<Candidate>)
    ensures chosen == Candidates(repo, hotspots)
  {
    if exists i | 0 <= i < |hotspots| :: hotspots[i].selected {
      return [];
    }
    var candidates: seq<Candidate> := [];
    for n := 0 to |hotspots|
      invariant candidates == KeepHotspots(repo, hotspots, n) && FromRepository(repo, candidates)
    {
      if !IsTrap(hotspots[n].status) { continue; }
      if !Eligible(hotspots[n]) { continue; }
      candidates := CollectPaths(repo, hotspots[n], candidates);
    }
    chosen := Sort(CandidateKey, candidates);
  }

  // --- What is chosen ---

  /** Hotspot i offers the path. */
  ghost predicate Offers(repo: Repository, hotspots: seq<RoutedHotspot>, i: nat, path: string)
    requires i < |hotspots|
  {
    Eligible(hotspots[i]) && path in hotspots[i].paths && LongEnough(repo, path)
  }

  /** c is the candidate of the first hotspot, among the first n, that offers its path. */
  ghost predicate FirstOffer(repo: Repository, hotspots: seq<RoutedHotspot>, n: nat, c: Candidate)
    requires n <= |hotspots|
  {
    c.path in repo.files && c == CandidateFor(repo, c.path, c.source)
    && exists i | 0 <= i < n :: Offers(repo, hotspots, i, c.path) && c.source == hotspots[i]
                                && forall j | 0 <= j < i :: !Offers(repo, hotspots, j, c.path)
  }

  ghost predicate HasPath(kept: seq<Candidate>, path: string) { exists k | 0 <= k < |kept| :: kept[k].path == path }

  ghost predicate PathsDistinct(kept: seq<Candidate>) {
    forall i, j | 0 <= i < j < |kept| :: kept[i].path != kept[j].path
  }

  /** The paths among the first m of h that are long enough. */
  ghost predicate OfferedBy(repo: Repository, h: RoutedHotspot, m: nat, path: string)
    requires m <= |h.paths|
  {
    LongEnough(repo, path) && exists k | 0 <= k < m :: h.paths[k] == path
  }

  /** The first m paths of h, added to the kept candidates: h's own candidate for each path that has none yet. */
  ghost predicate AddedBy(repo: Repository, h: RoutedHotspot, kept: seq<Candidate>, m: nat, after: seq<Candidate>)
    requires m <= |h.paths|
  {
    && kept <= after && PathsDistinct(after)
    && (forall k | |kept| <= k < |after| ::
          OfferedBy(repo, h, m, after[k].path) && after[k] == CandidateFor(repo, after[k].path, h)
            && !HasPath(kept, after[k].path))
    && (forall path | OfferedBy(repo, h, m, path) :: HasPath(after, path))
  }

  lemma PathSkipped(repo: Repository, h: RoutedHotspot, kept: seq<Candidate>, m: nat, before: seq<Candidate>)
    requires 0 < m <= |h.paths| && AddedBy(repo, h, kept, m - 1, before)
    requires LongEnough(repo, h.paths[m - 1]) ==> HasPath(before, h.paths[m - 1])
    ensures AddedBy(repo, h, kept, m, before)
  {
    forall k | |kept| <= k < |before| ensures OfferedBy(repo, h, m, before[k].path) {
      assert OfferedBy(repo, h, m - 1, before[k].path);
    }
    forall other | OfferedBy(repo, h, m, other) ensures HasPath(before, other) {
      assert OfferedBy(repo, h, m - 1, other) || other == h.paths[m - 1];
    }
  }

  lemma PathAppended(repo: Repository, h: RoutedHotspot, kept: seq<Candidate>, m: nat, before: seq<Candidate>)
    requires 0 < m <= |h.paths| && AddedBy(repo, h, kept, m - 1, before)
    requires LongEnough(repo, h.paths[m - 1]) && !HasPath(before, h.paths[m - 1])
    ensures AddedBy(repo, h, kept, m, before + [CandidateFor(repo, h.paths[m - 1], h)])
  {
    var path := h.paths[m - 1];
    var after := before + [CandidateFor(repo, path, h)];
    forall k | |kept| <= k < |after| ensures OfferedBy(repo, h, m, after[k].path) {
      assert k < |before| ==> OfferedBy(repo, h, m - 1, before[k].path);
    }
    forall q | 0 <= q < |kept| ensures kept[q].path != path {
      assert kept[q] == before[q];
    }
    forall other | OfferedBy(repo, h, m, other) ensures HasPath(after, other) {
      if OfferedBy(repo, h, m - 1, other) {
        var k :| 0 <= k < |before| && before[k].path == other;
        assert after[k].path == other;
      } else {
        assert other == path && after[|before|].path == path;
      }
    }
  }

  /** One hotspot adds a candidate of its own for each path it offers that has none yet, and changes nothing else. */
  lemma {:induction false} PathsAdded(repo: Repository, h: RoutedHotspot, kept: seq<Candidate>, m: nat)
    requires m <= |h.paths| && PathsDistinct(kept)
    ensures AddedBy(repo, h, kept, m, KeepPaths(repo, h, kept, m))
  {
    if m > 0 {
      PathsAdded(repo, h, kept, m - 1);
      var before, path := KeepPaths(repo, h, kept, m - 1), h.paths[m - 1];
      if LongEnough(repo, path) && PositionOf(before, path).None? {
        PathAppended(repo, h, kept, m, before);
      } else {
        assert LongEnough(repo, path) ==> before[PositionOf(before, path).value].path == path;
        PathSkipped(repo, h, kept, m, before);
      }
    }
  }

  lemma {:induction false} HotspotsAdded(repo: Repository, hotspots: seq<RoutedHotspot>, n: nat)
    requires n <= |hotspots|
    ensures var kept := KeepHotspots(repo, hotspots, n);
      && PathsDistinct(kept)
      && (forall k | 0 <= k < |kept| :: FirstOffer(repo, hotspots, n, kept[k]))
      && (forall i, path | 0 <= i < n && Offers(repo, hotspots, i, path) :: HasPath(kept, path))
  {
    if n > 0 {
      HotspotsAdded(repo, hotspots, n - 1);
      NextHotspot(repo, hotspots, n);
    }
  }

  lemma NextHotspot(repo: Repository, hotspots: seq<RoutedHotspot>, n: nat)
    requires 0 < n <= |hotspots|
    requires var kept := KeepHotspots(repo, hotspots, n - 1);
      && PathsDistinct(kept)
      && (forall k | 0 <= k < |kept| :: FirstOffer(repo, hotspots, n - 1, kept[k]))
      && (forall i, path | 0 <= i < n - 1 && Offers(repo, hotspots, i, path) :: HasPath(kept, path))
    ensures var kept := KeepHotspots(repo, hotspots, n);
      && PathsDistinct(kept)
      && (forall k | 0 <= k < |kept| :: FirstOffer(repo, hotspots, n, kept[k]))
      && (forall i, path | 0 <= i < n && Offers(repo, hotspots, i, path) :: HasPath(kept, path))
  {
    var before, after, h := KeepHotspots(repo, hotspots, n - 1), KeepHotspots(repo, hotspots, n), hotspots[n - 1];
    if Eligible(h) {
      PathsAdded(repo, h, before, |h.paths|);
    }
    forall k | 0 <= k < |after| ensures FirstOffer(repo, hotspots, n, after[k]) {
      if k < |before| {
        assert after[k] == before[k] && FirstOffer(repo, hotspots, n - 1, before[k]);
      } else {
        var path := after[k].path;
        assert OfferedBy(repo, h, |h.paths|, path) && !HasPath(before, path);
        assert Offers(repo, hotspots, n - 1, path);
        assert forall j | 0 <= j < n - 1 :: !Offers(repo, hotspots, j, path);
      }
    }
    forall i, path | 0 <= i < n && Offers(repo, hotspots, i, path) ensures HasPath(after, path) {
      if i < n - 1 {
        var k :| 0 <= k < |before| && before[k].path == path;
        assert after[k].path == path;
      } else {
        var k :| 0 <= k < |h.paths| && h.paths[k] == path;
        assert OfferedBy(repo, h, |h.paths|, path);
      }
    }
  }

  lemma DistinctKeys(kept: seq<Candidate>)
    requires PathsDistinct(kept)
    ensures KeysDistinct(CandidateKey, kept)
  {
    forall i, j | 0 <= i < j < |kept| ensures CandidateKey(kept[i]) != CandidateKey(kept[j]) {
      CodesInjective(kept[i].path, kept[j].path);
      assert CandidateKey(kept[i])[4..] == Codes(kept[i].path) && CandidateKey(kept[j])[4..] == Codes(kept[j].path);
    }
  }

  /** With no hotspot selected for the routed queue, a path is a candidate exactly when some eligible hotspot routes
      to it and it is long enough; its source is the highest-ranked hotspot that does; and the output is strictly
      ordered, so no path occurs twice. With one selected there is no candidate. */
  lemma ChosenExactly(repo: Repository, hotspots: seq<RoutedHotspot>)
    ensures var chosen := Candidates(repo, hotspots);
      && StrictlySorted(CandidateKey, chosen)
      && ((exists i | 0 <= i < |hotspots| :: hotspots[i].selected) ==> chosen == [])
      && (forall c | c in chosen :: FirstOffer(repo, hotspots, |hotspots|, c))
      && ((forall i | 0 <= i < |hotspots| :: !hotspots[i].selected) ==>
            forall i, path | 0 <= i < |hotspots| && Offers(repo, hotspots, i, path) :: exists c | c in chosen ::
              c.path == path)
  {
    if forall i | 0 <= i < |hotspots| :: !hotspots[i].selected {
      var kept := KeepHotspots(repo, hotspots, |hotspots|);
      HotspotsAdded(repo, hotspots, |hotspots|);
      KeptSorted(kept);
      forall c | c in Candidates(repo, hotspots) ensures FirstOffer(repo, hotspots, |hotspots|, c) {
        var k :| 0 <= k < |kept| && kept[k] == c;
      }
      forall i, path | 0 <= i < |hotspots| && Offers(repo, hotspots, i, path)
        ensures exists c | c in Candidates(repo, hotspots) :: c.path == path
      {
        assert HasPath(kept, path);
        var k :| 0 <= k < |kept| && kept[k].path == path;
        assert kept[k] in kept;
      }
    }
  }

  /** Sorting what was kept orders it strictly and keeps every candidate. */
  lemma KeptSorted(kept: seq<Candidate>)
    requires PathsDistinct(kept)
    ensures StrictlySorted(CandidateKey, Sort(CandidateKey, kept))
    ensures forall c :: c in Sort(CandidateKey, kept) <==> c in kept
  {
    DistinctKeys(kept);
    SortIsStrict(CandidateKey, kept);
    SortIsPermutation(CandidateKey, kept);
  }

  /** After annotation, candidates appear only if the policy routes every ranked hotspot somewhere else than to an
      active owner. */
  lemma CandidatesNeedRouting(
      repo: Repository, rows: seq<Row>, policy: map<string, HotspotRule>, caseStatuses: map<string, string>,
      hotspots: seq<RoutedHotspot>, i: nat)
    requires |hotspots| == |rows| && forall k | 0 <= k < |rows| ::
      hotspots[k] == Annotated(rows[k], policy, caseStatuses)
    requires Candidates(repo, hotspots) != [] && i < |rows|
    ensures rows[i].path in policy && policy[rows[i].path].routing.Some?
      && policy[rows[i].path].routing.value.status != ACTIVE
  {
    ChosenExactly(repo, hotspots);
    assert !hotspots[i].selected;
  }
}
