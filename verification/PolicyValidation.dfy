/** Loading a hotspot policy: validating the raw payload, building the rules from it, and what an accepted
    payload guarantees. */
module PolicyValidation {
  import opened Wrappers
  import opened Text
  import opened HotspotPolicy
  import opened DiffPrinter

  /** A YAML value; text is what str() gives for values that are not strings. Mapping entries come in sorted
      order of their keys. */
  datatype Yaml =
    | Null
    | Str(s: string)
    | Date(day: int, text: string)
    | Scalar(text: string, truthy: bool)
    | List(items: seq<Yaml>, text: string)
    | Map(entries: seq<(string, Yaml)>, text: string)

  datatype PolicyIssue = PolicyIssue(field: string, message: string)

  datatype PolicyError = NotIterable | InvalidPolicy | UnreadableDate | NotAMap

  predicate Truthy(v: Yaml) {
    match v
    case Null => false
    case Str(s) => s != ""
    case Date(_, _) => true
    case Scalar(_, truthy) => truthy
    case List(items, _) => items != []
    case Map(entries, _) => entries != []
  }

  function AsText(v: Yaml): string {
    match v
    case Null => "None"
    case Str(s) => s
    case _ => v.text
  }

  /** `str(v or "").strip()` */
  function Field(v: Yaml): string { Strip(if Truthy(v) then AsText(v) else "") }

  /** `mapping.get(key)` */
  function Get(v: Yaml, key: string): Yaml
    requires v.Map?
  {
    Find(v.entries, key)
  }

  function Find(entries: seq<(string, Yaml)>, key: string): Yaml {
    if entries == [] then Null else if entries[0].0 == key then entries[0].1 else Find(entries[1..], key)
  }

  function NonBlank(items: seq<Yaml>): (texts: seq<string>)
    ensures forall text | text in texts :: text != ""
  {
    if items == [] then []
    else
      (if Strip(AsText(items[0])) != "" then [Strip(AsText(items[0]))] else []) + NonBlank(items[1..])
  }

  function StringList(v: Yaml): seq<string> { if v.List? then NonBlank(v.items) else [] }

  function Characters(s: string): seq<Yaml> { seq(|s|, i requires 0 <= i < |s| => Str([s[i]])) }

  function Keys(entries: seq<(string, Yaml)>): seq<Yaml> {
    seq(|entries|, i requires 0 <= i < |entries| => Str(entries[i].0))
  }

  /** What iterating over `v or []` yields; None if it raises. */
  function Iterate(v: Yaml): Option<seq<Yaml>> {
    if !Truthy(v) then Some([])
    else
      match v
      case List(items, _) => Some(items)
      case Map(entries, _) => Some(Keys(entries))
      case Str(s) => Some(Characters(s))
      case _ => None
  }

  /** iso: what date.fromisoformat makes of a text, None if it rejects it. */
  function ParsePolicyDate(iso: string -> Option<int>, v: Yaml): Result<Option<int>, PolicyError> {
    if v.Null? || v == Str("") then Ok(None)
    else if v.Date? then Ok(Some(v.day))
    else
      match iso(AsText(v))
      case None => Raised(UnreadableDate)
      case Some(day) => Ok(Some(day))
  }

  // --- When a payload is accepted ---

  predicate ExpiryAccepted(iso: string -> Option<int>, today: int, raw: Yaml) {
    Truthy(raw) ==>
      var parsed := ParsePolicyDate(iso, raw);
      parsed.Ok? && (parsed.value.Some? ==> parsed.value.value >= today)
  }

  predicate ExceptionAccepted(iso: string -> Option<int>, today: int, raw: Yaml) {
    && raw.Map?
    && Field(Get(raw, "exception_id")) != ""
    && (Field(Get(raw, "case_id")) != "" || Field(Get(raw, "milestone_id")) != "")
    && Field(Get(raw, "owner_module")) != ""
    && (Field(Get(raw, "follow_up_condition")) != "" || Truthy(Get(raw, "expires_on")))
    && ExpiryAccepted(iso, today, Get(raw, "expires_on"))
  }

  const ROUTING_STATUSES := ["accepted_residual", "active_owner", "compatibility_facade_trap",
    "deferred_reduced_facade"]

  predicate RoutingAccepted(raw: Yaml) {
    raw.Null? ||
    (&& raw.Map?
     && Field(Get(raw, "status")) in ROUTING_STATUSES
     && Field(Get(raw, "reason")) != ""
     && (Field(Get(raw, "status")) != "active_owner" ==>
           && StringList(Get(raw, "route_to_case_ids")) != []
           && StringList(Get(raw, "route_to_paths")) != []
           && StringList(Get(raw, "route_to_plan_paths")) != []))
  }

  predicate ShapeAccepted(raw: Yaml)
    requires raw.Map?
  {
    && Field(Get(raw, "target_role")) != ""
    && StringList(Get(raw, "preferred_owner_modules")) != []
    && StringList(Get(raw, "block_new")) != []
    && StringList(Get(raw, "allow")) != []
  }

  predicate RuleAccepted(iso: string -> Option<int>, today: int, raw: Yaml) {
    && raw.Map?
    && ShapeAccepted(raw)
    && (var items := Iterate(Get(raw, "exceptions"));
        items.Some? && forall k | 0 <= k < |items.value| :: ExceptionAccepted(iso, today, items.value[k]))
    && RoutingAccepted(Get(raw, "routing"))
  }

  predicate HeaderAccepted(payload: Yaml)
    requires payload.Map?
  {
    Get(payload, "schema_name") == Str("hotspot_prevention_policy")
    && (if Truthy(Get(payload, "schema_version")) then AsText(Get(payload, "schema_version")) else "") == "1.0"
  }

  predicate PayloadAccepted(iso: string -> Option<int>, today: int, payload: Yaml)
    requires payload.Map?
  {
    var hotspots := Get(payload, "known_hotspots");
    && HeaderAccepted(payload)
    && hotspots.Map? && hotspots.entries != []
    && forall k | 0 <= k < |hotspots.entries| :: RuleAccepted(iso, today, hotspots.entries[k].1)
  }

  // --- The validator ---

  function Require(ok: bool, field: string, message: string): seq<PolicyIssue> {
    if ok then [] else [PolicyIssue(field, message)]
  }

  function ShapeIssues(raw: Yaml, prefix: string): seq<PolicyIssue>
    requires raw.Map?
  {
    Require(Field(Get(raw, "target_role")) != "", prefix + ".target_role", "is required")
    + Require(StringList(Get(raw, "preferred_owner_modules")) != [], prefix + ".preferred_owner_modules",
              "must contain at least one owner module")
    + Require(StringList(Get(raw, "block_new")) != [], prefix + ".block_new",
      "must contain at least one blocked category")
    + Require(StringList(Get(raw, "allow")) != [], prefix + ".allow", "must contain at least one allowed category")
  }

  function ExpiryIssues(iso: string -> Option<int>, today: int, raw: Yaml, prefix: string): seq<PolicyIssue> {
    if !Truthy(raw) then []
    else
      match ParsePolicyDate(iso, raw)
      case Raised(_) => [PolicyIssue(prefix + ".expires_on", "must be an ISO date")]
      case Ok(day) => Require(day.Some? ==> day.value >= today, prefix + ".expires_on", "is expired")
  }

  function ExceptionIssues(iso: string -> Option<int>, today: int, raw: Yaml, prefix: string): seq<PolicyIssue> {
    if !raw.Map? then [PolicyIssue(prefix, "must be a map")]
    else
      Require(Field(Get(raw, "exception_id")) != "", prefix + ".exception_id", "is required")
      + Require(Field(Get(raw, "case_id")) != "" || Field(Get(raw, "milestone_id")) != "", prefix + ".case_id",
                "requires case_id or milestone_id")
      + Require(Field(Get(raw, "owner_module")) != "", prefix + ".owner_module", "is required")
      + Require(Field(Get(raw, "follow_up_condition")) != "" || Truthy(Get(raw, "expires_on")), prefix + ".expires_on",
                "requires expires_on or follow_up_condition")
      + ExpiryIssues(iso, today, Get(raw, "expires_on"), prefix)
  }

  function RoutingIssues(raw: Yaml, prefix: string): seq<PolicyIssue> {
    if raw.Null? then []
    else if !raw.Map? then [PolicyIssue(prefix, "must be a map")]
    else
      var status := Field(Get(raw, "status"));
      Require(status in ROUTING_STATUSES, prefix + ".status", "must be one of: " + Join(ROUTING_STATUSES, ", "))
      + Require(Field(Get(raw, "reason")) != "", prefix + ".reason", "is required")
      + (if status == "active_owner" then [] else RouteIssues(raw, prefix))
  }

  /** Away from an active owner, where to. */
  function RouteIssues(raw: Yaml, prefix: string): seq<PolicyIssue>
    requires raw.Map?
  {
    Require(StringList(Get(raw, "route_to_case_ids")) != [], prefix + ".route_to_case_ids",
            "must contain at least one routed case id")
    + Require(StringList(Get(raw, "route_to_paths")) != [], prefix + ".route_to_paths",
              "must contain at least one routed path")
    + Require(StringList(Get(raw, "route_to_plan_paths")) != [], prefix + ".route_to_plan_paths",
              "must contain at least one routed plan path")
  }

  type Judge = (nat, Yaml) -> seq<PolicyIssue>

  /** The issues of the first n items, in order. */
  function AllIssues(judge: Judge, items: seq<Yaml>, n: nat): seq<PolicyIssue>
    requires n <= |items|
  {
    if n == 0 then [] else AllIssues(judge, items, n - 1) + judge(n - 1, items[n - 1])
  }

  lemma {:induction false} AllIssuesNone(judge: Judge, items: seq<Yaml>, n: nat)
    requires n <= |items|
    ensures AllIssues(judge, items, n) == [] <==> forall k | 0 <= k < n :: judge(k, items[k]) == []
  {
    if n > 0 {
      AllIssuesNone(judge, items, n - 1);
    }
  }

  /** The loop over a rule's exceptions, appending to the shared list. */
  method CollectIssues(judge: Judge, items: seq<Yaml>, before: seq<PolicyIssue>) returns (issues: seq<PolicyIssue>)
    ensures issues == before + AllIssues(judge, items, |items|)
  {
    issues := before;
    for index := 0 to |items|
      invariant issues == before + AllIssues(judge, items, index)
    {
      issues := issues + judge(index, items[index]);
    }
  }

  function ExceptionJudge(iso: string -> Option<int>, today: int, prefix: string): Judge {
    (index: nat, raw: Yaml) => ExceptionIssues(iso, today, raw, prefix + "[" + Decimal(index) + "]")
  }

  /** The issues of one rule; iterating over its exceptions may raise. */
  function RuleIssues(iso: string -> Option<int>, today: int, path: string, raw: Yaml)
    : Result<seq<PolicyIssue>, PolicyError>
  {
    var prefix := "known_hotspots." + path;
    if !raw.Map? then Ok([PolicyIssue(prefix, "must be a map")])
    else
      match Iterate(Get(raw, "exceptions"))
      case None => Raised(NotIterable)
      case Some(items) =>
        Ok(ShapeIssues(raw, prefix) + AllIssues(ExceptionJudge(iso, today, prefix + ".exceptions"), items, |items|)
           + RoutingIssues(Get(raw, "routing"), prefix + ".routing"))
  }

  type RuleJudge = (string, Yaml) -> Result<seq<PolicyIssue>, PolicyError>

  /** The issues of the first n rules after the given ones; the first error stops the validation. */
  function AllRuleIssues(judge: RuleJudge, entries: seq<(string, Yaml)>, n: nat, before: seq<PolicyIssue>)
    : Result<seq<PolicyIssue>, PolicyError>
    requires n <= |entries|
  {
    if n == 0 then Ok(before)
    else
      var earlier := AllRuleIssues(judge, entries, n - 1, before);
      if earlier.Raised? then earlier
      else
        var here := judge(entries[n - 1].0, entries[n - 1].1);
        if here.Raised? then here else Ok(earlier.value + here.value)
  }

  lemma {:induction false} AllRuleIssuesNone(
      judge: RuleJudge, entries: seq<(string, Yaml)>, n: nat, before: seq<PolicyIssue>)
    requires n <= |entries|
    ensures AllRuleIssues(judge, entries, n, before) == Ok([]) <==>
      before == [] && forall k | 0 <= k < n :: judge(entries[k].0, entries[k].1) == Ok([])
  {
    if n > 0 {
      AllRuleIssuesNone(judge, entries, n - 1, before);
      var earlier, here := AllRuleIssues(judge, entries, n - 1, before), judge(entries[n - 1].0, entries[n - 1].1);
      if earlier.Ok? && here.Ok? {
        assert |earlier.value + here.value| == |earlier.value| + |here.value|;
      }
    }
  }

  lemma {:induction false} AllRuleIssuesRaised(
      judge: RuleJudge, entries: seq<(string, Yaml)>, n: nat, m: nat, before: seq<PolicyIssue>)
    requires n <= m <= |entries| && AllRuleIssues(judge, entries, n, before).Raised?
    ensures AllRuleIssues(judge, entries, m, before) == AllRuleIssues(judge, entries, n, before)
    decreases m
  {
    if n < m {
      AllRuleIssuesRaised(judge, entries, n, m - 1, before);
    }
  }

  function JudgeRule(iso: string -> Option<int>, today: int): RuleJudge {
    (path, raw) => RuleIssues(iso, today, path, raw)
  }

  /** One rule: its shape, the loop over its exceptions and its routing, all appending to the shared list. */
  method ValidateRule(iso: string -> Option<int>, today: int, path: string, raw: Yaml, before: seq<PolicyIssue>)
    returns (result: Result<seq<PolicyIssue>, PolicyError>)
    ensures result == match RuleIssues(iso, today, path, raw)
      case Raised(error) => Raised(error)
      case Ok(found) => Ok(before + found)
  {
    var prefix := "known_hotspots." + path;
    if !raw.Map? { return Ok(before + [PolicyIssue(prefix, "must be a map")]); }
    var shape := ShapeIssues(raw, prefix);
    var exceptions := Iterate(Get(raw, "exceptions"));
    if exceptions.None? { return Raised(NotIterable); }
    var judge := ExceptionJudge(iso, today, prefix + ".exceptions");
    var issues := CollectIssues(judge, exceptions.value, before + shape);
    var routing := RoutingIssues(Get(raw, "routing"), prefix + ".routing");
    Appended(before, shape, AllIssues(judge, exceptions.value, |exceptions.value|), routing);
    result := Ok(issues + routing);
  }

  lemma Appended(a: seq<PolicyIssue>, b: seq<PolicyIssue>, c: seq<PolicyIssue>, d: seq<PolicyIssue>)
    ensures a + b + c + d == a + (b + c + d)
  {
  }

  /** The loop over the rules. */
  method ValidateRules(iso: string -> Option<int>, today: int, entries: seq<(string, Yaml)>, before: seq<PolicyIssue>)
    returns (result: Result<seq<PolicyIssue>, PolicyError>)
    ensures result == AllRuleIssues(JudgeRule(iso, today), entries, |entries|, before)
  {
    var issues := before;
    for k := 0 to |entries|
      invariant AllRuleIssues(JudgeRule(iso, today), entries, k, before) == Ok(issues)
    {
      var extended := ValidateRule(iso, today, entries[k].0, entries[k].1, issues);
      if extended.Raised? {
        AllRuleIssuesRaised(JudgeRule(iso, today), entries, k + 1, |entries|, before);
        return extended;
      }
      issues := extended.value;
    }
    result := Ok(issues);
  }

  function HeaderIssues(payload: Yaml): seq<PolicyIssue>
    requires payload.Map?
  {
    Require(Get(payload, "schema_name")
      == Str("hotspot_prevention_policy"), "schema_name", "expected hotspot_prevention_policy")
    + Require((if Truthy(Get(payload, "schema_version")) then AsText(Get(payload, "schema_version")) else "") == "1.0",
              "schema_version", "expected 1.0")
  }

  function PayloadIssues(iso: string -> Option<int>, today: int, payload: Yaml): Result<seq<PolicyIssue>, PolicyError>
    requires payload.Map?
  {
    var hotspots := Get(payload, "known_hotspots");
    if !hotspots.Map? || hotspots.entries == [] then
      Ok(HeaderIssues(payload) + [PolicyIssue("known_hotspots", "must be a non-empty map")])
    else
      AllRuleIssues(JudgeRule(iso, today), hotspots.entries, |hotspots.entries|, HeaderIssues(payload))
  }

  lemma ShapeIssuesNone(raw: Yaml, prefix: string)
    requires raw.Map?
    ensures ShapeIssues(raw, prefix) == [] <==> ShapeAccepted(raw)
  {
  }

  lemma FiveEmpty(
      a: seq<PolicyIssue>, b: seq<PolicyIssue>, c: seq<PolicyIssue>, d: seq<PolicyIssue>, e: seq<PolicyIssue>)
    ensures a + b + c + d + e == [] <==> a == [] && b == [] && c == [] && d == [] && e == []
  {
    assert |a + b + c + d + e| == |a| + |b| + |c| + |d| + |e|;
  }

  lemma ExpiryIssuesNone(iso: string -> Option<int>, today: int, raw: Yaml, prefix: string)
    ensures ExpiryIssues(iso, today, raw, prefix) == [] <==> ExpiryAccepted(iso, today, raw)
  {
  }

  lemma ExceptionIssuesNone(iso: string -> Option<int>, today: int, raw: Yaml, prefix: string)
    ensures ExceptionIssues(iso, today, raw, prefix) == [] <==> ExceptionAccepted(iso, today, raw)
  {
    if raw.Map? {
      var id := Require(Field(Get(raw, "exception_id")) != "", prefix + ".exception_id", "is required");
      var link := Require(
        Field(Get(raw, "case_id")) != "" || Field(Get(raw, "milestone_id")) != "", prefix + ".case_id",
        "requires case_id or milestone_id");
      var owner := Require(Field(Get(raw, "owner_module")) != "", prefix + ".owner_module", "is required");
      var bound := Require(
        Field(Get(raw, "follow_up_condition")) != "" || Truthy(Get(raw, "expires_on")), prefix + ".expires_on",
        "requires expires_on or follow_up_condition");
      var expiry := ExpiryIssues(iso, today, Get(raw, "expires_on"), prefix);
      FiveEmpty(id, link, owner, bound, expiry);
      ExpiryIssuesNone(iso, today, Get(raw, "expires_on"), prefix);
    }
  }

  lemma RoutingIssuesNone(raw: Yaml, prefix: string)
    ensures RoutingIssues(raw, prefix) == [] <==> RoutingAccepted(raw)
  {
    if raw.Map? {
      RouteIssuesNone(raw, prefix);
      var status := Require(Field(Get(raw, "status")) in ROUTING_STATUSES, prefix + ".status",
                            "must be one of: " + Join(ROUTING_STATUSES, ", "));
      var reason := Require(Field(Get(raw, "reason")) != "", prefix + ".reason", "is required");
      var route := if Field(Get(raw, "status")) == "active_owner" then [] else RouteIssues(raw, prefix);
      ThreeEmpty(status, reason, route);
    }
  }

  lemma RouteIssuesNone(raw: Yaml, prefix: string)
    requires raw.Map?
    ensures RouteIssues(raw, prefix) == [] <==>
      && StringList(Get(raw, "route_to_case_ids")) != []
      && StringList(Get(raw, "route_to_paths")) != []
      && StringList(Get(raw, "route_to_plan_paths")) != []
  {
  }

  lemma ThreeEmpty(a: seq<PolicyIssue>, b: seq<PolicyIssue>, c: seq<PolicyIssue>)
    ensures a + b + c == [] <==> a == [] && b == [] && c == []
  {
    assert |a + b + c| == |a| + |b| + |c|;
  }

  lemma RuleExceptionsNone(iso: string -> Option<int>, today: int, items: seq<Yaml>, prefix: string)
    ensures AllIssues(ExceptionJudge(iso, today, prefix), items, |items|) == [] <==>
      forall k | 0 <= k < |items| :: ExceptionAccepted(iso, today, items[k])
  {
    var judge := ExceptionJudge(iso, today, prefix);
    AllIssuesNone(judge, items, |items|);
    forall k | 0 <= k < |items| ensures judge(k, items[k]) == [] <==> ExceptionAccepted(iso, today, items[k]) {
      ExceptionIssuesNone(iso, today, items[k], prefix + "[" + Decimal(k) + "]");
    }
  }

  lemma RuleIssuesNone(iso: string -> Option<int>, today: int, path: string, raw: Yaml)
    ensures RuleIssues(iso, today, path, raw) == Ok([]) <==> RuleAccepted(iso, today, raw)
  {
    var prefix := "known_hotspots." + path;
    if raw.Map? && Iterate(Get(raw, "exceptions")).Some? {
      var items := Iterate(Get(raw, "exceptions")).value;
      ShapeIssuesNone(raw, prefix);
      RuleExceptionsNone(iso, today, items, prefix + ".exceptions");
      RoutingIssuesNone(Get(raw, "routing"), prefix + ".routing");
    }
  }

  /** The validator reports nothing exactly for the accepted payloads. */
  lemma PayloadIssuesNone(iso: string -> Option<int>, today: int, payload: Yaml)
    requires payload.Map?
    ensures PayloadIssues(iso, today, payload) == Ok([]) <==> PayloadAccepted(iso, today, payload)
  {
    var hotspots := Get(payload, "known_hotspots");
    assert HeaderIssues(payload) == [] <==> HeaderAccepted(payload);
    if hotspots.Map? && hotspots.entries != [] {
      var judge := JudgeRule(iso, today);
      AllRuleIssuesNone(judge, hotspots.entries, |hotspots.entries|, HeaderIssues(payload));
      forall k | 0 <= k < |hotspots.entries|
        ensures judge(hotspots.entries[k].0, hotspots.entries[k].1) == Ok([]) <==>
          RuleAccepted(iso, today, hotspots.entries[k].1)
      {
        RuleIssuesNone(iso, today, hotspots.entries[k].0, hotspots.entries[k].1);
      }
    }
  }

  method ValidatePolicyPayload(iso: string -> Option<int>, today: int, payload: Yaml)
    returns (result: Result<seq<PolicyIssue>, PolicyError>)
    requires payload.Map?
    ensures result == PayloadIssues(iso, today, payload)
  {
    var issues := HeaderIssues(payload);
    var hotspots := Get(payload, "known_hotspots");
    if !hotspots.Map? || hotspots.entries == [] {
      return Ok(issues + [PolicyIssue("known_hotspots", "must be a non-empty map")]);
    }
    result := ValidateRules(iso, today, hotspots.entries, issues);
  }

  // --- The builder ---

  function OrNone(s: string): Option<string> { if s == "" then None else Some(s) }

  function NonEmpty(texts: seq<string>): (kept: seq<string>)
    ensures forall text | text in kept :: text != "" && text in texts
  {
    if texts == [] then [] else (if texts[0] != "" then [texts[0]] else []) + NonEmpty(texts[1..])
  }

  function BuildException(iso: string -> Option<int>, raw: Yaml): Result<HotspotException, PolicyError> {
    if !raw.Map? then Raised(NotAMap) else BuildExceptionMap(iso, raw)
  }

  function BuildExceptionMap(iso: string -> Option<int>, raw: Yaml): Result<HotspotException, PolicyError>
    requires raw.Map?
  {
    var exceptionId := Field(Get(raw, "exception_id"));
    var caseId, milestoneId := Field(Get(raw, "case_id")), Field(Get(raw, "milestone_id"));
    var tokens := StringList(Get(raw, "match_tokens"));
    match ParsePolicyDate(iso, Get(raw, "expires_on"))
    case Raised(error) => Raised(error)
    case Ok(day) =>
      Ok(HotspotException(exceptionId, OrNone(caseId), OrNone(milestoneId), Field(Get(raw, "owner_module")), day,
                          OrNone(Field(Get(raw, "follow_up_condition"))),
                          if tokens != [] then tokens else NonEmpty([exceptionId, caseId, milestoneId])))
  }

  /** build: how one exception is built; the first error stops the rest. */
  function BuildExceptions(build: Yaml -> Result<HotspotException, PolicyError>, items: seq<Yaml>)
    : Result<seq<HotspotException>, PolicyError>
  {
    if items == [] then Ok([])
    else
      match build(items[0])
      case Raised(error) => Raised(error)
      case Ok(first) =>
        match BuildExceptions(build, items[1..])
        case Raised(error) => Raised(error)
        case Ok(rest) => Ok([first] + rest)
  }

  function BuildRouting(raw: Yaml): Option<HotspotRouting>
    requires raw.Null? || raw.Map?
  {
    if raw.Null? then None
    else Some(HotspotRouting(
      Field(Get(raw, "status")), Field(Get(raw, "reason")), StringList(Get(raw, "route_to_case_ids")),
      StringList(Get(raw, "route_to_paths")), StringList(Get(raw, "route_to_plan_paths"))))
  }

  function BuildRule(iso: string -> Option<int>, path: string, raw: Yaml): Result<HotspotRule, PolicyError>
    requires raw.Map? && Iterate(Get(raw, "exceptions")).Some?
      && (Get(raw, "routing").Null? || Get(raw, "routing").Map?)
  {
    match BuildExceptions(e => BuildException(iso, e), Iterate(Get(raw, "exceptions")).value)
    case Raised(error) => Raised(error)
    case Ok(exceptions) =>
      Ok(HotspotRule(path, Strip(AsText(Get(raw, "target_role"))), StringList(Get(raw, "preferred_owner_modules")),
                     StringList(Get(raw, "block_new")), StringList(Get(raw, "allow")), exceptions,
                     BuildRouting(Get(raw, "routing"))))
  }

  /** An expiry the validator skips because it is falsy, but the builder still tries to read as a date. */
  predicate SkippedUnreadable(iso: string -> Option<int>, raw: Yaml) {
    !Truthy(raw) && !raw.Null? && raw != Str("") && iso(AsText(raw)).None?
  }

  predicate Matchable(e: HotspotException) {
    e.matchTokens != [] && forall token | token in e.matchTokens :: token != ""
  }

  lemma FallbackTokens(first: string, rest: seq<string>)
    requires first != ""
    ensures NonEmpty([first] + rest) != []
  {
  }

  lemma AcceptedExceptionBuilds(iso: string -> Option<int>, today: int, raw: Yaml)
    requires ExceptionAccepted(iso, today, raw)
    ensures BuildException(iso, raw).Raised? <==> SkippedUnreadable(iso, Get(raw, "expires_on"))
    ensures BuildException(iso, raw).Ok? ==> Matchable(BuildException(iso, raw).value)
  {
    ExpiryBuilds(iso, today, Get(raw, "expires_on"));
    TokensMatchable(StringList(Get(raw, "match_tokens")), Field(Get(raw, "exception_id")), Field(Get(raw, "case_id")),
                    Field(Get(raw, "milestone_id")));
  }

  /** What the validator accepts as an expiry, the builder rejects only if the validator had skipped it. */
  lemma ExpiryBuilds(iso: string -> Option<int>, today: int, raw: Yaml)
    requires ExpiryAccepted(iso, today, raw)
    ensures ParsePolicyDate(iso, raw).Raised? <==> SkippedUnreadable(iso, raw)
  {
  }

  lemma TokensMatchable(given: seq<string>, exceptionId: string, caseId: string, milestoneId: string)
    requires exceptionId != "" && forall token | token in given :: token != ""
    ensures var tokens := if given != [] then given else NonEmpty([exceptionId, caseId, milestoneId]);
      tokens != [] && forall token | token in tokens :: token != ""
  {
    FallbackTokens(exceptionId, [caseId, milestoneId]);
    assert [exceptionId] + [caseId, milestoneId] == [exceptionId, caseId, milestoneId];
  }

  /** What building promises about a rule. */
  predicate Usable(rule: HotspotRule) {
    && rule.blockNew != [] && rule.allow != [] && rule.preferredOwnerModules != []
    && forall e | e in rule.exceptions :: Matchable(e)
  }

  ghost predicate AllSkippedReadable(iso: string -> Option<int>, items: seq<Yaml>) {
    forall item | item in items && item.Map? :: !SkippedUnreadable(iso, Get(item, "expires_on"))
  }

  lemma {:induction false} BuildsAll(build: Yaml -> Result<HotspotException, PolicyError>, items: seq<Yaml>)
    requires forall item | item in items :: build(item).Ok? ==> Matchable(build(item).value)
    ensures BuildExceptions(build, items).Ok? <==> forall item | item in items :: build(item).Ok?
    ensures BuildExceptions(build, items).Ok? ==> forall e | e in BuildExceptions(build, items).value :: Matchable(e)
  {
    if items != [] {
      BuildsAll(build, items[1..]);
    }
  }

  lemma AcceptedExceptionsBuild(iso: string -> Option<int>, today: int, items: seq<Yaml>)
    requires forall k | 0 <= k < |items| :: ExceptionAccepted(iso, today, items[k])
    ensures var built := BuildExceptions(e => BuildException(iso, e), items);
      && (built.Ok? <==> AllSkippedReadable(iso, items))
      && (built.Ok? ==> forall e | e in built.value :: Matchable(e))
  {
    var build := e => BuildException(iso, e);
    forall item | item in items
      ensures build(item).Ok? <==> !SkippedUnreadable(iso, Get(item, "expires_on"))
      ensures build(item).Ok? ==> Matchable(build(item).value)
    {
      AcceptedExceptionBuilds(iso, today, item);
    }
    BuildsAll(build, items);
  }

  /** An accepted rule builds, and is usable, exactly when none of its exceptions has a falsy expiry that is
      not a date: acceptance alone is not enough. */
  lemma AcceptedRuleBuilds(iso: string -> Option<int>, today: int, path: string, raw: Yaml)
    requires RuleAccepted(iso, today, raw)
    ensures BuildRule(iso, path, raw).Ok? <==> AllSkippedReadable(iso, Iterate(Get(raw, "exceptions")).value)
    ensures BuildRule(iso, path, raw).Ok? ==> Usable(BuildRule(iso, path, raw).value)
  {
    AcceptedExceptionsBuild(iso, today, Iterate(Get(raw, "exceptions")).value);
  }

  type RuleBuilder = (string, Yaml) -> Result<HotspotRule, PolicyError>

  function BuildRules(build: RuleBuilder, entries: seq<(string, Yaml)>, n: nat)
    : Result<seq<(string, HotspotRule)>, PolicyError>
    requires n <= |entries|
  {
    if n == 0 then Ok([])
    else
      match BuildRules(build, entries, n - 1)
      case Raised(error) => Raised(error)
      case Ok(before) =>
        match build(entries[n - 1].0, entries[n - 1].1)
        case Raised(error) => Raised(error)
        case Ok(rule) => Ok(before + [(entries[n - 1].0, rule)])
  }

  lemma {:induction false} BuildRulesStop(build: RuleBuilder, entries: seq<(string, Yaml)>, n: nat, m: nat)
    requires n <= m <= |entries| && BuildRules(build, entries, n).Raised?
    ensures BuildRules(build, entries, m) == BuildRules(build, entries, n)
    decreases m
  {
    if n < m {
      BuildRulesStop(build, entries, n, m - 1);
    }
  }

  /** The loop that fills the known hotspots. */
  method CollectRules(build: RuleBuilder, entries: seq<(string, Yaml)>)
    returns (result: Result<seq<(string, HotspotRule)>, PolicyError>)
    ensures result == BuildRules(build, entries, |entries|)
  {
    var known: seq<(string, HotspotRule)> := [];
    for k := 0 to |entries|
      invariant BuildRules(build, entries, k) == Ok(known)
    {
      var rule := build(entries[k].0, entries[k].1);
      if rule.Raised? {
        BuildRulesStop(build, entries, k + 1, |entries|);
        return Raised(rule.error);
      }
      known := known + [(entries[k].0, rule.value)];
    }
    result := Ok(known);
  }

  /** A rule the validator did not accept is never built. */
  function BuildOrReject(iso: string -> Option<int>, path: string, raw: Yaml): Result<HotspotRule, PolicyError> {
    if raw.Map? && Iterate(Get(raw, "exceptions")).Some? && (Get(raw, "routing").Null? || Get(raw, "routing").Map?)
    then BuildRule(iso, path, raw) else Raised(NotAMap)
  }

  function Builder(iso: string -> Option<int>): RuleBuilder { (path, raw) => BuildOrReject(iso, path, raw) }

  function PolicyOf(iso: string -> Option<int>, today: int, payload: Yaml)
    : Result<seq<(string, HotspotRule)>, PolicyError>
    requires payload.Map?
  {
    match PayloadIssues(iso, today, payload)
    case Raised(error) => Raised(error)
    case Ok(issues) =>
      if issues != [] || !Get(payload, "known_hotspots").Map? then Raised(InvalidPolicy)
      else
        var entries := Get(payload, "known_hotspots").entries;
        BuildRules(Builder(iso), entries, |entries|)
  }

  /** Every exception of every rule has an expiry the builder can read or skip. */
  ghost predicate PolicyReadable(iso: string -> Option<int>, entries: seq<(string, Yaml)>) {
    forall k | 0 <= k < |entries| :: RuleReadable(iso, entries[k].1)
  }

  ghost predicate RuleReadable(iso: string -> Option<int>, raw: Yaml) {
    raw.Map? && Iterate(Get(raw, "exceptions")).Some? ==> AllSkippedReadable(iso, Iterate(Get(raw, "exceptions")).value)
  }

  lemma {:induction false} BuildsEvery(build: RuleBuilder, entries: seq<(string, Yaml)>, n: nat)
    requires n <= |entries|
    requires forall k | 0 <= k < n :: build(entries[k].0, entries[k].1).Ok? ==>
      Usable(build(entries[k].0, entries[k].1).value)
    ensures BuildRules(build, entries, n).Ok? <==> forall k | 0 <= k < n :: build(entries[k].0, entries[k].1).Ok?
    ensures BuildRules(build, entries, n).Ok? ==>
      |BuildRules(build, entries, n).value| == n && forall k | 0 <= k < n ::
        Usable(BuildRules(build, entries, n).value[k].1)
  {
    if n > 0 {
      BuildsEvery(build, entries, n - 1);
    }
  }

  lemma BuildAccepted(iso: string -> Option<int>, today: int, path: string, raw: Yaml)
    requires RuleAccepted(iso, today, raw)
    ensures BuildOrReject(iso, path, raw).Ok? <==> RuleReadable(iso, raw)
    ensures BuildOrReject(iso, path, raw).Ok? ==> Usable(BuildOrReject(iso, path, raw).value)
  {
    AcceptedRuleBuilds(iso, today, path, raw);
  }

  lemma AcceptedRulesBuild(iso: string -> Option<int>, today: int, entries: seq<(string, Yaml)>)
    requires forall k | 0 <= k < |entries| :: RuleAccepted(iso, today, entries[k].1)
    ensures BuildRules(Builder(iso), entries, |entries|).Ok? <==> PolicyReadable(iso, entries)
    ensures var built := BuildRules(Builder(iso), entries, |entries|);
      built.Ok? ==> forall k | 0 <= k < |built.value| :: Usable(built.value[k].1)
  {
    var build := Builder(iso);
    forall k | 0 <= k < |entries|
      ensures build(entries[k].0, entries[k].1).Ok? <==> RuleReadable(iso, entries[k].1)
      ensures build(entries[k].0, entries[k].1).Ok? ==> Usable(build(entries[k].0, entries[k].1).value)
    {
      BuildAccepted(iso, today, entries[k].0, entries[k].1);
    }
    BuildsEvery(Builder(iso), entries, |entries|);
  }

  lemma PolicyOfAccepted(iso: string -> Option<int>, today: int, payload: Yaml)
    requires payload.Map?
    ensures PayloadAccepted(iso, today, payload) ==> var entries := Get(payload, "known_hotspots").entries;
      PolicyOf(iso, today, payload) == BuildRules(Builder(iso), entries, |entries|)
    ensures !PayloadAccepted(iso, today, payload) ==> PolicyOf(iso, today, payload).Raised?
  {
    PayloadIssuesNone(iso, today, payload);
  }

  /** A policy is built exactly for the accepted payloads without a falsy unreadable expiry, and then every
      rule is usable: it blocks and allows some category, and each exception can match. */
  lemma PolicyBuilds(iso: string -> Option<int>, today: int, payload: Yaml)
    requires payload.Map?
    ensures PolicyOf(iso, today, payload).Ok? <==>
      PayloadAccepted(iso, today, payload) && PolicyReadable(iso, Get(payload, "known_hotspots").entries)
    ensures PolicyOf(iso, today, payload).Ok? ==>
      forall k | 0 <= k < |PolicyOf(iso, today, payload).value| :: Usable(PolicyOf(iso, today, payload).value[k].1)
  {
    PolicyOfAccepted(iso, today, payload);
    if PayloadAccepted(iso, today, payload) {
      AcceptedRulesBuild(iso, today, Get(payload, "known_hotspots").entries);
    }
  }

  /** Validation, then building. */
  method BuildHotspotPolicy(iso: string -> Option<int>, today: int, payload: Yaml)
    returns (result: Result<seq<(string, HotspotRule)>, PolicyError>)
    requires payload.Map?
    ensures result == PolicyOf(iso, today, payload)
  {
    var issues := ValidatePolicyPayload(iso, today, payload);
    if issues.Raised? { return Raised(issues.error); }
    if issues.value != [] { return Raised(InvalidPolicy); }
    PayloadIssuesNone(iso, today, payload);
    result := CollectRules(Builder(iso), Get(payload, "known_hotspots").entries);
  }

  /** `expires_on: 0` with a follow-up condition: accepted, then not built, whatever day it is. */
  lemma ZeroExpiryAcceptedNotBuilt(iso: string -> Option<int>, today: int, raw: Yaml)
    requires raw.Map? && iso("0").None? && Get(raw, "expires_on") == Scalar("0", false)
    requires Field(Get(raw, "exception_id")) != "" && Field(Get(raw, "case_id")) != ""
    requires Field(Get(raw, "owner_module")) != "" && Field(Get(raw, "follow_up_condition")) != ""
    ensures ExceptionAccepted(iso, today, raw) && BuildException(iso, raw).Raised?
  {
    ZeroExpiryNotBuilt(iso, raw);
  }

  lemma ZeroExpiryNotBuilt(iso: string -> Option<int>, raw: Yaml)
    requires raw.Map? && iso("0").None? && Get(raw, "expires_on") == Scalar("0", false)
    ensures BuildException(iso, raw).Raised?
  {
  }
}
