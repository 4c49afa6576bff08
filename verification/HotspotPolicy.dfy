/** The hotspot policy's values: rules per path, their exceptions and their routing. */
module HotspotPolicy {
  import opened Wrappers
  import opened Text

  datatype HotspotException = HotspotException(
    exceptionId: string,
    caseId: Option<string>,
    milestoneId: Option<string>,
    ownerModule: string,
    expiresOn: Option<int>,
    followUpCondition: Option<string>,
    matchTokens: seq<string>)
  {
    /** Some non-empty token occurs in the added lines. */
    predicate Matches(addedTexts: seq<string>) {
      exists token | token in matchTokens :: token != "" && Contains(Join(addedTexts, "\n"), token)
    }
  }

  datatype HotspotRouting = HotspotRouting(
    status: string, reason: string, routeToCaseIds: seq<string>, routeToPaths: seq<string>,
      routeToPlanPaths: seq<string>)

  datatype HotspotRule = HotspotRule(
    relativePath: string,
    targetRole: string,
    preferredOwnerModules: seq<string>,
    blockNew: seq<string>,
    allow: seq<string>,
    exceptions: seq<HotspotException>,
    routing: Option<HotspotRouting>)

  /** The first of the given categories the rule allows. */
  function FirstAllowed(rule: HotspotRule, categories: seq<string>): (first: Option<string>)
    ensures first.Some? ==> first.value in rule.allow && first.value in categories
    ensures first.None? ==> forall category | category in categories :: category !in rule.allow
  {
    if categories == [] then None
    else if categories[0] in rule.allow then Some(categories[0])
    else FirstAllowed(rule, categories[1..])
  }

  function AllowedCategoryForImport(rule: HotspotRule): Option<string> {
    FirstAllowed(rule, ["import_forwarder", "alias_forwarder", "registry_composition"])
  }

  function AllowedCategoryForForwarder(rule: HotspotRule): Option<string> {
    FirstAllowed(rule, ["explicit_forwarding_function", "alias_forwarder", "import_forwarder"])
  }

  const BLOCK_PRIORITY := [
    "export_sink_surface", "broad_reexport_batch", "schema_definition", "broad_helper", "artifact_assembly",
    "broad_parser_logic", "executor_implementation", "ranking_logic", "broad_new_test_group"]

  function FirstBlocked(rule: HotspotRule, categories: seq<string>): Option<string> {
    if categories == [] then None
    else if categories[0] in rule.blockNew then Some(categories[0])
    else FirstBlocked(rule, categories[1..])
  }

  /** The category of a size block. The default is evaluated even when it is not used, so an empty list raises. */
  function FallbackBlockCategory(rule: HotspotRule): (category: string)
    requires rule.blockNew != []
    ensures category in rule.blockNew
  {
    var first := FirstBlocked(rule, BLOCK_PRIORITY);
    if first.Some? then (FirstBlockedMember(rule, BLOCK_PRIORITY); first.value) else rule.blockNew[0]
  }

  lemma {:induction false} FirstBlockedMember(rule: HotspotRule, categories: seq<string>)
    ensures FirstBlocked(rule, categories).Some? ==> FirstBlocked(rule, categories).value in rule.blockNew
  {
    if categories != [] {
      FirstBlockedMember(rule, categories[1..]);
    }
  }
}
