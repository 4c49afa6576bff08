/** The recognisers that decide whether a whole hunk is maintenance: aliases, forwarding wrappers,
    registry composition, compatibility tests. What a line is (its role or shape) is a function of the
    line; the scans are stated over any such function. */
module HunkRecognizers {
  import opened Wrappers
  import opened Text

  // --- Single lines ---

  predicate IsCommentOrBlank(text: string) {
    var stripped := Strip(text);
    stripped == "" || stripped[0] == '#'
  }

  predicate ImportKeyword(s: string) { "from " <= s || "import " <= s || "__all__" <= s }

  predicate IsImportOrAlias(text: string) {
    var stripped := Strip(text);
    ImportKeyword(stripped) || AliasAssignment(stripped)
  }

  predicate IsSignificantAddedText(text: string) { !IsCommentOrBlank(text) && !IsImportOrAlias(text) }

  /** The stripped lines that are neither blank nor comments. */
  function Significant(lines: seq<string>): seq<string> {
    if lines == [] then []
    else (if IsCommentOrBlank(lines[0]) then [] else [Strip(lines[0])]) + Significant(lines[1..])
  }

  // --- Scans that reject on one bad line and need one good one ---

  datatype LineRole = Mark | Pass | Reject

  predicate Accepts(role: string -> LineRole, lines: seq<string>) {
    && (forall k | 0 <= k < |lines| :: role(lines[k]) != Reject)
    && (exists k | 0 <= k < |lines| :: role(lines[k]) == Mark)
  }

  method TestLines(role: string -> LineRole, lines: seq<string>) returns (accepted: bool)
    ensures accepted == Accepts(role, lines)
  {
    accepted := false;
    for i := 0 to |lines|
      invariant forall k | 0 <= k < i :: role(lines[k]) != Reject
      invariant accepted == exists k | 0 <= k < i :: role(lines[k]) == Mark
    {
      match role(lines[i])
      case Mark => accepted := true;
      case Pass =>
      case Reject => return false;
    }
  }

  // --- Alias-only hunks ---

  datatype Header = SingleLine | BlockOpen | TripleOpen | NoHeader

  /** The five tests the alias scanner makes on a line. */
  datatype AliasShape = AliasShape(header: Header, importItem: bool, target: bool, closing: bool)

  function ShapeOf(s: string): AliasShape {
    AliasShape(
      if IsImportOrAlias(s) then SingleLine
      else if FromImportOpen(s) then BlockOpen
      else if OpenAssignment(s) then TripleOpen
      else NoHeader,
      ImportItem(s), DottedItem(s), s == ")")
  }

  /** Position of the first closing line, if everything before it is an import item; otherwise -1. */
  function BlockEnd(shape: string -> AliasShape, lines: seq<string>): (end: int)
    ensures -1 <= end < |lines|
    ensures end >= 0 ==>
      (shape(lines[end]).closing && forall i | 0 <= i < end :: shape(lines[i]).importItem && !shape(lines[i]).closing)
  {
    if lines == [] then -1
    else if shape(lines[0]).closing then 0
    else if !shape(lines[0]).importItem then -1
    else
      var rest := BlockEnd(shape, lines[1..]);
      if rest < 0 then -1 else rest + 1
  }

  /** Single lines, `from .. import (` blocks and `NAME = (` triples, to the end. */
  predicate AliasScan(shape: string -> AliasShape, lines: seq<string>)
    decreases |lines|
  {
    if lines == [] then true
    else
      match shape(lines[0]).header
      case SingleLine => AliasScan(shape, lines[1..])
      case BlockOpen =>
        var end := BlockEnd(shape, lines[1..]);
        end >= 0 && AliasScan(shape, lines[end + 2..])
      case TripleOpen =>
        |lines| >= 3 && shape(lines[1]).target && shape(lines[2]).closing && AliasScan(shape, lines[3..])
      case NoHeader => false
  }

  predicate IsAliasOnlyHunk(lines: seq<string>) {
    var significant := Significant(lines);
    significant != [] && AliasScan(ShapeOf, significant)
  }

  lemma {:induction false} BlockEndSkips(shape: string -> AliasShape, lines: seq<string>, from: nat, to: nat)
    requires from <= to <= |lines|
    requires forall i | from <= i < to :: shape(lines[i]).importItem && !shape(lines[i]).closing
    ensures BlockEnd(shape, lines[to..]) < 0 ==> BlockEnd(shape, lines[from..]) == -1
    ensures BlockEnd(shape, lines[to..]) >= 0 ==>
      BlockEnd(shape, lines[from..]) == BlockEnd(shape, lines[to..]) + to - from
    decreases |lines| - from
  {
    if from < to {
      assert lines[from..][0] == lines[from] && lines[from..][1..] == lines[from + 1..];
      BlockEndSkips(shape, lines, from + 1, to);
    }
  }

  /** One step of the scanner, at position index. */
  lemma AliasScanAt(shape: string -> AliasShape, lines: seq<string>, index: nat)
    requires index < |lines|
    ensures AliasScan(shape, lines[index..]) ==
      match shape(lines[index]).header
      case SingleLine => AliasScan(shape, lines[index + 1..])
      case BlockOpen =>
        var end := BlockEnd(shape, lines[index + 1..]);
        end >= 0 && AliasScan(shape, lines[index + end + 2..])
      case TripleOpen =>
        index + 2 < |lines| && shape(lines[index + 1]).target && shape(lines[index + 2]).closing
        && AliasScan(shape, lines[index + 3..])
      case NoHeader => false
  {
    var rest := lines[index..];
    assert rest[0] == lines[index] && rest[1..] == lines[index + 1..];
    var end := BlockEnd(shape, rest[1..]);
    assert end >= 0 ==> rest[end + 2..] == lines[index + end + 2..];
    assert |rest| >= 3 ==>
      rest[1] == lines[index + 1] && rest[2] == lines[index + 2] && rest[3..] == lines[index + 3..];
  }

  /** The inner loop: past the closing line of an import block that begins at start, or None. */
  method SkipBlock(shape: string -> AliasShape, significant: seq<string>, start: nat) returns (after: Option<nat>)
    requires start <= |significant|
    ensures var end := BlockEnd(shape, significant[start..]); after == if end < 0 then None else Some(start + end + 1)
  {
    var index := start;
    while index < |significant| && !shape(significant[index]).closing
      invariant start <= index <= |significant|
      invariant forall i | start <= i < index :: shape(significant[i]).importItem && !shape(significant[i]).closing
    {
      if !shape(significant[index]).importItem {
        BlockEndSkips(shape, significant, start, index);
        assert significant[index..][0] == significant[index];
        return None;
      }
      index := index + 1;
    }
    BlockEndSkips(shape, significant, start, index);
    if index >= |significant| { return None; }
    assert significant[index..][0] == significant[index];
    after := Some(index + 1);
  }

  /** One turn of the outer loop: where the next group begins, or None to reject. */
  method SkipGroup(shape: string -> AliasShape, significant: seq<string>, index: nat) returns (next: Option<nat>)
    requires index < |significant|
    ensures next.Some? ==> index < next.value <= |significant|
    ensures AliasScan(shape, significant[index..]) == (next.Some? && AliasScan(shape, significant[next.value..]))
  {
    AliasScanAt(shape, significant, index);
    var header := shape(significant[index]).header;
    if header == SingleLine { return Some(index + 1); }
    if header == BlockOpen {
      next := SkipBlock(shape, significant, index + 1);
      return;
    }
    if header != TripleOpen { return None; }
    if index + 2 >= |significant| { return None; }
    if !shape(significant[index + 1]).target { return None; }
    if !shape(significant[index + 2]).closing { return None; }
    next := Some(index + 3);
  }

  /** The scanner's outer loop. */
  method ScanAliases(shape: string -> AliasShape, significant: seq<string>) returns (accepted: bool)
    ensures accepted == (significant != [] && AliasScan(shape, significant))
  {
    var sawAlias := false;
    var index := 0;
    assert significant[0..] == significant;
    while index < |significant|
      invariant 0 <= index <= |significant|
      invariant AliasScan(shape, significant) == AliasScan(shape, significant[index..])
      invariant sawAlias == (index > 0)
    {
      var next := SkipGroup(shape, significant, index);
      if next.None? { return false; }
      sawAlias := true;
      index := next.value;
    }
    accepted := sawAlias;
  }

  method ScanAliasOnlyHunk(lines: seq<string>) returns (accepted: bool)
    ensures accepted == IsAliasOnlyHunk(lines)
  {
    accepted := ScanAliases(ShapeOf, Significant(lines));
  }

  // --- Forwarding hunks ---

  predicate DefLine(s: string) { "def " <= s || "async def " <= s }

  predicate RaiseExit(s: string) { "raise SystemExit(" <= s }

  /** What the first pass of the forwarding scan asks of a raw line. */
  datatype BodyShape = BodyShape(skipped: bool, isDef: bool, endsInColon: bool, stripped: string)

  function BodyShapeOf(text: string): BodyShape {
    var stripped := Strip(text);
    BodyShape(
      stripped == "" || stripped[0] in ['#', '@'] || stripped in ["\"\"\"", "'''", ")"] || IsImportOrAlias(text),
      DefLine(stripped), EndsWith(stripped, ":"), stripped)
  }

  /** Whether the line after this one is inside an unfinished signature. */
  predicate StillInSignature(line: BodyShape, inSignature: bool) {
    if line.skipped then inSignature
    else (line.isDef || inSignature) && !line.endsInColon
  }

  /** The stripped lines that are neither skipped nor part of a signature. */
  function ForwardingBody(shape: string -> BodyShape, lines: seq<string>, inSignature: bool): seq<string> {
    if lines == [] then []
    else
      var line := shape(lines[0]);
      (if line.skipped || line.isDef || inSignature then [] else [line.stripped])
      + ForwardingBody(shape, lines[1..], StillInSignature(line, inSignature))
  }

  predicate EndsInSignature(shape: string -> BodyShape, lines: seq<string>, inSignature: bool) {
    if lines == [] then inSignature
    else EndsInSignature(shape, lines[1..], StillInSignature(shape(lines[0]), inSignature))
  }

  lemma {:induction false} ForwardingSnoc(shape: string -> BodyShape, a: seq<string>, text: string, inSignature: bool)
    ensures var before := EndsInSignature(shape, a, inSignature); var line := shape(text);
      && EndsInSignature(shape, a + [text], inSignature) == StillInSignature(line, before)
      && ForwardingBody(shape, a + [text], inSignature)
           == ForwardingBody(shape, a, inSignature)
              + (if line.skipped || line.isDef || before then [] else [line.stripped])
    decreases |a|
  {
    if a == [] {
      assert a + [text] == [text] && [text][1..] == [];
    } else {
      assert (a + [text])[0] == a[0] && (a + [text])[1..] == a[1..] + [text];
      ForwardingSnoc(shape, a[1..], text, StillInSignature(shape(a[0]), inSignature));
    }
  }

  /** First pass: collect the lines outside signatures. */
  method CollectForwardingBody(shape: string -> BodyShape, lines: seq<string>) returns (significant: seq<string>)
    ensures significant == ForwardingBody(shape, lines, false)
  {
    significant := [];
    var inSignature := false;
    for i := 0 to |lines|
      invariant significant == ForwardingBody(shape, lines[..i], false)
      invariant inSignature == EndsInSignature(shape, lines[..i], false)
    {
      assert lines[..i + 1] == lines[..i] + [lines[i]];
      ForwardingSnoc(shape, lines[..i], lines[i], false);
      var line := shape(lines[i]);
      if line.skipped { continue; }
      if line.isDef {
        inSignature := !line.endsInColon;
        continue;
      }
      if inSignature {
        if line.endsInColon {
          inSignature := false;
        }
        continue;
      }
      significant := significant + [line.stripped];
    }
    assert lines[..|lines|] == lines;
  }

  predicate IsForwardingCallLine(s: string) { ReturnCall(s) || RaiseExit(s) }

  /** The second pass, tests in the scanner's order. */
  function ForwardingRole(s: string): LineRole {
    if CloseSignature(s) then Pass
    else if ReturnCall(s) then Mark
    else if RaiseExit(s) then Mark
    else if DottedItem(s) then Pass
    else if KeywordAssignment(s) then Pass
    else Reject
  }

  predicate IsForwardingHunk(lines: seq<string>) { Accepts(ForwardingRole, ForwardingBody(BodyShapeOf, lines, false)) }

  lemma {:induction false} BodyComesFromLines(shape: string -> BodyShape, lines: seq<string>, inSignature: bool, k: nat)
    requires k < |ForwardingBody(shape, lines, inSignature)|
    ensures exists i | 0 <= i < |lines| :: shape(lines[i]).stripped == ForwardingBody(shape, lines, inSignature)[k]
    decreases |lines|
  {
    var line := shape(lines[0]);
    var first := if line.skipped || line.isDef || inSignature then [] else [line.stripped];
    if k < |first| {
      assert shape(lines[0]).stripped == ForwardingBody(shape, lines, inSignature)[k];
    } else {
      var next := StillInSignature(line, inSignature);
      BodyComesFromLines(shape, lines[1..], next, k - |first|);
      var i :| 0 <= i < |lines[1..]|
        && shape(lines[1..][i]).stripped == ForwardingBody(shape, lines[1..], next)[k - |first|];
      assert shape(lines[i + 1]).stripped == ForwardingBody(shape, lines, inSignature)[k];
    }
  }

  /** Every forwarding hunk contains a line the driver recognises as its forwarding call. */
  lemma ForwardingHunkHasCall(lines: seq<string>)
    requires IsForwardingHunk(lines)
    ensures exists i | 0 <= i < |lines| :: IsForwardingCallLine(Strip(lines[i]))
  {
    var body := ForwardingBody(BodyShapeOf, lines, false);
    var k :| 0 <= k < |body| && ForwardingRole(body[k]) == Mark;
    BodyComesFromLines(BodyShapeOf, lines, false, k);
    var i :| 0 <= i < |lines| && BodyShapeOf(lines[i]).stripped == body[k];
    assert IsForwardingCallLine(Strip(lines[i]));
  }

  method ScanForwardingHunk(lines: seq<string>) returns (accepted: bool)
    ensures accepted == IsForwardingHunk(lines)
  {
    var significant := CollectForwardingBody(BodyShapeOf, lines);
    accepted := TestLines(ForwardingRole, significant);
  }

  // --- Registry composition and compatibility tests ---

  const REGISTRY_TOKENS := [
    "compose_action_registries(", "compose_context_builder_registries(", "build_", "_REGISTRY", "_BUILDERS",
    "_executor", "globals()", "build_generic_task_context"]

  const COMPATIBILITY_TOKENS := ["compat", "contract", "facade", "smoke", "roundtrip", "registry"]

  predicate ContainsAny(s: string, tokens: seq<string>) { exists token | token in tokens :: Contains(s, token) }

  function RegistryRole(s: string): LineRole {
    if DefLine(s) || "class " <= s then Reject
    else if s in ["(", ")", "),"] then Pass
    else if ContainsAny(s, REGISTRY_TOKENS) then Mark
    else Reject
  }

  function SignificantAdded(lines: seq<string>): seq<string> {
    if lines == [] then []
    else (if IsSignificantAddedText(lines[0]) then [Strip(lines[0])] else []) + SignificantAdded(lines[1..])
  }

  predicate IsRegistryCompositionHunk(lines: seq<string>) { Accepts(RegistryRole, SignificantAdded(lines)) }

  method ScanRegistryCompositionHunk(lines: seq<string>) returns (accepted: bool)
    ensures accepted == IsRegistryCompositionHunk(lines)
  {
    var significant := SignificantAdded(lines);
    if significant == [] { return false; }
    accepted := TestLines(RegistryRole, significant);
  }

  predicate IsResidualCompatibilityTestName(s: string) { ContainsAny(Lower(s), COMPATIBILITY_TOKENS) }

  function CompatibilityRole(s: string): LineRole {
    if "def test_" <= s then
      if IsResidualCompatibilityTestName(s) then Mark else Reject
    else if "class " <= s then Reject
    else Pass
  }

  predicate IsCompatibilityTestHunk(lines: seq<string>) { Accepts(CompatibilityRole, Significant(lines)) }

  method ScanCompatibilityTestHunk(lines: seq<string>) returns (accepted: bool)
    ensures accepted == IsCompatibilityTestHunk(lines)
  {
    var significant := Significant(lines);
    if significant == [] { return false; }
    accepted := TestLines(CompatibilityRole, significant);
  }

  predicate IsTestSignatureContinuationHunk(lines: seq<string>) {
    var significant := Significant(lines);
    significant != [] && forall k | 0 <= k < |significant| ::
      significant[k] in ["):", ") -> None:"] || NameItem(significant[k])
  }
}
