/** What the alias scanner accepts: its grammar, that the grammar is unambiguous, when the
    `from .. import (` branch is reached, and that no accepted hunk is a forwarding hunk. */
module AliasGrammar {
  import opened Text
  import opened HunkRecognizers

  // --- The grammar ---

  datatype Group =
    | Single(line: string)
    | Block(header: string, items: seq<string>)
    | Triple(header: string, target: string)

  ghost predicate ValidGroup(shape: string -> AliasShape, group: Group) {
    match group
    case Single(line) => shape(line).header == SingleLine
    case Block(header, items) =>
      shape(header).header == BlockOpen && forall item | item in items :: shape(item).importItem && item != ")"
    case Triple(header, target) => shape(header).header == TripleOpen && shape(target).target
  }

  function Lines(group: Group): seq<string> {
    match group
    case Single(line) => [line]
    case Block(header, items) => [header] + items + [")"]
    case Triple(header, target) => [header, target, ")"]
  }

  function AllLines(groups: seq<Group>): seq<string> {
    if groups == [] then [] else Lines(groups[0]) + AllLines(groups[1..])
  }

  ghost predicate AllValid(shape: string -> AliasShape, groups: seq<Group>) {
    forall group | group in groups :: ValidGroup(shape, group)
  }

  /** The closing test is equality with `)`. */
  ghost predicate ClosesOnParen(shape: string -> AliasShape) {
    forall s: string :: shape(s).closing <==> s == ")"
  }

  lemma {:induction false} BlockEndOfItems(shape: string -> AliasShape, items: seq<string>, rest: seq<string>)
    requires ClosesOnParen(shape) && forall item | item in items :: shape(item).importItem && item != ")"
    ensures BlockEnd(shape, items + [")"] + rest) == |items|
    decreases |items|
  {
    var all := items + [")"] + rest;
    if items == [] {
      assert all[0] == ")";
    } else {
      assert all[0] == items[0] && all[1..] == items[1..] + [")"] + rest;
      BlockEndOfItems(shape, items[1..], rest);
    }
  }

  /** The scanner takes exactly the first group. */
  lemma ScanTakesGroup(shape: string -> AliasShape, group: Group, rest: seq<string>)
    requires ClosesOnParen(shape) && ValidGroup(shape, group)
    ensures AliasScan(shape, Lines(group) + rest) == AliasScan(shape, rest)
  {
    var all := Lines(group) + rest;
    match group
    case Single(line) => assert all[0] == line && all[1..] == rest;
    case Block(header, items) =>
      assert all[0] == header && all[1..] == items + [")"] + rest;
      BlockEndOfItems(shape, items, rest);
      assert all[|items| + 2..] == rest;
    case Triple(header, target) =>
      assert all[0] == header && all[1] == target && all[2] == ")" && all[3..] == rest;
  }

  lemma {:induction false} GrammarIsScanned(shape: string -> AliasShape, groups: seq<Group>)
    requires ClosesOnParen(shape) && AllValid(shape, groups)
    ensures AliasScan(shape, AllLines(groups))
    decreases |groups|
  {
    if groups != [] {
      assert groups[0] in groups;
      ScanTakesGroup(shape, groups[0], AllLines(groups[1..]));
      GrammarIsScanned(shape, groups[1..]);
    }
  }

  lemma FirstBlock(shape: string -> AliasShape, lines: seq<string>) returns (items: seq<string>, rest: seq<string>)
    requires ClosesOnParen(shape) && lines != [] && shape(lines[0]).header == BlockOpen && AliasScan(shape, lines)
    ensures forall item | item in items :: shape(item).importItem && item != ")"
    ensures lines == [lines[0]] + items + [")"] + rest && AliasScan(shape, rest)
  {
    var end := BlockEnd(shape, lines[1..]);
    items, rest := lines[1..end + 1], lines[end + 2..];
    forall item | item in items ensures shape(item).importItem && item != ")" {
      var i :| 0 <= i < |items| && items[i] == item;
      assert lines[1..][i] == item;
    }
    assert lines[1..][end] == lines[end + 1];
  }

  /** The first group of an accepted sequence, and what follows it. */
  lemma FirstGroup(shape: string -> AliasShape, lines: seq<string>) returns (group: Group, rest: seq<string>)
    requires ClosesOnParen(shape) && lines != [] && AliasScan(shape, lines)
    ensures ValidGroup(shape, group) && lines == Lines(group) + rest && AliasScan(shape, rest) && |rest| < |lines|
  {
    match shape(lines[0]).header
    case SingleLine =>
      group, rest := Single(lines[0]), lines[1..];
    case BlockOpen =>
      var items, others := FirstBlock(shape, lines);
      group, rest := Block(lines[0], items), others;
    case TripleOpen =>
      group, rest := Triple(lines[0], lines[1]), lines[3..];
  }

  lemma {:induction false} ScannedHasGroups(shape: string -> AliasShape, lines: seq<string>)
    returns (groups: seq<Group>)
    requires ClosesOnParen(shape) && AliasScan(shape, lines)
    ensures AllValid(shape, groups) && AllLines(groups) == lines
    decreases |lines|
  {
    if lines == [] {
      groups := [];
    } else {
      var group, rest := FirstGroup(shape, lines);
      var others := ScannedHasGroups(shape, rest);
      groups := [group] + others;
      assert groups[1..] == others;
    }
  }

  /** A hunk is alias-only exactly when its significant lines are a non-empty run of groups. */
  lemma AliasHunkIsGrammar(lines: seq<string>)
    ensures IsAliasOnlyHunk(lines) <==>
      exists groups: seq<Group> :: groups != [] && AllValid(ShapeOf, groups) && AllLines(groups) == Significant(lines)
  {
    var significant := Significant(lines);
    if IsAliasOnlyHunk(lines) {
      var groups := ScannedHasGroups(ShapeOf, significant);
      assert groups != [] && AllValid(ShapeOf, groups) && AllLines(groups) == significant;
    }
    if groups: seq<Group> :| groups != [] && AllValid(ShapeOf, groups) && AllLines(groups) == significant {
      GrammarIsScanned(ShapeOf, groups);
    }
  }

  lemma SameBlock(shape: string -> AliasShape, a: seq<string>, b: seq<string>, restA: seq<string>, restB: seq<string>)
    requires ClosesOnParen(shape)
    requires forall item | item in a :: shape(item).importItem && item != ")"
    requires forall item | item in b :: shape(item).importItem && item != ")"
    requires a + [")"] + restA == b + [")"] + restB
    ensures a == b && restA == restB
  {
    BlockEndOfItems(shape, a, restA);
    BlockEndOfItems(shape, b, restB);
    var all := a + [")"] + restA;
    assert a == all[..|a|] && b == all[..|b|];
    assert restA == all[|a| + 1..] && restB == all[|b| + 1..];
  }

  /** The first line decides which kind of group it is. */
  lemma SameKind(shape: string -> AliasShape, a: Group, b: Group, restA: seq<string>, restB: seq<string>)
    requires ValidGroup(shape, a) && ValidGroup(shape, b) && Lines(a) + restA == Lines(b) + restB
    ensures (a.Single? <==> b.Single?) && (a.Block? <==> b.Block?) && Lines(a)[0] == Lines(b)[0]
  {
    assert (Lines(a) + restA)[0] == Lines(a)[0] && (Lines(b) + restB)[0] == Lines(b)[0];
  }

  lemma SameSingle(a: Group, b: Group, restA: seq<string>, restB: seq<string>)
    requires a.Single? && b.Single? && Lines(a) + restA == Lines(b) + restB
    ensures a == b && restA == restB
  {
    assert (Lines(a) + restA)[0] == a.line && (Lines(b) + restB)[0] == b.line;
    assert (Lines(a) + restA)[1..] == restA && (Lines(b) + restB)[1..] == restB;
  }

  lemma SameTriple(a: Group, b: Group, restA: seq<string>, restB: seq<string>)
    requires a.Triple? && b.Triple? && Lines(a) + restA == Lines(b) + restB
    ensures a == b && restA == restB
  {
    assert (Lines(a) + restA)[0] == a.header && (Lines(b) + restB)[0] == b.header;
    assert (Lines(a) + restA)[1] == a.target && (Lines(b) + restB)[1] == b.target;
    assert (Lines(a) + restA)[3..] == restA && (Lines(b) + restB)[3..] == restB;
  }

  lemma BlockTail(header: string, items: seq<string>, rest: seq<string>)
    ensures (([header] + items + [")"]) + rest)[1..] == items + [")"] + rest
  {
  }

  lemma SameBlockGroup(shape: string -> AliasShape, a: Group, b: Group, restA: seq<string>, restB: seq<string>)
    requires ClosesOnParen(shape) && ValidGroup(shape, a) && ValidGroup(shape, b) && a.Block? && b.Block?
    requires Lines(a)[0] == Lines(b)[0] && Lines(a) + restA == Lines(b) + restB
    ensures a == b && restA == restB
  {
    BlockTail(a.header, a.items, restA);
    BlockTail(b.header, b.items, restB);
    SameBlock(shape, a.items, b.items, restA, restB);
  }

  /** Two groups that begin the same lines are the same group. */
  lemma SameFirstGroup(shape: string -> AliasShape, a: Group, b: Group, restA: seq<string>, restB: seq<string>)
    requires ClosesOnParen(shape) && ValidGroup(shape, a) && ValidGroup(shape, b)
    requires Lines(a) + restA == Lines(b) + restB
    ensures a == b && restA == restB
  {
    SameKind(shape, a, b, restA, restB);
    match a
    case Single(_) => SameSingle(a, b, restA, restB);
    case Triple(_, _) => SameTriple(a, b, restA, restB);
    case Block(_, _) => SameBlockGroup(shape, a, b, restA, restB);
  }

  /** The decomposition into groups is unique. */
  lemma {:induction false} GroupsUnique(shape: string -> AliasShape, a: seq<Group>, b: seq<Group>)
    requires ClosesOnParen(shape) && AllValid(shape, a) && AllValid(shape, b) && AllLines(a) == AllLines(b)
    ensures a == b
    decreases |a|
  {
    if a == [] || b == [] {
      assert a == [] ==> |AllLines(b)| == 0;
      assert b == [] ==> |AllLines(a)| == 0;
    } else {
      assert a[0] in a && b[0] in b;
      SameFirstGroup(shape, a[0], b[0], AllLines(a[1..]), AllLines(b[1..]));
      GroupsUnique(shape, a[1..], b[1..]);
      assert a == [a[0]] + a[1..] && b == [b[0]] + b[1..];
    }
  }

  // --- When the block branch is reached ---

  lemma PrefixChars(prefix: string, s: string)
    requires prefix <= s
    ensures |prefix| <= |s| && forall i | 0 <= i < |prefix| :: s[i] == prefix[i]
  {
  }

  lemma FromFacts(s: string)
    requires FromImportOpen(s)
    ensures |s| > 4 && s[0] == 'f' && s[1] == 'r' && s[2] == 'o' && s[3] == 'm' && IsSpace(s[4])
    ensures StartsName(AfterSpaces(s[4..]))
  {
    PrefixChars("from", s);
  }

  /** A name, whitespace, then another name: not an assignment. */
  lemma NameThenName(s: string, n: nat)
    requires n < |s| && (forall i | 0 <= i < n :: IsNameChar(s[i])) && IsSpace(s[n]) && StartsName(AfterSpaces(s[n..]))
    ensures AssignmentRhs(s).None?
  {
    SpanOfRun(s[..n], s[n..], IsNameChar);
    assert s[..n] + s[n..] == s;
  }

  lemma FromIsNotAssignment(s: string)
    requires FromImportOpen(s)
    ensures AssignmentRhs(s).None?
  {
    FromFacts(s);
    NameThenName(s, 4);
  }

  lemma FromOpenEnds(s: string)
    requires FromImportOpen(s)
    ensures Strip(s) == s && s[0] == 'f'
  {
    var from := "from";
    assert s[0] == from[0];
    var target := AfterSpaces(s[4..]);
    var keyword := AfterSpaces(AfterDotted(target));
    var tail := AfterSpaces(keyword[6..]);
    assert tail == "(" && s[|s| - 1] == '(';
    StripKeeps(s);
  }

  lemma KeywordAfterFrom(s: string)
    requires |s| > 4 && s[0] == 'f' && s[1] == 'r' && s[2] == 'o' && s[3] == 'm'
    ensures ImportKeyword(s) <==> s[4] == ' '
  {
    var spaced, importing, exported := "from ", "import ", "__all__";
    assert spaced[0] == 'f' && spaced[1] == 'r' && spaced[2] == 'o' && spaced[3] == 'm' && spaced[4] == ' ';
    assert importing[0] == 'i' && exported[0] == '_';
    if s[4] == ' ' {
      assert forall i | 0 <= i < 5 :: spaced[i] == s[i];
    }
  }

  lemma ImportTestOnFrom(s: string)
    requires FromImportOpen(s)
    ensures IsImportOrAlias(s) <==> s[4] == ' '
  {
    FromFacts(s);
    FromOpenEnds(s);
    FromIsNotAssignment(s);
    KeywordAfterFrom(s);
  }

  /** The `from .. import (` branch is shadowed by the import test when `from` is followed by a plain
      space, and is reached when it is followed by any other whitespace. */
  lemma BlockBranchReached(s: string)
    ensures ShapeOf(s).header == BlockOpen <==> FromImportOpen(s) && s[4] != ' '
  {
    if FromImportOpen(s) {
      ImportTestOnFrom(s);
    }
  }

  lemma FromAssembled(s: string, target: string, tail: string, keyword: string)
    requires "from" <= s && StartsSpace(s[4..]) && AfterSpaces(s[4..]) == target
    requires StartsName(target) && AfterDotted(target) == tail && StartsSpace(tail) && AfterSpaces(tail) == keyword
    requires "import" <= keyword && SpacedOpenParen(keyword[6..])
    ensures FromImportOpen(s)
  {
  }

  lemma ImportTail(tail: string)
    requires |tail| == 9 && tail[0] == ' ' && tail[1..7] == "import" && tail[7] == ' ' && tail[8] == '('
    ensures StartsSpace(tail) && "import" <= AfterSpaces(tail) && SpacedOpenParen(AfterSpaces(tail)[6..])
  {
    assert tail[1] == tail[1..7][0] == 'i';
    assert AfterSpaces(tail) == tail[1..];
    assert tail[1..][..6] == tail[1..7];
    var closing := tail[1..][6..];
    assert closing[0] == ' ' && closing[1] == '(' && |closing| == 2;
    assert AfterSpaces(closing) == closing[1..];
  }

  /** A line that reaches it: `from`, a tab, a name and ` import (`. */
  lemma TabbedImportReached(name: string, tail: string, s: string)
    requires StartsName(name) && forall i | 0 <= i < |name| :: IsDottedChar(name[i])
    requires |tail| == 9 && tail[0] == ' ' && tail[1..7] == "import" && tail[7] == ' ' && tail[8] == '('
    requires |s| > 5 && s[..4] == "from" && s[4] == '\t' && s[5..] == name + tail
    ensures ShapeOf(s).header == BlockOpen
  {
    ImportTail(tail);
    SpanOfRun(name, tail, IsDottedChar);
    var rest := s[4..];
    assert rest[0] == '\t' && rest[1..] == name + tail && rest[1] == name[0];
    assert AfterSpaces(rest) == rest[1..];
    assert "from" <= s;
    FromAssembled(s, name + tail, tail, AfterSpaces(tail));
    BlockBranchReached(s);
  }

  // --- Alias hunks are never forwarding hunks ---

  predicate AliasPart(line: AliasShape) { line.header != NoHeader || line.importItem || line.target || line.closing }

  predicate Opener(line: AliasShape) { line.header == BlockOpen || line.header == TripleOpen }

  /** How the two recognisers' line tests fit together. */
  ghost predicate Linked(shape: string -> AliasShape, body: string -> BodyShape, role: string -> LineRole) {
    && (forall text: string :: IsCommentOrBlank(text) ==> body(text).skipped)
    && (forall text: string :: body(text).stripped == Strip(text))
    && (forall text: string :: shape(Strip(text)).header == SingleLine ==> body(text).skipped)
    && (forall text: string :: Opener(shape(Strip(text))) && !IsCommentOrBlank(text) ==>
          !body(text).skipped && role(Strip(text)) == Reject)
    && (forall text: string :: AliasPart(shape(Strip(text))) && body(text).endsInColon ==> body(text).skipped)
  }

  lemma {:induction false} ScanMembers(shape: string -> AliasShape, lines: seq<string>)
    requires AliasScan(shape, lines)
    ensures forall line | line in lines :: AliasPart(shape(line))
    decreases |lines|
  {
    if lines != [] {
      match shape(lines[0]).header
      case SingleLine =>
        ScanMembers(shape, lines[1..]);
      case BlockOpen =>
        var end := BlockEnd(shape, lines[1..]);
        ScanMembers(shape, lines[end + 2..]);
        forall i | 0 <= i < |lines| ensures AliasPart(shape(lines[i])) {
          if 0 < i < end + 1 {
            assert lines[i] == lines[1..][i - 1];
          } else if i == end + 1 {
            assert lines[i] == lines[1..][end];
          } else if i > end + 1 {
            assert lines[i] == lines[end + 2..][i - end - 2];
          }
        }
      case TripleOpen =>
        ScanMembers(shape, lines[3..]);
        assert forall i | 3 <= i < |lines| :: lines[i] == lines[3..][i - 3];
    }
  }

  /** Once inside a signature, lines that never end in a colon are all swallowed. */
  lemma {:induction false} SignatureSwallows(body: string -> BodyShape, lines: seq<string>)
    requires forall text | text in lines :: body(text).skipped || !body(text).endsInColon
    ensures ForwardingBody(body, lines, true) == []
    decreases |lines|
  {
    if lines != [] {
      SignatureSwallows(body, lines[1..]);
    }
  }

  lemma {:induction false} NoColons(
      shape: string -> AliasShape, body: string -> BodyShape, role: string -> LineRole, lines: seq<string>)
    requires Linked(shape, body, role) && forall line | line in Significant(lines) :: AliasPart(shape(line))
    ensures forall text | text in lines :: body(text).skipped || !body(text).endsInColon
    decreases |lines|
  {
    if lines != [] {
      if !IsCommentOrBlank(lines[0]) {
        assert Significant(lines)[0] == Strip(lines[0]);
      }
      NoColons(shape, body, role, lines[1..]);
    }
  }

  lemma OpenerFirst(
      shape: string -> AliasShape, body: string -> BodyShape, role: string -> LineRole, text: string, rest: seq<string>)
    requires Linked(shape, body, role) && !IsCommentOrBlank(text) && Opener(shape(Strip(text)))
    requires forall line | line in Significant([text] + rest) :: AliasPart(shape(line))
    ensures var kept := ForwardingBody(body, [text] + rest, false); kept == [] || role(kept[0]) == Reject
  {
    var lines := [text] + rest;
    assert lines[0] == text && lines[1..] == rest;
    NoColons(shape, body, role, lines);
    assert text in lines && forall other | other in rest :: other in lines;
    if body(text).isDef {
      SignatureSwallows(body, rest);
    }
  }

  lemma SkippedFirst(body: string -> BodyShape, text: string, rest: seq<string>)
    requires body(text).skipped
    ensures ForwardingBody(body, [text] + rest, false) == ForwardingBody(body, rest, false)
  {
    assert ([text] + rest)[1..] == rest;
  }

  lemma SignificantFirst(text: string, rest: seq<string>)
    ensures Significant([text] + rest) == (if IsCommentOrBlank(text) then [] else [Strip(text)]) + Significant(rest)
  {
    assert ([text] + rest)[1..] == rest;
  }

  lemma ScanFirst(shape: string -> AliasShape, line: string, rest: seq<string>)
    requires AliasScan(shape, [line] + rest)
    ensures shape(line).header == SingleLine ==> AliasScan(shape, rest)
    ensures shape(line).header == SingleLine || Opener(shape(line))
  {
    assert ([line] + rest)[1..] == rest;
  }

  /** The first line a forwarding scan keeps from an alias hunk, if any, is one it rejects. */
  lemma {:induction false} FirstLineRejected(
      shape: string -> AliasShape, body: string -> BodyShape, role: string -> LineRole, lines: seq<string>)
    requires Linked(shape, body, role) && AliasScan(shape, Significant(lines))
    ensures var kept := ForwardingBody(body, lines, false); kept == [] || role(kept[0]) == Reject
    decreases |lines|
  {
    if lines != [] {
      var text, rest := lines[0], lines[1..];
      assert lines == [text] + rest;
      SignificantFirst(text, rest);
      if IsCommentOrBlank(text) {
        assert [] + Significant(rest) == Significant(rest);
        FirstLineRejected(shape, body, role, rest);
        SkippedFirst(body, text, rest);
      } else {
        ScanFirst(shape, Strip(text), Significant(rest));
        if shape(Strip(text)).header == SingleLine {
          FirstLineRejected(shape, body, role, rest);
          SkippedFirst(body, text, rest);
        } else {
          ScanMembers(shape, Significant(lines));
          OpenerFirst(shape, body, role, text, rest);
        }
      }
    }
  }

  lemma AliasNotForwardingFor(
      shape: string -> AliasShape, body: string -> BodyShape, role: string -> LineRole, lines: seq<string>)
    requires Linked(shape, body, role) && AliasScan(shape, Significant(lines))
    ensures !Accepts(role, ForwardingBody(body, lines, false))
  {
    FirstLineRejected(shape, body, role, lines);
  }

  // --- The concrete line tests fit together ---

  lemma NotClosingOrExit(s: string)
    requires StartsName(s)
    ensures !CloseSignature(s)
  {
    var closing := ")";
    assert closing[0] == ')';
  }

  lemma ReturnFacts(s: string)
    requires ReturnCall(s)
    ensures |s| > 6 && s[0] == 'r' && s[1] == 'e' && s[2] == 't' && s[3] == 'u' && s[4] == 'r' && s[5] == 'n'
    ensures IsSpace(s[6]) && StartsName(AfterSpaces(s[6..]))
  {
    PrefixChars("return", s);
  }

  lemma RaiseFacts(s: string)
    requires RaiseExit(s)
    ensures |s| > 6 && s[0] == 'r' && s[1] == 'a' && s[2] == 'i' && s[3] == 's' && s[4] == 'e' && s[5] == ' '
      && s[6] == 'S'
  {
    PrefixChars("raise SystemExit(", s);
  }

  lemma AssignmentIsNoReturn(s: string)
    requires AssignmentRhs(s).Some?
    ensures !ReturnCall(s)
  {
    if ReturnCall(s) {
      ReturnFacts(s);
      NameThenName(s, 6);
    }
  }

  lemma AssignmentIsNoExit(s: string)
    requires AssignmentRhs(s).Some?
    ensures !RaiseExit(s)
  {
    if RaiseExit(s) {
      RaiseFacts(s);
      SpanOfRun(" ", s[6..], IsSpace);
      assert " " + s[6..] == s[5..];
      NameThenName(s, 5);
    }
  }

  lemma AfterNameBreaks(s: string, n: nat)
    requires n < |s| && Span(s, IsNameChar) == n && (IsSpace(s[n]) || s[n] == '=')
    ensures Span(s, IsDottedChar) == n
  {
    SpanOfRun(s[..n], s[n..], IsDottedChar);
    assert s[..n] + s[n..] == s;
  }

  lemma NotDottedItem(s: string)
    requires Span(s, IsNameChar) < |s| && (IsSpace(s[Span(s, IsNameChar)]) || s[Span(s, IsNameChar)] == '=')
    ensures !DottedItem(s)
  {
    AfterNameBreaks(s, Span(s, IsNameChar));
    var comma := ",";
    assert comma[0] == ',';
  }

  lemma OpenAssignmentRejected(s: string)
    requires OpenAssignment(s)
    ensures ForwardingRole(s) == Reject
  {
    NotClosingOrExit(s);
    AssignmentIsNoReturn(s);
    AssignmentIsNoExit(s);
    var rest := AfterName(s);
    assert rest != "" && (IsSpace(rest[0]) || rest[0] == '=') by { AssignmentBreaks(s); }
    assert rest[0] == s[Span(s, IsNameChar)];
    NotDottedItem(s);
    var paren := "(";
    assert paren[0] == '(';
  }

  lemma AssignmentBreaks(s: string)
    requires AssignmentRhs(s).Some?
    ensures AfterName(s) != "" && (IsSpace(AfterName(s)[0]) || AfterName(s)[0] == '=')
  {
  }

  lemma FromIsNoCall(s: string)
    requires s != "" && s[0] == 'f'
    ensures !ReturnCall(s) && !RaiseExit(s)
  {
    if ReturnCall(s) { ReturnFacts(s); }
    if RaiseExit(s) { RaiseFacts(s); }
  }

  lemma FromIsNotDotted(s: string)
    requires |s| > 4 && s[0] == 'f' && s[1] == 'r' && s[2] == 'o' && s[3] == 'm' && IsSpace(s[4])
    ensures !DottedItem(s)
  {
    SpanOfRun(s[..4], s[4..], IsNameChar);
    assert s[..4] + s[4..] == s;
    NotDottedItem(s);
  }

  lemma FromOpenRejected(s: string)
    requires FromImportOpen(s)
    ensures ForwardingRole(s) == Reject
  {
    FromFacts(s);
    FromIsNotAssignment(s);
    NotClosingOrExit(s);
    FromIsNotDotted(s);
    FromIsNoCall(s);
  }

  lemma RunThenComma(s: string, p: char -> bool)
    requires s != "" && s[Span(s, p)..] in ["", ","] && p(s[0]) && !p(':')
    ensures s[|s| - 1] != ':'
  {
    var comma, tail := ",", s[Span(s, p)..];
    assert tail == comma ==> s[|s| - 1] == tail[0] == ',';
  }

  lemma NameItemEnd(s: string)
    requires NameItem(s)
    ensures s[|s| - 1] != ':'
  {
    RunThenComma(s, IsNameChar);
  }

  lemma ImportItemEnd(s: string)
    requires ImportItem(s)
    ensures s != "" && s[|s| - 1] != ':'
  {
    if NameItem(s) {
      NameItemEnd(s);
    } else {
      var tail := AfterSpaces(AfterSpaces(AfterName(s))[2..]);
      NameItemEnd(tail);
      assert tail[|tail| - 1] == s[|s| - 1];
    }
  }

  lemma OpenAssignmentEnd(s: string)
    requires OpenAssignment(s)
    ensures s != "" && s[|s| - 1] == '('
  {
    var rhs := AssignmentRhs(s).value;
    var paren := "(";
    assert rhs == paren && rhs[0] == '(';
    assert rhs[|rhs| - 1] == s[|s| - 1];
  }

  lemma FromNotColon(s: string)
    requires FromImportOpen(s)
    ensures s != "" && s[|s| - 1] != ':'
  {
    var tail := AfterSpaces(AfterSpaces(AfterDotted(AfterSpaces(s[4..])))[6..]);
    var paren := "(";
    assert tail == paren && tail[0] == '(' && tail[|tail| - 1] == s[|s| - 1];
  }

  lemma DottedItemEnd(s: string)
    requires DottedItem(s)
    ensures s != "" && s[|s| - 1] != ':'
  {
    RunThenComma(s, IsDottedChar);
  }

  lemma ParenEnd(s: string)
    requires s == ")"
    ensures s != "" && s[|s| - 1] != ':'
  {
    assert s[0] == ')';
  }

  /** No part of an alias hunk other than a single import line can end in a colon. */
  lemma AliasPartEnd(s: string)
    requires AliasPart(ShapeOf(s)) && ShapeOf(s).header != SingleLine
    ensures s == "" || s[|s| - 1] != ':'
  {
    var shape := ShapeOf(s);
    if shape.header == BlockOpen { FromNotColon(s); }
    else if shape.header == TripleOpen { OpenAssignmentEnd(s); }
    else if shape.importItem { ImportItemEnd(s); }
    else if shape.target { DottedItemEnd(s); }
    else { ParenEnd(s); }
  }

  lemma NoColonAtEnd(s: string)
    requires s == "" || s[|s| - 1] != ':'
    ensures !EndsWith(s, ":")
  {
    var colon := ":";
    assert colon[0] == ':' && (s != "" ==> s[|s| - 1..][0] == s[|s| - 1]);
  }

  lemma OpenerKept(s: string)
    requires StartsName(s)
    ensures s[0] !in ['#', '@'] && s !in ["\"\"\"", "'''", ")"]
  {
    var double, single, closing := "\"\"\"", "'''", ")";
    assert double[0] == '"' && single[0] == '\'' && closing[0] == ')';
  }

  lemma LinkedText(text: string)
    ensures IsCommentOrBlank(text) ==> BodyShapeOf(text).skipped
    ensures ShapeOf(Strip(text)).header == SingleLine ==> BodyShapeOf(text).skipped
    ensures Opener(ShapeOf(Strip(text))) && !IsCommentOrBlank(text) ==>
      !BodyShapeOf(text).skipped && ForwardingRole(Strip(text)) == Reject
    ensures AliasPart(ShapeOf(Strip(text))) && BodyShapeOf(text).endsInColon ==> BodyShapeOf(text).skipped
  {
    var s := Strip(text);
    StripIdempotent(text);
    assert IsImportOrAlias(s) == IsImportOrAlias(text);
    if Opener(ShapeOf(s)) {
      if FromImportOpen(s) {
        FromFacts(s);
        FromOpenRejected(s);
      } else {
        OpenAssignmentRejected(s);
      }
      OpenerKept(s);
    }
    if AliasPart(ShapeOf(s)) && ShapeOf(s).header != SingleLine {
      AliasPartEnd(s);
      NoColonAtEnd(s);
    }
  }

  lemma ShapesLinked()
    ensures Linked(ShapeOf, BodyShapeOf, ForwardingRole)
  {
    forall text: string
      ensures IsCommentOrBlank(text) ==> BodyShapeOf(text).skipped
      ensures ShapeOf(Strip(text)).header == SingleLine ==> BodyShapeOf(text).skipped
      ensures Opener(ShapeOf(Strip(text))) && !IsCommentOrBlank(text) ==>
        !BodyShapeOf(text).skipped && ForwardingRole(Strip(text)) == Reject
      ensures AliasPart(ShapeOf(Strip(text))) && BodyShapeOf(text).endsInColon ==> BodyShapeOf(text).skipped
    {
      LinkedText(text);
    }
  }

  /** No hunk is both alias-only and forwarding. */
  lemma AliasNotForwarding(lines: seq<string>)
    requires IsAliasOnlyHunk(lines)
    ensures !IsForwardingHunk(lines)
  {
    ShapesLinked();
    AliasNotForwardingFor(ShapeOf, BodyShapeOf, ForwardingRole, lines);
  }
}
