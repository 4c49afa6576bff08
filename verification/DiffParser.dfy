/** The hand-written unified-diff parser: one pass over the lines of a diff with a running path,
    new-file line number and hunk counter. */
module DiffParser {
  import opened Wrappers
  import opened Text

  datatype ChangedLine = ChangedLine(newLineno: int, text: string, hunkId: nat)

  datatype ChangedFile = ChangedFile(relativePath: string, addedLines: seq<ChangedLine>, deletedLineCount: nat)

  // --- Hunk headers ---

  function DigitValue(c: char): nat
    requires IsDigit(c)
  {
    c as int - '0' as int
  }

  function ParseNat(digits: string): nat
    requires forall i | 0 <= i < |digits| :: IsDigit(digits[i])
  {
    if digits == "" then 0
    else 10 * ParseNat(digits[..|digits| - 1]) + DigitValue(digits[|digits| - 1])
  }

  /** Drops `,123` if it is there. */
  function SkipCount(s: string): string {
    if "," <= s && Span(s[1..], IsDigit) > 0 then s[1 + Span(s[1..], IsDigit)..] else s
  }

  /** The new-file start of `@@ -a,b +start,c @@`, or None when the line has another shape. */
  function HunkStart(line: string): Option<int> {
    if !("@@ -" <= line) || Span(line[4..], IsDigit) == 0 then None
    else
      var middle := SkipCount(line[4..][Span(line[4..], IsDigit)..]);
      if !(" +" <= middle) || Span(middle[2..], IsDigit) == 0 then None
      else
        var start := middle[2..][..Span(middle[2..], IsDigit)];
        if " @@" <= SkipCount(middle[2..][|start|..]) then Some(ParseNat(start)) else None
  }

  // --- The prefixes the parser tests, character by character ---

  /** begins `+++ ` */
  predicate IsFileHeader(line: string) {
    |line| >= 4 && line[0] == '+' && line[1] == '+' && line[2] == '+' && line[3] == ' '
  }

  /** begins `@@ ` */
  predicate IsHunkMark(line: string) { |line| >= 3 && line[0] == '@' && line[1] == '@' && line[2] == ' ' }

  /** begins with the character twice */
  predicate Doubled(text: string, c: char) { |text| >= 2 && text[0] == c && text[1] == c }

  /** begins `+` but not `+++` */
  predicate IsAddition(line: string) { |line| >= 1 && line[0] == '+' && !Doubled(line[1..], '+') }

  /** begins `-` but not `---` */
  predicate IsDeletion(line: string) { |line| >= 1 && line[0] == '-' && !Doubled(line[1..], '-') }

  /** begins with a space */
  predicate IsContext(line: string) { |line| >= 1 && line[0] == ' ' }

  // --- File headers ---

  function StripGitPrefix(path: string): string {
    var value := Strip(path);
    if value == "/dev/null" then value
    else if |value| >= 2 && value[0] in ['a', 'b'] && value[1] == '/' then value[2..]
    else value
  }

  predicate IsNotTab(c: char) { c != '\t' }

  function PathFromDiffHeader(line: string): Option<string>
    requires IsFileHeader(line)
  {
    var target := line[4..];
    var candidate := StripGitPrefix(target[..Span(target, IsNotTab)]);
    if candidate == "/dev/null" then None else Some(candidate)
  }

  // --- What a line is, whatever the parser's state ---

  datatype DiffLine =
    | FileHeader(path: Option<string>)
    | HunkMark(start: Option<int>)
    | Addition(text: string)
    | Deletion
    | Context
    | Other

  function Classify(raw: string): DiffLine {
    if IsFileHeader(raw) then FileHeader(PathFromDiffHeader(raw))
    else if IsHunkMark(raw) then HunkMark(HunkStart(raw))
    else if IsAddition(raw) then Addition(raw[1..])
    else if IsDeletion(raw) then Deletion
    else if IsContext(raw) then Context
    else Other
  }

  /** Applies a line classifier to every line. */
  function KindsOf(kind: string -> DiffLine, lines: seq<string>): (kinds: seq<DiffLine>)
    ensures |kinds| == |lines|
  {
    if lines == [] then [] else [kind(lines[0])] + KindsOf(kind, lines[1..])
  }

  lemma {:induction false} KindsConcat(kind: string -> DiffLine, a: seq<string>, b: seq<string>)
    ensures KindsOf(kind, a + b) == KindsOf(kind, a) + KindsOf(kind, b)
    decreases |a|
  {
    if a == [] {
      assert a + b == b;
    } else {
      assert (a + b)[0] == a[0] && (a + b)[1..] == a[1..] + b;
      KindsConcat(kind, a[1..], b);
    }
  }

  // --- The parser's running state ---

  datatype RawState = State(
    files: map<string, seq<ChangedLine>>,
    deleted: map<string, nat>,
    currentPath: Option<string>,
    newLineno: Option<int>,
    hunkId: nat)
  {
    predicate Consistent() {
      files.Keys == deleted.Keys && (currentPath.Some? ==> currentPath.value in files)
    }

    /** Opens path, keeping what an earlier section recorded for it. */
    function Open(path: string): RawState {
      this.(currentPath := Some(path),
            files := if path in files then files else files[path := []],
            deleted := if path in deleted then deleted else deleted[path := 0])
    }

    /** Adds lines and deletions to what is recorded for path. */
    function Record(path: string, lines: seq<ChangedLine>, deletions: nat): RawState
      requires path in files && path in deleted
    {
      this.(files := files[path := files[path] + lines],
            deleted := deleted[path := deleted[path] + deletions])
    }
  }

  type ParserState = s: RawState | s.Consistent() witness State(map[], map[], None, None, 0)

  const INITIAL: ParserState := State(map[], map[], None, None, 0)

  function Step(st: ParserState, line: DiffLine): ParserState {
    if line.FileHeader? then
      if line.path.None? then st.(currentPath := None) else st.Open(line.path.value)
    else if st.currentPath.None? then st
    else if line.HunkMark? then st.(newLineno := line.start, hunkId := st.hunkId + 1)
    else if st.newLineno.None? then st
    else
      match line
      case Addition(text) =>
        st.Record(st.currentPath.value, [ChangedLine(st.newLineno.value, text, st.hunkId)], 0)
          .(newLineno := Some(st.newLineno.value + 1))
      case Deletion => st.Record(st.currentPath.value, [], 1)
      case Context => st.(newLineno := Some(st.newLineno.value + 1))
      case _ => st
  }

  function Fold(st: ParserState, lines: seq<DiffLine>): ParserState
    decreases |lines|
  {
    if lines == [] then st else Fold(Step(st, lines[0]), lines[1..])
  }

  function Finish(st: ParserState): map<string, ChangedFile> {
    map path | path in st.files :: ChangedFile(path, st.files[path], st.deleted[path])
  }

  /** What the parser returns for a diff given as its sequence of lines. */
  function Parsed(lines: seq<string>): map<string, ChangedFile> { Finish(Fold(INITIAL, KindsOf(Classify, lines))) }

  lemma {:induction false} FoldConcat(st: ParserState, a: seq<DiffLine>, b: seq<DiffLine>)
    ensures Fold(st, a + b) == Fold(Fold(st, a), b)
    decreases |a|
  {
    if a == [] {
      assert a + b == b;
    } else {
      assert (a + b)[0] == a[0] && (a + b)[1..] == a[1..] + b;
      FoldConcat(Step(st, a[0]), a[1..], b);
    }
  }

  lemma FoldNext(lines: seq<string>, i: nat)
    requires i < |lines|
    ensures Fold(INITIAL, KindsOf(Classify, lines[..i + 1]))
      == Step(Fold(INITIAL, KindsOf(Classify, lines[..i])), Classify(lines[i]))
  {
    assert lines[..i + 1] == lines[..i] + [lines[i]];
    KindsConcat(Classify, lines[..i], [lines[i]]);
    FoldConcat(INITIAL, KindsOf(Classify, lines[..i]), [Classify(lines[i])]);
    assert KindsOf(Classify, [lines[i]]) == [Classify(lines[i])];
  }

  /** The loop itself, with the five variables it updates. */
  method ParseUnifiedDiff(lines: seq<string>) returns (changed: map<string, ChangedFile>)
    ensures changed == Parsed(lines)
  {
    var files: map<string, seq<ChangedLine>> := map[];
    var deletedCounts: map<string, nat> := map[];
    var currentPath: Option<string> := None;
    var newLineno: Option<int> := None;
    var hunkId: nat := 0;
    for i := 0 to |lines|
      invariant State(files, deletedCounts, currentPath, newLineno, hunkId).Consistent()
      invariant State(files, deletedCounts, currentPath, newLineno, hunkId)
        == Fold(INITIAL, KindsOf(Classify, lines[..i]))
    {
      var raw := lines[i];
      FoldNext(lines, i);
      if IsFileHeader(raw) {
        currentPath := PathFromDiffHeader(raw);
        if currentPath.Some? {
          if currentPath.value !in files { files := files[currentPath.value := []]; }
          if currentPath.value !in deletedCounts { deletedCounts := deletedCounts[currentPath.value := 0]; }
        }
        continue;
      }
      if currentPath.None? { continue; }
      var path := currentPath.value;
      if IsHunkMark(raw) {
        newLineno := HunkStart(raw);
        hunkId := hunkId + 1;
        continue;
      }
      if newLineno.None? { continue; }
      if IsAddition(raw) {
        files := files[path := files[path] + [ChangedLine(newLineno.value, raw[1..], hunkId)]];
        newLineno := Some(newLineno.value + 1);
      } else if IsDeletion(raw) {
        deletedCounts := deletedCounts[path := deletedCounts[path] + 1];
        assert files[path] + [] == files[path];
      } else if IsContext(raw) {
        newLineno := Some(newLineno.value + 1);
      }
    }
    assert lines[..|lines|] == lines;
    changed := map path | path in files :: ChangedFile(path, files[path], deletedCounts[path]);
  }
}
