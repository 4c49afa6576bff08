/** The inverse of the parser: an edit script, the unified diff git prints for it, and what the
    parser recovers from that diff. */
module DiffPrinter {
  import opened Wrappers
  import opened Text
  import opened Sums
  import opened DiffParser

  // --- Edit scripts ---

  datatype Op =
    | Keep(text: string)
    | Add(text: string)
    | Del(text: string)
    | NoNewline

  /** A file is cut into stretches the diff leaves out and hunks it prints. */
  datatype Segment =
    | Gap(lines: seq<string>)
    | Hunk(ops: seq<Op>, section: string)

  /** preamble: git's extended header lines. target: the new path, or None for a deleted file. */
  datatype FileEdit = FileEdit(preamble: seq<string>, source: string, target: Option<string>, segments: seq<Segment>)

  function OldOps(ops: seq<Op>): seq<string> {
    if ops == [] then []
    else (if ops[0].Keep? || ops[0].Del? then [ops[0].text] else []) + OldOps(ops[1..])
  }

  function NewOps(ops: seq<Op>): seq<string> {
    if ops == [] then []
    else (if ops[0].Keep? || ops[0].Add? then [ops[0].text] else []) + NewOps(ops[1..])
  }

  /** The file before the edit. */
  function OldText(segments: seq<Segment>): seq<string> {
    if segments == [] then []
    else (match segments[0] case Gap(lines) => lines case Hunk(ops, _) => OldOps(ops)) + OldText(segments[1..])
  }

  /** The file after the edit. */
  function NewText(segments: seq<Segment>): seq<string> {
    if segments == [] then []
    else (match segments[0] case Gap(lines) => lines case Hunk(ops, _) => NewOps(ops)) + NewText(segments[1..])
  }

  function AllOps(segments: seq<Segment>): seq<Op> {
    if segments == [] then []
    else (if segments[0].Hunk? then segments[0].ops else []) + AllOps(segments[1..])
  }

  lemma OneHunk(ops: seq<Op>)
    ensures AllOps([Hunk(ops, "")]) == ops
  {
    assert ops + [] == ops;
  }

  /** The texts a hunk adds, in order. */
  function AddTexts(ops: seq<Op>): seq<string> {
    if ops == [] then []
    else (if ops[0].Add? then [ops[0].text] else []) + AddTexts(ops[1..])
  }

  /** How many deleted texts satisfy p. */
  function DelCount(ops: seq<Op>, p: string -> bool): nat {
    if ops == [] then 0
    else (if ops[0].Del? && p(ops[0].text) then 1 else 0) + DelCount(ops[1..], p)
  }

  // --- Printing ---

  function DigitChar(d: nat): char
    requires d < 10
  {
    ('0' as int + d) as char
  }

  function Decimal(n: nat): (s: string)
    ensures |s| > 0 && forall i | 0 <= i < |s| :: IsDigit(s[i])
  {
    if n < 10 then [DigitChar(n)] else Decimal(n / 10) + [DigitChar(n % 10)]
  }

  lemma {:induction false} DecimalRoundTrip(n: nat)
    ensures ParseNat(Decimal(n)) == n
  {
    if n < 10 {
      assert ParseNat([]) == 0;
      assert [DigitChar(n)][..0] == [];
    } else {
      DecimalRoundTrip(n / 10);
      var s := Decimal(n);
      assert s[..|s| - 1] == Decimal(n / 10);
    }
  }

  /** `start,count` with git's conventions: a lone start for one line, the line before for none. */
  function Range(before: nat, count: nat): string {
    Decimal(if count == 0 then before else before + 1) + (if count == 1 then "" else "," + Decimal(count))
  }

  function PrintOp(op: Op): string {
    match op
    case Keep(text) => " " + text
    case Add(text) => "+" + text
    case Del(text) => "-" + text
    case NoNewline => "\\" + " No newline at end of file"
  }

  function PrintOps(ops: seq<Op>): seq<string> {
    if ops == [] then [] else [PrintOp(ops[0])] + PrintOps(ops[1..])
  }

  function HunkHeader(ops: seq<Op>, section: string, oldBefore: nat, newBefore: nat): string {
    "@@ -" + Range(oldBefore, |OldOps(ops)|) + " +" + Range(newBefore, |NewOps(ops)|) + " @@" + section
  }

  /** Operations, section text, old and new lines before the hunk, to its header line. */
  type HeaderPrinter = (seq<Op>, string, nat, nat) -> string

  function PrintHunk(headerLine: string, ops: seq<Op>): seq<string> { [headerLine] + PrintOps(ops) }

  function PrintSegments(header: HeaderPrinter, segments: seq<Segment>, oldBefore: nat, newBefore: nat): seq<string> {
    if segments == [] then []
    else match segments[0]
      case Gap(lines) => PrintSegments(header, segments[1..], oldBefore + |lines|, newBefore + |lines|)
      case Hunk(ops, section) =>
        PrintHunk(header(ops, section, oldBefore, newBefore), ops)
        + PrintSegments(header, segments[1..], oldBefore + |OldOps(ops)|, newBefore + |NewOps(ops)|)
  }

  /** git closes the path with a tab when it contains a space. */
  function TargetHeader(target: Option<string>): string {
    match target
    case None => "+++ " + "/dev/null"
    case Some(path) => "+++ " + (("b/" + path) + (if ' ' in path then "\t" else ""))
  }

  function SourceHeader(source: string): string { "--- " + source }

  function PrintFile(header: HeaderPrinter, edit: FileEdit): seq<string> {
    edit.preamble + ([SourceHeader(edit.source), TargetHeader(edit.target)]
      + PrintSegments(header, edit.segments, 0, 0))
  }

  function PrintAll(header: HeaderPrinter, edits: seq<FileEdit>): seq<string> {
    if edits == [] then [] else PrintFile(header, edits[0]) + PrintAll(header, edits[1..])
  }

  function Print(edits: seq<FileEdit>): seq<string> { PrintAll(HunkHeader, edits) }

  // --- Well-formed scripts ---

  /** A line no branch of the parser reacts to. */
  predicate Quiet(line: string) {
    !(|line| >= 1 && line[0] in ['+', '-', ' ']) && !IsHunkMark(line)
  }

  /** A path without the white space at its end. */
  function Trimmed(path: string): string { path[..TextEnd(path, |path|)] }

  predicate EndsPlain(path: string) { path == "" || !IsSpace(path[|path| - 1]) }

  /** A path git prints as it is. */
  predicate PrintablePath(path: string) { '\t' !in path && Trimmed(path) != "/dev/null" }

  predicate PlainPath(path: string) { PrintablePath(path) && EndsPlain(path) }

  /** What git prints for a file, whatever its path ends with. */
  ghost predicate PrintableFile(edit: FileEdit) {
    && (forall line | line in edit.preamble :: Quiet(line))
    && (edit.target.Some? ==> PrintablePath(edit.target.value))
    && (edit.target.None? ==> NewText(edit.segments) == [])
  }

  ghost predicate Printable(edits: seq<FileEdit>) { forall edit | edit in edits :: PrintableFile(edit) }

  ghost predicate PathsPlain(edits: seq<FileEdit>) {
    forall edit | edit in edits :: edit.target.Some? ==> EndsPlain(edit.target.value)
  }

  /** And no path ends with white space. */
  ghost predicate WellFormedFile(edit: FileEdit) {
    PrintableFile(edit) && (edit.target.Some? ==> EndsPlain(edit.target.value))
  }

  ghost predicate WellFormed(edits: seq<FileEdit>) {
    forall edit | edit in edits :: WellFormedFile(edit)
  }

  // --- What the parser should recover ---

  /** The added lines of a hunk that starts after `before` new-file lines. */
  function OpsAdded(ops: seq<Op>, before: int, hunkId: nat): seq<ChangedLine> {
    if ops == [] then []
    else match ops[0]
      case Keep(_) => OpsAdded(ops[1..], before + 1, hunkId)
      case Add(text) => [ChangedLine(before + 1, text, hunkId)] + OpsAdded(ops[1..], before + 1, hunkId)
      case _ => OpsAdded(ops[1..], before, hunkId)
  }

  /** The added lines of a file, hunks numbered from hunkId + 1. */
  function AddedLines(segments: seq<Segment>, before: nat, hunkId: nat): seq<ChangedLine> {
    if segments == [] then []
    else match segments[0]
      case Gap(lines) => AddedLines(segments[1..], before + |lines|, hunkId)
      case Hunk(ops, _) =>
        OpsAdded(ops, before, hunkId + 1) + AddedLines(segments[1..], before + |NewOps(ops)|, hunkId + 1)
  }

  function HunkCount(segments: seq<Segment>): nat {
    if segments == [] then 0 else (if segments[0].Hunk? then 1 else 0) + HunkCount(segments[1..])
  }

  /** Parser state after a file, line number forgotten, if exactly the deletions satisfying p are counted. */
  function Replay(st: ParserState, edit: FileEdit, p: string -> bool): ParserState {
    match edit.target
    case None => st.(currentPath := None, newLineno := None)
    case Some(path) =>
      st.Open(path)
        .Record(path, AddedLines(edit.segments, 0, st.hunkId), DelCount(AllOps(edit.segments), p))
        .(newLineno := None, hunkId := st.hunkId + HunkCount(edit.segments))
  }

  function ReplayAll(st: ParserState, edits: seq<FileEdit>, p: string -> bool): ParserState
    decreases |edits|
  {
    if edits == [] then st else ReplayAll(Replay(st, edits[0], p), edits[1..], p)
  }

  predicate Always(text: string) { true }

  /** Deletions the parser can see: `-` followed by this text is not a `---` line. */
  predicate NoDashes(text: string) { !Doubled(text, '-') }

  /** The edit script's own account: every added line, every deletion. */
  function Intended(edits: seq<FileEdit>): map<string, ChangedFile> { Finish(ReplayAll(INITIAL, edits, Always)) }

  // --- What the parser keeps of a script ---

  /** A text that prints as a line beginning `+++` or `---` adds and deletes nothing for the parser. */
  function SeenOp(op: Op): Op {
    match op
    case Add(text) => if Doubled(text, '+') then NoNewline else op
    case Del(text) => if Doubled(text, '-') then NoNewline else op
    case _ => op
  }

  function Seen(ops: seq<Op>): seq<Op> { if ops == [] then [] else [SeenOp(ops[0])] + Seen(ops[1..]) }

  /** The added lines the parser keeps: each hunk starts at its true place, and skipped lines are not numbered. */
  function KeptLines(segments: seq<Segment>, before: nat, hunkId: nat): seq<ChangedLine> {
    if segments == [] then []
    else match segments[0]
      case Gap(lines) => KeptLines(segments[1..], before + |lines|, hunkId)
      case Hunk(ops, _) =>
        OpsAdded(Seen(ops), before, hunkId + 1) + KeptLines(segments[1..], before + |NewOps(ops)|, hunkId + 1)
  }

  /** What the parser makes of the target. */
  function ReadTarget(target: Option<string>): Option<string> {
    if target.None? then None else Some(Trimmed(target.value))
  }

  /** Parser state after a file, line number forgotten. */
  function Recover(st: ParserState, edit: FileEdit): ParserState {
    match ReadTarget(edit.target)
    case None => st.(currentPath := None, newLineno := None)
    case Some(path) =>
      st.Open(path)
        .Record(path, KeptLines(edit.segments, 0, st.hunkId), DelCount(AllOps(edit.segments), NoDashes))
        .(newLineno := None, hunkId := st.hunkId + HunkCount(edit.segments))
  }

  function RecoverAll(st: ParserState, edits: seq<FileEdit>): ParserState
    decreases |edits|
  {
    if edits == [] then st else RecoverAll(Recover(st, edits[0]), edits[1..])
  }

  /** The parser's account of the script. */
  function Recovered(edits: seq<FileEdit>): map<string, ChangedFile> { Finish(RecoverAll(INITIAL, edits)) }

  /** Prints as a line beginning `+++ `. */
  predicate LooksLikeHeader(text: string) { Doubled(text, '+') && |text| >= 3 && text[2] == ' ' }

  lemma FalseHeaderRead(text: string)
    ensures LooksLikeHeader(text) <==> IsFileHeader(PrintOp(Add(text)))
  {
    var line := PrintOp(Add(text));
    assert line[0] == '+' && line[1..] == text;
    assert forall i | 0 <= i < |text| :: line[i + 1] == text[i];
  }

  ghost predicate NoFalseHeader(ops: seq<Op>) { forall op | op in ops :: op.Add? ==> !LooksLikeHeader(op.text) }

  /** In files that still exist, no added text is read as a file header. */
  ghost predicate NoFalseHeaders(edits: seq<FileEdit>) {
    forall edit | edit in edits :: edit.target.Some? ==> NoFalseHeader(AllOps(edit.segments))
  }

  // --- Which scripts survive the round trip ---

  ghost predicate NoPlusPlus(ops: seq<Op>) {
    forall op | op in ops :: op.Add? ==> !Doubled(op.text, '+')
  }

  ghost predicate NoDashDash(ops: seq<Op>) {
    forall op | op in ops :: op.Del? ==> !Doubled(op.text, '-')
  }

  /** In files that still exist, no added text begins `++` and no deleted text begins `--`. */
  ghost predicate Unambiguous(edits: seq<FileEdit>) {
    forall edit | edit in edits && edit.target.Some? ::
      NoPlusPlus(AllOps(edit.segments)) && NoDashDash(AllOps(edit.segments))
  }

  ghost predicate AllNoPlusPlus(edits: seq<FileEdit>) {
    forall edit | edit in edits :: edit.target.Some? ==> NoPlusPlus(AllOps(edit.segments))
  }

  // --- Headers are read back ---

  lemma PrefixDropped(prefix: string, rest: string)
    ensures prefix <= prefix + rest && (prefix + rest)[|prefix|..] == rest
  {
  }

  lemma CountSkipped(count: nat, rest: string)
    requires rest != "" && !IsDigit(rest[0]) && rest[0] != ','
    ensures SkipCount((if count == 1 then "" else "," + Decimal(count)) + rest) == rest
  {
    if count == 1 {
      assert "" + rest == rest;
    } else {
      var digits := Decimal(count);
      PrefixDropped(",", digits + rest);
      SpanOfRun(digits, rest, IsDigit);
      var s := "," + (digits + rest);
      assert "," + digits + rest == s;
      assert s[1 + |digits|..] == (digits + rest)[|digits|..];
    }
  }

  /** The digits of a printed range are read off first, and the rest of it is skipped. */
  lemma RangeRead(before: nat, count: nat, rest: string)
    requires rest != "" && !IsDigit(rest[0]) && rest[0] != ','
    ensures var n := Span(Range(before, count) + rest, IsDigit);
      && n > 0
      && (Range(before, count) + rest)[..n] == Decimal(if count == 0 then before else before + 1)
      && SkipCount((Range(before, count) + rest)[n..]) == rest
  {
    var start := Decimal(if count == 0 then before else before + 1);
    var tail := (if count == 1 then "" else "," + Decimal(count)) + rest;
    assert Range(before, count) + rest == start + tail;
    SpanOfRun(start, tail, IsDigit);
    CountSkipped(count, rest);
  }

  lemma HeaderRead(ops: seq<Op>, section: string, oldBefore: nat, newBefore: nat)
    ensures var line := HunkHeader(ops, section, oldBefore, newBefore);
      && IsHunkMark(line)
      && HunkStart(line) == Some(if NewOps(ops) == [] then newBefore else newBefore + 1)
  {
    var line := HunkHeader(ops, section, oldBefore, newBefore);
    var closing := " @@" + section;
    var oldRange := Range(oldBefore, |OldOps(ops)|);
    var newRange := Range(newBefore, |NewOps(ops)|);
    var middle := " +" + (newRange + closing);
    assert line == "@@ -" + (oldRange + middle);
    PrefixDropped("@@ -", oldRange + middle);
    assert line[0] == '@' && line[1] == '@' && line[2] == ' ';
    RangeRead(oldBefore, |OldOps(ops)|, middle);
    PrefixDropped(" +", newRange + closing);
    RangeRead(newBefore, |NewOps(ops)|, closing);
    PrefixDropped(" @@", section);
    StartRead(line, oldRange + middle, middle, newRange + closing, closing);
    DecimalRoundTrip(if NewOps(ops) == [] then newBefore else newBefore + 1);
  }

  /** HunkStart, one piece at a time. */
  lemma StartRead(line: string, afterOld: string, middle: string, afterNew: string, closing: string)
    requires "@@ -" <= line && line[4..] == afterOld && Span(afterOld, IsDigit) > 0
    requires SkipCount(afterOld[Span(afterOld, IsDigit)..]) == middle
    requires " +" <= middle && middle[2..] == afterNew && Span(afterNew, IsDigit) > 0
    requires SkipCount(afterNew[Span(afterNew, IsDigit)..]) == closing && " @@" <= closing
    ensures HunkStart(line) == Some(ParseNat(afterNew[..Span(afterNew, IsDigit)]))
  {
  }

  lemma CandidateRead(value: string, tail: string)
    requires '\t' !in value
    requires tail == "" || tail[0] == '\t'
    ensures IsFileHeader("+++ " + (value + tail))
    ensures PathFromDiffHeader("+++ " + (value + tail)) ==
      (if StripGitPrefix(value) == "/dev/null" then None else Some(StripGitPrefix(value)))
  {
    PrefixDropped("+++ ", value + tail);
    SpanOfRun(value, tail, IsNotTab);
    assert (value + tail)[..|value|] == value;
  }

  lemma GitPrefixDropped(value: string)
    requires |value| >= 2 && value[0] == 'b' && value[1] == '/' && Strip(value) == value
    ensures StripGitPrefix(value) == value[2..]
  {
    var prefix := "b/";
    assert prefix <= value;
    var devNull := "/dev/null";
    assert devNull[0] == '/';
  }

  lemma PathRead(path: string, value: string, tail: string)
    requires PrintablePath(path) && |value| == |path| + 2
    requires value[0] == 'b' && value[1] == '/' && value[2..] == path
    requires tail == "" || tail[0] == '\t'
    ensures IsFileHeader("+++ " + (value + tail)) && PathFromDiffHeader("+++ " + (value + tail)) == Some(Trimmed(path))
  {
    assert forall i | 2 <= i < |value| :: value[i] == path[i - 2];
    CandidateRead(value, tail);
    TrimmedRead(path, value);
  }

  lemma {:induction false} TextEndShift(path: string, value: string, n: nat)
    requires n <= |path| && |value| == |path| + 2 && value[2..] == path && !IsSpace(value[1])
    ensures TextEnd(value, n + 2) == TextEnd(path, n) + 2
  {
    if n > 0 {
      assert value[n + 1] == path[n - 1];
      if IsSpace(path[n - 1]) {
        TextEndShift(path, value, n - 1);
      }
    }
  }

  /** Stripping takes the white space off the end; then the prefix goes. */
  lemma TrimmedRead(path: string, value: string)
    requires |value| == |path| + 2 && value[0] == 'b' && value[1] == '/' && value[2..] == path
    ensures StripGitPrefix(value) == Trimmed(path)
  {
    TextEndShift(path, value, |path|);
    var kept := value[..|Trimmed(path)| + 2];
    assert Strip(value) == kept;
    assert kept[2..] == Trimmed(path);
    StripAgain(value, kept);
    GitPrefixDropped(kept);
  }

  lemma StripAgain(value: string, kept: string)
    requires Strip(value) == kept
    ensures Strip(kept) == kept && StripGitPrefix(value) == StripGitPrefix(kept)
  {
    StripKeeps(kept);
  }

  lemma NullRead(value: string)
    requires value == "/dev/null"
    ensures IsFileHeader("+++ " + value) && PathFromDiffHeader("+++ " + value) == None
  {
    assert value[0] == '/' && value[8] == 'l';
    CandidateRead(value, "");
    assert value + "" == value;
    StripKeeps(value);
  }

  lemma PlainIsTrimmed(path: string)
    ensures Trimmed(path) == path <==> EndsPlain(path)
  {
  }

  /** A printed target is read back without the white space at its end. */
  lemma TargetRead(target: Option<string>)
    requires target.Some? ==> PrintablePath(target.value)
    ensures IsFileHeader(TargetHeader(target))
    ensures PathFromDiffHeader(TargetHeader(target)) == if target.None? then None else Some(Trimmed(target.value))
  {
    match target
    case Some(path) =>
      var tail := if ' ' in path then "\t" else "";
      PathRead(path, "b/" + path, tail);
    case None => NullRead("/dev/null");
  }
}
