/** Reading git's numstat lines: counts per path, and which renames come out under the path they end up with. */
module Numstat {
  import opened Wrappers
  import opened Text
  import opened Classifier
  import DiffPrinter

  // --- Splitting ---

  predicate IsNotTab(c: char) { c != '\t' }

  /** `split("\t")` */
  function SplitTabs(s: string): (parts: seq<string>)
    ensures parts != []
    decreases |s|
  {
    var n := Span(s, IsNotTab);
    if n == |s| then [s] else [s[..n]] + SplitTabs(s[n + 1..])
  }

  lemma SplitFirst(part: string, rest: string)
    requires '\t' !in part
    ensures SplitTabs(part + ("\t" + rest)) == [part] + SplitTabs(rest)
  {
    var s := part + ("\t" + rest);
    SpanOfRun(part, "\t" + rest, IsNotTab);
    assert s[..|part|] == part && s[|part| + 1..] == rest;
  }

  lemma SplitLast(part: string)
    requires '\t' !in part
    ensures SplitTabs(part) == [part]
  {
    SpanOfRun(part, "", IsNotTab);
    assert part + "" == part;
  }

  const ARROW := " => "

  /** Position of the first arrow at or after i. */
  function ArrowFrom(s: string, i: nat): (position: Option<nat>)
    requires i <= |s|
    ensures position.Some? ==> i <= position.value && OccursAt(s, ARROW, position.value)
    ensures forall j | i <= j <= (if position.Some? then position.value - 1 else |s|) :: !OccursAt(s, ARROW, j)
    decreases |s| - i
  {
    if OccursAt(s, ARROW, i) then Some(i) else if i == |s| then None else ArrowFrom(s, i + 1)
  }

  predicate IsNotBrace(c: char) { c != '{' }

  /** What a text with an arrow becomes: what is outside the braces on the left, then what is on the right. */
  function ArrowTarget(value: string, arrow: nat): string
    requires arrow + 4 <= |value|
  {
    var right := value[arrow + 4..];
    if right != "" && right[|right| - 1] == '}' then value[..Span(value, IsNotBrace)] + right[..|right| - 1] else right
  }

  function NormalizePath(raw: string): string {
    var value := Strip(raw);
    match ArrowFrom(value, 0)
    case None => value
    case Some(arrow) => ArrowTarget(value, arrow)
  }

  // --- Renames ---

  /** What follows the arrow. */
  function AfterArrow(to: string, suffix: string): string { to + (['}'] + suffix) }

  function RenameTail(from: string, right: string): string { ['{'] + (from + (ARROW + right)) }

  /** git's short form of a rename: common directories outside the braces. */
  function RenameText(prefix: string, from: string, to: string, suffix: string): string {
    prefix + RenameTail(from, AfterArrow(to, suffix))
  }

  /** The path the rename ends at. git leaves out one of two slashes that meet over an empty middle. */
  function NewPath(prefix: string, to: string, suffix: string): string {
    if to == "" && suffix != "" then prefix + suffix[1..] else prefix + to + suffix
  }

  /** A rename git can print: the common parts are whole directories, and the arrow in the braces is the first. */
  ghost predicate PrintableRename(prefix: string, from: string, to: string, suffix: string) {
    && (prefix == "" || prefix[|prefix| - 1] == '/') && (suffix == "" || suffix[0] == '/')
    && Strip(RenameText(prefix, from, to, suffix)) == RenameText(prefix, from, to, suffix)
    && ArrowFrom(RenameText(prefix, from, to, suffix), 0) == Some(|prefix| + 1 + |from|)
  }

  /** What stands before the first brace of the common directories. */
  function BeforeBrace(prefix: string): string { prefix[..Span(prefix, IsNotBrace)] }

  lemma SpanToBrace(prefix: string, tail: string)
    requires tail != "" && tail[0] == '{'
    ensures Span(prefix + tail, IsNotBrace) == Span(prefix, IsNotBrace)
  {
    var n := Span(prefix, IsNotBrace);
    var front := prefix[..n];
    assert prefix + tail == front + (prefix[n..] + tail);
    SpanOfRun(front, prefix[n..] + tail, IsNotBrace);
  }

  /** The pieces the normaliser cuts the text into. */
  lemma RenameCut(value: string, prefix: string, tail: string, from: string, right: string)
    requires value == prefix + tail && tail == RenameTail(from, right)
    ensures value[..Span(value, IsNotBrace)] == BeforeBrace(prefix) && value[|prefix| + 1 + |from| + 4..] == right
  {
    SpanToBrace(prefix, tail);
    assert |ARROW| == 4;
    assert value[|prefix|..] == tail && tail[1..] == from + (ARROW + right);
    assert value[|prefix| + 1..] == from + (ARROW + right);
    assert value[|prefix| + 1 + |from|..] == ARROW + right;
  }

  lemma ArrowFollowed(value: string, arrow: nat)
    requires Strip(value) == value && ArrowFrom(value, 0) == Some(arrow)
    ensures arrow + 4 <= |value| && NormalizePath(value) == ArrowTarget(value, arrow)
  {
  }

  /** The normaliser on a text with an arrow, its two scans already done. */
  lemma TargetAt(value: string, arrow: nat, prefix: string, right: string)
    requires arrow + 4 <= |value|
    requires value[..Span(value, IsNotBrace)] == prefix && value[arrow + 4..] == right
    ensures ArrowTarget(value, arrow) == if right != "" && right[|right| - 1] == '}' then prefix + right[..|right| - 1]
      else right
  {
  }

  lemma RenameOf(value: string, prefix: string, tail: string, from: string, right: string)
    requires value == prefix + tail && tail == RenameTail(from, right)
    ensures |prefix| + 1 + |from| + 4 <= |value|
    ensures ArrowTarget(value, |prefix| + 1 + |from|)
      == if right != "" && right[|right| - 1] == '}' then BeforeBrace(prefix) + right[..|right| - 1] else right
  {
    RenameCut(value, prefix, tail, from, right);
    TargetAt(value, |prefix| + 1 + |from|, BeforeBrace(prefix), right);
  }

  /** One character is not enough to make up for the common directories. */
  lemma NeverEqual(prefix: string, to: string, suffix: string)
    requires prefix == "" || prefix[|prefix| - 1] == '/'
    ensures AfterArrow(to, suffix) != prefix + to + suffix
  {
    assert AfterArrow(to, suffix)[|to|] == '}';
    if |prefix| == 1 {
      NoShift(to, suffix);
      assert prefix == ['/'];
    }
  }

  lemma NoShift(to: string, suffix: string)
    ensures to + (['}'] + suffix) != ['/'] + to + suffix
  {
    assert multiset(to + (['}'] + suffix))['/'] == multiset(to)['/'] + multiset(suffix)['/'];
    assert multiset(['/'] + to + suffix)['/'] == 1 + multiset(to)['/'] + multiset(suffix)['/'];
  }

  /** With nothing between the braces on the right. */
  lemma NeverEqualEmpty(prefix: string, suffix: string)
    requires (prefix == "" || prefix[|prefix| - 1] == '/') && suffix != "" && suffix[0] == '/'
    ensures AfterArrow("", suffix) == prefix + suffix[1..] <==> prefix == "}/"
  {
    var right, path := AfterArrow("", suffix), prefix + suffix[1..];
    assert right == ['}'] + suffix;
    if prefix == "}/" {
      assert suffix == ['/'] + suffix[1..];
    } else if |prefix| == 2 {
      assert path[0] == prefix[0] && right[0] == '}';
      assert prefix == [prefix[0]] + ['/'];
    } else {
      assert |path| == |prefix| + |suffix| - 1 && |right| == |suffix| + 1;
    }
  }

  lemma OutcomeWithoutSuffix(prefix: string, before: string, to: string)
    requires before <= prefix
    ensures before + (to + ['}'])[..|to|] == prefix + to <==> before == prefix
  {
    assert (to + ['}'])[..|to|] == to;
  }

  /** The text after the arrow ends with a brace that belongs to the suffix. */
  lemma OutcomeAtBrace(prefix: string, before: string, to: string, suffix: string, right: string)
    requires (prefix == "" || prefix[|prefix| - 1] == '/') && suffix != "" && suffix[0] == '/'
    requires before <= prefix && (before == prefix || prefix[|before|] == '{') && right == AfterArrow(to, suffix)
    ensures before + right[..|right| - 1] != NewPath(prefix, to, suffix)
  {
    var got, path := before + right[..|right| - 1], NewPath(prefix, to, suffix);
    assert |got| == |before| + |to| + |suffix|;
    if to != "" && before == prefix {
      assert got[|prefix| + |to|] == right[|to|] == '}';
      assert path[|prefix| + |to|] == suffix[0];
    }
  }

  lemma OutcomesCompared(prefix: string, before: string, to: string, suffix: string, right: string)
    requires (prefix == "" || prefix[|prefix| - 1] == '/') && (suffix == "" || suffix[0] == '/')
      && right == AfterArrow(to, suffix)
    requires before <= prefix && (before == prefix || prefix[|before|] == '{')
    ensures var got := if right[|right| - 1] == '}' then before + right[..|right| - 1] else right;
      got == NewPath(prefix, to, suffix) <==>
      || (suffix == "" && before == prefix)
      || (suffix != "" && suffix[|suffix| - 1] != '}' && to == "" && prefix == "}/")
  {
    if suffix == "" {
      assert right == to + ['}'] && prefix + to + suffix == prefix + to;
      OutcomeWithoutSuffix(prefix, before, to);
    } else {
      assert right[|right| - 1] == suffix[|suffix| - 1];
      if suffix[|suffix| - 1] == '}' {
        OutcomeAtBrace(prefix, before, to, suffix, right);
      } else if to == "" {
        NeverEqualEmpty(prefix, suffix);
      } else {
        NeverEqual(prefix, to, suffix);
      }
    }
  }

  lemma BraceFree(prefix: string)
    ensures BeforeBrace(prefix) <= prefix
    ensures BeforeBrace(prefix) == prefix <==> '{' !in prefix
    ensures BeforeBrace(prefix) == prefix || prefix[|BeforeBrace(prefix)|] == '{'
  {
    if BeforeBrace(prefix) == prefix {
      assert Span(prefix, IsNotBrace) == |prefix|;
    }
  }

  /** A rename is recorded under its new path if and only if nothing follows the closing brace and no directory
      outside has a brace in its name; or the directory outside is one named `}`, nothing replaces the middle, and the
      rest does not end with a brace. */
  lemma RenameNormalizedExactlyWhen(prefix: string, from: string, to: string, suffix: string)
    requires PrintableRename(prefix, from, to, suffix)
    ensures NormalizePath(RenameText(prefix, from, to, suffix)) == NewPath(prefix, to, suffix) <==>
      || (suffix == "" && '{' !in prefix)
      || (suffix != "" && suffix[|suffix| - 1] != '}' && to == "" && prefix == "}/")
  {
    var right := AfterArrow(to, suffix);
    ArrowFollowed(RenameText(prefix, from, to, suffix), |prefix| + 1 + |from|);
    RenameOf(RenameText(prefix, from, to, suffix), prefix, RenameTail(from, right), from, right);
    BraceFree(prefix);
    OutcomesCompared(prefix, BeforeBrace(prefix), to, suffix, right);
  }

  lemma ArrowStartsWithSpace(s: string, i: nat)
    ensures OccursAt(s, ARROW, i) ==> s[i] == ' '
  {
    if OccursAt(s, ARROW, i) {
      assert s[i..i + |ARROW|][0] == s[i];
    }
  }

  lemma {:induction false} NoArrowBefore(s: string, i: nat, n: nat)
    requires i <= n <= |s| && forall j | i <= j < n :: s[j] != ' '
    ensures ArrowFrom(s, i) == ArrowFrom(s, n)
    decreases n - i
  {
    if i < n {
      ArrowStartsWithSpace(s, i);
      NoArrowBefore(s, i + 1, n);
    }
  }

  lemma ArrowAfter(value: string, front: string, right: string)
    requires value == front + (ARROW + right) && forall i | 0 <= i < |front| :: front[i] != ' '
    ensures ArrowFrom(value, 0) == Some(|front|)
  {
    assert forall i | 0 <= i < |front| :: value[i] == front[i];
    NoArrowBefore(value, 0, |front|);
    assert value[|front|..|front| + |ARROW|] == ARROW;
  }

  lemma EndsKept(value: string, first: string, last: string)
    requires first != "" && last != "" && first <= value && |last| <= |value| && value[|value| - |last|..] == last
    requires !IsSpace(first[0]) && !IsSpace(last[|last| - 1])
    ensures Strip(value) == value
  {
    assert value[0] == first[0] && value[|value| - 1] == last[|last| - 1];
    StripKeeps(value);
  }

  /** What stands before the arrow. */
  function BeforeArrow(prefix: string, from: string): string { prefix + (['{'] + from) }

  lemma RenameParts(prefix: string, from: string, to: string, suffix: string)
    ensures RenameText(prefix, from, to, suffix) == BeforeArrow(prefix, from) + (ARROW + AfterArrow(to, suffix))
  {
    var right := AfterArrow(to, suffix);
    assert prefix + (['{'] + (from + (ARROW + right))) == (prefix + (['{'] + from)) + (ARROW + right);
  }

  /** Every rename of paths without white space is one git can print, whatever follows the braces. */
  lemma SpacelessIsPrintable(prefix: string, from: string, to: string, suffix: string)
    requires (prefix == "" || prefix[|prefix| - 1] == '/') && (suffix == "" || suffix[0] == '/')
    requires forall i | 0 <= i < |BeforeArrow(prefix, from)| :: !IsSpace(BeforeArrow(prefix, from)[i])
    requires suffix == "" || !IsSpace(suffix[|suffix| - 1])
    ensures PrintableRename(prefix, from, to, suffix)
  {
    var value, front, right := RenameText(prefix, from, to, suffix), BeforeArrow(prefix, from), AfterArrow(to, suffix);
    RenameParts(prefix, from, to, suffix);
    ArrowAfter(value, front, right);
    assert value[|value| - |right|..] == right;
    assert suffix != "" ==> right[|right| - 1] == suffix[|suffix| - 1];
    EndsKept(value, front, right);
  }

  /** `a/{b => c}/d`, the rename of a directory with its file. */
  lemma DirectoryRenameLost()
    ensures PrintableRename("a/", "b", "c", "/d")
    ensures NormalizePath(RenameText("a/", "b", "c", "/d")) != NewPath("a/", "c", "/d") == "a/c/d"
  {
    SpacelessIsPrintable("a/", "b", "c", "/d");
    RenameNormalizedExactlyWhen("a/", "b", "c", "/d");
  }

  // --- Lines ---

  datatype NumstatError = BadCount

  /** count: what int() makes of a text, None if it rejects it. */
  function ReadCount(count: string -> Option<nat>, raw: string): Result<Option<nat>, NumstatError> {
    if raw == "-" then Ok(None) else if count(raw).None? then Raised(BadCount) else Ok(count(raw))
  }

  /** One line added to the counts so far; a line with fewer than three fields is skipped. */
  function ReadLine(count: string -> Option<nat>, stats: map<string, DiffStat>, line: string)
    : Result<map<string, DiffStat>, NumstatError>
  {
    var parts := SplitTabs(line);
    if |parts| < 3 then Ok(stats)
    else
      var path := NormalizePath(parts[|parts| - 1]);
      match ReadCount(count, parts[0])
      case Raised(error) => Raised(error)
      case Ok(added) =>
        match ReadCount(count, parts[1])
        case Raised(error) => Raised(error)
        case Ok(deleted) => Ok(stats[path := DiffStat(path, added, deleted)])
  }

  function ReadLines(count: string -> Option<nat>, stats: map<string, DiffStat>, lines: seq<string>)
    : Result<map<string, DiffStat>, NumstatError>
    decreases |lines|
  {
    if lines == [] then Ok(stats)
    else
      match ReadLine(count, stats, lines[0])
      case Raised(error) => Raised(error)
      case Ok(next) => ReadLines(count, next, lines[1..])
  }

  method ParseNumstat(count: string -> Option<nat>, lines: seq<string>)
    returns (result: Result<map<string, DiffStat>, NumstatError>)
    ensures result == ReadLines(count, map[], lines)
  {
    var stats: map<string, DiffStat> := map[];
    assert lines[0..] == lines;
    for i := 0 to |lines|
      invariant ReadLines(count, map[], lines) == ReadLines(count, stats, lines[i..])
    {
      assert lines[i..][0] == lines[i] && lines[i..][1..] == lines[i + 1..];
      var next := ReadLine(count, stats, lines[i]);
      if next.Raised? { return Raised(next.error); }
      stats := next.value;
    }
    result := Ok(stats);
  }

  // --- Reading back what git prints ---

  function PrintCount(n: Option<nat>): string { if n.None? then "-" else DiffPrinter.Decimal(n.value) }

  function PrintStat(stat: DiffStat): string {
    PrintCount(stat.addedLineCount) + ("\t" + (PrintCount(stat.deletedLineCount) + ("\t" + stat.relativePath)))
  }

  function PrintStats(stats: seq<DiffStat>): seq<string> {
    if stats == [] then [] else [PrintStat(stats[0])] + PrintStats(stats[1..])
  }

  /** The last row of each path. */
  function LastByPath(before: map<string, DiffStat>, stats: seq<DiffStat>): map<string, DiffStat>
    decreases |stats|
  {
    if stats == [] then before else LastByPath(before[stats[0].relativePath := stats[0]], stats[1..])
  }

  ghost predicate PlainStat(stat: DiffStat) {
    '\t' !in stat.relativePath && Strip(stat.relativePath) == stat.relativePath && ArrowFrom(stat.relativePath, 0).None?
  }

  ghost predicate ReadsDecimals(count: string -> Option<nat>) {
    forall n: nat :: count(DiffPrinter.Decimal(n)) == Some(n)
  }

  lemma CountRead(count: string -> Option<nat>, n: Option<nat>)
    requires ReadsDecimals(count)
    ensures ReadCount(count, PrintCount(n)) == Ok(n) && '\t' !in PrintCount(n)
  {
    if n.Some? {
      var digits := DiffPrinter.Decimal(n.value);
      assert digits != "-" by {
        var dash := "-";
        assert dash[0] == '-';
      }
      assert forall i | 0 <= i < |digits| :: digits[i] != '\t';
    }
  }

  lemma StatRead(count: string -> Option<nat>, stats: map<string, DiffStat>, stat: DiffStat)
    requires ReadsDecimals(count) && PlainStat(stat)
    ensures ReadLine(count, stats, PrintStat(stat)) == Ok(stats[stat.relativePath := stat])
  {
    var added, deleted := PrintCount(stat.addedLineCount), PrintCount(stat.deletedLineCount);
    CountRead(count, stat.addedLineCount);
    CountRead(count, stat.deletedLineCount);
    SplitFirst(added, deleted + ("\t" + stat.relativePath));
    SplitFirst(deleted, stat.relativePath);
    SplitLast(stat.relativePath);
    assert SplitTabs(PrintStat(stat)) == [added, deleted, stat.relativePath];
  }

  /** Plain rows read back as they were printed, binary files included; the last row of a path counts. */
  lemma {:induction false} NumstatRoundTrip(
      count: string -> Option<nat>, before: map<string, DiffStat>, stats: seq<DiffStat>)
    requires ReadsDecimals(count) && forall stat | stat in stats :: PlainStat(stat)
    ensures ReadLines(count, before, PrintStats(stats)) == Ok(LastByPath(before, stats))
    decreases |stats|
  {
    if stats != [] {
      StatRead(count, before, stats[0]);
      NumstatRoundTrip(count, before[stats[0].relativePath := stats[0]], stats[1..]);
      assert PrintStats(stats)[1..] == PrintStats(stats[1..]);
    }
  }
}
