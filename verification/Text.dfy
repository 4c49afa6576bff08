/** Character classes, stripping and the line shapes the hunk recognisers look for.
    Each shape is a left-to-right scan; the character classes on both sides of every
    repetition are disjoint, so the longest run is the only one that can match. */
module Text {
  import opened Wrappers

  /** The characters removed by strip() and matched by \s. */
  predicate IsSpace(c: char) {
    '\t' <= c <= '\r' || '\U{1c}' <= c <= ' ' || c == '\U{85}' || c == '\U{a0}' || c == '\U{1680}'
    || '\U{2000}' <= c <= '\U{200a}' || c == '\U{2028}' || c == '\U{2029}' || c == '\U{202f}'
    || c == '\U{205f}' || c == '\U{3000}'
  }

  predicate IsDigit(c: char) { '0' <= c <= '9' }

  predicate IsNameStart(c: char) { 'A' <= c <= 'Z' || 'a' <= c <= 'z' || c == '_' }

  predicate IsNameChar(c: char) { IsNameStart(c) || IsDigit(c) }

  predicate IsNotColon(c: char) { c != ':' }

  predicate IsDottedChar(c: char) { IsNameChar(c) || c == '.' }

  function SpanFrom(s: string, p: char -> bool, i: nat): (n: nat)
    requires i <= |s|
    ensures i <= n <= |s| && (forall j | i <= j < n :: p(s[j])) && (n == |s| || !p(s[n]))
    decreases |s| - i
  {
    if i < |s| && p(s[i]) then SpanFrom(s, p, i + 1) else i
  }

  /** Length of the longest prefix whose characters all satisfy p. */
  function Span(s: string, p: char -> bool): (n: nat)
    ensures n <= |s| && (forall i | 0 <= i < n :: p(s[i])) && (n == |s| || !p(s[n]))
  {
    SpanFrom(s, p, 0)
  }

  /** The position after the last character of s[..n] that is not a space. */
  function TextEnd(s: string, n: nat): (end: nat)
    requires n <= |s|
    ensures end <= n && (end == 0 || !IsSpace(s[end - 1]))
    ensures forall i | end <= i < n :: IsSpace(s[i])
  {
    if n > 0 && IsSpace(s[n - 1]) then TextEnd(s, n - 1) else n
  }

  function Strip(s: string): (r: string)
    ensures r == "" || (!IsSpace(r[0]) && !IsSpace(r[|r| - 1]))
  {
    var start, end := Span(s, IsSpace), TextEnd(s, |s|);
    if start < end then s[start..end] else ""
  }

  lemma StripKeeps(s: string)
    requires s == "" || (!IsSpace(s[0]) && !IsSpace(s[|s| - 1]))
    ensures Strip(s) == s
  {
  }

  lemma StripIdempotent(s: string)
    ensures Strip(Strip(s)) == Strip(s)
  {
    StripKeeps(Strip(s));
  }

  predicate StartsWith(s: string, prefix: string) { prefix <= s }

  predicate EndsWith(s: string, suffix: string) {
    |suffix| <= |s| && s[|s| - |suffix|..] == suffix
  }

  predicate OccursAt(s: string, token: string, i: nat) {
    i + |token| <= |s| && s[i..i + |token|] == token
  }

  predicate Contains(s: string, token: string) {
    exists i | 0 <= i <= |s| :: OccursAt(s, token, i)
  }

  lemma {:induction false} SpanOfRun(run: string, rest: string, p: char -> bool)
    requires forall i | 0 <= i < |run| :: p(run[i])
    requires rest == "" || !p(rest[0])
    ensures Span(run + rest, p) == |run| && (run + rest)[|run|..] == rest
  {
    assert forall i | 0 <= i < |run| :: (run + rest)[i] == run[i];
    assert rest != "" ==> (run + rest)[|run|] == rest[0];
  }

  function AfterSpaces(s: string): string { s[Span(s, IsSpace)..] }

  function AfterName(s: string): string { s[Span(s, IsNameChar)..] }

  function AfterDotted(s: string): string { s[Span(s, IsDottedChar)..] }

  predicate StartsName(s: string) { s != "" && IsNameStart(s[0]) }

  predicate StartsSpace(s: string) { s != "" && IsSpace(s[0]) }

  /** What follows `NAME\s*=\s*` at the start of s. */
  function AssignmentRhs(s: string): Option<string> {
    var rest := AfterSpaces(AfterName(s));
    if StartsName(s) && rest != "" && rest[0] == '=' then Some(AfterSpaces(rest[1..])) else None
  }

  /** `NAME = dotted.name` */
  predicate AliasAssignment(s: string) {
    var rhs := AssignmentRhs(s);
    rhs.Some? && StartsName(rhs.value) && AfterDotted(rhs.value) == ""
  }

  /** `NAME = dotted.name`, an optional trailing comma allowed */
  predicate KeywordAssignment(s: string) {
    var rhs := AssignmentRhs(s);
    rhs.Some? && StartsName(rhs.value) && AfterDotted(rhs.value) in ["", ","]
  }

  /** `NAME = (` */
  predicate OpenAssignment(s: string) { AssignmentRhs(s) == Some("(") }

  /** `dotted.name`, an optional trailing comma allowed */
  predicate DottedItem(s: string) { StartsName(s) && AfterDotted(s) in ["", ","] }

  /** `NAME`, an optional trailing comma allowed */
  predicate NameItem(s: string) { StartsName(s) && AfterName(s) in ["", ","] }

  /** `NAME` or `NAME as NAME`, an optional trailing comma allowed */
  predicate ImportItem(s: string) {
    NameItem(s) ||
    (StartsName(s) &&
     var rest := AfterName(s);
     StartsSpace(rest) && StartsWith(AfterSpaces(rest), "as") &&
     var tail := AfterSpaces(rest)[2..];
     StartsSpace(tail) && NameItem(AfterSpaces(tail)))
  }

  /** whitespace, then exactly an opening parenthesis */
  predicate SpacedOpenParen(s: string) { StartsSpace(s) && AfterSpaces(s) == "(" }

  /** `from dotted.name import (`, any whitespace between the words */
  predicate FromImportOpen(s: string) {
    StartsWith(s, "from") && StartsSpace(s[4..]) &&
    var target := AfterSpaces(s[4..]);
    StartsName(target) && StartsSpace(AfterDotted(target)) &&
    var keyword := AfterSpaces(AfterDotted(target));
    StartsWith(keyword, "import") && SpacedOpenParen(keyword[6..])
  }

  /** `import (` or `from dotted.name import (` */
  predicate MultilineImportOpen(s: string) {
    FromImportOpen(s) || (StartsWith(s, "import") && SpacedOpenParen(s[6..]))
  }

  /** begins `return dotted.name(` */
  predicate ReturnCall(s: string) {
    StartsWith(s, "return") && StartsSpace(s[6..]) &&
    var callee := AfterSpaces(s[6..]);
    StartsName(callee) && StartsWith(AfterDotted(callee), "(")
  }

  /** begins `):` or `) -> annotation:` with a non-empty annotation */
  predicate CloseSignature(s: string) {
    StartsWith(s, ")") &&
    (StartsWith(s[1..], ":") ||
     (StartsWith(AfterSpaces(s[1..]), "->") &&
      var annotation := AfterSpaces(s[1..])[2..];
      0 < Span(annotation, IsNotColon) < |annotation|))
  }

  /** Lower-casing as far as ASCII tokens can see it: A-Z, and the Kelvin sign, which lowers to k. */
  function Lower(s: string): (r: string)
    ensures |r| == |s|
  {
    seq(|s|, i requires 0 <= i < |s| =>
      if 'A' <= s[i] <= 'Z' then ((s[i] as int) + 32) as char
      else if s[i] == '\U{212a}' then 'k' else s[i])
  }

  function Join(parts: seq<string>, separator: string): string {
    if parts == [] then "" else if |parts| == 1 then parts[0] else parts[0] + separator + Join(parts[1..], separator)
  }
}
