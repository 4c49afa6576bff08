/** The public surface of a capability class: methods collected through the name bases of a class graph that may contain
    cycles and diamonds, with a visited set local to each path. */
module MethodResolution {
  import opened Wrappers

  datatype Parameter = Parameter(name: string, annotation: Option<string>)

  datatype FunctionDef = FunctionDef(lineno: int, returnAnnotation: Option<string>, parameters: seq<Parameter>)

  datatype Member = Function(name: string, def: FunctionDef) | OtherMember

  /** bases: Some for a base written as a plain name, None for any other expression. */
  datatype ClassDef = ClassDef(name: string, bases: seq<Option<string>>, body: seq<Member>)

  predicate IsPublic(member: Member) { member.Function? && (member.name == "" || member.name[0] != '_') }

  /** The public functions of a class body; a later definition replaces an earlier one. */
  function Own(body: seq<Member>): map<string, FunctionDef> {
    if body == [] then map[]
    else
      var last := body[|body| - 1];
      Own(body[..|body| - 1]) + (if IsPublic(last) then map[last.name := last.def] else map[])
  }

  // --- The class definitions of a facade's sources ---

  predicate WellNamed(defs: map<string, ClassDef>) { forall name | name in defs :: defs[name].name == name }

  /** By name, the last definition of each. */
  function ClassDefs(classes: seq<ClassDef>): (defs: map<string, ClassDef>)
    ensures WellNamed(defs)
    ensures forall name :: name in defs <==> exists c | c in classes :: c.name == name
  {
    if classes == [] then map[]
    else
      var last := classes[|classes| - 1];
      assert classes == classes[..|classes| - 1] + [last];
      ClassDefs(classes[..|classes| - 1])[last.name := last]
  }

  /** The first class of the name: what the facade starts from. */
  function FirstNamed(classes: seq<ClassDef>, name: string): (first: Option<ClassDef>)
    ensures first.Some? ==> first.value.name == name && exists i | 0 <= i < |classes| :: classes[i] == first.value
  {
    if classes == [] then None else if classes[0].name == name then Some(classes[0]) else FirstNamed(classes[1..], name)
  }

  predicate NamesUnique(classes: seq<ClassDef>) {
    forall i, j | 0 <= i < j < |classes| :: classes[i].name != classes[j].name
  }

  /** With unique names the start class is the one the definitions hold. */
  lemma {:induction false} StartIsDefined(classes: seq<ClassDef>, name: string)
    requires NamesUnique(classes)
    ensures FirstNamed(classes, name).Some? <==> name in ClassDefs(classes)
    ensures FirstNamed(classes, name).Some? ==> FirstNamed(classes, name).value == ClassDefs(classes)[name]
  {
    if classes != [] {
      var front, last := classes[..|classes| - 1], classes[|classes| - 1];
      StartIsDefined(front, name);
      assert classes == front + [last];
      FirstNamedSnoc(front, last, name);
      assert last.name == name ==> FirstNamed(front, name).None? by {
        assert forall i | 0 <= i < |front| :: front[i].name != last.name;
      }
    }
  }

  lemma {:induction false} FirstNamedSnoc(classes: seq<ClassDef>, last: ClassDef, name: string)
    ensures FirstNamed(classes + [last], name) ==
      if FirstNamed(classes, name).Some? then FirstNamed(classes, name) else if last.name == name then Some(last)
        else None
    decreases |classes|
  {
    if classes == [] {
      assert classes + [last] == [last] && [last][1..] == [];
    } else {
      assert (classes + [last])[0] == classes[0] && (classes + [last])[1..] == classes[1..] + [last];
      FirstNamedSnoc(classes[1..], last, name);
    }
  }

  // --- Collection ---

  /** Base i of c, if it is a plain name with a definition. */
  function Base(c: ClassDef, defs: map<string, ClassDef>, i: nat): Option<ClassDef>
    requires i < |c.bases|
  {
    if c.bases[i].Some? && c.bases[i].value in defs then Some(defs[c.bases[i].value]) else None
  }

  /** Public methods of c, never entering a class already on the path. The classes left to enter get fewer at each
      level, so cycles end. */
  function Methods(c: ClassDef, defs: map<string, ClassDef>, seen: set<string>): map<string, FunctionDef>
    requires WellNamed(defs)
    decreases (defs.Keys + {c.name}) - seen, 0
  {
    if c.name in seen then map[]
    else
      assert c.name in (defs.Keys + {c.name}) - seen;
      Inherited(c, defs, seen + {c.name}, |c.bases|) + Own(c.body)
  }

  /** What the first n bases contribute, later ones replacing earlier ones. */
  function Inherited(c: ClassDef, defs: map<string, ClassDef>, seen: set<string>, n: nat): map<string, FunctionDef>
    requires WellNamed(defs) && n <= |c.bases|
    decreases defs.Keys - seen, n
  {
    if n == 0 then map[]
    else
      var base := Base(c, defs, n - 1);
      Inherited(c, defs, seen, n - 1)
      + (if base.None? then map[]
         else
           assert defs.Keys + {base.value.name} == defs.Keys;
           Methods(base.value, defs, seen))
  }

  /** The recursive collector. Its own set is a copy, so siblings do not see each other's classes. */
  method PublicMethods(c: ClassDef, defs: map<string, ClassDef>, seen: set<string>)
    returns (methods: map<string, FunctionDef>)
    requires WellNamed(defs)
    ensures methods == Methods(c, defs, seen)
    decreases (defs.Keys + {c.name}) - seen
  {
    if c.name in seen { return map[]; }
    assert c.name in (defs.Keys + {c.name}) - seen;
    var path := seen + {c.name};
    methods := map[];
    for i := 0 to |c.bases|
      invariant methods == Inherited(c, defs, path, i)
    {
      if c.bases[i].None? { continue; }
      if c.bases[i].value !in defs { continue; }
      var base := defs[c.bases[i].value];
      assert Base(c, defs, i) == Some(base) && defs.Keys + {base.name} == defs.Keys;
      var found := PublicMethods(base, defs, path);
      methods := methods + found;
    }
    methods := methods + Own(c.body);
  }

  // --- Key set: reachability ---

  /** From c, through name bases, along the names in path, to d. */
  predicate Leads(c: ClassDef, defs: map<string, ClassDef>, path: seq<string>, d: ClassDef)
    decreases |path|
  {
    if path == [] then d == c
    else Some(path[0]) in c.bases && path[0] in defs && Leads(defs[path[0]], defs, path[1..], d)
  }

  predicate Distinct(path: seq<string>) { forall i, j | 0 <= i < j < |path| :: path[i] != path[j] }

  ghost predicate Reaches(c: ClassDef, defs: map<string, ClassDef>, k: string) {
    exists path, d :: Leads(c, defs, path, d) && k in Own(d.body)
  }

  type Parts = nat -> map<string, FunctionDef>

  /** What each base contributes. */
  function PartsOf(c: ClassDef, defs: map<string, ClassDef>, seen: set<string>): Parts
    requires WellNamed(defs)
  {
    (i: nat) => if i < |c.bases| && Base(c, defs, i).Some? then Methods(Base(c, defs, i).value, defs, seen) else map[]
  }

  function Overlay(parts: Parts, n: nat): map<string, FunctionDef> {
    if n == 0 then map[] else Overlay(parts, n - 1) + parts(n - 1)
  }

  lemma InheritedNext(c: ClassDef, defs: map<string, ClassDef>, seen: set<string>, n: nat)
    requires WellNamed(defs) && n < |c.bases|
    ensures Inherited(c, defs, seen, n + 1) == Inherited(c, defs, seen, n) + PartsOf(c, defs, seen)(n)
  {
  }

  lemma {:induction false} InheritedIsOverlay(
      c: ClassDef, defs: map<string, ClassDef>, seen: set<string>, n: nat, parts: Parts)
    requires WellNamed(defs) && n <= |c.bases| && parts == PartsOf(c, defs, seen)
    ensures Inherited(c, defs, seen, n) == Overlay(parts, n)
  {
    if n > 0 {
      InheritedIsOverlay(c, defs, seen, n - 1, parts);
      InheritedNext(c, defs, seen, n - 1);
    }
  }

  lemma {:induction false} OverlayFrom(parts: Parts, n: nat, k: string) returns (i: nat)
    requires k in Overlay(parts, n)
    ensures i < n && k in parts(i) && Overlay(parts, n)[k] == parts(i)[k] && forall j: nat | i < j < n :: k !in parts(j)
  {
    if k in parts(n - 1) {
      i := n - 1;
    } else {
      i := OverlayFrom(parts, n - 1, k);
    }
  }

  /** The last base that contributes k wins. */
  lemma InheritedFrom(c: ClassDef, defs: map<string, ClassDef>, seen: set<string>, n: nat, k: string) returns (i: nat)
    requires WellNamed(defs) && n <= |c.bases| && k in Inherited(c, defs, seen, n)
    ensures i < n && Base(c, defs, i).Some? && k in Methods(Base(c, defs, i).value, defs, seen)
    ensures Inherited(c, defs, seen, n)[k] == Methods(Base(c, defs, i).value, defs, seen)[k]
    ensures forall j | i < j < n :: Base(c, defs, j).Some? ==> k !in Methods(Base(c, defs, j).value, defs, seen)
  {
    var parts := PartsOf(c, defs, seen);
    InheritedIsOverlay(c, defs, seen, n, parts);
    i := OverlayFrom(parts, n, k);
    forall j | i < j < n && Base(c, defs, j).Some? ensures k !in Methods(Base(c, defs, j).value, defs, seen) {
      assert parts(j) == Methods(Base(c, defs, j).value, defs, seen);
    }
  }

  lemma {:induction false} InheritedHas(
      c: ClassDef, defs: map<string, ClassDef>, seen: set<string>, n: nat, i: nat, k: string)
    requires WellNamed(defs) && i < n <= |c.bases| && Base(c, defs, i).Some?
      && k in Methods(Base(c, defs, i).value, defs, seen)
    ensures k in Inherited(c, defs, seen, n)
  {
    if i < n - 1 {
      InheritedHas(c, defs, seen, n - 1, i, k);
    }
  }

  /** Whatever is collected is the public function of a reachable class. */
  lemma {:induction false} CollectedReaches(c: ClassDef, defs: map<string, ClassDef>, seen: set<string>, k: string)
    requires WellNamed(defs) && k in Methods(c, defs, seen)
    ensures Reaches(c, defs, k)
    decreases (defs.Keys + {c.name}) - seen
  {
    if k in Own(c.body) {
      assert Leads(c, defs, [], c);
    } else {
      var i := InheritedFrom(c, defs, seen + {c.name}, |c.bases|, k);
      var base := Base(c, defs, i).value;
      assert c.name in (defs.Keys + {c.name}) - seen && defs.Keys + {base.name} == defs.Keys;
      CollectedReaches(base, defs, seen + {c.name}, k);
      var path, d :| Leads(base, defs, path, d) && k in Own(d.body);
      var whole := [base.name] + path;
      assert whole[1..] == path && c.bases[i] == Some(base.name);
      assert Leads(c, defs, whole, d);
    }
  }

  /** A path that avoids the visited classes and itself is followed to its end. */
  lemma {:induction false} SimplePathCollected(
      c: ClassDef, defs: map<string, ClassDef>, seen: set<string>, path: seq<string>, d: ClassDef, k: string)
    requires WellNamed(defs) && Leads(c, defs, path, d) && k in Own(d.body)
    requires Distinct(path) && c.name !in path && c.name !in seen && forall name | name in path :: name !in seen
    ensures k in Methods(c, defs, seen)
    decreases |path|
  {
    if path != [] {
      var base, rest := defs[path[0]], path[1..];
      forall name | name in rest ensures name != path[0] && name in path {
        var j :| 0 <= j < |rest| && rest[j] == name;
        assert path[j + 1] == name;
      }
      assert Distinct(rest);
      SimplePathCollected(base, defs, seen + {c.name}, rest, d, k);
      var i :| 0 <= i < |c.bases| && c.bases[i] == Some(path[0]);
      assert Base(c, defs, i) == Some(base);
      InheritedHas(c, defs, seen + {c.name}, |c.bases|, i, k);
    }
  }

  lemma {:induction false} LeadsFrom(c: ClassDef, defs: map<string, ClassDef>, path: seq<string>, d: ClassDef, i: nat)
    requires Leads(c, defs, path, d) && i < |path|
    ensures path[i] in defs && Leads(defs[path[i]], defs, path[i + 1..], d)
    decreases |path|
  {
    if i > 0 {
      LeadsFrom(defs[path[0]], defs, path[1..], d, i - 1);
      assert path[1..][i..] == path[i + 1..];
    }
  }

  /** Any path can be cut down to one without repetitions. */
  lemma {:induction false} Shortened(c: ClassDef, defs: map<string, ClassDef>, path: seq<string>, d: ClassDef)
    returns (short: seq<string>)
    requires WellNamed(defs) && Leads(c, defs, path, d) && (c.name in defs ==> defs[c.name] == c)
    ensures Leads(c, defs, short, d) && Distinct(short) && c.name !in short
    ensures forall name | name in short :: name in path
    decreases |path|
  {
    if path == [] {
      short := [];
    } else if c.name in path {
      var i :| 0 <= i < |path| && path[i] == c.name;
      LeadsFrom(c, defs, path, d, i);
      short := Shortened(c, defs, path[i + 1..], d);
    } else {
      var rest := Shortened(defs[path[0]], defs, path[1..], d);
      short := [path[0]] + rest;
      assert short[1..] == rest;
    }
  }

  /** Although the visited set is local to the path and diamonds are walked again, the collected names are exactly
      the public functions of all classes reachable through name bases, cycles included. */
  lemma SurfaceIsClosure(c: ClassDef, defs: map<string, ClassDef>)
    requires WellNamed(defs) && (c.name in defs ==> defs[c.name] == c)
    ensures forall k :: k in Methods(c, defs, {}) <==> Reaches(c, defs, k)
  {
    forall k ensures k in Methods(c, defs, {}) <==> Reaches(c, defs, k) {
      if k in Methods(c, defs, {}) {
        CollectedReaches(c, defs, {}, k);
      }
      if path, d :| Leads(c, defs, path, d) && k in Own(d.body) {
        var short := Shortened(c, defs, path, d);
        SimplePathCollected(c, defs, {}, short, d, k);
      }
    }
  }

  // --- Which definition wins ---

  /** Following base indices from c without re-entering a class, f is the first definition of k. */
  predicate FirstDefinition(
      c: ClassDef, defs: map<string, ClassDef>, seen: set<string>, route: seq<nat>, k: string, f: FunctionDef)
    decreases |route|
  {
    c.name !in seen &&
    (if route == [] then k in Own(c.body) && Own(c.body)[k] == f
     else
       && k !in Own(c.body)
       && route[0] < |c.bases| && Base(c, defs, route[0]).Some?
       && FirstDefinition(Base(c, defs, route[0]).value, defs, seen + {c.name}, route[1..], k, f))
  }

  /** At the first base where they part, b takes the later one. */
  predicate LexLess(a: seq<nat>, b: seq<nat>)
    decreases |a|
  {
    a != [] && b != [] && (a[0] < b[0] || (a[0] == b[0] && LexLess(a[1..], b[1..])))
  }

  lemma {:induction false} DefinitionCollected(
      c: ClassDef, defs: map<string, ClassDef>, seen: set<string>, route: seq<nat>, k: string, f: FunctionDef)
    requires WellNamed(defs) && FirstDefinition(c, defs, seen, route, k, f)
    ensures k in Methods(c, defs, seen)
    decreases |route|
  {
    if route != [] {
      DefinitionCollected(Base(c, defs, route[0]).value, defs, seen + {c.name}, route[1..], k, f);
      InheritedHas(c, defs, seen + {c.name}, |c.bases|, route[0], k);
    }
  }

  /** The collected definition is the first one along some route, and every other route to a first definition parts
      from it by taking an earlier base: own definitions override inherited ones, later bases override earlier ones. */
  lemma {:induction false} Winner(c: ClassDef, defs: map<string, ClassDef>, seen: set<string>, k: string)
    returns (route: seq<nat>)
    requires WellNamed(defs) && k in Methods(c, defs, seen)
    ensures FirstDefinition(c, defs, seen, route, k, Methods(c, defs, seen)[k])
    ensures forall other, f | FirstDefinition(c, defs, seen, other, k, f) && other != route :: LexLess(other, route)
    decreases (defs.Keys + {c.name}) - seen
  {
    if k in Own(c.body) {
      route := [];
    } else {
      var path := seen + {c.name};
      var i := InheritedFrom(c, defs, path, |c.bases|, k);
      var base := Base(c, defs, i).value;
      assert c.name in (defs.Keys + {c.name}) - seen && defs.Keys + {base.name} == defs.Keys;
      var rest := Winner(base, defs, path, k);
      route := [i] + rest;
      assert route[1..] == rest;
      forall other, f | FirstDefinition(c, defs, seen, other, k, f) && other != route ensures LexLess(other, route) {
        var j := other[0];
        DefinitionCollected(Base(c, defs, j).value, defs, path, other[1..], k, f);
        assert j <= i;
        if j == i {
          assert other == [j] + other[1..];
          assert FirstDefinition(base, defs, path, other[1..], k, f);
        }
      }
    }
  }

  /** A class with two different bases that have no bases of their own. */
  predicate TwoBases(c: ClassDef, a: ClassDef, b: ClassDef, defs: map<string, ClassDef>) {
    && WellNamed(defs) && {c.name, a.name, b.name} <= defs.Keys
    && defs[c.name] == c && defs[a.name] == a && defs[b.name] == b
    && c.name != a.name && c.name != b.name && a.name != b.name
    && c.bases == [Some(a.name), Some(b.name)] && a.bases == [] && b.bases == []
  }

  lemma SecondBaseTaken(c: ClassDef, a: ClassDef, b: ClassDef, defs: map<string, ClassDef>, k: string)
    requires TwoBases(c, a, b, defs) && k !in Own(c.body) && k in Own(b.body)
    ensures k in Methods(c, defs, {}) && Methods(c, defs, {})[k] == Own(b.body)[k]
  {
    var path := {} + {c.name};
    assert Methods(b, defs, path) == Own(b.body);
    assert Base(c, defs, 1) == Some(b);
    assert Inherited(c, defs, path, 2) == Inherited(c, defs, path, 1) + Methods(b, defs, path);
  }

  lemma OwnSingle(k: string, f: FunctionDef)
    requires k == "" || k[0] != '_'
    ensures Own([Function(k, f)]) == map[k := f]
  {
    assert [Function(k, f)][..0] == [];
  }

  /** Python itself takes the definition of the first of two unrelated bases; the collector takes the second's. */
  lemma SecondBaseWins(name: string, first: string, second: string, k: string, f: FunctionDef, g: FunctionDef)
    requires name != first && name != second && first != second && (k == "" || k[0] != '_')
    ensures var a := ClassDef(first, [], [Function(k, f)]); var b := ClassDef(second, [], [Function(k, g)]);
      var c := ClassDef(name, [Some(first), Some(second)], []);
      var methods := Methods(c, ClassDefs([a, b, c]), {});
      k in methods && methods[k] == g
  {
    var a, b := ClassDef(first, [], [Function(k, f)]), ClassDef(second, [], [Function(k, g)]);
    var c := ClassDef(name, [Some(first), Some(second)], []);
    var defs := ClassDefs([a, b, c]);
    assert [a, b, c][..2] == [a, b] && [a, b][..1] == [a] && [a][..0] == [];
    assert ClassDefs([a]) == map[first := a] && ClassDefs([a, b]) == map[first := a, second := b];
    assert defs == map[first := a, second := b][name := c];
    OwnSingle(k, g);
    SecondBaseTaken(c, a, b, defs, k);
  }

  // --- The facade check ---

  datatype Issue =
    | NoReturnAnnotation(name: string)
    | NoParameterAnnotation(name: string, parameter: string)
    | NotImplemented(name: string)
    | OutsideProtocol(name: string)

  function ParameterIssues(name: string, parameters: seq<Parameter>): set<Issue> {
    set i | 0 <= i < |parameters| && parameters[i].annotation.None? :: NoParameterAnnotation(name, parameters[i].name)
  }

  function MethodIssues(name: string, protocolMethod: FunctionDef, implementation: map<string, FunctionDef>): set<Issue>
  {
    (if protocolMethod.returnAnnotation.None? then {NoReturnAnnotation(name)} else {})
    + ParameterIssues(name, protocolMethod.parameters)
    + (if name !in implementation then {NotImplemented(name)} else {})
  }

  /** Fully annotated, apart from the receiver, which the parameter list leaves out. */
  predicate Annotated(f: FunctionDef) { f.returnAnnotation.Some? && forall p | p in f.parameters :: p.annotation.Some? }

  /** The two loops over the collected methods. */
  method ValidateSurface(protocol: map<string, FunctionDef>, implementation: map<string, FunctionDef>)
    returns (issues: set<Issue>)
    ensures issues ==
      (set name, issue | name in protocol && issue in MethodIssues(name, protocol[name], implementation) :: issue)
      + (set name | name in implementation && name !in protocol :: OutsideProtocol(name))
  {
    issues := {};
    var left := protocol.Keys;
    while left != {}
      invariant left <= protocol.Keys
      invariant issues ==
        set name, issue | name in protocol.Keys - left && issue in MethodIssues(name, protocol[name], implementation) ::
          issue
    {
      var name :| name in left;
      issues := issues + MethodIssues(name, protocol[name], implementation);
      left := left - {name};
    }
    left := implementation.Keys;
    ghost var found := issues;
    while left != {}
      invariant left <= implementation.Keys
      invariant issues == found + set name | name in implementation.Keys - left && name !in protocol ::
        OutsideProtocol(name)
    {
      var name :| name in left;
      if name !in protocol {
        issues := issues + {OutsideProtocol(name)};
      }
      left := left - {name};
    }
  }

  /** The check of a facade whose two classes exist finds nothing exactly when the same public names are reachable
      from both classes and every definition that wins on the protocol's side is annotated. */
  method ValidateFacade(classes: seq<ClassDef>, protocol: ClassDef, implementation: ClassDef)
    returns (issues: set<Issue>)
    requires NamesUnique(classes) && FirstNamed(classes, protocol.name) == Some(protocol)
    requires FirstNamed(classes, implementation.name) == Some(implementation)
    ensures issues == {} <==>
      && (forall k :: Reaches(protocol, ClassDefs(classes), k) <==> Reaches(implementation, ClassDefs(classes), k))
      && (forall k | k in Methods(protocol, ClassDefs(classes), {}) ::
        Annotated(Methods(protocol, ClassDefs(classes), {})[k]))
  {
    var defs := ClassDefs(classes);
    StartIsDefined(classes, protocol.name);
    StartIsDefined(classes, implementation.name);
    SurfaceIsClosure(protocol, defs);
    SurfaceIsClosure(implementation, defs);
    var protocolMethods := PublicMethods(protocol, defs, {});
    var implementationMethods := PublicMethods(implementation, defs, {});
    issues := ValidateSurface(protocolMethods, implementationMethods);
    NoIssuesExactlyWhen(protocolMethods, implementationMethods, issues);
  }

  lemma NoIssuesExactlyWhen(
      protocol: map<string, FunctionDef>, implementation: map<string, FunctionDef>, issues: set<Issue>)
    requires issues ==
      (set name, issue | name in protocol && issue in MethodIssues(name, protocol[name], implementation) :: issue)
      + (set name | name in implementation && name !in protocol :: OutsideProtocol(name))
    ensures issues == {} <==> protocol.Keys == implementation.Keys && forall k | k in protocol :: Annotated(protocol[k])
  {
    forall k | k in protocol ensures MethodIssues(k, protocol[k], implementation) == {} <==>
      k in implementation && Annotated(protocol[k]) {
      MethodIssuesNone(k, protocol[k], implementation);
    }
    forall k | k in protocol && MethodIssues(k, protocol[k], implementation) != {} ensures issues != {} {
      var issue :| issue in MethodIssues(k, protocol[k], implementation);
      assert issue in issues;
    }
    forall k | k in implementation && k !in protocol ensures issues != {} {
      assert OutsideProtocol(k) in issues;
    }
  }

  lemma MethodIssuesNone(name: string, f: FunctionDef, implementation: map<string, FunctionDef>)
    ensures MethodIssues(name, f, implementation) == {} <==> name in implementation && Annotated(f)
  {
    forall i | 0 <= i < |f.parameters| && f.parameters[i].annotation.None?
      ensures NoParameterAnnotation(name, f.parameters[i].name) in MethodIssues(name, f, implementation)
    {
    }
    if name !in implementation { assert NotImplemented(name) in MethodIssues(name, f, implementation); }
    if f.returnAnnotation.None? { assert NoReturnAnnotation(name) in MethodIssues(name, f, implementation); }
    if ParameterIssues(name, f.parameters) != {} {
      var issue :| issue in ParameterIssues(name, f.parameters);
    }
  }
}
