/** Python's own resolution of a method, by the linearization of the class, against the collector's: where the two
    agree. */
module PythonResolution {
  import opened Wrappers
  import L = Linearize
  import opened MethodResolution

  // --- Python's answer ---

  /** The names of the first n bases that have a definition. */
  function BaseNames(c: ClassDef, defs: map<string, ClassDef>, n: nat): seq<string>
    requires n <= |c.bases|
  {
    if n == 0 then []
    else if Base(c, defs, n - 1).None? then BaseNames(c, defs, n - 1)
    else BaseNames(c, defs, n - 1) + [Base(c, defs, n - 1).value.name]
  }

  /** The class, then the merge of its bases' linearizations and of the bases themselves. Python builds no class that
      inherits from itself. */
  function Linearization(c: ClassDef, defs: map<string, ClassDef>, seen: set<string>): (order: Option<seq<string>>)
    requires WellNamed(defs)
    ensures order.Some? ==> |order.value| > 0
    decreases (defs.Keys + {c.name}) - seen, 0
  {
    if c.name in seen then None
    else
      assert c.name in (defs.Keys + {c.name}) - seen;
      match BaseLinearizations(c, defs, seen + {c.name}, |c.bases|)
      case None => None
      case Some(lists) =>
        match L.Merge(lists + L.Ahead(BaseNames(c, defs, |c.bases|)))
        case None => None
        case Some(order) => Some([c.name] + order)
  }

  function BaseLinearizations(c: ClassDef, defs: map<string, ClassDef>, seen: set<string>, n: nat)
    : (lists: Option<seq<seq<string>>>)
    requires WellNamed(defs) && n <= |c.bases|
    ensures lists.Some? ==> L.AllNonempty(lists.value)
    decreases defs.Keys - seen, n
  {
    if n == 0 then Some([])
    else
      match BaseLinearizations(c, defs, seen, n - 1)
      case None => None
      case Some(before) =>
        var base := Base(c, defs, n - 1);
        if base.None? then Some(before)
        else
          assert defs.Keys + {base.value.name} == defs.Keys;
          match Linearization(base.value, defs, seen)
          case None => None
          case Some(order) => Some(before + [order])
  }

  /** Attribute lookup: the first class of the order that defines k. */
  function LookUp(order: seq<string>, defs: map<string, ClassDef>, k: string): Option<FunctionDef> {
    if order == [] then None
    else if order[0] in defs && k in Own(defs[order[0]].body) then Some(Own(defs[order[0]].body)[k])
    else LookUp(order[1..], defs, k)
  }

  /** What Python finds under the public name k, as far as the defined classes go. */
  function PythonAnswer(c: ClassDef, defs: map<string, ClassDef>, k: string): Option<FunctionDef>
    requires WellNamed(defs)
  {
    match Linearization(c, defs, {})
    case None => None
    case Some(order) => LookUp(order, defs, k)
  }

  // --- Classes that reach none twice ---

  /** The classes in the order they are reached, bases from left to right; one that is reached again below itself is
      named and not entered. */
  function Preorder(c: ClassDef, defs: map<string, ClassDef>, seen: set<string>): (order: seq<string>)
    requires WellNamed(defs)
    ensures |order| > 0 && order[0] == c.name
    decreases (defs.Keys + {c.name}) - seen, 0
  {
    if c.name in seen then [c.name]
    else
      assert c.name in (defs.Keys + {c.name}) - seen;
      [c.name] + L.Flatten(BasePreorders(c, defs, seen + {c.name}, |c.bases|))
  }

  function BasePreorders(c: ClassDef, defs: map<string, ClassDef>, seen: set<string>, n: nat): (lists: seq<seq<string>>)
    requires WellNamed(defs) && n <= |c.bases|
    ensures L.HeadsOf(BaseNames(c, defs, n), lists)
    decreases defs.Keys - seen, n
  {
    if n == 0 then []
    else
      var base := Base(c, defs, n - 1);
      if base.None? then BasePreorders(c, defs, seen, n - 1)
      else
        assert defs.Keys + {base.value.name} == defs.Keys;
        BasePreorders(c, defs, seen, n - 1) + [Preorder(base.value, defs, seen)]
  }

  /** No class comes twice, and none of those being visited comes at all. */
  predicate Fresh(order: seq<string>, seen: set<string>) {
    L.Distinct(order) && forall i | 0 <= i < |order| :: order[i] !in seen
  }

  /** No class is reached twice from c, itself included. */
  predicate ReachesOnce(c: ClassDef, defs: map<string, ClassDef>)
    requires WellNamed(defs)
  {
    Fresh(Preorder(c, defs, {}), {})
  }

  lemma {:induction false} FlattenSnoc(lists: seq<seq<string>>, last: seq<string>)
    ensures L.Flatten(lists + [last]) == L.Flatten(lists) + last
    decreases |lists|
  {
    if lists == [] {
      assert [] + [last] == [last] && [last][1..] == [];
    } else {
      assert (lists + [last])[0] == lists[0] && (lists + [last])[1..] == lists[1..] + [last];
      FlattenSnoc(lists[1..], last);
    }
  }

  /** What is fresh as a whole is fresh in each part, and the parts share nothing. */
  lemma FreshParts(a: seq<string>, b: seq<string>, seen: set<string>)
    requires Fresh(a + b, seen)
    ensures Fresh(a, seen) && Fresh(b, seen)
    ensures forall i, j | 0 <= i < |a| && 0 <= j < |b| :: a[i] != b[j]
  {
    L.DistinctParts(a, b);
    assert forall i | 0 <= i < |a| :: (a + b)[i] == a[i];
    assert forall j | 0 <= j < |b| :: (a + b)[|a| + j] == b[j];
  }

  /** Below a fresh class, its bases' orders are fresh of it too. */
  lemma FreshBelow(name: string, below: seq<string>, seen: set<string>)
    requires Fresh([name] + below, seen)
    ensures name !in seen && Fresh(below, seen + {name})
  {
    FreshParts([name], below, seen);
    assert ([name] + below)[0] == name && [name][0] == name;
  }

  // --- On them Python's order is the order of reaching ---

  lemma {:induction false} LinearizationIsPreorder(c: ClassDef, defs: map<string, ClassDef>, seen: set<string>)
    requires WellNamed(defs) && Fresh(Preorder(c, defs, seen), seen)
    ensures Linearization(c, defs, seen) == Some(Preorder(c, defs, seen))
    decreases (defs.Keys + {c.name}) - seen, 0
  {
    assert Preorder(c, defs, seen)[0] !in seen;
    assert c.name in (defs.Keys + {c.name}) - seen;
    var path := seen + {c.name};
    var lists := BasePreorders(c, defs, path, |c.bases|);
    FreshBelow(c.name, L.Flatten(lists), seen);
    BaseLinearizationsArePreorders(c, defs, path, |c.bases|);
    L.MergeDisjoint(lists, BaseNames(c, defs, |c.bases|));
  }

  /** One base more. */
  lemma BasesFlattened(c: ClassDef, defs: map<string, ClassDef>, seen: set<string>, n: nat)
    requires WellNamed(defs) && 0 < n <= |c.bases|
    ensures var base := Base(c, defs, n - 1);
      L.Flatten(BasePreorders(c, defs, seen, n))
      == L.Flatten(BasePreorders(c, defs, seen, n - 1)) + (if base.Some? then Preorder(base.value, defs, seen) else [])
  {
    var before, base := BasePreorders(c, defs, seen, n - 1), Base(c, defs, n - 1);
    if base.Some? {
      FlattenSnoc(before, Preorder(base.value, defs, seen));
    } else {
      assert L.Flatten(before) + [] == L.Flatten(before);
    }
  }

  lemma FreshBases(c: ClassDef, defs: map<string, ClassDef>, seen: set<string>, n: nat)
    requires WellNamed(defs) && 0 < n <= |c.bases| && Fresh(L.Flatten(BasePreorders(c, defs, seen, n)), seen)
    ensures Fresh(L.Flatten(BasePreorders(c, defs, seen, n - 1)), seen)
    ensures Base(c, defs, n - 1).Some? ==> Fresh(Preorder(Base(c, defs, n - 1).value, defs, seen), seen)
  {
    var base := Base(c, defs, n - 1);
    BasesFlattened(c, defs, seen, n);
    FreshParts(L.Flatten(BasePreorders(c, defs, seen, n - 1)), if base.Some? then Preorder(base.value, defs, seen)
      else [], seen);
  }

  lemma {:induction false} BaseLinearizationsArePreorders(
      c: ClassDef, defs: map<string, ClassDef>, seen: set<string>, n: nat)
    requires WellNamed(defs) && n <= |c.bases| && Fresh(L.Flatten(BasePreorders(c, defs, seen, n)), seen)
    ensures BaseLinearizations(c, defs, seen, n) == Some(BasePreorders(c, defs, seen, n))
    decreases defs.Keys - seen, n
  {
    if n > 0 {
      FreshBases(c, defs, seen, n);
      var base := Base(c, defs, n - 1);
      if base.Some? {
        assert defs.Keys + {base.value.name} == defs.Keys;
        LinearizationIsPreorder(base.value, defs, seen);
      }
      BaseLinearizationsArePreorders(c, defs, seen, n - 1);
    }
  }

  // --- Python's answer is the leftmost first definition ---

  lemma {:induction false} LookUpConcat(a: seq<string>, b: seq<string>, defs: map<string, ClassDef>, k: string)
    ensures LookUp(a + b, defs, k) == if LookUp(a, defs, k).Some? then LookUp(a, defs, k) else LookUp(b, defs, k)
    decreases |a|
  {
    if a == [] {
      assert a + b == b;
    } else {
      assert (a + b)[0] == a[0] && (a + b)[1..] == a[1..] + b;
      LookUpConcat(a[1..], b, defs, k);
    }
  }

  /** What base i has. */
  function BaseLookUp(c: ClassDef, defs: map<string, ClassDef>, seen: set<string>, i: nat, k: string)
    : Option<FunctionDef>
    requires WellNamed(defs) && i < |c.bases|
  {
    if Base(c, defs, i).Some? then LookUp(Preorder(Base(c, defs, i).value, defs, seen), defs, k) else None
  }

  /** What the first base that has k has, among the first n. */
  function FirstFound(c: ClassDef, defs: map<string, ClassDef>, seen: set<string>, n: nat, k: string)
    : Option<FunctionDef>
    requires WellNamed(defs) && n <= |c.bases|
  {
    if n == 0 then None
    else if FirstFound(c, defs, seen, n - 1, k).Some? then FirstFound(c, defs, seen, n - 1, k)
    else BaseLookUp(c, defs, seen, n - 1, k)
  }

  lemma {:induction false} LookUpIsFirstFound(
      c: ClassDef, defs: map<string, ClassDef>, seen: set<string>, n: nat, k: string)
    requires WellNamed(defs) && n <= |c.bases|
    ensures LookUp(L.Flatten(BasePreorders(c, defs, seen, n)), defs, k) == FirstFound(c, defs, seen, n, k)
    decreases n
  {
    if n > 0 {
      var base := Base(c, defs, n - 1);
      BasesFlattened(c, defs, seen, n);
      LookUpConcat(L.Flatten(BasePreorders(c, defs, seen, n - 1)), if base.Some? then Preorder(base.value, defs, seen)
        else [], defs, k);
      LookUpIsFirstFound(c, defs, seen, n - 1, k);
    }
  }

  /** The first base that has k; n if there is none. */
  lemma {:induction false} FirstBase(c: ClassDef, defs: map<string, ClassDef>, seen: set<string>, n: nat, k: string)
    returns (i: nat)
    requires WellNamed(defs) && n <= |c.bases|
    ensures i <= n && (FirstFound(c, defs, seen, n, k).None? <==> i == n)
    ensures i < n ==> Base(c, defs, i).Some? && FirstFound(c, defs, seen, n, k) == BaseLookUp(c, defs, seen, i, k)
    ensures forall j | 0 <= j < i :: BaseLookUp(c, defs, seen, j, k).None?
    decreases n
  {
    if n == 0 {
      i := 0;
    } else {
      i := FirstBase(c, defs, seen, n - 1, k);
      if i == n - 1 && BaseLookUp(c, defs, seen, n - 1, k).None? {
        i := n;
      }
    }
  }

  /** Python's first step at a class: its own definition, or what the classes below have. */
  lemma LookUpClass(c: ClassDef, defs: map<string, ClassDef>, seen: set<string>, k: string)
    requires WellNamed(defs) && c.name in defs && defs[c.name] == c && c.name !in seen
    ensures LookUp(Preorder(c, defs, seen), defs, k) ==
      if k in Own(c.body) then Some(Own(c.body)[k])
      else FirstFound(c, defs, seen + {c.name}, |c.bases|, k)
  {
    LookUpIsFirstFound(c, defs, seen + {c.name}, |c.bases|, k);
    var below := L.Flatten(BasePreorders(c, defs, seen + {c.name}, |c.bases|));
    assert Preorder(c, defs, seen) == [c.name] + below;
    assert ([c.name] + below)[0] == c.name && ([c.name] + below)[1..] == below;
  }

  /** Every first definition is in one of the classes Python looks at. */
  lemma {:induction false} DefinitionFound(
      c: ClassDef, defs: map<string, ClassDef>, seen: set<string>, route: seq<nat>, k: string, f: FunctionDef)
    requires WellNamed(defs) && c.name in defs && defs[c.name] == c && FirstDefinition(c, defs, seen, route, k, f)
    ensures LookUp(Preorder(c, defs, seen), defs, k).Some?
    decreases |route|
  {
    LookUpClass(c, defs, seen, k);
    if route != [] {
      var path := seen + {c.name};
      DefinitionFound(Base(c, defs, route[0]).value, defs, path, route[1..], k, f);
      var i := FirstBase(c, defs, path, |c.bases|, k);
      assert BaseLookUp(c, defs, path, route[0], k).Some?;
    }
  }

  lemma {:induction false} FreshBase(c: ClassDef, defs: map<string, ClassDef>, seen: set<string>, n: nat, i: nat)
    requires WellNamed(defs) && i < n <= |c.bases| && Base(c, defs, i).Some?
    requires Fresh(L.Flatten(BasePreorders(c, defs, seen, n)), seen)
    ensures Fresh(Preorder(Base(c, defs, i).value, defs, seen), seen)
    decreases n
  {
    FreshBases(c, defs, seen, n);
    if i < n - 1 {
      FreshBase(c, defs, seen, n - 1, i);
    }
  }

  /** What Python finds is the first definition along some route, and every other route to a first definition parts from
      it by taking a later base. */
  lemma {:induction false} LeftmostRoute(c: ClassDef, defs: map<string, ClassDef>, seen: set<string>, k: string)
    returns (route: seq<nat>)
    requires WellNamed(defs) && c.name in defs && defs[c.name] == c && Fresh(Preorder(c, defs, seen), seen)
    requires LookUp(Preorder(c, defs, seen), defs, k).Some?
    ensures FirstDefinition(c, defs, seen, route, k, LookUp(Preorder(c, defs, seen), defs, k).value)
    ensures forall other, f | FirstDefinition(c, defs, seen, other, k, f) && other != route :: LexLess(route, other)
    decreases (defs.Keys + {c.name}) - seen
  {
    assert Preorder(c, defs, seen)[0] !in seen;
    LookUpClass(c, defs, seen, k);
    if k in Own(c.body) {
      route := [];
    } else {
      var path := seen + {c.name};
      FreshBelow(c.name, L.Flatten(BasePreorders(c, defs, path, |c.bases|)), seen);
      var i := FirstBase(c, defs, path, |c.bases|, k);
      var base := Base(c, defs, i).value;
      assert c.name in (defs.Keys + {c.name}) - seen && defs.Keys + {base.name} == defs.Keys;
      FreshBase(c, defs, path, |c.bases|, i);
      var rest := LeftmostRoute(base, defs, path, k);
      route := [i] + rest;
      assert route[1..] == rest;
      forall other, f | FirstDefinition(c, defs, seen, other, k, f) && other != route ensures LexLess(route, other) {
        var j := other[0];
        DefinitionFound(Base(c, defs, j).value, defs, path, other[1..], k, f);
        assert BaseLookUp(c, defs, path, j, k).Some?;
        if j == i {
          assert other == [j] + other[1..];
          assert FirstDefinition(base, defs, path, other[1..], k, f);
        }
      }
    }
  }

  // --- Where the two agree ---

  ghost predicate Leftmost(c: ClassDef, defs: map<string, ClassDef>, k: string, route: seq<nat>, f: FunctionDef) {
    && FirstDefinition(c, defs, {}, route, k, f)
    && forall other, g | FirstDefinition(c, defs, {}, other, k, g) && other != route :: LexLess(route, other)
  }

  ghost predicate Rightmost(c: ClassDef, defs: map<string, ClassDef>, k: string, route: seq<nat>, f: FunctionDef) {
    && FirstDefinition(c, defs, {}, route, k, f)
    && forall other, g | FirstDefinition(c, defs, {}, other, k, g) && other != route :: LexLess(other, route)
  }

  lemma {:induction false} LexAsymmetric(a: seq<nat>, b: seq<nat>)
    requires LexLess(a, b)
    ensures !LexLess(b, a)
    decreases |a|
  {
    if a[0] == b[0] {
      LexAsymmetric(a[1..], b[1..]);
    }
  }

  lemma {:induction false} RouteDecides(
      c: ClassDef, defs: map<string, ClassDef>, seen: set<string>, route: seq<nat>, k: string, f: FunctionDef,
      g: FunctionDef)
    requires FirstDefinition(c, defs, seen, route, k, f) && FirstDefinition(c, defs, seen, route, k, g)
    ensures f == g
    decreases |route|
  {
    if route != [] {
      RouteDecides(Base(c, defs, route[0]).value, defs, seen + {c.name}, route[1..], k, f, g);
    }
  }

  /** Python finds the leftmost first definition and the collector the rightmost, of the same name. */
  lemma TwoAnswers(c: ClassDef, defs: map<string, ClassDef>, k: string) returns (left: seq<nat>, right: seq<nat>)
    requires WellNamed(defs) && c.name in defs && defs[c.name] == c && ReachesOnce(c, defs) && k in Methods(c, defs, {})
    ensures PythonAnswer(c, defs, k).Some? && Leftmost(c, defs, k, left, PythonAnswer(c, defs, k).value)
    ensures Rightmost(c, defs, k, right, Methods(c, defs, {})[k])
  {
    right := Winner(c, defs, {}, k);
    DefinitionFound(c, defs, {}, right, k, Methods(c, defs, {})[k]);
    LinearizationIsPreorder(c, defs, {});
    left := LeftmostRoute(c, defs, {}, k);
  }

  /** Where no class is reached twice, the collector resolves a name as Python does if and only if the leftmost and the
      rightmost first definition of it are the same. */
  lemma AgreesExactlyWhen(c: ClassDef, defs: map<string, ClassDef>, k: string)
    requires WellNamed(defs) && c.name in defs && defs[c.name] == c && ReachesOnce(c, defs) && k in Methods(c, defs, {})
    ensures PythonAnswer(c, defs, k) == Some(Methods(c, defs, {})[k]) <==>
      forall a, b, f, g | Leftmost(c, defs, k, a, f) && Rightmost(c, defs, k, b, g) :: f == g
  {
    var left, right := TwoAnswers(c, defs, k);
    var f, g := PythonAnswer(c, defs, k).value, Methods(c, defs, {})[k];
    forall a, b, f', g' | Leftmost(c, defs, k, a, f') && Rightmost(c, defs, k, b, g') ensures f' == f && g' == g {
      SameEnds(c, defs, k, left, a, f, f', right, b, g, g');
    }
  }

  lemma SameEnds(
      c: ClassDef, defs: map<string, ClassDef>, k: string, left: seq<nat>, a: seq<nat>, f: FunctionDef,
      f': FunctionDef, right: seq<nat>, b: seq<nat>, g: FunctionDef, g': FunctionDef)
    requires Leftmost(c, defs, k, left, f) && Leftmost(c, defs, k, a, f')
    requires Rightmost(c, defs, k, right, g) && Rightmost(c, defs, k, b, g')
    ensures f == f' && g == g'
  {
    if left != a {
      LexAsymmetric(left, a);
    }
    if right != b {
      LexAsymmetric(right, b);
    }
    RouteDecides(c, defs, {}, left, k, f, f');
    RouteDecides(c, defs, {}, right, k, g, g');
  }

  /** One class defines k first, along one route. */
  ghost predicate Alone(c: ClassDef, defs: map<string, ClassDef>, k: string) {
    forall a, b, f, g | FirstDefinition(c, defs, {}, a, k, f) && FirstDefinition(c, defs, {}, b, k, g) :: a == b
  }

  lemma LeftIsRight(
      c: ClassDef, defs: map<string, ClassDef>, k: string, left: seq<nat>, f: FunctionDef, right: seq<nat>,
      g: FunctionDef)
    requires Leftmost(c, defs, k, left, f) && Rightmost(c, defs, k, right, g)
    ensures Alone(c, defs, k) <==> left == right
  {
    if left == right {
      forall a, h | FirstDefinition(c, defs, {}, a, k, h) ensures a == left {
        if a != left {
          LexAsymmetric(left, a);
        }
      }
    }
  }

  /** Definitions of different classes are different ones, by their line if nothing else: then the two agree exactly
      on the names that one class defines first, and differ on every name that two unrelated bases define. */
  lemma AgreesExactlyWhenAlone(c: ClassDef, defs: map<string, ClassDef>, k: string)
    requires WellNamed(defs) && c.name in defs && defs[c.name] == c && ReachesOnce(c, defs) && k in Methods(c, defs, {})
    requires forall a, b, f, g | FirstDefinition(c, defs, {}, a, k, f) && FirstDefinition(c, defs, {}, b, k, g)
      && a != b :: f != g
    ensures PythonAnswer(c, defs, k) == Some(Methods(c, defs, {})[k]) <==> Alone(c, defs, k)
  {
    var left, right := TwoAnswers(c, defs, k);
    var f, g := PythonAnswer(c, defs, k).value, Methods(c, defs, {})[k];
    LeftIsRight(c, defs, k, left, f, right, g);
    if left == right {
      RouteDecides(c, defs, {}, left, k, f, g);
    }
  }

  // --- The smallest class on which they differ ---

  lemma LookUpHere(defs: map<string, ClassDef>, rest: seq<string>, name: string, k: string)
    requires name in defs
    ensures LookUp([name] + rest, defs, k) ==
      if k in Own(defs[name].body) then Some(Own(defs[name].body)[k]) else LookUp(rest, defs, k)
  {
    assert ([name] + rest)[0] == name && ([name] + rest)[1..] == rest;
  }

  lemma LeafPreorder(leaf: ClassDef, defs: map<string, ClassDef>, seen: set<string>)
    requires WellNamed(defs) && leaf.bases == [] && leaf.name !in seen
    ensures Preorder(leaf, defs, seen) == [leaf.name]
  {
    assert [leaf.name] + [] == [leaf.name];
  }

  lemma TwoBasesOrder(c: ClassDef, a: ClassDef, b: ClassDef, defs: map<string, ClassDef>)
    requires TwoBases(c, a, b, defs)
    ensures Preorder(c, defs, {}) == [c.name] + ([a.name] + [b.name]) && ReachesOnce(c, defs)
  {
    LeavesInOrder(c, a, b, defs);
    assert L.Distinct([c.name] + ([a.name] + [b.name]));
  }

  lemma LeavesInOrder(c: ClassDef, a: ClassDef, b: ClassDef, defs: map<string, ClassDef>)
    requires TwoBases(c, a, b, defs)
    ensures L.Flatten(BasePreorders(c, defs, {} + {c.name}, 2)) == [a.name] + [b.name]
  {
    var path := {} + {c.name};
    LeafPreorder(a, defs, path);
    LeafPreorder(b, defs, path);
    BasesFlattened(c, defs, path, 1);
    BasesFlattened(c, defs, path, 2);
    assert [] + [a.name] == [a.name];
  }

  /** Two bases that define k themselves: Python takes the first one's definition, the collector the second one's. */
  lemma FirstBaseWinsInPython(c: ClassDef, a: ClassDef, b: ClassDef, defs: map<string, ClassDef>, k: string)
    requires TwoBases(c, a, b, defs) && k !in Own(c.body) && k in Own(a.body) && k in Own(b.body)
    ensures PythonAnswer(c, defs, k) == Some(Own(a.body)[k])
    ensures k in Methods(c, defs, {}) && Methods(c, defs, {})[k] == Own(b.body)[k]
  {
    TwoBasesOrder(c, a, b, defs);
    LinearizationIsPreorder(c, defs, {});
    LookUpHere(defs, [a.name] + [b.name], c.name, k);
    LookUpHere(defs, [b.name], a.name, k);
    SecondBaseTaken(c, a, b, defs, k);
  }
}
