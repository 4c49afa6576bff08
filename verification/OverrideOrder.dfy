/** Classes reached more than once: what Python's linearization guarantees about overriding, and when the collector
    respects it. */
module OverrideOrder {
  import opened Wrappers
  import L = Linearize
  import opened MethodResolution
  import opened PythonResolution

  // --- The linearization lists the reachable classes, each before those it inherits from ---

  /** The linearizations of the bases and the list of their names, as they are merged. */
  function ToMerge(c: ClassDef, defs: map<string, ClassDef>, seen: set<string>): Option<seq<seq<string>>>
    requires WellNamed(defs) && c.name !in seen
  {
    match BaseLinearizations(c, defs, seen + {c.name}, |c.bases|)
    case None => None
    case Some(lists) => Some(lists + L.Ahead(BaseNames(c, defs, |c.bases|)))
  }

  lemma Unfolded(c: ClassDef, defs: map<string, ClassDef>, seen: set<string>)
    requires WellNamed(defs) && Linearization(c, defs, seen).Some?
    ensures c.name !in seen && ToMerge(c, defs, seen).Some? && L.AllNonempty(ToMerge(c, defs, seen).value)
    ensures L.Merge(ToMerge(c, defs, seen).value).Some?
    ensures Linearization(c, defs, seen).value == [c.name] + L.Merge(ToMerge(c, defs, seen).value).value
  {
  }

  /** The linearization of every base is among the merged lists. */
  lemma {:induction false} BaseListed(c: ClassDef, defs: map<string, ClassDef>, seen: set<string>, n: nat, i: nat)
    returns (j: nat)
    requires WellNamed(defs) && i < n <= |c.bases| && Base(c, defs, i).Some?
    requires BaseLinearizations(c, defs, seen, n).Some?
    ensures Linearization(Base(c, defs, i).value, defs, seen).Some?
    ensures j < |BaseLinearizations(c, defs, seen, n).value|
    ensures BaseLinearizations(c, defs, seen, n).value[j] == Linearization(Base(c, defs, i).value, defs, seen).value
    decreases n
  {
    if i == n - 1 {
      j := |BaseLinearizations(c, defs, seen, n).value| - 1;
    } else {
      j := BaseListed(c, defs, seen, n - 1, i);
    }
  }

  /** And nothing else: every other merged name is that of a base. */
  lemma {:induction false} ListedBase(c: ClassDef, defs: map<string, ClassDef>, seen: set<string>, n: nat, j: nat)
    returns (i: nat)
    requires WellNamed(defs) && n <= |c.bases| && BaseLinearizations(c, defs, seen, n).Some?
    requires j < |BaseLinearizations(c, defs, seen, n).value|
    ensures i < n && Base(c, defs, i).Some? && Linearization(Base(c, defs, i).value, defs, seen).Some?
    ensures BaseLinearizations(c, defs, seen, n).value[j] == Linearization(Base(c, defs, i).value, defs, seen).value
    decreases n
  {
    var base := Base(c, defs, n - 1);
    if base.Some? && j == |BaseLinearizations(c, defs, seen, n).value| - 1 {
      i := n - 1;
    } else {
      i := ListedBase(c, defs, seen, n - 1, j);
    }
  }

  lemma {:induction false} NamedBase(c: ClassDef, defs: map<string, ClassDef>, n: nat, name: string) returns (i: nat)
    requires WellNamed(defs) && n <= |c.bases| && name in BaseNames(c, defs, n)
    ensures i < n && Base(c, defs, i).Some? && Base(c, defs, i).value.name == name
    decreases n
  {
    if Base(c, defs, n - 1).Some? && Base(c, defs, n - 1).value.name == name {
      i := n - 1;
    } else {
      i := NamedBase(c, defs, n - 1, name);
    }
  }

  /** A merged name comes from a base's linearization. */
  lemma MergedFrom(c: ClassDef, defs: map<string, ClassDef>, seen: set<string>, name: string) returns (i: nat)
    requires WellNamed(defs) && Linearization(c, defs, seen).Some?
    requires name in Linearization(c, defs, seen).value && name != c.name
    ensures i < |c.bases| && Base(c, defs, i).Some?
    ensures Linearization(Base(c, defs, i).value, defs, seen + {c.name}).Some?
    ensures name in Linearization(Base(c, defs, i).value, defs, seen + {c.name}).value
  {
    Unfolded(c, defs, seen);
    var lists := ToMerge(c, defs, seen).value;
    L.MergeMembers(lists, name);
    var below := BaseLinearizations(c, defs, seen + {c.name}, |c.bases|).value;
    var j :| 0 <= j < |lists| && name in lists[j];
    if j < |below| {
      i := ListedBase(c, defs, seen + {c.name}, |c.bases|, j);
    } else {
      assert lists[j] == BaseNames(c, defs, |c.bases|);
      i := NamedBase(c, defs, |c.bases|, name);
      var k := BaseListed(c, defs, seen + {c.name}, |c.bases|, i);
      HeadFirst(Base(c, defs, i).value, defs, seen + {c.name});
    }
  }

  lemma HeadFirst(c: ClassDef, defs: map<string, ClassDef>, seen: set<string>)
    requires WellNamed(defs) && Linearization(c, defs, seen).Some?
    ensures c.name in Linearization(c, defs, seen).value
  {
    Unfolded(c, defs, seen);
  }

  /** What is in the linearization of a base is merged, in the same order. */
  lemma BaseMerged(c: ClassDef, defs: map<string, ClassDef>, seen: set<string>, i: nat)
    requires WellNamed(defs) && Linearization(c, defs, seen).Some? && i < |c.bases| && Base(c, defs, i).Some?
    ensures Linearization(Base(c, defs, i).value, defs, seen + {c.name}).Some?
    ensures var base := Linearization(Base(c, defs, i).value, defs, seen + {c.name}).value;
      var merged := L.Merge(ToMerge(c, defs, seen).value).value;
      && (forall name | name in base :: name in merged)
      && (forall x, y | L.Before(base, x, y) :: L.Before(merged, x, y))
  {
    Unfolded(c, defs, seen);
    var lists := ToMerge(c, defs, seen).value;
    var j := BaseListed(c, defs, seen + {c.name}, |c.bases|, i);
    var base := Linearization(Base(c, defs, i).value, defs, seen + {c.name}).value;
    assert lists[j] == base;
    forall name | name in base ensures name in L.Merge(lists).value {
      L.MergeMembers(lists, name);
    }
    forall x, y | L.Before(base, x, y) ensures L.Before(L.Merge(lists).value, x, y) {
      L.MergeKeepsOrder(lists, x, y);
    }
  }

  lemma BaseOnPath(c: ClassDef, defs: map<string, ClassDef>, path: seq<string>, d: ClassDef) returns (i: nat)
    requires WellNamed(defs) && path != [] && Leads(c, defs, path, d)
    ensures i < |c.bases| && Base(c, defs, i) == Some(defs[path[0]]) && Leads(defs[path[0]], defs, path[1..], d)
  {
    i :| 0 <= i < |c.bases| && c.bases[i] == Some(path[0]);
  }

  /** Every reachable class is listed. */
  lemma {:induction false} ReachableListed(
      c: ClassDef, defs: map<string, ClassDef>, seen: set<string>, path: seq<string>, d: ClassDef)
    requires WellNamed(defs) && Linearization(c, defs, seen).Some? && Leads(c, defs, path, d)
    ensures d.name in Linearization(c, defs, seen).value
    decreases |path|
  {
    HeadFirst(c, defs, seen);
    if path != [] {
      var i := BaseOnPath(c, defs, path, d);
      BaseMerged(c, defs, seen, i);
      ReachableListed(defs[path[0]], defs, seen + {c.name}, path[1..], d);
      Unfolded(c, defs, seen);
    }
  }

  /** Every listed class is reachable. */
  lemma {:induction false} ListedReachable(c: ClassDef, defs: map<string, ClassDef>, seen: set<string>, name: string)
    returns (path: seq<string>, d: ClassDef)
    requires WellNamed(defs) && Linearization(c, defs, seen).Some? && name in Linearization(c, defs, seen).value
    ensures Leads(c, defs, path, d) && d.name == name && (path != [] ==> name in defs && d == defs[name])
    decreases (defs.Keys + {c.name}) - seen
  {
    if name == c.name {
      path, d := [], c;
    } else {
      var i := MergedFrom(c, defs, seen, name);
      var base := Base(c, defs, i).value;
      Fewer(c, defs, seen, base.name);
      var rest;
      rest, d := ListedReachable(base, defs, seen + {c.name}, name);
      path := [base.name] + rest;
      LeadsThrough(c, defs, i, rest, d);
    }
  }

  /** There are fewer classes left below. */
  lemma Fewer(c: ClassDef, defs: map<string, ClassDef>, seen: set<string>, base: string)
    requires WellNamed(defs) && Linearization(c, defs, seen).Some? && base in defs
    ensures (defs.Keys + {base}) - (seen + {c.name}) < (defs.Keys + {c.name}) - seen
  {
    assert c.name in (defs.Keys + {c.name}) - seen && defs.Keys + {base} == defs.Keys;
  }

  lemma LeadsThrough(c: ClassDef, defs: map<string, ClassDef>, i: nat, rest: seq<string>, d: ClassDef)
    requires WellNamed(defs) && i < |c.bases| && Base(c, defs, i).Some? && Leads(Base(c, defs, i).value, defs, rest, d)
    ensures Leads(c, defs, [Base(c, defs, i).value.name] + rest, d)
  {
    var path := [Base(c, defs, i).value.name] + rest;
    assert path[1..] == rest && c.bases[i] == Some(path[0]);
  }

  /** None of them was seen before. */
  lemma {:induction false} ListedFresh(c: ClassDef, defs: map<string, ClassDef>, seen: set<string>, name: string)
    requires WellNamed(defs) && Linearization(c, defs, seen).Some? && name in Linearization(c, defs, seen).value
    ensures name !in seen
    decreases (defs.Keys + {c.name}) - seen
  {
    if name != c.name {
      var i := MergedFrom(c, defs, seen, name);
      var base := Base(c, defs, i).value;
      Fewer(c, defs, seen, base.name);
      ListedFresh(base, defs, seen + {c.name}, name);
    }
  }

  lemma ListedOnce(c: ClassDef, defs: map<string, ClassDef>, seen: set<string>)
    requires WellNamed(defs) && Linearization(c, defs, seen).Some?
    ensures L.Distinct(Linearization(c, defs, seen).value)
  {
    Unfolded(c, defs, seen);
    var merged := L.Merge(ToMerge(c, defs, seen).value).value;
    L.MergeDistinct(ToMerge(c, defs, seen).value);
    if c.name in merged {
      FreshBelow(c, defs, seen);
    }
  }

  /** The class itself is in no linearization below it. */
  lemma FreshBelow(c: ClassDef, defs: map<string, ClassDef>, seen: set<string>)
    requires WellNamed(defs) && Linearization(c, defs, seen).Some?
    ensures c.name !in L.Merge(ToMerge(c, defs, seen).value).value
  {
    Unfolded(c, defs, seen);
    var lists := ToMerge(c, defs, seen).value;
    L.MergeMembers(lists, c.name);
    var below := BaseLinearizations(c, defs, seen + {c.name}, |c.bases|).value;
    if j: nat :| j < |lists| && c.name in lists[j] {
      if j < |below| {
        var i := ListedBase(c, defs, seen + {c.name}, |c.bases|, j);
        ListedFresh(Base(c, defs, i).value, defs, seen + {c.name}, c.name);
      } else {
        var i := NamedBase(c, defs, |c.bases|, c.name);
        var k := BaseListed(c, defs, seen + {c.name}, |c.bases|, i);
        assert false;
      }
    }
  }

  /** A class stands before every class it inherits from. */
  lemma {:induction false} InheritsLater(
      c: ClassDef, defs: map<string, ClassDef>, seen: set<string>, path: seq<string>, d: ClassDef, more: seq<string>,
      e: ClassDef)
    requires WellNamed(defs) && Linearization(c, defs, seen).Some?
    requires Leads(c, defs, path, d) && Leads(d, defs, more, e) && more != []
    ensures L.Before(Linearization(c, defs, seen).value, d.name, e.name)
    decreases |path|
  {
    Unfolded(c, defs, seen);
    var merged := L.Merge(ToMerge(c, defs, seen).value).value;
    if path == [] {
      var i := BaseOnPath(c, defs, more, e);
      BaseMerged(c, defs, seen, i);
      ReachableListed(defs[more[0]], defs, seen + {c.name}, more[1..], e);
    } else {
      var i := BaseOnPath(c, defs, path, d);
      BaseMerged(c, defs, seen, i);
      InheritsLater(defs[path[0]], defs, seen + {c.name}, path[1..], d, more, e);
    }
    L.BeforeCons(c.name, merged, d.name, e.name);
  }

  // --- Which class Python takes a name from ---

  predicate Defines(defs: map<string, ClassDef>, name: string, k: string) {
    name in defs && k in Own(defs[name].body)
  }

  lemma {:induction false} LookUpFirst(order: seq<string>, defs: map<string, ClassDef>, k: string) returns (i: nat)
    requires LookUp(order, defs, k).Some?
    ensures i < |order| && Defines(defs, order[i], k) && LookUp(order, defs, k) == Some(Own(defs[order[i]].body)[k])
    ensures forall j | 0 <= j < i :: !Defines(defs, order[j], k)
    decreases |order|
  {
    if Defines(defs, order[0], k) {
      i := 0;
    } else {
      i := LookUpFirst(order[1..], defs, k);
      i := i + 1;
      assert forall j | 1 <= j < i :: order[j] == order[1..][j - 1];
    }
  }

  lemma {:induction false} LookUpSome(order: seq<string>, defs: map<string, ClassDef>, k: string, i: nat)
    requires i < |order| && Defines(defs, order[i], k)
    ensures LookUp(order, defs, k).Some?
    decreases |order|
  {
    if i > 0 {
      assert order[i] == order[1..][i - 1];
      LookUpSome(order[1..], defs, k, i - 1);
    }
  }

  /** The class a route ends at. */
  function RouteEnd(c: ClassDef, defs: map<string, ClassDef>, route: seq<nat>): ClassDef
    decreases |route|
  {
    if route == [] || route[0] >= |c.bases| || Base(c, defs, route[0]).None? then c
    else RouteEnd(Base(c, defs, route[0]).value, defs, route[1..])
  }

  lemma {:induction false} RouteLeads(
      c: ClassDef, defs: map<string, ClassDef>, seen: set<string>, route: seq<nat>, k: string, f: FunctionDef)
    returns (path: seq<string>)
    requires WellNamed(defs) && c.name in defs && defs[c.name] == c && FirstDefinition(c, defs, seen, route, k, f)
    ensures Leads(c, defs, path, RouteEnd(c, defs, route))
    ensures var e := RouteEnd(c, defs, route);
      e.name in defs && defs[e.name] == e && k in Own(e.body) && Own(e.body)[k] == f
    decreases |route|
  {
    if route == [] {
      path := [];
    } else {
      var base := Base(c, defs, route[0]).value;
      var rest := RouteLeads(base, defs, seen + {c.name}, route[1..], k, f);
      path := [base.name] + rest;
      assert path[1..] == rest;
    }
  }

  /** Definitions of the name by different classes are different ones, by their line if nothing else. */
  ghost predicate ToldApart(defs: map<string, ClassDef>, k: string) {
    forall a, b | Defines(defs, a, k) && Defines(defs, b, k) && a != b :: Own(defs[a].body)[k] != Own(defs[b].body)[k]
  }

  /** No class that defines k stands before the named one. */
  ghost predicate FirstToDefine(order: seq<string>, defs: map<string, ClassDef>, k: string, name: string) {
    forall other | L.Before(order, other, name) :: !Defines(defs, other, k)
  }

  /** In any class Python can build, diamonds included, the collector resolves a name as Python does if and only if no
      class that defines it precedes, in the linearization, the one its rightmost route ends at. */
  lemma AgreesInOrder(c: ClassDef, defs: map<string, ClassDef>, k: string, route: seq<nat>)
    requires WellNamed(defs) && c.name in defs && defs[c.name] == c && ToldApart(defs, k)
    requires Linearization(c, defs, {}).Some? && k in Methods(c, defs, {})
    requires Rightmost(c, defs, k, route, Methods(c, defs, {})[k])
    ensures PythonAnswer(c, defs, k) == Some(Methods(c, defs, {})[k]) <==>
      FirstToDefine(Linearization(c, defs, {}).value, defs, k, RouteEnd(c, defs, route).name)
  {
    var order, f, e := Linearization(c, defs, {}).value, Methods(c, defs, {})[k], RouteEnd(c, defs, route);
    var path := RouteLeads(c, defs, {}, route, k, f);
    ReachableListed(c, defs, {}, path, e);
    ListedOnce(c, defs, {});
    TakenFrom(order, defs, k, e.name);
  }

  lemma TakenFrom(order: seq<string>, defs: map<string, ClassDef>, k: string, name: string)
    requires name in order && L.Distinct(order) && ToldApart(defs, k) && Defines(defs, name, k)
    ensures LookUp(order, defs, k) == Some(Own(defs[name].body)[k]) <==> FirstToDefine(order, defs, k, name)
  {
    var j :| 0 <= j < |order| && order[j] == name;
    LookUpSome(order, defs, k, j);
    var i := LookUpFirst(order, defs, k);
    if i < j {
      assert L.Before(order, order[i], name);
    }
  }

  // --- Overriding ---

  /** The class defines k and inherits from every other reachable class that does. */
  ghost predicate OverridesAll(c: ClassDef, defs: map<string, ClassDef>, k: string, m: ClassDef) {
    && (exists path :: Leads(c, defs, path, m)) && k in Own(m.body)
    && forall path, d | Leads(c, defs, path, d) && k in Own(d.body) && d != m :: exists more :: Leads(m, defs, more, d)
  }

  /** Python takes the definition that overrides all the others. */
  lemma OverridingTaken(c: ClassDef, defs: map<string, ClassDef>, k: string, m: ClassDef)
    requires WellNamed(defs) && c.name in defs && defs[c.name] == c && Linearization(c, defs, {}).Some?
    requires OverridesAll(c, defs, k, m)
    ensures PythonAnswer(c, defs, k) == Some(Own(m.body)[k])
  {
    var order := Linearization(c, defs, {}).value;
    var path :| Leads(c, defs, path, m);
    LeadsDefined(c, defs, path, m);
    ReachableListed(c, defs, {}, path, m);
    ListedOnce(c, defs, {});
    var j :| 0 <= j < |order| && order[j] == m.name;
    LookUpSome(order, defs, k, j);
    var i := LookUpFirst(order, defs, k);
    if i != j {
      var way, d := ListedReachable(c, defs, {}, order[i]);
      assert d == defs[order[i]];
      var more :| Leads(m, defs, more, d);
      InheritsLater(c, defs, {}, path, m, more, d);
      assert false;
    }
  }

  lemma {:induction false} LeadsDefined(c: ClassDef, defs: map<string, ClassDef>, path: seq<string>, d: ClassDef)
    requires WellNamed(defs) && c.name in defs && defs[c.name] == c && Leads(c, defs, path, d)
    ensures d.name in defs && defs[d.name] == d
    decreases |path|
  {
    if path != [] {
      LeadsDefined(defs[path[0]], defs, path[1..], d);
    }
  }

  /** Where one definition overrides all the others, the collector respects that if and only if its rightmost route to a
      definition ends there. */
  lemma RespectsOverridingExactlyWhen(c: ClassDef, defs: map<string, ClassDef>, k: string, m: ClassDef, route: seq<nat>)
    requires WellNamed(defs) && c.name in defs && defs[c.name] == c && ToldApart(defs, k)
    requires Linearization(c, defs, {}).Some? && OverridesAll(c, defs, k, m) && k in Methods(c, defs, {})
    requires Rightmost(c, defs, k, route, Methods(c, defs, {})[k])
    ensures PythonAnswer(c, defs, k) == Some(Own(m.body)[k])
    ensures Methods(c, defs, {})[k] == Own(m.body)[k] <==> RouteEnd(c, defs, route) == m
  {
    OverridingTaken(c, defs, k, m);
    var path := RouteLeads(c, defs, {}, route, k, Methods(c, defs, {})[k]);
    var way :| Leads(c, defs, way, m);
    LeadsDefined(c, defs, way, m);
  }

  // --- The smallest diamond ---

  /** top inherits from left and right, and both from root. */
  predicate Diamond(top: ClassDef, left: ClassDef, right: ClassDef, root: ClassDef, defs: map<string, ClassDef>) {
    && WellNamed(defs) && {top.name, left.name, right.name, root.name} <= defs.Keys
    && defs[top.name] == top && defs[left.name] == left && defs[right.name] == right && defs[root.name] == root
    && L.Distinct([top.name, left.name, right.name, root.name])
    && top.bases == [Some(left.name), Some(right.name)] && left.bases == [Some(root.name)]
    && right.bases == [Some(root.name)] && root.bases == []
  }

  lemma NamesApart(a: string, b: string, c: string, d: string)
    requires L.Distinct([a, b, c, d])
    ensures a != b && a != c && a != d && b != c && b != d && c != d
  {
    var s := [a, b, c, d];
    assert s[0] != s[1] && s[0] != s[2] && s[0] != s[3] && s[1] != s[2] && s[1] != s[3] && s[2] != s[3];
  }

  lemma RootOrder(root: ClassDef, defs: map<string, ClassDef>, seen: set<string>)
    requires WellNamed(defs) && root.bases == [] && root.name !in seen
    ensures Linearization(root, defs, seen) == Some([root.name])
  {
    assert BaseLinearizations(root, defs, seen + {root.name}, 0) == Some([]);
    assert [] + L.Ahead<string>([]) == [];
    assert L.Merge<string>([]) == Some([]) && [root.name] + [] == [root.name];
  }

  lemma MergeOne(x: string)
    ensures L.Merge([[x], [x]]) == Some([x])
  {
    var lists := [[x], [x]];
    assert L.IsNext(lists, lists[0][0]);
    assert lists[1..] == [[x]] && [[x]][1..] == [];
    assert L.Advance([[x]], x) == [];
    assert L.Advance(lists, x) == [];
    assert L.Merge<string>([]) == Some([]) && [x] + [] == [x];
  }

  lemma Folded(
      c: ClassDef, defs: map<string, ClassDef>, seen: set<string>, below: seq<seq<string>>, lists: seq<seq<string>>,
      order: seq<string>)
    requires WellNamed(defs) && c.name !in seen
    requires BaseLinearizations(c, defs, seen + {c.name}, |c.bases|) == Some(below)
    requires lists == below + L.Ahead(BaseNames(c, defs, |c.bases|)) && L.AllNonempty(lists)
    requires L.Merge(lists) == Some(order)
    ensures Linearization(c, defs, seen) == Some([c.name] + order)
  {
  }

  lemma RootListed(side: ClassDef, root: ClassDef, defs: map<string, ClassDef>, seen: set<string>)
    requires WellNamed(defs) && root.name in defs && defs[root.name] == root && root.bases == []
    requires side.bases == [Some(root.name)] && root.name !in seen
    ensures BaseLinearizations(side, defs, seen, 1) == Some([[root.name]]) && BaseNames(side, defs, 1) == [root.name]
  {
    RootOrder(root, defs, seen);
    assert Base(side, defs, 0) == Some(root);
    assert BaseLinearizations(side, defs, seen, 0) == Some([]) && BaseNames(side, defs, 0) == [];
    assert [] + [[root.name]] == [[root.name]] && [] + [root.name] == [root.name];
  }

  lemma SideOrder(side: ClassDef, root: ClassDef, defs: map<string, ClassDef>, seen: set<string>)
    requires WellNamed(defs) && root.name in defs && defs[root.name] == root && root.bases == []
    requires side.bases == [Some(root.name)] && side.name !in seen && root.name !in seen && side.name != root.name
    ensures Linearization(side, defs, seen) == Some([side.name, root.name])
  {
    RootListed(side, root, defs, seen + {side.name});
    MergeOne(root.name);
    assert [[root.name]] + L.Ahead([root.name]) == [[root.name], [root.name]];
    Folded(side, defs, seen, [[root.name]], [[root.name], [root.name]], [root.name]);
    assert [side.name] + [root.name] == [side.name, root.name];
  }

  lemma MergeDiamond(l: string, r: string, a: string)
    requires l != r && l != a && r != a
    ensures L.Merge([[l, a], [r, a], [l, r]]) == Some([l, r, a])
  {
    var first, second := [[l, a], [r, a], [l, r]], [[a], [r, a], [r]];
    MergeFirst(l, r, a);
    MergeSecond(l, r, a);
    MergeOne(a);
    assert [r] + [a] == [r, a] && [l] + [r, a] == [l, r, a];
  }

  lemma MergeFirst(l: string, r: string, a: string)
    requires l != r && l != a && r != a
    ensures L.Candidate([[l, a], [r, a], [l, r]], [[l, a], [r, a], [l, r]]) == Some(l)
    ensures L.Advance([[l, a], [r, a], [l, r]], l) == [[a], [r, a], [r]]
  {
    var lists := [[l, a], [r, a], [l, r]];
    assert L.IsNext(lists, lists[0][0]);
    assert lists[1..] == [[r, a], [l, r]] && [[r, a], [l, r]][1..] == [[l, r]] && [[l, r]][1..] == [];
    assert [l, r][1..] == [r] && [l, a][1..] == [a];
    assert L.Advance([[l, r]], l) == [[r]];
    assert L.Advance([[r, a], [l, r]], l) == [[r, a]] + [[r]];
  }

  lemma MergeSecond(l: string, r: string, a: string)
    requires l != r && l != a && r != a
    ensures L.Candidate([[a], [r, a], [r]], [[a], [r, a], [r]]) == Some(r)
    ensures L.Advance([[a], [r, a], [r]], r) == [[a], [a]]
  {
    var lists := [[a], [r, a], [r]];
    assert lists[1][1] == a;
    assert !L.IsNext(lists, lists[0][0]);
    assert lists[1..] == [[r, a], [r]] && [[r, a], [r]][1..] == [[r]] && [[r]][1..] == [];
    assert L.IsNext(lists, lists[1..][0][0]);
    assert [r, a][1..] == [a];
    assert L.Advance([[r]], r) == [];
    assert L.Advance([[r, a], [r]], r) == [[a]] + [];
  }

  lemma SidesListed(top: ClassDef, left: ClassDef, right: ClassDef, root: ClassDef, defs: map<string, ClassDef>)
    requires Diamond(top, left, right, root, defs)
    ensures BaseLinearizations(top, defs, {} + {top.name}, 2)
      == Some([[left.name, root.name], [right.name, root.name]])
    ensures BaseNames(top, defs, 2) == [left.name, right.name]
  {
    NamesApart(top.name, left.name, right.name, root.name);
    var path := {} + {top.name};
    SideOrder(left, root, defs, path);
    SideOrder(right, root, defs, path);
    assert Base(top, defs, 0) == Some(left) && Base(top, defs, 1) == Some(right);
    assert BaseLinearizations(top, defs, path, 0) == Some([]);
    assert BaseLinearizations(top, defs, path, 1) == Some([] + [[left.name, root.name]]);
    assert [] + [[left.name, root.name]] + [[right.name, root.name]]
      == [[left.name, root.name], [right.name, root.name]];
    assert BaseNames(top, defs, 1) == [] + [left.name];
    assert [] + [left.name] + [right.name] == [left.name, right.name];
  }

  lemma DiamondOrder(top: ClassDef, left: ClassDef, right: ClassDef, root: ClassDef, defs: map<string, ClassDef>)
    requires Diamond(top, left, right, root, defs)
    ensures Linearization(top, defs, {}) == Some([top.name, left.name, right.name, root.name])
  {
    NamesApart(top.name, left.name, right.name, root.name);
    SidesListed(top, left, right, root, defs);
    assert [[left.name, root.name], [right.name, root.name]] + L.Ahead([left.name, right.name])
      == [[left.name, root.name], [right.name, root.name], [left.name, right.name]];
    MergeDiamond(left.name, right.name, root.name);
    Folded(top, defs, {}, [[left.name, root.name], [right.name, root.name]],
           [[left.name, root.name], [right.name, root.name], [left.name, right.name]],
           [left.name, right.name, root.name]);
    assert [top.name] + [left.name, right.name, root.name] == [top.name, left.name, right.name, root.name];
  }

  lemma DiamondCollected(
      top: ClassDef, left: ClassDef, right: ClassDef, root: ClassDef, defs: map<string, ClassDef>, k: string)
    requires Diamond(top, left, right, root, defs) && k !in Own(top.body) && k !in Own(right.body)
    requires k in Own(root.body)
    ensures k in Methods(top, defs, {}) && Methods(top, defs, {})[k] == Own(root.body)[k]
  {
    NamesApart(top.name, left.name, right.name, root.name);
    var path := {} + {top.name};
    var below := path + {right.name};
    assert Base(top, defs, 1) == Some(right) && Base(right, defs, 0) == Some(root);
    assert Methods(root, defs, below) == Own(root.body);
    assert Inherited(right, defs, below, 1) == Inherited(right, defs, below, 0) + Methods(root, defs, below);
    assert Methods(right, defs, path)[k] == Own(root.body)[k];
    assert Inherited(top, defs, path, 2) == Inherited(top, defs, path, 1) + Methods(right, defs, path);
  }

  /** The left base overrides the root's definition and Python takes that; the collector walks the root again below the
      right base and takes the overridden one. */
  lemma OverriddenDefinitionWins(
      top: ClassDef, left: ClassDef, right: ClassDef, root: ClassDef, defs: map<string, ClassDef>, k: string)
    requires Diamond(top, left, right, root, defs) && k !in Own(top.body) && k !in Own(right.body)
    requires k in Own(left.body) && k in Own(root.body)
    ensures PythonAnswer(top, defs, k) == Some(Own(left.body)[k])
    ensures k in Methods(top, defs, {}) && Methods(top, defs, {})[k] == Own(root.body)[k]
  {
    NamesApart(top.name, left.name, right.name, root.name);
    DiamondOrder(top, left, right, root, defs);
    DiamondCollected(top, left, right, root, defs, k);
    var rest := [left.name, right.name, root.name];
    assert [top.name, left.name, right.name, root.name] == [top.name] + rest;
    LookUpHere(defs, rest, top.name, k);
    assert rest == [left.name] + [right.name, root.name];
    LookUpHere(defs, [right.name, root.name], left.name, k);
  }
}
