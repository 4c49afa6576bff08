/** The merge step of Python's class linearization (C3), over lists of any type, and what it gives when the lists
    share nothing. */
module Linearize {
  import opened Wrappers

  predicate AllNonempty<T>(lists: seq<seq<T>>) { forall i | 0 <= i < |lists| :: |lists[i]| > 0 }

  function Size<T>(lists: seq<seq<T>>): nat { if lists == [] then 0 else |lists[0]| + Size(lists[1..]) }

  function Flatten<T>(lists: seq<seq<T>>): seq<T> { if lists == [] then [] else lists[0] + Flatten(lists[1..]) }

  predicate Distinct<T(==)>(s: seq<T>) { forall i, j | 0 <= i < j < |s| :: s[i] != s[j] }

  /** A candidate comes next if it stands in no list past the head. */
  predicate IsNext<T(==)>(lists: seq<seq<T>>, x: T) {
    forall i, j | 0 <= i < |lists| && 1 <= j < |lists[i]| :: lists[i][j] != x
  }

  /** The head of the first list whose head may come next. */
  function Candidate<T(==)>(lists: seq<seq<T>>, all: seq<seq<T>>): (x: Option<T>)
    requires AllNonempty(lists)
    ensures x.Some? ==> exists i | 0 <= i < |lists| :: lists[i][0] == x.value
  {
    if lists == [] then None
    else if IsNext(all, lists[0][0]) then Some(lists[0][0])
    else
      var later := Candidate(lists[1..], all);
      assert later.Some? ==> exists i | 0 <= i < |lists[1..]| ::
        lists[1..][i][0] == later.value && lists[i + 1][0] == later.value;
      later
  }

  /** x taken off every list it heads; lists that become empty go. */
  function Advance<T(==)>(lists: seq<seq<T>>, x: T): (rest: seq<seq<T>>)
    requires AllNonempty(lists)
    ensures AllNonempty(rest) && Size(rest) <= Size(lists)
    ensures (exists i | 0 <= i < |lists| :: lists[i][0] == x) ==> Size(rest) < Size(lists)
  {
    if lists == [] then []
    else
      var first, rest := lists[0], Advance(lists[1..], x);
      assert forall i | 1 <= i < |lists| :: lists[1..][i - 1] == lists[i];
      if first[0] != x then SizeCons(first, rest); [first] + rest
      else if |first| == 1 then rest
      else SizeCons(first[1..], rest); [first[1..]] + rest
  }

  lemma SizeCons<T>(first: seq<T>, rest: seq<seq<T>>)
    ensures Size([first] + rest) == |first| + Size(rest)
  {
    assert ([first] + rest)[1..] == rest;
  }

  /** None where Python refuses to build the class. */
  function Merge<T(==)>(lists: seq<seq<T>>): Option<seq<T>>
    requires AllNonempty(lists)
    decreases Size(lists)
  {
    if lists == [] then Some([])
    else
      match Candidate(lists, lists)
      case None => None
      case Some(x) =>
        match Merge(Advance(lists, x))
        case None => None
        case Some(order) => Some([x] + order)
  }

  // --- What the merge keeps ---

  predicate InSome<T(==)>(lists: seq<seq<T>>, x: T) { exists i | 0 <= i < |lists| :: x in lists[i] }

  predicate Before<T(==)>(s: seq<T>, x: T, y: T) { exists i, j | 0 <= i < j < |s| :: s[i] == x && s[j] == y }

  predicate BeforeInSome<T(==)>(lists: seq<seq<T>>, x: T, y: T) {
    exists i | 0 <= i < |lists| :: Before(lists[i], x, y)
  }

  lemma InSomeCons<T>(first: seq<T>, rest: seq<seq<T>>, x: T)
    ensures InSome([first] + rest, x) <==> x in first || InSome(rest, x)
  {
    var lists := [first] + rest;
    assert lists[0] == first && forall i | 0 <= i < |rest| :: lists[i + 1] == rest[i];
    assert forall i | 1 <= i < |lists| :: lists[i] == rest[i - 1];
  }

  lemma BeforeInSomeCons<T>(first: seq<T>, rest: seq<seq<T>>, x: T, y: T)
    ensures BeforeInSome([first] + rest, x, y) <==> Before(first, x, y) || BeforeInSome(rest, x, y)
  {
    var lists := [first] + rest;
    assert lists[0] == first && forall i | 0 <= i < |rest| :: lists[i + 1] == rest[i];
    assert forall i | 1 <= i < |lists| :: lists[i] == rest[i - 1];
  }

  lemma NextInRest<T>(lists: seq<seq<T>>, x: T)
    requires lists != [] && IsNext(lists, x)
    ensures IsNext(lists[1..], x) && IsNext([lists[0]], x)
  {
    assert forall i | 0 <= i < |lists[1..]| :: lists[1..][i] == lists[i + 1];
  }

  /** Advancing takes away x and nothing else. */
  lemma {:induction false} AdvanceMembers<T>(lists: seq<seq<T>>, x: T, y: T)
    requires AllNonempty(lists) && IsNext(lists, x)
    ensures InSome(Advance(lists, x), y) <==> y != x && InSome(lists, y)
    decreases |lists|
  {
    if lists != [] {
      var first, rest := lists[0], lists[1..];
      NextInRest(lists, x);
      AdvanceMembers(rest, x, y);
      assert lists == [first] + rest;
      InSomeCons(first, rest, y);
      InSomeCons(first, Advance(rest, x), y);
      InSomeCons(first[1..], Advance(rest, x), y);
      assert forall j | 1 <= j < |first| :: [first][0][j] != x;
      assert y in first <==> y == first[0] || y in first[1..];
    }
  }

  lemma {:induction false} CandidateIsNext<T>(lists: seq<seq<T>>, all: seq<seq<T>>)
    requires AllNonempty(lists) && Candidate(lists, all).Some?
    ensures IsNext(all, Candidate(lists, all).value)
    decreases |lists|
  {
    if !IsNext(all, lists[0][0]) {
      CandidateIsNext(lists[1..], all);
    }
  }

  lemma {:induction false} MergeMembers<T>(lists: seq<seq<T>>, y: T)
    requires AllNonempty(lists) && Merge(lists).Some?
    ensures y in Merge(lists).value <==> InSome(lists, y)
    decreases Size(lists)
  {
    if lists != [] {
      var x := Candidate(lists, lists).value;
      CandidateIsNext(lists, lists);
      AdvanceMembers(lists, x, y);
      MergeMembers(Advance(lists, x), y);
      if y == x {
        var i :| 0 <= i < |lists| && lists[i][0] == x;
        assert x in lists[i];
      }
    }
  }

  lemma {:induction false} MergeDistinct<T>(lists: seq<seq<T>>)
    requires AllNonempty(lists) && Merge(lists).Some?
    ensures Distinct(Merge(lists).value)
    decreases Size(lists)
  {
    if lists != [] {
      var x := Candidate(lists, lists).value;
      CandidateIsNext(lists, lists);
      MergeDistinct(Advance(lists, x));
      AdvanceMembers(lists, x, x);
      MergeMembers(Advance(lists, x), x);
    }
  }

  /** An element that may come next stands before everything else in its list. */
  lemma TailBefore<T>(list: seq<T>, x: T, y: T, taken: T)
    requires list != [] && taken !in list[1..] && Before(list, x, y)
    ensures y != taken
    ensures x != taken ==> Before(if list[0] == taken then list[1..] else list, x, y)
  {
    var i, j :| 0 <= i < j < |list| && list[i] == x && list[j] == y;
    assert list[1..][j - 1] == y;
    if x != taken && list[0] == taken {
      assert list[1..][i - 1] == x;
    }
  }

  lemma {:induction false} AdvanceOrder<T>(lists: seq<seq<T>>, taken: T, x: T, y: T)
    requires AllNonempty(lists) && IsNext(lists, taken) && BeforeInSome(lists, x, y)
    ensures y != taken
    ensures x != taken ==> BeforeInSome(Advance(lists, taken), x, y)
    decreases |lists|
  {
    var first, rest := lists[0], lists[1..];
    NextInRest(lists, taken);
    assert lists == [first] + rest;
    BeforeInSomeCons(first, rest, x, y);
    BeforeInSomeCons(first, Advance(rest, taken), x, y);
    BeforeInSomeCons(first[1..], Advance(rest, taken), x, y);
    if BeforeInSome(rest, x, y) {
      AdvanceOrder(rest, taken, x, y);
    } else {
      assert forall j | 1 <= j < |first| :: [first][0][j] != taken;
      TailBefore(first, x, y, taken);
    }
  }

  lemma BeforeCons<T>(first: T, rest: seq<T>, x: T, y: T)
    requires (x == first && y in rest) || Before(rest, x, y)
    ensures Before([first] + rest, x, y)
  {
    var s := [first] + rest;
    assert s[0] == first && forall i | 0 <= i < |rest| :: s[i + 1] == rest[i];
    if x == first && y in rest {
      var j :| 0 <= j < |rest| && rest[j] == y;
      assert s[j + 1] == y;
    } else {
      var i, j :| 0 <= i < j < |rest| && rest[i] == x && rest[j] == y;
      assert s[i + 1] == x && s[j + 1] == y;
    }
  }

  lemma SecondInSome<T>(lists: seq<seq<T>>, x: T, y: T)
    requires BeforeInSome(lists, x, y)
    ensures InSome(lists, y)
  {
    var i :| 0 <= i < |lists| && Before(lists[i], x, y);
    assert y in lists[i];
  }

  /** The merge keeps the order of every list. */
  lemma {:induction false} MergeKeepsOrder<T>(lists: seq<seq<T>>, x: T, y: T)
    requires AllNonempty(lists) && Merge(lists).Some? && BeforeInSome(lists, x, y)
    ensures Before(Merge(lists).value, x, y)
    decreases Size(lists)
  {
    var taken := Candidate(lists, lists).value;
    CandidateIsNext(lists, lists);
    var rest := Advance(lists, taken);
    AdvanceOrder(lists, taken, x, y);
    if x == taken {
      SecondInSome(lists, x, y);
      AdvanceMembers(lists, taken, y);
      MergeMembers(rest, y);
    } else {
      MergeKeepsOrder(rest, x, y);
    }
    BeforeCons(taken, Merge(rest).value, x, y);
  }

  // --- Lists that share nothing are taken one after the other ---

  lemma DistinctParts<T>(a: seq<T>, b: seq<T>)
    requires Distinct(a + b)
    ensures Distinct(a) && Distinct(b) && forall i, j | 0 <= i < |a| && 0 <= j < |b| :: a[i] != b[j]
  {
    var s := a + b;
    assert forall i | 0 <= i < |a| :: s[i] == a[i];
    assert forall j | 0 <= j < |b| :: s[|a| + j] == b[j];
  }

  lemma {:induction false} AdvanceConcat<T>(a: seq<seq<T>>, b: seq<seq<T>>, x: T)
    requires AllNonempty(a) && AllNonempty(b)
    ensures AllNonempty(a + b) && Advance(a + b, x) == Advance(a, x) + Advance(b, x)
    decreases |a|
  {
    if a == [] {
      assert a + b == b;
    } else {
      assert (a + b)[0] == a[0] && (a + b)[1..] == a[1..] + b;
      AdvanceConcat(a[1..], b, x);
    }
  }

  lemma {:induction false} AdvanceNothing<T>(lists: seq<seq<T>>, x: T)
    requires AllNonempty(lists) && forall i | 0 <= i < |lists| :: lists[i][0] != x
    ensures Advance(lists, x) == lists
    decreases |lists|
  {
    if lists != [] {
      AdvanceNothing(lists[1..], x);
      assert lists == [lists[0]] + lists[1..];
    }
  }

  /** heads: the first elements of the lists. */
  predicate HeadsOf<T(==)>(heads: seq<T>, lists: seq<seq<T>>) {
    |heads| == |lists| && forall i | 0 <= i < |lists| :: |lists[i]| > 0 && lists[i][0] == heads[i]
  }

  /** x occurs in none of the lists. */
  predicate Absent<T(==)>(lists: seq<seq<T>>, x: T) {
    forall i, j | 0 <= i < |lists| && 0 <= j < |lists[i]| :: lists[i][j] != x
  }

  lemma {:induction false} AbsentFrom<T>(lists: seq<seq<T>>, x: T)
    requires forall j | 0 <= j < |Flatten(lists)| :: Flatten(lists)[j] != x
    ensures Absent(lists, x)
    decreases |lists|
  {
    if lists != [] {
      var flat, rest := Flatten(lists), Flatten(lists[1..]);
      assert forall j | 0 <= j < |lists[0]| :: flat[j] == lists[0][j];
      assert forall j | 0 <= j < |rest| :: flat[|lists[0]| + j] == rest[j];
      AbsentFrom(lists[1..], x);
      forall i, j | 0 <= i < |lists| && 0 <= j < |lists[i]| ensures lists[i][j] != x {
        assert i > 0 ==> lists[1..][i - 1] == lists[i];
      }
    }
  }

  /** The names not taken yet, as a list of their own unless there are none. */
  function Ahead<T>(heads: seq<T>): seq<seq<T>> { if heads == [] then [] else [heads] }

  /** A list in front and the names at the end, which begin with the front one if that list is not begun. */
  function Tail<T>(x: T, heads: seq<T>, begun: bool): seq<seq<T>> { if begun then Ahead(heads) else [[x] + heads] }

  lemma FrontIsNext<T>(first: seq<T>, rest: seq<seq<T>>, heads: seq<T>, begun: bool)
    requires first != [] && Distinct(first) && HeadsOf(heads, rest) && Absent(rest, first[0])
    ensures IsNext([first] + rest + Tail(first[0], heads, begun), first[0])
  {
    var x, tail := first[0], Tail(first[0], heads, begun);
    var lists := [first] + rest + tail;
    assert forall i | 0 <= i < |heads| :: heads[i] == rest[i][0] && heads[i] != x;
    forall i, j | 0 <= i < |lists| && 1 <= j < |lists[i]| ensures lists[i][j] != x {
      if i == 0 {
        assert lists[i] == first;
      } else if i <= |rest| {
        assert lists[i] == rest[i - 1];
      } else {
        assert lists[i] == tail[i - 1 - |rest|];
      }
    }
  }

  /** One step of the merge: the front element leaves the list in front and the list of names. */
  lemma FrontAdvances<T>(first: seq<T>, rest: seq<seq<T>>, heads: seq<T>, begun: bool)
    requires first != [] && HeadsOf(heads, rest) && Absent(rest, first[0])
    ensures var lists := [first] + rest + Tail(first[0], heads, begun);
      AllNonempty(lists) && Advance(lists, first[0]) == (if |first| > 1 then [first[1..]] else []) + rest + Ahead(heads)
  {
    var x, tail := first[0], Tail(first[0], heads, begun);
    assert AllNonempty([first]) && AllNonempty(rest) && AllNonempty(tail);
    assert forall i | 0 <= i < |rest| :: rest[i][0] != x;
    AdvanceNothing(rest, x);
    AdvanceConcat([first], rest, x);
    AdvanceConcat([first] + rest, tail, x);
    FrontTaken(first, x);
    if begun {
      assert heads != [] ==> heads[0] == rest[0][0];
      AdvanceNothing(tail, x);
    } else {
      FrontTaken([x] + heads, x);
      assert ([x] + heads)[1..] == heads;
    }
  }

  lemma FrontTaken<T>(list: seq<T>, x: T)
    requires list != [] && list[0] == x
    ensures AllNonempty([list]) && Advance([list], x) == (if |list| > 1 then [list[1..]] else [])
  {
    assert [list][1..] == [];
  }

  lemma MergeStep<T>(first: seq<T>, rest: seq<seq<T>>, heads: seq<T>, begun: bool)
    requires first != [] && Distinct(first + Flatten(rest)) && HeadsOf(heads, rest)
    ensures var lists := [first] + rest + Tail(first[0], heads, begun);
      var left := (if |first| > 1 then [first[1..]] else []) + rest + Ahead(heads);
      && AllNonempty(lists) && AllNonempty(left)
      && Merge(lists) == if Merge(left).None? then None else Some([first[0]] + Merge(left).value)
  {
    DistinctParts(first, Flatten(rest));
    AbsentFrom(rest, first[0]);
    FrontIsNext(first, rest, heads, begun);
    FrontAdvances(first, rest, heads, begun);
    var lists := [first] + rest + Tail(first[0], heads, begun);
    assert lists[0] == first;
    assert Candidate(lists, lists) == Some(first[0]);
  }

  lemma DistinctTail<T>(a: seq<T>, b: seq<T>)
    requires a != [] && Distinct(a + b)
    ensures Distinct(a[1..] + b)
  {
    assert a + b == [a[0]] + (a[1..] + b);
    DistinctParts([a[0]], a[1..] + b);
  }

  /** Once the front list is used up, the next one is in front and not begun. */
  lemma NextInFront<T>(rest: seq<seq<T>>, heads: seq<T>)
    requires rest != [] && HeadsOf(heads, rest)
    ensures rest + Ahead(heads) == [rest[0]] + rest[1..] + Tail(rest[0][0], heads[1..], false)
    ensures HeadsOf(heads[1..], rest[1..]) && Flatten(rest) == rest[0] + Flatten(rest[1..])
  {
    var x, others, names := rest[0], rest[1..], heads[1..];
    assert heads == [x[0]] + names && rest == [x] + others;
    assert forall i | 0 <= i < |others| :: others[i] == rest[i + 1] && names[i] == heads[i + 1];
  }

  lemma FrontFirst<T>(first: seq<T>, flat: seq<T>)
    requires first != []
    ensures first + flat == [first[0]] + (first[1..] + flat)
    ensures |first| == 1 ==> first + flat == [first[0]] + flat
  {
  }

  /** The list in front, begun or not, and then the others. */
  lemma {:induction false} MergeInOrder<T>(first: seq<T>, rest: seq<seq<T>>, heads: seq<T>, begun: bool)
    requires first != [] && Distinct(first + Flatten(rest)) && HeadsOf(heads, rest)
    ensures AllNonempty([first] + rest + Tail(first[0], heads, begun))
    ensures Merge([first] + rest + Tail(first[0], heads, begun)) == Some(first + Flatten(rest))
    decreases |rest|, |first|, 1
  {
    MergeStep(first, rest, heads, begun);
    FrontFirst(first, Flatten(rest));
    if |first| > 1 {
      MergeFront(first, rest, heads);
    } else {
      assert [] + rest + Ahead(heads) == rest + Ahead(heads);
      DistinctParts(first, Flatten(rest));
      MergeDisjoint(rest, heads);
    }
  }

  lemma {:induction false} MergeFront<T>(first: seq<T>, rest: seq<seq<T>>, heads: seq<T>)
    requires |first| > 1 && Distinct(first + Flatten(rest)) && HeadsOf(heads, rest)
    ensures AllNonempty([first[1..]] + rest + Ahead(heads))
    ensures Merge([first[1..]] + rest + Ahead(heads)) == Some(first[1..] + Flatten(rest))
    decreases |rest|, |first|, 0
  {
    DistinctTail(first, Flatten(rest));
    MergeInOrder(first[1..], rest, heads, true);
  }

  /** Lists that share nothing, with their first elements at the end, come one after the other. */
  lemma {:induction false} MergeDisjoint<T>(rest: seq<seq<T>>, heads: seq<T>)
    requires Distinct(Flatten(rest)) && HeadsOf(heads, rest)
    ensures AllNonempty(rest + Ahead(heads)) && Merge(rest + Ahead(heads)) == Some(Flatten(rest))
    decreases |rest|, 0, 0
  {
    if rest == [] {
      assert rest + Ahead(heads) == [];
    } else {
      NextInFront(rest, heads);
      MergeInOrder(rest[0], rest[1..], heads[1..], false);
    }
  }
}
