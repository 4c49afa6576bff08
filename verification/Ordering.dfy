/** Sorting by key. A key is a sequence of numbers compared lexicographically: ranks first, then the code points of
    a path. */
module Ordering {

  type Key = seq<int>

  predicate Less(a: Key, b: Key)
    decreases |a|
  {
    b != [] && (a == [] || a[0] < b[0] || (a[0] == b[0] && Less(a[1..], b[1..])))
  }

  predicate LessEq(a: Key, b: Key) { !Less(b, a) }

  lemma {:induction false} Irreflexive(a: Key)
    ensures !Less(a, a)
    decreases |a|
  {
    if a != [] {
      Irreflexive(a[1..]);
    }
  }

  lemma {:induction false} Transitive(a: Key, b: Key, c: Key)
    requires Less(a, b) && Less(b, c)
    ensures Less(a, c)
    decreases |a|
  {
    if a != [] && a[0] == b[0] && b[0] == c[0] {
      Transitive(a[1..], b[1..], c[1..]);
    }
  }

  lemma {:induction false} Total(a: Key, b: Key)
    ensures Less(a, b) || Less(b, a) || a == b
    decreases |a|
  {
    if a != [] && b != [] && a[0] == b[0] {
      Total(a[1..], b[1..]);
      assert a == [a[0]] + a[1..] && b == [b[0]] + b[1..];
    }
  }

  lemma LessEqTransitive(a: Key, b: Key, c: Key)
    requires LessEq(a, b) && LessEq(b, c)
    ensures LessEq(a, c)
  {
    Total(a, b);
    Total(b, c);
    if Less(c, a) {
      if a == b {
      } else if b == c {
      } else {
        Transitive(a, b, c);
        Transitive(a, c, a);
        Irreflexive(a);
      }
    }
  }

  function Codes(s: string): (codes: Key)
    ensures |codes| == |s|
  {
    seq(|s|, i requires 0 <= i < |s| => s[i] as int)
  }

  lemma CodesInjective(s: string, t: string)
    ensures Codes(s) == Codes(t) ==> s == t
  {
    if Codes(s) == Codes(t) {
      forall i | 0 <= i < |s| ensures s[i] == t[i] {
        assert Codes(s)[i] == Codes(t)[i];
      }
    }
  }

  // --- Stable sorting ---

  ghost predicate Sorted<T>(key: T -> Key, items: seq<T>) {
    forall i, j | 0 <= i < j < |items| :: LessEq(key(items[i]), key(items[j]))
  }

  ghost predicate StrictlySorted<T>(key: T -> Key, items: seq<T>) {
    forall i, j | 0 <= i < j < |items| :: Less(key(items[i]), key(items[j]))
  }

  /** After every item whose key is not greater. */
  function Insert<T>(key: T -> Key, x: T, items: seq<T>): seq<T> {
    if items == [] then [x]
    else if Less(key(x), key(items[|items| - 1])) then Insert(key, x, items[..|items| - 1]) + [items[|items| - 1]]
    else items + [x]
  }

  function Sort<T>(key: T -> Key, items: seq<T>): seq<T> {
    if items == [] then [] else Insert(key, items[|items| - 1], Sort(key, items[..|items| - 1]))
  }

  lemma {:induction false} InsertKeeps<T(!new)>(key: T -> Key, x: T, items: seq<T>)
    ensures multiset(Insert(key, x, items)) == multiset(items) + multiset{x}
    ensures forall y :: y in Insert(key, x, items) <==> y in items || y == x
  {
    if items != [] {
      var front, last := items[..|items| - 1], items[|items| - 1];
      assert items == front + [last];
      if Less(key(x), key(last)) {
        InsertKeeps(key, x, front);
      }
    }
  }

  lemma {:induction false} InsertSorted<T(!new)>(key: T -> Key, x: T, items: seq<T>)
    requires Sorted(key, items)
    ensures Sorted(key, Insert(key, x, items))
  {
    if items != [] {
      var front, last := items[..|items| - 1], items[|items| - 1];
      assert items == front + [last];
      if Less(key(x), key(last)) {
        InsertSorted(key, x, front);
        InsertKeeps(key, x, front);
        var inserted := Insert(key, x, front);
        forall i | 0 <= i < |inserted| ensures LessEq(key(inserted[i]), key(last)) {
          assert inserted[i] in inserted;
          if inserted[i] == x {
            NotBoth(key(x), key(last));
          } else {
            assert inserted[i] in front;
            var j :| 0 <= j < |front| && front[j] == inserted[i];
            assert items[j] == front[j] && items[|items| - 1] == last;
          }
        }
      } else {
        forall i | 0 <= i < |items| ensures LessEq(key(items[i]), key(x)) {
          if i < |items| - 1 {
            LessEqTransitive(key(items[i]), key(last), key(x));
          }
        }
      }
    }
  }

  lemma NotBoth(a: Key, b: Key)
    requires Less(a, b)
    ensures LessEq(a, b)
  {
    if Less(b, a) {
      Transitive(a, b, a);
      Irreflexive(a);
    }
  }

  lemma {:induction false} SortIsPermutation<T(!new)>(key: T -> Key, items: seq<T>)
    ensures multiset(Sort(key, items)) == multiset(items)
    ensures |Sort(key, items)| == |items|
    ensures forall y :: y in Sort(key, items) <==> y in items
  {
    if items != [] {
      var front, last := items[..|items| - 1], items[|items| - 1];
      assert items == front + [last];
      SortIsPermutation(key, front);
      InsertKeeps(key, last, Sort(key, front));
      assert |multiset(Sort(key, items))| == |multiset(items)|;
    }
  }

  lemma {:induction false} SortIsSorted<T(!new)>(key: T -> Key, items: seq<T>)
    ensures Sorted(key, Sort(key, items))
  {
    if items != [] {
      SortIsSorted(key, items[..|items| - 1]);
      InsertSorted(key, items[|items| - 1], Sort(key, items[..|items| - 1]));
    }
  }

  ghost predicate KeysDistinct<T>(key: T -> Key, items: seq<T>) {
    forall i, j | 0 <= i < j < |items| :: key(items[i]) != key(items[j])
  }

  lemma {:induction false} InsertDistinct<T(!new)>(key: T -> Key, x: T, items: seq<T>)
    requires KeysDistinct(key, items) && forall y | y in items :: key(y) != key(x)
    ensures KeysDistinct(key, Insert(key, x, items))
  {
    if items != [] && Less(key(x), key(items[|items| - 1])) {
      var front, last := items[..|items| - 1], items[|items| - 1];
      InsertDistinct(key, x, front);
      InsertKeeps(key, x, front);
      var inserted := Insert(key, x, front);
      forall i | 0 <= i < |inserted| ensures key(inserted[i]) != key(last) {
        assert inserted[i] in inserted;
        if inserted[i] != x {
          assert inserted[i] in front;
          var j :| 0 <= j < |front| && front[j] == inserted[i];
          assert items[j] == front[j] && items[|items| - 1] == last;
        }
      }
    }
  }

  lemma {:induction false} SortDistinct<T(!new)>(key: T -> Key, items: seq<T>)
    requires KeysDistinct(key, items)
    ensures KeysDistinct(key, Sort(key, items))
  {
    if items != [] {
      var front, last := items[..|items| - 1], items[|items| - 1];
      SortDistinct(key, front);
      SortIsPermutation(key, front);
      forall y | y in Sort(key, front) ensures key(y) != key(last) {
        assert y in front;
        var j :| 0 <= j < |front| && front[j] == y;
        assert items[j] == y;
      }
      InsertDistinct(key, last, Sort(key, front));
    }
  }

  /** Distinct keys sort into a strict order. */
  lemma SortIsStrict<T(!new)>(key: T -> Key, items: seq<T>)
    requires KeysDistinct(key, items)
    ensures StrictlySorted(key, Sort(key, items))
  {
    var sorted := Sort(key, items);
    SortIsSorted(key, items);
    SortDistinct(key, items);
    forall i, j | 0 <= i < j < |sorted| ensures Less(key(sorted[i]), key(sorted[j])) {
      Total(key(sorted[i]), key(sorted[j]));
    }
  }

  lemma MinimumFirst<T(!new)>(key: T -> Key, a: seq<T>, b: seq<T>)
    requires StrictlySorted(key, a) && StrictlySorted(key, b) && a != [] && b != []
    requires forall y :: y in a <==> y in b
    ensures a[0] == b[0]
  {
    assert a[0] in b && b[0] in a;
    var i :| 0 <= i < |b| && b[i] == a[0];
    var j :| 0 <= j < |a| && a[j] == b[0];
    if i > 0 && j > 0 {
      Transitive(key(a[0]), key(b[0]), key(a[0]));
      Irreflexive(key(a[0]));
    }
  }

  lemma RestInRest<T(!new)>(key: T -> Key, a: seq<T>, b: seq<T>, y: T)
    requires StrictlySorted(key, a) && StrictlySorted(key, b) && a != [] && b != [] && a[0] == b[0]
    requires y in a[1..] && y in b
    ensures y in b[1..]
  {
    var i :| 0 <= i < |a[1..]| && a[1..][i] == y;
    assert a[i + 1] == y;
    Irreflexive(key(y));
    var j :| 0 <= j < |b| && b[j] == y;
    assert j > 0;
    assert b[1..][j - 1] == y;
  }

  /** A strictly sorted sequence is determined by its elements. */
  lemma {:induction false} StrictIsUnique<T(!new)>(key: T -> Key, a: seq<T>, b: seq<T>)
    requires StrictlySorted(key, a) && StrictlySorted(key, b)
    requires forall y :: y in a <==> y in b
    ensures a == b
    decreases |a|
  {
    if a == [] {
      assert forall k | 0 <= k < |b| :: b[k] in a;
    } else {
      assert a[0] in b;
      MinimumFirst(key, a, b);
      forall y ensures y in a[1..] <==> y in b[1..] {
        if y in a[1..] { RestInRest(key, a, b, y); }
        if y in b[1..] { RestInRest(key, b, a, y); }
      }
      StrictIsUnique(key, a[1..], b[1..]);
      assert a == [a[0]] + a[1..] && b == [b[0]] + b[1..];
    }
  }

  // --- Taking the first k ---

  /** A slice `[:k]`: a negative k drops that many from the end. */
  function TakeFirst<T>(items: seq<T>, k: int): seq<T> {
    if k >= |items| then items
    else if k >= 0 then items[..k]
    else if |items| + k >= 0 then items[..|items| + k]
    else []
  }
}
