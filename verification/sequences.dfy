/** Order-preserving filters and the stable sort that Python's `sorted` and
    `list.sort` provide, with the facts the components need about them. */
module Sequences {

  datatype Option<+T> = None | Some(value: T)

  /** The elements of `s` that satisfy `p`, in their original order. */
  function Filter<T(!new)>(p: T -> bool, s: seq<T>): (r: seq<T>)
    ensures forall x :: x in r <==> x in s && p(x)
    ensures |r| <= |s|
  {
    if s == [] then []
    else
      var last := s[|s| - 1];
      if p(last) then Filter(p, s[..|s| - 1]) + [last] else Filter(p, s[..|s| - 1])
  }

  /** The elements of `s`, last first. */
  function Reverse<T(!new)>(s: seq<T>): (r: seq<T>)
    ensures |r| == |s|
    ensures forall i :: 0 <= i < |s| ==> r[i] == s[|s| - 1 - i]
    ensures forall x :: x in r <==> x in s
  {
    if s == [] then [] else [s[|s| - 1]] + Reverse(s[..|s| - 1])
  }

  /** Filtering splits over concatenation. */
  lemma {:induction false} FilterConcat<T(!new)>(p: T -> bool, a: seq<T>, b: seq<T>)
    ensures Filter(p, a + b) == Filter(p, a) + Filter(p, b)
  {
    if b == [] {
      assert a + b == a;
    } else {
      FilterConcat(p, a, b[..|b| - 1]);
      assert (a + b)[..|a + b| - 1] == a + b[..|b| - 1];
    }
  }

  /** Filtering twice keeps what passes both tests; when the second test is the stronger one, the first is invisible. */
  lemma {:induction false} FilterAbsorbs<T(!new)>(weak: T -> bool, strong: T -> bool, s: seq<T>)
    requires forall x :: x in s && strong(x) ==> weak(x)
    ensures Filter(strong, Filter(weak, s)) == Filter(strong, s)
  {
    if s != [] {
      var init, last := s[..|s| - 1], s[|s| - 1];
      FilterAbsorbs(weak, strong, init);
      assert last in s;
      if weak(last) {
        FilterConcat(strong, Filter(weak, init), [last]);
      }
    }
  }

  // ---- Stable sorting by an integer key ----

  ghost predicate SortedBy<T(!new)>(key: T -> int, s: seq<T>) {
    forall i, j :: 0 <= i < j < |s| ==> key(s[i]) <= key(s[j])
  }

  ghost predicate StrictlySortedBy<T(!new)>(key: T -> int, s: seq<T>) {
    forall i, j :: 0 <= i < j < |s| ==> key(s[i]) < key(s[j])
  }

  /** Inserts `x` before the first element whose key is not smaller. */
  function Insert<T(!new)>(key: T -> int, x: T, s: seq<T>): (r: seq<T>)
    ensures multiset(r) == multiset(s) + multiset{x}
    ensures |r| == |s| + 1
  {
    if s == [] then [x]
    else if key(x) <= key(s[0]) then [x] + s
    else
      assert s == [s[0]] + s[1..];
      [s[0]] + Insert(key, x, s[1..])
  }

  lemma {:induction false} InsertSorted<T(!new)>(key: T -> int, x: T, s: seq<T>)
    requires SortedBy(key, s)
    ensures SortedBy(key, Insert(key, x, s))
  {
    if s != [] && key(x) > key(s[0]) {
      var t := Insert(key, x, s[1..]);
      InsertSorted(key, x, s[1..]);
      forall k | 0 <= k < |t| ensures key(s[0]) <= key(t[k]) {
        assert t[k] in multiset(t);
        assert t[k] == x || t[k] in s[1..];
      }
    }
  }

  /** Python's stable sort. */
  function Sort<T(!new)>(key: T -> int, s: seq<T>): (r: seq<T>)
    ensures multiset(r) == multiset(s)
    ensures |r| == |s|
    ensures SortedBy(key, r)
  {
    if s == [] then []
    else
      assert s == [s[0]] + s[1..];
      InsertSorted(key, s[0], Sort(key, s[1..]));
      Insert(key, s[0], Sort(key, s[1..]))
  }

  lemma SortMembers<T(!new)>(key: T -> int, s: seq<T>)
    ensures forall x :: x in Sort(key, s) <==> x in s
  {
    forall x ensures x in Sort(key, s) <==> x in s {
      assert x in Sort(key, s) <==> x in multiset(Sort(key, s));
      assert x in s <==> x in multiset(s);
    }
  }

  /** The elements with the given key. */
  function WithKey<T(!new)>(key: T -> int, v: int, s: seq<T>): seq<T> { Filter(x => key(x) == v, s) }

  lemma WithKeyConcat<T(!new)>(key: T -> int, v: int, a: seq<T>, b: seq<T>)
    ensures WithKey(key, v, a + b) == WithKey(key, v, a) + WithKey(key, v, b)
  {
    FilterConcat(x => key(x) == v, a, b);
  }

  lemma WithKeyOne<T(!new)>(key: T -> int, v: int, x: T)
    ensures WithKey(key, v, [x]) == if key(x) == v then [x] else []
  {
    assert [x][..0] == [];
  }

  lemma {:induction false} InsertStable<T(!new)>(key: T -> int, x: T, s: seq<T>, v: int)
    ensures WithKey(key, v, Insert(key, x, s)) == WithKey(key, v, [x]) + WithKey(key, v, s)
    decreases |s|
  {
    WithKeyOne(key, v, x);
    if s != [] {
      assert s == [s[0]] + s[1..];
      WithKeyConcat(key, v, [s[0]], s[1..]);
      if key(x) <= key(s[0]) {
        WithKeyConcat(key, v, [x], s);
      } else {
        WithKeyOne(key, v, s[0]);
        WithKeyConcat(key, v, [s[0]], Insert(key, x, s[1..]));
        InsertStable(key, x, s[1..], v);
      }
    }
  }

  /** Elements with the same key keep their order. */
  lemma {:induction false} SortIsStable<T(!new)>(key: T -> int, s: seq<T>, v: int)
    ensures WithKey(key, v, Sort(key, s)) == WithKey(key, v, s)
    decreases |s|
  {
    if s != [] {
      assert s == [s[0]] + s[1..];
      SortIsStable(key, s[1..], v);
      InsertStable(key, s[0], Sort(key, s[1..]), v);
      WithKeyConcat(key, v, [s[0]], s[1..]);
    }
  }

  lemma SortedTail<T(!new)>(key: T -> int, s: seq<T>)
    requires s != [] && SortedBy(key, s)
    ensures SortedBy(key, s[1..])
    ensures forall x :: x in s[1..] ==> key(s[0]) <= key(x)
  {
    forall i, j | 0 <= i < j < |s[1..]| ensures key(s[1..][i]) <= key(s[1..][j]) {
      assert key(s[i + 1]) <= key(s[j + 1]);
    }
    forall x | x in s[1..] ensures key(s[0]) <= key(x) {
      var j :| 0 <= j < |s[1..]| && s[1..][j] == x;
      assert key(s[0]) <= key(s[j + 1]);
    }
  }

  /** Two strictly ascending sequences with the same elements are the same sequence. */
  lemma {:induction false} StrictSortUnique<T(!new)>(key: T -> int, a: seq<T>, b: seq<T>)
    requires StrictlySortedBy(key, a) && StrictlySortedBy(key, b)
    requires forall x :: x in a <==> x in b
    ensures a == b
  {
    if a != [] || b != [] {
      if a != [] { assert a[0] in b; }
      if b != [] { assert b[0] in a; }
      var j :| 0 <= j < |b| && b[j] == a[0];
      var i :| 0 <= i < |a| && a[i] == b[0];
      assert i == 0 && j == 0;
      forall x ensures x in a[1..] <==> x in b[1..] {
        if x in a[1..] {
          var k :| 1 <= k < |a| && a[k] == x;
          assert x in a;
          assert x in b;
        }
        if x in b[1..] {
          var k :| 1 <= k < |b| && b[k] == x;
          assert x in b;
          assert x in a;
        }
      }
      StrictSortUnique(key, a[1..], b[1..]);
    }
  }

  // ---- Repetition-free sequences ----

  ghost predicate NoDup<T(!new)>(s: seq<T>) {
    forall i, j :: 0 <= i < j < |s| ==> s[i] != s[j]
  }

  /** The elements of a sequence. */
  function Set<T(!new)>(s: seq<T>): set<T> { set x | x in s }

  lemma SetAppend<T(!new)>(s: seq<T>, x: T)
    ensures Set(s + [x]) == Set(s) + {x}
  {
  }

  lemma NoDupAppend<T(!new)>(s: seq<T>, x: T)
    requires NoDup(s) && x !in Set(s)
    ensures NoDup(s + [x])
  {
  }

  lemma {:induction false} SubsetSize<T(!new)>(a: set<T>, b: set<T>)
    requires a <= b
    ensures |a| <= |b|
    ensures |a| == |b| ==> a == b
  {
    if a != {} {
      var x :| x in a;
      SubsetSize(a - {x}, b - {x});
    }
  }

  lemma HeadIsMember<T(!new)>(s: seq<T>)
    ensures s == [] || s[0] in s
  {
  }

  lemma NoDupFirst<T(!new)>(s: seq<T>, i: nat)
    requires NoDup(s) && i < |s|
    ensures s[i] !in s[..i]
  {
    forall x | x in s[..i] ensures x != s[i] {
      var j :| 0 <= j < i && s[..i][j] == x;
    }
  }

  lemma {:induction false} NoDupByCount<T(!new)>(s: seq<T>)
    ensures NoDup(s) <==> forall x :: multiset(s)[x] <= 1
  {
    if s != [] {
      var init, last := s[..|s| - 1], s[|s| - 1];
      assert s == init + [last];
      NoDupByCount(init);
      if NoDup(s) {
        assert last !in init;
        assert last !in multiset(init);
      } else if NoDup(init) {
        assert last in init;
        assert last in multiset(init);
        assert multiset(s)[last] >= 2;
      } else {
        var x :| multiset(init)[x] > 1;
        assert multiset(s)[x] > 1;
      }
    }
  }

  lemma {:induction false} FilterNoDup<T(!new)>(p: T -> bool, s: seq<T>)
    requires NoDup(s)
    ensures NoDup(Filter(p, s))
  {
    if s != [] {
      FilterNoDup(p, s[..|s| - 1]);
      assert s[|s| - 1] !in s[..|s| - 1];
    }
  }

  lemma SortNoDup<T(!new)>(key: T -> int, s: seq<T>)
    requires NoDup(s)
    ensures NoDup(Sort(key, s))
  {
    NoDupByCount(s);
    NoDupByCount(Sort(key, s));
  }
}
