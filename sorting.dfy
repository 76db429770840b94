/** Python's `sorted`: a stable sort by an ordering relation. `before(x, y)`
    means that x must come before y; elements neither of which comes before
    the other keep their input order. */
module Sorting {

  predicate Equivalent<T>(before: (T, T) -> bool, x: T, y: T) {
    !before(x, y) && !before(y, x)
  }

  /** The conditions under which a stable sort by `before` is well defined
      (a strict weak order): irreflexive, transitive, and compatible with
      equivalence on either side. */
  ghost predicate StrictWeakOrder<T(!new)>(before: (T, T) -> bool) {
    && (forall x :: !before(x, x))
    && (forall x, y, z :: before(x, y) && before(y, z) ==> before(x, z))
    && (forall x, y, z :: Equivalent(before, x, y) && before(y, z) ==> before(x, z))
    && (forall x, y, z :: before(x, y) && Equivalent(before, y, z) ==> before(x, z))
  }

  /** A strict weak order in which only equal elements are equivalent. */
  ghost predicate StrictTotalOrder<T(!new)>(before: (T, T) -> bool) {
    StrictWeakOrder(before) && forall x, y :: Equivalent(before, x, y) ==> x == y
  }

  /** No element is followed by one that should come before it. */
  predicate SortedBy<T>(s: seq<T>, before: (T, T) -> bool) {
    forall i, j :: 0 <= i < j < |s| ==> !before(s[j], s[i])
  }

  /** The elements of `s` equivalent to `x`, in their order in `s`. */
  function ClassOf<T>(s: seq<T>, before: (T, T) -> bool, x: T): seq<T> {
    if s == [] then []
    else (if Equivalent(before, x, s[0]) then [s[0]] else []) + ClassOf(s[1..], before, x)
  }

  /** Insert `x` after every element it does not have to precede. */
  function Insert<T>(x: T, s: seq<T>, before: (T, T) -> bool): seq<T> {
    if s == [] then [x]
    else if before(x, s[0]) then [x] + s
    else [s[0]] + Insert(x, s[1..], before)
  }

  /** Insertion sort, taking the elements in input order. */
  function Sort<T(!new)>(s: seq<T>, before: (T, T) -> bool): (r: seq<T>)
    requires StrictWeakOrder(before)
    ensures SortedBy(r, before)
    ensures multiset(r) == multiset(s)
    ensures forall x :: ClassOf(r, before, x) == ClassOf(s, before, x)
  {
    if s == [] then []
    else
      var p := s[..|s| - 1];
      var last := s[|s| - 1];
      var r := Sort(p, before);
      SortStep(p, last, r, before);
      assert s == p + [last];
      Insert(last, r, before)
  }

  /** Inserting the next element into the sorted front keeps all three
      properties of `Sort`. */
  lemma SortStep<T(!new)>(p: seq<T>, last: T, r: seq<T>, before: (T, T) -> bool)
    requires StrictWeakOrder(before)
    requires SortedBy(r, before) && multiset(r) == multiset(p)
    requires forall x :: ClassOf(r, before, x) == ClassOf(p, before, x)
    ensures SortedBy(Insert(last, r, before), before)
    ensures multiset(Insert(last, r, before)) == multiset(p + [last])
    ensures forall x :: ClassOf(Insert(last, r, before), before, x) == ClassOf(p + [last], before, x)
  {
    InsertSorted(last, r, before);
    InsertPermutes(last, r, before);
    forall x ensures ClassOf(Insert(last, r, before), before, x) == ClassOf(p + [last], before, x) {
      InsertClass(last, r, before, x);
      ClassOfAppend(p, [last], before, x);
    }
  }

  lemma {:induction false} ClassOfAppend<T>(a: seq<T>, b: seq<T>, before: (T, T) -> bool, x: T)
    ensures ClassOf(a + b, before, x) == ClassOf(a, before, x) + ClassOf(b, before, x)
  {
    if a != [] {
      assert (a + b)[0] == a[0];
      assert (a + b)[1..] == a[1..] + b;
      ClassOfAppend(a[1..], b, before, x);
    } else {
      assert a + b == b;
    }
  }

  lemma {:induction false} InsertPermutes<T>(x: T, s: seq<T>, before: (T, T) -> bool)
    ensures multiset(Insert(x, s, before)) == multiset(s) + multiset{x}
  {
    if s != [] && !before(x, s[0]) {
      InsertPermutes(x, s[1..], before);
      assert s == [s[0]] + s[1..];
    }
  }

  lemma {:induction false} InsertSorted<T(!new)>(x: T, s: seq<T>, before: (T, T) -> bool)
    requires StrictWeakOrder(before)
    requires SortedBy(s, before)
    ensures SortedBy(Insert(x, s, before), before)
  {
    if s != [] && !before(x, s[0]) {
      InsertSorted(x, s[1..], before);
      InsertPermutes(x, s[1..], before);
      var t := Insert(x, s[1..], before);
      var u := [s[0]] + t;
      forall i, j | 0 <= i < j < |u| ensures !before(u[j], u[i]) {
        if i == 0 {
          assert u[j] == t[j - 1];
          assert t[j - 1] in multiset(t);
          if t[j - 1] != x {
            assert t[j - 1] in multiset(s[1..]);
            var k :| 0 <= k < |s[1..]| && s[1..][k] == t[j - 1];
            assert s[k + 1] == u[j];
          }
        } else {
          assert u[j] == t[j - 1] && u[i] == t[i - 1];
        }
      }
    }
  }

  lemma {:induction false} ClassOfEmpty<T>(s: seq<T>, before: (T, T) -> bool, x: T)
    requires forall i :: 0 <= i < |s| ==> !Equivalent(before, x, s[i])
    ensures ClassOf(s, before, x) == []
  {
    if s != [] { ClassOfEmpty(s[1..], before, x); }
  }

  /** An element before c is not equivalent to one that is not before c. */
  lemma NotEquivalent<T(!new)>(before: (T, T) -> bool, a: T, b: T, c: T)
    requires StrictWeakOrder(before)
    requires before(a, c) && !before(b, c)
    ensures !Equivalent(before, a, b)
  {
  }

  /** Inserting in front of a sorted sequence whose head must follow `x`:
      nothing in the sequence is equivalent to `x`. */
  lemma InsertClassFront<T(!new)>(x: T, s: seq<T>, before: (T, T) -> bool, y: T)
    requires StrictWeakOrder(before)
    requires SortedBy(s, before) && s != [] && before(x, s[0])
    ensures ClassOf([x] + s, before, y)
         == ClassOf(s, before, y) + (if Equivalent(before, y, x) then [x] else [])
  {
    var u := [x] + s;
    assert u[0] == x && u[1..] == s;
    if Equivalent(before, y, x) {
      assert before(y, s[0]);
      forall i | 0 <= i < |s| ensures !Equivalent(before, y, s[i]) {
        if i > 0 {
          assert !before(s[i], s[0]);
          NotEquivalent(before, y, s[i], s[0]);
        }
      }
      ClassOfEmpty(s, before, y);
    }
  }

  lemma {:induction false} InsertClass<T(!new)>(x: T, s: seq<T>, before: (T, T) -> bool, y: T)
    requires StrictWeakOrder(before)
    requires SortedBy(s, before)
    ensures ClassOf(Insert(x, s, before), before, y)
         == ClassOf(s, before, y) + (if Equivalent(before, y, x) then [x] else [])
  {
    if s == [] {
    } else if before(x, s[0]) {
      InsertClassFront(x, s, before, y);
    } else {
      var t := Insert(x, s[1..], before);
      var u := [s[0]] + t;
      var e := if Equivalent(before, y, s[0]) then [s[0]] else [];
      var ex := if Equivalent(before, y, x) then [x] else [];
      SortedTail(s, before);
      InsertClass(x, s[1..], before, y);
      assert Insert(x, s, before) == u;
      assert u[0] == s[0] && u[1..] == t;
      assert ClassOf(u, before, y) == e + ClassOf(t, before, y);
      assert ClassOf(s, before, y) == e + ClassOf(s[1..], before, y);
      var c := ClassOf(s[1..], before, y);
      assert (e + c) + ex == e + (c + ex);
    }
  }

  lemma TailMultiset<T>(a: seq<T>, b: seq<T>)
    requires a != [] && b != [] && a[0] == b[0]
    requires multiset(a) == multiset(b)
    ensures multiset(a[1..]) == multiset(b[1..])
  {
    assert a == [a[0]] + a[1..];
    assert b == [b[0]] + b[1..];
    assert multiset(a) == multiset([a[0]]) + multiset(a[1..]);
    assert multiset(b) == multiset([b[0]]) + multiset(b[1..]);
    assert multiset(a[1..]) == multiset(a) - multiset([a[0]]);
    assert multiset(b[1..]) == multiset(b) - multiset([b[0]]);
  }

  lemma SortedTail<T>(s: seq<T>, before: (T, T) -> bool)
    requires s != [] && SortedBy(s, before)
    ensures SortedBy(s[1..], before)
  {
    forall i, j | 0 <= i < j < |s[1..]| ensures !before(s[1..][j], s[1..][i]) {
      assert s[1..][j] == s[j + 1] && s[1..][i] == s[i + 1];
    }
  }

  /** Two sequences sorted by a strict total order that hold the same
      elements are equal: the sorted order does not depend on the method. */
  lemma {:induction false} SortedUnique<T(!new)>(a: seq<T>, b: seq<T>, before: (T, T) -> bool)
    requires StrictTotalOrder(before)
    requires SortedBy(a, before) && SortedBy(b, before)
    requires multiset(a) == multiset(b)
    ensures a == b
  {
    if a != [] {
      assert |b| == |a| by { assert |multiset(a)| == |multiset(b)|; }
      assert a[0] in multiset(b);
      assert b[0] in multiset(a);
      var i :| 0 <= i < |b| && b[i] == a[0];
      var j :| 0 <= j < |a| && a[j] == b[0];
      assert !before(b[0], a[0]) by {
        if j > 0 { assert !before(a[j], a[0]); }
      }
      assert !before(a[0], b[0]) by {
        if i > 0 { assert !before(b[i], b[0]); }
      }
      assert Equivalent(before, a[0], b[0]);
      assert a[0] == b[0];
      TailMultiset(a, b);
      SortedTail(a, before);
      SortedTail(b, before);
      SortedUnique(a[1..], b[1..], before);
    }
  }
}
