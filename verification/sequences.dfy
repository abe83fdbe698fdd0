/** Array methods of JavaScript as functions on sequences, and what they keep. */
module Sequences {
  import opened Options

  /** `s.filter(p)` */
  function Filter<T(!new)>(s: seq<T>, p: T -> bool): seq<T> {
    if s == [] then []
    else if p(s[0]) then [s[0]] + Filter(s[1..], p)
    else Filter(s[1..], p)
  }

  lemma {:induction false} FilterMember<T(!new)>(s: seq<T>, p: T -> bool, x: T)
    ensures x in Filter(s, p) <==> x in s && p(x)
  {
    if s != [] {
      FilterMember(s[1..], p, x);
      assert s == [s[0]] + s[1..];
    }
  }

  lemma {:induction false} FilterConcat<T(!new)>(a: seq<T>, b: seq<T>, p: T -> bool)
    ensures Filter(a + b, p) == Filter(a, p) + Filter(b, p)
  {
    if a == [] {
      assert a + b == b;
    } else {
      FilterConcat(a[1..], b, p);
      assert (a + b)[1..] == a[1..] + b;
    }
  }

  lemma {:induction false} FilterAll<T(!new)>(s: seq<T>, p: T -> bool)
    requires forall x :: x in s ==> p(x)
    ensures Filter(s, p) == s
  {
    if s != [] {
      FilterAll(s[1..], p);
    }
  }

  lemma {:induction false} FilterNone<T(!new)>(s: seq<T>, p: T -> bool)
    requires forall x :: x in s ==> !p(x)
    ensures Filter(s, p) == []
  {
    if s != [] {
      FilterNone(s[1..], p);
    }
  }

  lemma {:induction false} FilterSame<T(!new)>(s: seq<T>, p: T -> bool, q: T -> bool)
    requires forall x :: x in s ==> p(x) == q(x)
    ensures Filter(s, p) == Filter(s, q)
  {
    if s != [] {
      FilterSame(s[1..], p, q);
    }
  }

  lemma TailConcat<T>(a: seq<T>, b: seq<T>)
    requires a != []
    ensures (a + b)[0] == a[0] && (a + b)[1..] == a[1..] + b
  {
  }

  /** `s.map(f)` */
  function Map<T, U>(s: seq<T>, f: T -> U): (r: seq<U>)
    ensures |r| == |s| && forall i :: 0 <= i < |s| ==> r[i] == f(s[i])
  {
    seq(|s|, i requires 0 <= i < |s| => f(s[i]))
  }

  /** `s.findIndex(p)`, with None for -1. */
  function FindIndex<T>(s: seq<T>, p: T -> bool): (r: Option<nat>)
    ensures r.Some? ==> r.value < |s| && p(s[r.value]) && forall i :: 0 <= i < r.value ==> !p(s[i])
    ensures r.None? ==> forall i :: 0 <= i < |s| ==> !p(s[i])
  {
    if s == [] then None
    else if p(s[0]) then Some(0)
    else
      match FindIndex(s[1..], p)
      case Some(i) =>
        assert forall j :: 0 < j < i + 1 ==> s[j] == s[1..][j - 1];
        Some(i + 1)
      case None =>
        assert forall j :: 0 < j < |s| ==> s[j] == s[1..][j - 1];
        None
  }

  function Elements<T>(s: seq<T>): set<T> {
    set x | x in s
  }

  predicate NoDuplicates<T(==)>(s: seq<T>) {
    forall i, j :: 0 <= i < j < |s| ==> s[i] != s[j]
  }

  lemma {:induction false} NoDuplicatesCounts<T(!new)>(s: seq<T>)
    ensures NoDuplicates(s) <==> forall x :: multiset(s)[x] <= 1
  {
    if s != [] {
      var t := s[1..];
      NoDuplicatesCounts(t);
      assert s == [s[0]] + t;
      assert multiset(s) == multiset{s[0]} + multiset(t);
      assert s[0] in t <==> multiset(t)[s[0]] > 0;
      assert forall i :: 0 < i < |s| ==> s[i] == t[i - 1];
      if NoDuplicates(s) {
        assert s[0] !in t;
      } else if NoDuplicates(t) {
        var i, j :| 0 <= i < j < |s| && s[i] == s[j];
        assert i == 0;
        assert multiset(s)[s[0]] > 1;
      } else {
        var x :| multiset(t)[x] > 1;
        assert multiset(s)[x] > 1;
      }
    }
  }

  lemma NoDuplicatesPermuted<T(!new)>(s: seq<T>, t: seq<T>)
    requires NoDuplicates(s) && multiset(s) == multiset(t)
    ensures NoDuplicates(t)
  {
    NoDuplicatesCounts(s);
    NoDuplicatesCounts(t);
  }

  lemma {:induction false} DistinctSize<T>(s: seq<T>)
    requires NoDuplicates(s)
    ensures |Elements(s)| == |s|
  {
    if s != [] {
      DistinctSize(s[1..]);
      ElementsCons(s[0], s[1..]);
      assert s == [s[0]] + s[1..];
    }
  }

  lemma ElementsCons<T>(x: T, s: seq<T>)
    ensures Elements([x] + s) == {x} + Elements(s)
  {
  }

  /** Comparators of Array.prototype.sort: negative, zero or positive. */
  type Comparator<!T> = (T, T) -> int

  /** What the language asks of a comparator: a total preorder. */
  ghost predicate Consistent<T(!new)>(cmp: Comparator<T>) {
    && (forall a, b :: cmp(a, b) < 0 <==> cmp(b, a) > 0)
    && (forall a, b, c :: cmp(a, b) <= 0 && cmp(b, c) <= 0 ==> cmp(a, c) <= 0)
  }

  lemma Transitive<T(!new)>(cmp: Comparator<T>, a: T, b: T, c: T)
    requires Consistent(cmp) && cmp(a, b) <= 0 && cmp(b, c) <= 0
    ensures cmp(a, c) <= 0
  {
  }

  lemma Opposite<T(!new)>(cmp: Comparator<T>, a: T, b: T)
    requires Consistent(cmp)
    ensures cmp(a, b) <= 0 <==> cmp(b, a) >= 0
    ensures cmp(a, b) >= 0 <==> cmp(b, a) <= 0
  {
  }

  ghost predicate SortedBy<T(!new)>(s: seq<T>, cmp: Comparator<T>) {
    forall i, j :: 0 <= i < j < |s| ==> cmp(s[i], s[j]) <= 0
  }

  function Insert<T>(x: T, s: seq<T>, cmp: Comparator<T>): seq<T> {
    if s == [] || cmp(x, s[0]) <= 0 then [x] + s else [s[0]] + Insert(x, s[1..], cmp)
  }

  /** `s.sort(cmp)`: the language guarantees a stable sort, here by insertion. */
  function Sort<T>(s: seq<T>, cmp: Comparator<T>): seq<T> {
    if s == [] then [] else Insert(s[0], Sort(s[1..], cmp), cmp)
  }

  lemma {:induction false} InsertElements<T>(x: T, s: seq<T>, cmp: Comparator<T>)
    ensures multiset(Insert(x, s, cmp)) == multiset{x} + multiset(s)
  {
    if s == [] || cmp(x, s[0]) <= 0 {
    } else {
      InsertElements(x, s[1..], cmp);
      assert s == [s[0]] + s[1..];
    }
  }

  /** Sorting is a permutation. */
  lemma {:induction false} SortElements<T(!new)>(s: seq<T>, cmp: Comparator<T>)
    ensures multiset(Sort(s, cmp)) == multiset(s)
  {
    if s != [] {
      SortElements(s[1..], cmp);
      InsertElements(s[0], Sort(s[1..], cmp), cmp);
      assert s == [s[0]] + s[1..];
    }
  }

  lemma PermutedMembers<T(!new)>(s: seq<T>, t: seq<T>)
    requires multiset(s) == multiset(t)
    ensures |s| == |t|
    ensures forall x :: x in s <==> x in t
  {
    assert |multiset(s)| == |s| && |multiset(t)| == |t|;
    assert forall x :: x in s <==> x in multiset(s);
    assert forall x :: x in t <==> x in multiset(t);
  }

  lemma {:induction false} InsertMember<T>(x: T, s: seq<T>, cmp: Comparator<T>, y: T)
    requires y in Insert(x, s, cmp)
    ensures y == x || y in s
  {
    if s == [] || cmp(x, s[0]) <= 0 {
    } else if y != s[0] {
      InsertMember(x, s[1..], cmp, y);
    }
  }

  lemma {:induction false} InsertSorted<T(!new)>(x: T, s: seq<T>, cmp: Comparator<T>)
    requires Consistent(cmp) && SortedBy(s, cmp)
    ensures SortedBy(Insert(x, s, cmp), cmp)
  {
    hide Consistent;
    if s == [] {
    } else if cmp(x, s[0]) <= 0 {
      forall j | 0 < j < |s| ensures cmp(x, s[j]) <= 0 {
        Transitive(cmp, x, s[0], s[j]);
      }
    } else {
      InsertSorted(x, s[1..], cmp);
      var r := Insert(x, s[1..], cmp);
      Opposite(cmp, x, s[0]);
      forall j | 0 <= j < |r| ensures cmp(s[0], r[j]) <= 0 {
        InsertMember(x, s[1..], cmp, r[j]);
      }
    }
  }

  /** Sorting sorts. */
  lemma {:induction false} SortSorted<T(!new)>(s: seq<T>, cmp: Comparator<T>)
    requires Consistent(cmp)
    ensures SortedBy(Sort(s, cmp), cmp)
  {
    if s != [] {
      SortSorted(s[1..], cmp);
      InsertSorted(s[0], Sort(s[1..], cmp), cmp);
    }
  }

  /** The elements of s that the comparator calls equal to a, in their order. */
  ghost function Class<T(!new)>(s: seq<T>, a: T, cmp: Comparator<T>): seq<T> {
    Filter(s, x => cmp(a, x) == 0)
  }

  lemma {:induction false} InsertClass<T(!new)>(x: T, s: seq<T>, a: T, cmp: Comparator<T>)
    requires Consistent(cmp)
    ensures Class(Insert(x, s, cmp), a, cmp) == Class([x] + s, a, cmp)
  {
    hide Consistent;
    if s == [] || cmp(x, s[0]) <= 0 {
    } else {
      var y := s[0];
      InsertClass(x, s[1..], a, cmp);
      Opposite(cmp, a, x);
      if cmp(x, a) <= 0 && cmp(a, y) <= 0 {
        Transitive(cmp, x, a, y);
      }
      var p := z => cmp(a, z) == 0;
      FilterConcat([y], Insert(x, s[1..], cmp), p);
      FilterConcat([y], [x] + s[1..], p);
      FilterConcat([x], s, p);
      FilterConcat([x], s[1..], p);
      FilterConcat([y], s[1..], p);
      assert s == [y] + s[1..];
    }
  }

  /** Sorting is stable: equal elements keep their order. */
  lemma {:induction false} SortStable<T(!new)>(s: seq<T>, a: T, cmp: Comparator<T>)
    requires Consistent(cmp)
    ensures Class(Sort(s, cmp), a, cmp) == Class(s, a, cmp)
  {
    if s != [] {
      var p := z => cmp(a, z) == 0;
      SortStable(s[1..], a, cmp);
      InsertClass(s[0], Sort(s[1..], cmp), a, cmp);
      FilterConcat([s[0]], Sort(s[1..], cmp), p);
      FilterConcat([s[0]], s[1..], p);
      assert s == [s[0]] + s[1..];
    }
  }

  lemma ClassTail<T(!new)>(s: seq<T>, a: T, cmp: Comparator<T>)
    requires s != []
    ensures Class(s, a, cmp) == (if cmp(a, s[0]) == 0 then [s[0]] else []) + Class(s[1..], a, cmp)
  {
  }

  lemma ClassMember<T(!new)>(s: seq<T>, t: seq<T>, x: T, cmp: Comparator<T>)
    requires Consistent(cmp) && x in s && Class(s, x, cmp) == Class(t, x, cmp)
    ensures x in t
  {
    hide Consistent;
    Opposite(cmp, x, x);
    FilterMember(s, z => cmp(x, z) == 0, x);
    FilterMember(t, z => cmp(x, z) == 0, x);
  }

  /** A sorted sequence is determined by its classes, so stable sorting has one possible result. */
  lemma {:induction false} SortedUnique<T(!new)>(s: seq<T>, t: seq<T>, cmp: Comparator<T>)
    requires Consistent(cmp) && SortedBy(s, cmp) && SortedBy(t, cmp)
    requires forall a :: Class(s, a, cmp) == Class(t, a, cmp)
    ensures s == t
    decreases |s|
  {
    hide Class, Consistent;
    if s == [] {
      if t != [] {
        ClassMember(t, s, t[0], cmp);
      }
    } else {
      ClassMember(s, t, s[0], cmp);
      HeadsEqual(s, t, cmp);
      forall a ensures Class(s[1..], a, cmp) == Class(t[1..], a, cmp) {
        TailClasses(s, t, a, cmp);
      }
      SortedUnique(s[1..], t[1..], cmp);
      assert s == [s[0]] + s[1..] && t == [t[0]] + t[1..];
    }
  }

  lemma HeadsEqual<T(!new)>(s: seq<T>, t: seq<T>, cmp: Comparator<T>)
    requires Consistent(cmp) && SortedBy(s, cmp) && SortedBy(t, cmp) && s != [] && t != []
    requires forall a :: Class(s, a, cmp) == Class(t, a, cmp)
    ensures s[0] == t[0]
  {
    hide Class, Consistent;
    var x, y := s[0], t[0];
    ClassMember(s, t, x, cmp);
    ClassMember(t, s, y, cmp);
    HeadLeast(s, y, cmp);
    HeadLeast(t, x, cmp);
    Opposite(cmp, x, x);
    Opposite(cmp, x, y);
    ClassTail(s, x, cmp);
    ClassTail(t, x, cmp);
    assert Class(s, x, cmp)[0] == x && Class(t, x, cmp)[0] == y;
  }

  lemma TailClasses<T(!new)>(s: seq<T>, t: seq<T>, a: T, cmp: Comparator<T>)
    requires s != [] && t != [] && s[0] == t[0] && Class(s, a, cmp) == Class(t, a, cmp)
    ensures Class(s[1..], a, cmp) == Class(t[1..], a, cmp)
  {
    hide Class;
    ClassTail(s, a, cmp);
    ClassTail(t, a, cmp);
    var n := if cmp(a, s[0]) == 0 then 1 else 0;
    assert Class(s[1..], a, cmp) == Class(s, a, cmp)[n..];
    assert Class(t[1..], a, cmp) == Class(t, a, cmp)[n..];
  }

  lemma HeadLeast<T(!new)>(s: seq<T>, x: T, cmp: Comparator<T>)
    requires Consistent(cmp) && SortedBy(s, cmp) && x in s
    ensures cmp(s[0], x) <= 0
  {
    hide Consistent;
    var i :| 0 <= i < |s| && s[i] == x;
    Opposite(cmp, x, x);
    assert i == 0 || cmp(s[0], s[i]) <= 0;
  }
}
