/**
 * Boot order lists: devices with their boot order, sorted by it with the others last.
 */
module BootOrderList {
  import opened Options
  import opened Sequences

  datatype Entry<T> = Entry(device: T, order: Option<nat>)

  /** The comparator of getSortedBootOrderDevices. */
  function ByOrder<T>(a: Entry<T>, b: Entry<T>): int {
    if a.order.Some? && b.order.Some? then a.order.value - b.order.value
    else if a.order.None? && b.order.Some? then 1
    else if a.order.Some? && b.order.None? then -1
    else 0
  }

  lemma ByOrderConsistent<T(!new)>()
    ensures Consistent<Entry<T>>(ByOrder)
  {
  }

  /** Sorting keeps every entry, puts orders in ascending order with order-less entries last,
      and keeps the order of entries that compare equal. */
  lemma {:induction false} SortedEntries<T(!new)>(s: seq<Entry<T>>)
    ensures var r := Sort(s, ByOrder);
            && multiset(r) == multiset(s)
            && (forall i, j :: 0 <= i < j < |r| && r[j].order.Some? ==> r[i].order.Some? && r[i].order.value <= r[j].order.value)
            && (forall a :: Class(r, a, ByOrder) == Class(s, a, ByOrder))
  {
    hide Class, Sort;
    var r := Sort(s, ByOrder);
    ByOrderConsistent<T>();
    SortElements(s, ByOrder);
    SortSorted(s, ByOrder);
    forall i, j | 0 <= i < j < |r| && r[j].order.Some? ensures r[i].order.Some? && r[i].order.value <= r[j].order.value {
      assert ByOrder(r[i], r[j]) <= 0;
    }
    forall a ensures Class(r, a, ByOrder) == Class(s, a, ByOrder) {
      SortStable(s, a, ByOrder);
    }
  }

  // ----- Lists written for a choice of devices -----

  /** The order a choice gives a device: one more than its position, None outside of it. */
  function Rank<T(==)>(d: T, chosen: seq<T>): Option<nat> {
    match FindIndex(chosen, x => x == d)
    case Some(i) => Some(i + 1)
    case None => None
  }

  lemma RankAt<T(!new)>(chosen: seq<T>, i: nat)
    requires NoDuplicates(chosen) && i < |chosen|
    ensures Rank(chosen[i], chosen) == Some(i + 1)
  {
  }

  lemma RankIs<T(!new)>(d: T, chosen: seq<T>)
    ensures Rank(d, chosen).None? <==> d !in chosen
    ensures Rank(d, chosen).Some? ==>
              0 < Rank(d, chosen).value <= |chosen| && chosen[Rank(d, chosen).value - 1] == d
  {
  }

  function Ranked<T(==)>(devices: seq<T>, chosen: seq<T>): seq<Entry<T>> {
    Map(devices, d => Entry(d, Rank(d, chosen)))
  }

  function Numbered<T>(chosen: seq<T>): seq<Entry<T>> {
    seq(|chosen|, i requires 0 <= i < |chosen| => Entry(chosen[i], Some(i + 1)))
  }

  function Unordered<T>(devices: seq<T>): seq<Entry<T>> {
    Map(devices, d => Entry(d, None))
  }

  function Others<T(==,!new)>(devices: seq<T>, chosen: seq<T>): seq<T> {
    Filter(devices, d => d !in chosen)
  }

  /** The sorted list for a choice: the chosen devices in their order, numbered from 1, then
      all other devices in the order they had, without a boot order. */
  function Shown<T(==,!new)>(devices: seq<T>, chosen: seq<T>): seq<Entry<T>> {
    Numbered(chosen) + Unordered(Others(devices, chosen))
  }

  /** Sorting the ranked devices shows the choice. */
  lemma SortRanked<T(!new)>(devices: seq<T>, chosen: seq<T>)
    requires NoDuplicates(devices) && NoDuplicates(chosen) && forall d :: d in chosen ==> d in devices
    ensures Sort(Ranked(devices, chosen), ByOrder) == Shown(devices, chosen)
  {
    hide Class, Sort, Consistent, Ranked, Shown;
    var s, r := Ranked(devices, chosen), Shown(devices, chosen);
    ByOrderConsistent<T>();
    SortSorted(s, ByOrder);
    ShownSorted(devices, chosen);
    forall a ensures Class(Sort(s, ByOrder), a, ByOrder) == Class(r, a, ByOrder) {
      SortStable(s, a, ByOrder);
      SameClasses(devices, chosen, a);
    }
    SortedUnique(Sort(s, ByOrder), r, ByOrder);
  }

  lemma ShownSorted<T(!new)>(devices: seq<T>, chosen: seq<T>)
    ensures SortedBy(Shown(devices, chosen), ByOrder)
  {
    hide Others;
  }

  lemma SameClasses<T(!new)>(devices: seq<T>, chosen: seq<T>, a: Entry<T>)
    requires NoDuplicates(devices) && NoDuplicates(chosen) && forall d :: d in chosen ==> d in devices
    ensures Class(Ranked(devices, chosen), a, ByOrder) == Class(Shown(devices, chosen), a, ByOrder)
  {
    hide Filter, Numbered, Unordered, Others, Ranked;
    var q := (x: Entry<T>) => x.order == a.order;
    ClassIs(Ranked(devices, chosen), a, q);
    ClassIs(Shown(devices, chosen), a, q);
    FilterConcat(Numbered(chosen), Unordered(Others(devices, chosen)), q);
    if a.order.None? {
      NumberedNone(chosen, q);
      UnorderedAll(Others(devices, chosen), q);
      RankedNone(devices, chosen, q);
    } else {
      UnorderedNone(Others(devices, chosen), q);
      NumberedOne(chosen, a.order.value, q);
      RankedOne(devices, chosen, a.order.value, q);
    }
  }

  lemma ClassIs<T(!new)>(s: seq<Entry<T>>, a: Entry<T>, q: Entry<T> -> bool)
    requires forall x :: q(x) == (x.order == a.order)
    ensures Class(s, a, ByOrder) == Filter(s, q)
  {
    var cmp: Comparator<Entry<T>> := ByOrder;
    forall x: Entry<T> ensures (cmp(a, x) == 0) == q(x) {
      assert cmp(a, x) == ByOrder(a, x);
    }
    FilterSame(s, x => cmp(a, x) == 0, q);
  }

  lemma NumberedNone<T(!new)>(chosen: seq<T>, q: Entry<T> -> bool)
    requires forall x :: q(x) == x.order.None?
    ensures Filter(Numbered(chosen), q) == []
  {
    FilterNone(Numbered(chosen), q);
  }

  lemma UnorderedAll<T(!new)>(devices: seq<T>, q: Entry<T> -> bool)
    requires forall x :: q(x) == x.order.None?
    ensures Filter(Unordered(devices), q) == Unordered(devices)
  {
    FilterAll(Unordered(devices), q);
  }

  lemma UnorderedNone<T(!new)>(devices: seq<T>, q: Entry<T> -> bool)
    requires forall x :: q(x) ==> x.order.Some?
    ensures Filter(Unordered(devices), q) == []
  {
    FilterNone(Unordered(devices), q);
  }

  lemma {:induction false} RankedNone<T(!new)>(devices: seq<T>, chosen: seq<T>, q: Entry<T> -> bool)
    requires forall x :: q(x) == x.order.None?
    ensures Filter(Ranked(devices, chosen), q) == Unordered(Others(devices, chosen))
  {
    hide Rank;
    if devices != [] {
      RankedNone(devices[1..], chosen, q);
      RankIs(devices[0], chosen);
      assert Ranked(devices, chosen)[1..] == Ranked(devices[1..], chosen);
    }
  }

  /** A filter that accepts one place only. */
  lemma {:induction false} FilterOne<T(!new)>(s: seq<T>, p: T -> bool, i: nat)
    requires i < |s| && forall j :: 0 <= j < |s| ==> p(s[j]) == (j == i)
    ensures Filter(s, p) == [s[i]]
  {
    if i == 0 {
      forall x | x in s[1..] ensures !p(x) {
        var j :| 0 < j < |s| && s[j] == x;
      }
      FilterNone(s[1..], p);
    } else {
      FilterOne(s[1..], p, i - 1);
    }
  }

  lemma NumberedOne<T(!new)>(chosen: seq<T>, k: nat, q: Entry<T> -> bool)
    requires forall x :: q(x) == (x.order == Some(k))
    ensures Filter(Numbered(chosen), q) == if 0 < k <= |chosen| then [Entry(chosen[k - 1], Some(k))] else []
  {
    if 0 < k <= |chosen| {
      FilterOne(Numbered(chosen), q, k - 1);
    } else {
      FilterNone(Numbered(chosen), q);
    }
  }

  lemma RankedOne<T(!new)>(devices: seq<T>, chosen: seq<T>, k: nat, q: Entry<T> -> bool)
    requires NoDuplicates(devices) && NoDuplicates(chosen) && forall d :: d in chosen ==> d in devices
    requires forall x :: q(x) == (x.order == Some(k))
    ensures Filter(Ranked(devices, chosen), q) == if 0 < k <= |chosen| then [Entry(chosen[k - 1], Some(k))] else []
  {
    hide Rank;
    var s := Ranked(devices, chosen);
    forall d ensures (Rank(d, chosen) == Some(k)) == (0 < k <= |chosen| && chosen[k - 1] == d) {
      RankIs(d, chosen);
      if 0 < k <= |chosen| {
        RankAt(chosen, k - 1);
      }
    }
    if 0 < k <= |chosen| {
      assert chosen[k - 1] in chosen && chosen[k - 1] in devices;
      var i :| 0 <= i < |devices| && devices[i] == chosen[k - 1];
      FilterOne(s, q, i);
    } else {
      FilterNone(s, q);
    }
  }
}
