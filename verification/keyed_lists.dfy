/**
 * Lists of records with a key, changed by building new lists: they behave like maps.
 */
module KeyedLists {
  import opened Options
  import opened Sequences

  /** A record: the fields that make up its key, and its other properties. */
  datatype Item<K, V> = Item(key: K, props: map<string, V>)

  /** A partial record. It may carry key fields as well. */
  datatype Partial<K, V> = Partial(key: Option<K>, props: map<string, V>)

  /** `{ ...item, ...update }` */
  function Merge<K, V>(item: Item<K, V>, update: Partial<K, V>): Item<K, V> {
    Item(update.key.GetOr(item.key), item.props + update.props)
  }

  function FindKey<K(==), V>(s: seq<Item<K, V>>, key: K): (r: Option<nat>)
    ensures r.Some? ==> r.value < |s| && s[r.value].key == key && forall i :: 0 <= i < r.value ==> s[i].key != key
    ensures r.None? ==> forall i :: 0 <= i < |s| ==> s[i].key != key
  {
    FindIndex(s, (v: Item<K, V>) => v.key == key)
  }

  // ----- The operations -----

  function ReplaceAtIndex<T>(input: seq<T>, index: nat, val: T): seq<T>
    requires index < |input|
  {
    input[..index] + [val] + input[index + 1..]
  }

  function ReplaceOrAdd<K(==), V>(input: seq<Item<K, V>>, val: Item<K, V>): seq<Item<K, V>> {
    match FindKey(input, val.key)
    case Some(i) => ReplaceAtIndex(input, i, val)
    case None => input + [val]
  }

  /** updateOrAddVm and setUiVm: a known record is merged into, an unknown one added. */
  function MergeOrAdd<K(==), V>(input: seq<Item<K, V>>, val: Item<K, V>): seq<Item<K, V>> {
    match FindKey(input, val.key)
    case Some(i) => ReplaceAtIndex(input, i, Merge(input[i], Partial(None, val.props)))
    case None => input + [val]
  }

  function UpdateExisting<K(==), V>(input: seq<Item<K, V>>, key: K, update: Partial<K, V>): seq<Item<K, V>> {
    match FindKey(input, key)
    case Some(i) => ReplaceAtIndex(input, i, Merge(input[i], update))
    case None => input
  }

  function RemoveExisting<K(==,!new), V(!new)>(input: seq<Item<K, V>>, key: K): seq<Item<K, V>> {
    Filter(input, (v: Item<K, V>) => v.key != key)
  }

  /** deleteUnlistedVMs: only keys that the listing accepts stay. */
  function DeleteUnlisted<K(==,!new), V(!new)>(input: seq<Item<K, V>>, listed: K -> bool): seq<Item<K, V>> {
    Filter(input, (v: Item<K, V>) => listed(v.key))
  }

  // ----- Lists as maps -----

  ghost predicate UniqueKeys<K, V>(s: seq<Item<K, V>>) {
    forall i, j :: 0 <= i < j < |s| ==> s[i].key != s[j].key
  }

  ghost predicate Has<K, V>(s: seq<Item<K, V>>, key: K) {
    exists i :: 0 <= i < |s| && s[i].key == key
  }

  function Contents<K, V>(s: seq<Item<K, V>>): map<K, map<string, V>> {
    if s == [] then map[] else Contents(s[..|s| - 1])[s[|s| - 1].key := s[|s| - 1].props]
  }

  lemma {:induction false} ContentsAt<K, V>(s: seq<Item<K, V>>, key: K)
    requires UniqueKeys(s)
    ensures key in Contents(s) <==> Has(s, key)
    ensures forall i :: 0 <= i < |s| && s[i].key == key ==> key in Contents(s) && Contents(s)[key] == s[i].props
  {
    if s != [] {
      ContentsAt(s[..|s| - 1], key);
      assert forall i :: 0 <= i < |s| - 1 ==> s[i] == s[..|s| - 1][i];
    }
  }

  /** One call, as the list sees it. */
  datatype Call<!K, V> =
    | Put(item: Item<K, V>)
    | MergeIn(item: Item<K, V>)
    | Update(key: K, update: Partial<K, V>)
    | Remove(key: K)
    | Retain(listed: K -> bool)

  function Apply<K(==,!new), V(!new)>(s: seq<Item<K, V>>, c: Call<K, V>): seq<Item<K, V>> {
    match c
    case Put(item) => ReplaceOrAdd(s, item)
    case MergeIn(item) => MergeOrAdd(s, item)
    case Update(key, update) => UpdateExisting(s, key, update)
    case Remove(key) => RemoveExisting(s, key)
    case Retain(listed) => DeleteUnlisted(s, listed)
  }

  /** The same call on a map. */
  ghost function ApplyMap<K(!new), V>(m: map<K, map<string, V>>, c: Call<K, V>): map<K, map<string, V>> {
    match c
    case Put(item) => m[item.key := item.props]
    case MergeIn(item) => m[item.key := (if item.key in m then m[item.key] else map[]) + item.props]
    case Update(key, update) =>
      if key in m then (m - {key})[update.key.GetOr(key) := m[key] + update.props] else m
    case Remove(key) => m - {key}
    case Retain(listed) => map k | k in m && listed(k) :: m[k]
  }

  /** A call that gives a record the key of another one. */
  ghost predicate Collides<K(!new), V>(m: map<K, map<string, V>>, c: Call<K, V>) {
    c.Update? && c.key in m && c.update.key.GetOr(c.key) != c.key && c.update.key.GetOr(c.key) in m
  }

  // ----- Single calls -----

  lemma {:induction false} SameContents<K(!new), V(!new)>(s: seq<Item<K, V>>, m: map<K, map<string, V>>)
    requires UniqueKeys(s)
    requires forall k :: k in m <==> Has(s, k)
    requires forall i :: 0 <= i < |s| ==> s[i].key in m && m[s[i].key] == s[i].props
    ensures Contents(s) == m
  {
    forall k ensures k in Contents(s) <==> k in m {
      ContentsAt(s, k);
    }
    forall k | k in m ensures Contents(s)[k] == m[k] {
      ContentsAt(s, k);
      var i :| 0 <= i < |s| && s[i].key == k;
    }
  }

  lemma HasAll<K, V>(s: seq<Item<K, V>>)
    ensures forall i :: 0 <= i < |s| ==> Has(s, s[i].key)
  {
  }

  lemma SameKeys<K(!new), V(!new)>(s: seq<Item<K, V>>, r: seq<Item<K, V>>)
    requires |r| == |s| && forall i :: 0 <= i < |s| ==> r[i].key == s[i].key
    ensures UniqueKeys(s) ==> UniqueKeys(r)
    ensures forall k :: Has(r, k) <==> Has(s, k)
  {
  }

  /** Replacing the record at its place. */
  lemma {:induction false} ReplaceRefines<K(!new), V(!new)>(s: seq<Item<K, V>>, i: nat, val: Item<K, V>)
    requires UniqueKeys(s) && i < |s| && val.key == s[i].key
    ensures UniqueKeys(ReplaceAtIndex(s, i, val))
    ensures Contents(ReplaceAtIndex(s, i, val)) == Contents(s)[val.key := val.props]
  {
    hide UniqueKeys, Contents, Has, ReplaceAtIndex;
    var r := ReplaceAtIndex(s, i, val);
    ReplaceIsUpdate(s, i, val);
    SameKeys(s, r);
    var m := Contents(s)[val.key := val.props];
    ReplacedAt(s, i, val);
    forall k ensures k in m <==> Has(r, k) {
      ContentsAt(s, k);
      HasAll(s);
    }
    SameContents(r, m);
  }

  lemma ReplaceIsUpdate<T>(s: seq<T>, i: nat, val: T)
    requires i < |s|
    ensures ReplaceAtIndex(s, i, val) == s[i := val]
  {
  }

  lemma ReplacedAt<K(!new), V(!new)>(s: seq<Item<K, V>>, i: nat, val: Item<K, V>)
    requires UniqueKeys(s) && i < |s| && val.key == s[i].key
    ensures var r, m := s[i := val], Contents(s)[val.key := val.props];
            forall j :: 0 <= j < |r| ==> r[j].key in m && m[r[j].key] == r[j].props
  {
    hide Contents;
    forall j | 0 <= j < |s| ensures s[j].key in Contents(s) && Contents(s)[s[j].key] == s[j].props {
      ContentsAt(s, s[j].key);
    }
  }

  lemma AddRefines<K(!new), V(!new)>(s: seq<Item<K, V>>, val: Item<K, V>)
    requires UniqueKeys(s) && !Has(s, val.key)
    ensures UniqueKeys(s + [val])
    ensures Contents(s + [val]) == Contents(s)[val.key := val.props] && val.key !in Contents(s)
  {
    assert (s + [val])[..|s|] == s;
    ContentsAt(s, val.key);
  }

  lemma {:induction false} FilterUnique<K(!new), V(!new)>(s: seq<Item<K, V>>, p: Item<K, V> -> bool)
    requires UniqueKeys(s)
    ensures UniqueKeys(Filter(s, p))
  {
    if s != [] {
      FilterUnique(s[1..], p);
      var rest := Filter(s[1..], p);
      forall j | 0 <= j < |rest| ensures rest[j].key != s[0].key {
        FilterMember(s[1..], p, rest[j]);
        var i :| 0 <= i < |s[1..]| && s[1..][i] == rest[j];
        assert s[i + 1] == rest[j];
      }
    }
  }

  lemma FilterRefines<K(!new), V(!new)>(s: seq<Item<K, V>>, p: Item<K, V> -> bool, listed: K -> bool)
    requires UniqueKeys(s) && forall v :: p(v) == listed(v.key)
    ensures UniqueKeys(Filter(s, p))
    ensures Contents(Filter(s, p)) == map k | k in Contents(s) && listed(k) :: Contents(s)[k]
  {
    FilterUnique(s, p);
    var r := Filter(s, p);
    var m := map k | k in Contents(s) && listed(k) :: Contents(s)[k];
    forall k ensures k in m <==> Has(r, k) {
      ContentsAt(s, k);
      if k in m {
        var j :| 0 <= j < |s| && s[j].key == k;
        FilterMember(s, p, s[j]);
        var i :| 0 <= i < |r| && r[i] == s[j];
      }
      if Has(r, k) {
        var i :| 0 <= i < |r| && r[i].key == k;
        FilterMember(s, p, r[i]);
        var j :| 0 <= j < |s| && s[j] == r[i];
      }
    }
    forall i | 0 <= i < |r| ensures r[i].key in m && m[r[i].key] == r[i].props {
      FilterMember(s, p, r[i]);
      var j :| 0 <= j < |s| && s[j] == r[i];
      ContentsAt(s, s[j].key);
    }
    SameContents(r, m);
  }

  /** A call keeps keys unique exactly if it does not give a record the key of another one, and
      then it does to the list what it does to a map. */
  lemma ApplyRefines<K(!new), V(!new)>(s: seq<Item<K, V>>, c: Call<K, V>)
    requires UniqueKeys(s)
    ensures UniqueKeys(Apply(s, c)) <==> !Collides(Contents(s), c)
    ensures UniqueKeys(Apply(s, c)) ==> Contents(Apply(s, c)) == ApplyMap(Contents(s), c)
  {
    hide UniqueKeys, Contents, Filter, ReplaceAtIndex;
    match c {
      case Put(item) => PutRefines(s, item);
      case MergeIn(item) => MergeRefines(s, item);
      case Update(key, update) => UpdateRefines(s, key, update);
      case Remove(key) =>
        FilterRefines(s, (v: Item<K, V>) => v.key != key, k => k != key);
        assert Contents(RemoveExisting(s, key)) == Contents(s) - {key};
      case Retain(listed) => FilterRefines(s, (v: Item<K, V>) => listed(v.key), listed);
    }
  }

  lemma PutRefines<K(!new), V(!new)>(s: seq<Item<K, V>>, item: Item<K, V>)
    requires UniqueKeys(s)
    ensures UniqueKeys(ReplaceOrAdd(s, item)) && Contents(ReplaceOrAdd(s, item)) == Contents(s)[item.key := item.props]
  {
    hide UniqueKeys, Contents, ReplaceAtIndex;
    match FindKey(s, item.key) {
      case Some(i) => ReplaceRefines(s, i, item);
      case None => AddRefines(s, item);
    }
  }

  lemma MergeRefines<K(!new), V(!new)>(s: seq<Item<K, V>>, item: Item<K, V>)
    requires UniqueKeys(s)
    ensures UniqueKeys(MergeOrAdd(s, item))
    ensures Contents(MergeOrAdd(s, item)) == ApplyMap(Contents(s), MergeIn(item))
  {
    hide UniqueKeys, Contents, ReplaceAtIndex;
    ContentsAt(s, item.key);
    match FindKey(s, item.key) {
      case Some(i) => ReplaceRefines(s, i, Merge(s[i], Partial(None, item.props)));
      case None =>
        AddRefines(s, item);
        assert map[] + item.props == item.props;
    }
  }

  lemma UpdateRefines<K(!new), V(!new)>(s: seq<Item<K, V>>, key: K, update: Partial<K, V>)
    requires UniqueKeys(s)
    ensures UniqueKeys(UpdateExisting(s, key, update)) <==> !Collides(Contents(s), Update(key, update))
    ensures UniqueKeys(UpdateExisting(s, key, update)) ==>
              Contents(UpdateExisting(s, key, update)) == ApplyMap(Contents(s), Update(key, update))
    ensures key !in Contents(s) ==> UpdateExisting(s, key, update) == s
  {
    hide UniqueKeys, Contents, ReplaceAtIndex, Has;
    ContentsAt(s, key);
    match FindKey(s, key) {
      case Some(i) =>
        HasAll(s);
        UpdatedAt(s, i, update);
      case None =>
        NotFound(s, key);
    }
  }

  lemma NotFound<K, V>(s: seq<Item<K, V>>, key: K)
    requires FindKey(s, key).None?
    ensures !Has(s, key)
  {
  }

  /** The record at i is merged with an update, which may change its key. */
  lemma UpdatedAt<K(!new), V(!new)>(s: seq<Item<K, V>>, i: nat, update: Partial<K, V>)
    requires UniqueKeys(s) && i < |s|
    ensures var r := ReplaceAtIndex(s, i, Merge(s[i], update));
            && (UniqueKeys(r) <==> !Collides(Contents(s), Update(s[i].key, update)))
            && (UniqueKeys(r) ==> Contents(r) == ApplyMap(Contents(s), Update(s[i].key, update)))
  {
    hide UniqueKeys, Contents, ReplaceAtIndex, Has;
    var key, val := s[i].key, Merge(s[i], update);
    HasAll(s);
    ContentsAt(s, key);
    ContentsAt(s, val.key);
    ReplaceIsUpdate(s, i, val);
    if val.key == key {
      ReplaceRefines(s, i, val);
      assert (Contents(s) - {key})[key := val.props] == Contents(s)[key := val.props];
    } else {
      KeyChanged(s, i, val);
      if UniqueKeys(s[i := val]) {
        RekeyedContents(s, i, val);
      }
    }
  }

  lemma KeyChanged<K(!new), V(!new)>(s: seq<Item<K, V>>, i: nat, val: Item<K, V>)
    requires UniqueKeys(s) && i < |s| && val.key != s[i].key
    ensures UniqueKeys(s[i := val]) <==> !Has(s, val.key)
  {
    var r := s[i := val];
    if Has(s, val.key) {
      var j :| 0 <= j < |s| && s[j].key == val.key;
      assert r[j].key == r[i].key;
    }
  }

  lemma RekeyedContents<K(!new), V(!new)>(s: seq<Item<K, V>>, i: nat, val: Item<K, V>)
    requires UniqueKeys(s) && i < |s| && val.key != s[i].key && UniqueKeys(s[i := val])
    ensures Contents(s[i := val]) == (Contents(s) - {s[i].key})[val.key := val.props]
  {
    var r := s[i := val];
    var m := (Contents(s) - {s[i].key})[val.key := val.props];
    forall j | 0 <= j < |r| ensures r[j].key in m && m[r[j].key] == r[j].props {
      if j != i {
        assert r[j].key != r[i].key;
        ContentsAt(s, s[j].key);
      }
    }
    assert r[i] == val;
    forall k ensures k in m <==> Has(r, k) {
      ContentsAt(s, k);
      if k in m && k != val.key {
        var j :| 0 <= j < |s| && s[j].key == k;
        assert r[j] == s[j];
      }
      if Has(r, k) && k != val.key {
        var j :| 0 <= j < |r| && r[j].key == k;
        assert r[j] == s[j];
      }
    }
    SameContents(r, m);
  }

  // ----- Runs -----

  function Run<K(==,!new), V(!new)>(s: seq<Item<K, V>>, calls: seq<Call<K, V>>): seq<Item<K, V>>
    decreases |calls|
  {
    if calls == [] then s else Run(Apply(s, calls[0]), calls[1..])
  }

  ghost function RunMap<K(!new), V>(m: map<K, map<string, V>>, calls: seq<Call<K, V>>): map<K, map<string, V>>
    decreases |calls|
  {
    if calls == [] then m else RunMap(ApplyMap(m, calls[0]), calls[1..])
  }

  /** No call of a run gives a record the key of another one. */
  ghost predicate NeverCollides<K(!new), V>(m: map<K, map<string, V>>, calls: seq<Call<K, V>>)
    decreases |calls|
  {
    calls == [] || (!Collides(m, calls[0]) && NeverCollides(ApplyMap(m, calls[0]), calls[1..]))
  }

  /** The keys are unique after each call of a run. */
  ghost predicate AlwaysUnique<K(!new), V(!new)>(s: seq<Item<K, V>>, calls: seq<Call<K, V>>)
    decreases |calls|
  {
    UniqueKeys(s) && (calls != [] ==> AlwaysUnique(Apply(s, calls[0]), calls[1..]))
  }

  /** The list has unique keys throughout a run exactly if no call gives a record the key of
      another one, and then it equals the map that the same calls make. */
  lemma {:induction false} RunRefines<K(!new), V(!new)>(s: seq<Item<K, V>>, calls: seq<Call<K, V>>)
    requires UniqueKeys(s)
    ensures AlwaysUnique(s, calls) <==> NeverCollides(Contents(s), calls)
    ensures AlwaysUnique(s, calls) ==> Contents(Run(s, calls)) == RunMap(Contents(s), calls)
    decreases |calls|
  {
    hide UniqueKeys, Contents, Apply, ApplyMap, Collides;
    if calls != [] {
      ApplyRefines(s, calls[0]);
      if UniqueKeys(Apply(s, calls[0])) {
        RunRefines(Apply(s, calls[0]), calls[1..]);
      }
    }
  }

  /** An update keeps keys unique exactly if it does not give a record of the list the key of
      another one. */
  lemma RekeyingBreaksUniqueness<K(!new), V(!new)>(s: seq<Item<K, V>>, key: K, update: Partial<K, V>)
    requires UniqueKeys(s)
    ensures UniqueKeys(UpdateExisting(s, key, update))
       <==> update.key.None? || update.key.value == key || !Has(s, key) || !Has(s, update.key.value)
  {
    hide UniqueKeys, Has, Contents;
    UpdateRefines(s, key, update);
    ContentsAt(s, key);
    if update.key.Some? {
      ContentsAt(s, update.key.value);
    }
  }

  // ----- The order of records -----

  ghost predicate Precedes<K, V>(s: seq<Item<K, V>>, x: K, y: K) {
    exists i, j :: 0 <= i < j < |s| && s[i].key == x && s[j].key == y
  }

  lemma {:induction false} FilterOrder<K(!new), V(!new)>(s: seq<Item<K, V>>, p: Item<K, V> -> bool, x: K, y: K)
    requires UniqueKeys(s) && Precedes(s, x, y) && Has(Filter(s, p), x) && Has(Filter(s, p), y)
    ensures Precedes(Filter(s, p), x, y)
  {
    var i, j :| 0 <= i < j < |s| && s[i].key == x && s[j].key == y;
    KeptAt(s, p, i);
    KeptAt(s, p, j);
    var a, b := s[..j], s[j..];
    assert s == a + b && s[i] == a[i] && s[j] == b[0];
    FilterConcat(a, b, p);
    FilterMember(a, p, s[i]);
    FilterMember(b, p, s[j]);
    InOrder(Filter(a, p), Filter(b, p), s[i], s[j]);
  }

  lemma InOrder<K(!new), V(!new)>(a: seq<Item<K, V>>, b: seq<Item<K, V>>, x: Item<K, V>, y: Item<K, V>)
    requires x in a && y in b
    ensures Precedes(a + b, x.key, y.key)
  {
    var k :| 0 <= k < |a| && a[k] == x;
    var l :| 0 <= l < |b| && b[l] == y;
    assert (a + b)[k] == x && (a + b)[|a| + l] == y;
  }

  lemma KeptAt<K(!new), V(!new)>(s: seq<Item<K, V>>, p: Item<K, V> -> bool, i: nat)
    requires UniqueKeys(s) && i < |s| && Has(Filter(s, p), s[i].key)
    ensures p(s[i])
  {
    var r := Filter(s, p);
    var k :| 0 <= k < |r| && r[k].key == s[i].key;
    FilterMember(s, p, r[k]);
    var j :| 0 <= j < |s| && s[j] == r[k];
    assert j == i;
  }

  lemma PrefixOrder<K, V>(s: seq<Item<K, V>>, r: seq<Item<K, V>>, x: K, y: K)
    requires Precedes(s, x, y) && |r| >= |s| && forall i :: 0 <= i < |s| ==> r[i].key == s[i].key
    ensures Precedes(r, x, y)
  {
    var i, j :| 0 <= i < j < |s| && s[i].key == x && s[j].key == y;
    assert r[i].key == x && r[j].key == y;
  }

  /** Records that a call leaves in the list stay in the order they had. */
  lemma ApplyKeepsOrder<K(!new), V(!new)>(s: seq<Item<K, V>>, c: Call<K, V>, x: K, y: K)
    requires UniqueKeys(s)
    requires Precedes(s, x, y) && Has(Apply(s, c), x) && Has(Apply(s, c), y)
    ensures Precedes(Apply(s, c), x, y)
  {
    hide Precedes, Has, Filter, UniqueKeys;
    match c {
      case Put(item) => PrefixOrder(s, Apply(s, c), x, y);
      case MergeIn(item) => PrefixOrder(s, Apply(s, c), x, y);
      case Update(key, update) => UpdateKeepsOrder(s, key, update, x, y);
      case Remove(key) => FilterOrder(s, (v: Item<K, V>) => v.key != key, x, y);
      case Retain(listed) => FilterOrder(s, (v: Item<K, V>) => listed(v.key), x, y);
    }
  }

  /** A record whose key is changed is none of those that keep theirs. */
  lemma UpdateKeepsOrder<K(!new), V(!new)>(s: seq<Item<K, V>>, key: K, update: Partial<K, V>, x: K, y: K)
    requires UniqueKeys(s)
    requires Precedes(s, x, y) && Has(UpdateExisting(s, key, update), x) && Has(UpdateExisting(s, key, update), y)
    ensures Precedes(UpdateExisting(s, key, update), x, y)
  {
    hide ReplaceAtIndex;
    var r := UpdateExisting(s, key, update);
    var i, j :| 0 <= i < j < |s| && s[i].key == x && s[j].key == y;
    match FindKey(s, key) {
      case None =>
      case Some(n) =>
        ReplaceIsUpdate(s, n, Merge(s[n], update));
        KeptInPlace(s, r, n, i);
        KeptInPlace(s, r, n, j);
    }
  }

  lemma KeptInPlace<K(!new), V(!new)>(s: seq<Item<K, V>>, r: seq<Item<K, V>>, n: nat, i: nat)
    requires UniqueKeys(s) && n < |s| && i < |s| && |r| == |s| && r == s[n := r[n]]
    requires Has(r, s[i].key)
    ensures r[i].key == s[i].key
  {
    var k :| 0 <= k < |r| && r[k].key == s[i].key;
    if k != n {
      assert r[k] == s[k];
    }
  }

  /** A record is in the list before and after each call of a run. */
  ghost predicate Survives<K(!new), V(!new)>(s: seq<Item<K, V>>, calls: seq<Call<K, V>>, x: K)
    decreases |calls|
  {
    Has(s, x) && (calls != [] ==> Survives(Apply(s, calls[0]), calls[1..], x))
  }

  lemma {:induction false} RunKeepsOrder<K(!new), V(!new)>(s: seq<Item<K, V>>, calls: seq<Call<K, V>>, x: K, y: K)
    requires AlwaysUnique(s, calls)
    requires Precedes(s, x, y) && Survives(s, calls, x) && Survives(s, calls, y)
    ensures Precedes(Run(s, calls), x, y)
    decreases |calls|
  {
    hide UniqueKeys, Apply, Precedes, Has;
    if calls != [] {
      ApplyKeepsOrder(s, calls[0], x, y);
      RunKeepsOrder(Apply(s, calls[0]), calls[1..], x, y);
    }
  }
}
