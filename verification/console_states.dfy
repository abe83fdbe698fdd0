/**
 * The bounded cache of console states (ConsoleCardStates): two dictionaries and a
 * logical clock, against "a state is kept while fewer than N other machines have
 * been looked at since".
 */
module ConsoleStates {
  import opened Options
  import opened RequestHistory
  import Sequences

  /** `${connectionName}:${name}` */
  function KeyOf(connectionName: string, name: string): Key {
    connectionName + ":" + name
  }

  /** Connection names hold no colon, so machines never share a cache entry. */
  lemma KeysDistinct(c1: string, n1: string, c2: string, n2: string)
    requires ':' !in c1 && ':' !in c2
    ensures KeyOf(c1, n1) == KeyOf(c2, n2) ==> c1 == c2 && n1 == n2
  {
    var k1, k2 := KeyOf(c1, n1), KeyOf(c2, n2);
    assert k1[|c1|] == ':' && forall i :: 0 <= i < |c1| ==> k1[i] == c1[i];
    assert k2[|c2|] == ':' && forall i :: 0 <= i < |c2| ==> k2[i] == c2[i];
    assert k1[..|c1|] == c1 && k1[|c1| + 1..] == n1;
    assert k2[..|c2|] == c2 && k2[|c2| + 1..] == n2;
  }

  // ----- Access times -----

  type Times = map<Key, nat>

  ghost predicate DistinctTimes(t: Times) {
    forall a, b :: a in t && b in t && t[a] == t[b] ==> a == b
  }

  ghost function Newer(t: Times, k: Key): set<Key>
    requires k in t
  {
    set x | x in t && t[x] > t[k]
  }

  /** The max keys of t that were accessed last. */
  ghost function Newest(t: Times, max: nat): set<Key> {
    set k | k in t && |Newer(t, k)| < max
  }

  lemma NewestSubset(t: Times, max: nat)
    ensures Newest(t, max) <= t.Keys
  {
  }

  /** A set holding only the latest of the keys, as many as fit, is the set of the newest. */
  lemma NewestUnique(t: Times, s: set<Key>, max: nat)
    requires DistinctTimes(t) && s <= t.Keys
    requires forall a, b :: a in s && b in t && b !in s ==> t[b] < t[a]
    requires |s| == if |t.Keys| < max then |t.Keys| else max
    ensures s == Newest(t, max)
  {
    forall k | k in t ensures k in s <==> |Newer(t, k)| < max {
      if k in s {
        assert Newer(t, k) <= s - {k};
        SubsetSize(Newer(t, k), s - {k});
      } else {
        assert s <= Newer(t, k);
        SubsetSize(s, Newer(t, k));
        SubsetSize(s, t.Keys);
      }
    }
  }

  // ----- The classes -----

  /** A console card state; only how often it was closed matters here. */
  class ConsoleCardState {
    ghost const key: Key   // what it was made for
    var closes: nat

    constructor (ghost key: Key)
      ensures this.key == key && closes == 0
    {
      this.key := key;
      closes := 0;
    }

    method Close()
      modifies this
      ensures closes == old(closes) + 1
    {
      closes := closes + 1;
    }
  }

  /** A Dafny map has no key order to iterate in; any order will do, as the keys get sorted. */
  method KeysInSomeOrder(t: Times) returns (keys: seq<Key>)
    ensures Sequences.NoDuplicates(keys)
    ensures forall k :: k in keys <==> k in t
  {
    keys := [];
    var rest := t.Keys;
    while rest != {}
      invariant rest <= t.Keys
      invariant Sequences.NoDuplicates(keys)
      invariant forall k :: k in keys <==> k in t && k !in rest
      decreases |rest|
    {
      var k :| k in rest;
      keys := keys + [k];
      rest := rest - {k};
    }
  }

  function CompareTimes(t: Times): Sequences.Comparator<Key> {
    (a, b) => (if a in t then t[a] as int else 0) - (if b in t then t[b] as int else 0)
  }

  /** All keys of t, oldest first. */
  ghost predicate OldestFirst(t: Times, keys: seq<Key>) {
    && (forall k :: k in keys <==> k in t)
    && (forall i, j :: 0 <= i < j < |keys| ==> t[keys[i]] < t[keys[j]])
  }

  method KeysByAccessTime(t: Times) returns (keys: seq<Key>)
    requires DistinctTimes(t)
    ensures OldestFirst(t, keys)
  {
    var unsorted := KeysInSomeOrder(t);
    keys := Sequences.Sort(unsorted, CompareTimes(t));
    SortedOldestFirst(t, unsorted);
  }

  lemma SortedOldestFirst(t: Times, unsorted: seq<Key>)
    requires DistinctTimes(t) && Sequences.NoDuplicates(unsorted)
    requires forall k :: k in unsorted <==> k in t
    ensures OldestFirst(t, Sequences.Sort(unsorted, CompareTimes(t)))
  {
    var cmp := CompareTimes(t);
    var keys := Sequences.Sort(unsorted, cmp);
    Sequences.SortElements(unsorted, cmp);
    Sequences.PermutedMembers(unsorted, keys);
    Sequences.SortSorted(unsorted, cmp);
    Sequences.NoDuplicatesPermuted(unsorted, keys);
    forall i, j | 0 <= i < j < |keys| ensures t[keys[i]] < t[keys[j]] {
      assert keys[i] in t && keys[j] in t && keys[i] != keys[j];
      assert cmp(keys[i], keys[j]) <= 0;
    }
  }

  class ConsoleCardStates {
    var states: map<Key, ConsoleCardState>
    var accessTimes: Times
    var time: nat
    const maxStates: int              // VMS_CONFIG.MaxConsoleCardStates

    ghost var requests: seq<Key>               // every get() so far
    ghost var answers: seq<ConsoleCardState>   // and what it returned

    /** Even a limit of zero or less leaves room for the state being shown. */
    function Capacity(): (cap: nat)
      ensures cap >= 1 && cap >= maxStates && (cap == 1 || cap == maxStates)
    {
      if maxStates > 1 then maxStates else 1
    }

    ghost predicate Valid()
      reads this, answers
    {
      && time == |requests|
      && states.Keys == RecentKeys(requests, Capacity())
      && Represents(states, accessTimes, requests, answers)
      && ClosedOnce(states, answers)
    }

    constructor (maxStates: int)
      ensures Valid() && requests == [] && this.maxStates == maxStates
    {
      this.maxStates := maxStates;
      states, accessTimes, time := map[], map[], 0;
      requests, answers := [], [];
    }

    /** Closes and forgets the states of the given keys. */
    method Remove(keys: seq<Key>)
      requires states.Keys == accessTimes.Keys && Injective(states)
      requires Sequences.NoDuplicates(keys) && Sequences.Elements(keys) <= states.Keys
      requires ClosedOnce(states, answers) && forall k :: k in states ==> states[k] in answers
      modifies this`states, this`accessTimes, states.Values
      ensures states == old(states) - Sequences.Elements(keys)
      ensures accessTimes == old(accessTimes) - Sequences.Elements(keys)
      ensures ClosedOnce(states, answers)
    {
      hide Sequences.Elements, Sequences.NoDuplicates;
      TakeNone(keys);
      ghost var gone: set<Key> := {};
      var i := 0;
      while i < |keys|
        invariant 0 <= i <= |keys|
        invariant gone == Sequences.Elements(keys[..i])
        invariant states == old(states) - gone && accessTimes == old(accessTimes) - gone
        invariant ClosedOnce(states, answers)
      {
        var key := keys[i];
        TakeNext(keys, i);
        ValuesRemoved(states, key);
        MinusMinus(old(states), gone, key);
        MinusMinus(old(accessTimes), gone, key);
        assert states[key] == old(states)[key];
        states[key].Close();
        states := states - {key};
        accessTimes := accessTimes - {key};
        gone := gone + {key};
        i := i + 1;
      }
      assert keys[..i] == keys;
    }

    /** Closes and forgets the oldest states until at most max are left. */
    method MakeRoom(max: nat)
      requires states.Keys == accessTimes.Keys && DistinctTimes(accessTimes) && Injective(states)
      requires ClosedOnce(states, answers) && forall k :: k in states ==> states[k] in answers
      modifies this`states, this`accessTimes, states.Values
      ensures states.Keys == accessTimes.Keys == Newest(old(accessTimes), max)
      ensures forall k :: k in states ==> states[k] == old(states)[k] && accessTimes[k] == old(accessTimes)[k]
      ensures ClosedOnce(states, answers)
    {
      if |accessTimes.Keys| > max {
        var keys := KeysByAccessTime(accessTimes);
        RemainingNewest(accessTimes, keys, max);
        Remove(keys[..|keys| - max]);
      } else {
        NewestUnique(accessTimes, accessTimes.Keys, max);
      }
    }

    /** Makes room for one more state and adds it. */
    method AddState(key: Key)
      requires Valid() && key !in states
      modifies this`states, this`accessTimes, states.Values
      ensures states.Keys == RecentKeys(requests + [key], Capacity())
      ensures key in states && fresh(states[key]) && states[key].closes == 0
      ensures Represents(states, accessTimes[key := |requests|], requests + [key], answers + [states[key]])
      ensures ClosedOnce(states, answers)
    {
      hide LastRequest, RequestedSince, RecentKeys, Newest, IsEntry, DistinctTimes, Represents, Injective, ClosedOnce;
      ghost var s0, t0 := states, accessTimes;
      RepresentsDistinct(s0, t0, requests, answers);
      NewestSubset(t0, Capacity() - 1);
      MakeRoom(if maxStates > 1 then maxStates - 1 else 0);
      NewestAreRecent(requests, t0, key, Capacity());
      var state := new ConsoleCardState(key);
      RepresentsMiss(s0, t0, requests, answers, key, states, accessTimes, state);
      ClosedOnceAdded(states, answers, key, state);
      states := states[key := state];
    }

    /** The state for a machine: the one handed out before while it is kept, else a new one. */
    method Get(key: Key) returns (r: ConsoleCardState)
      requires Valid()
      modifies this, states.Values
      ensures Valid()
      ensures requests == old(requests) + [key] && answers == old(answers) + [r]
      ensures if key in RecentKeys(old(requests), Capacity())
              then r == old(answers)[LastRequest(old(requests), key)]
              else fresh(r)
    {
      hide LastRequest, RequestedSince, RecentKeys, IsEntry, Represents;
      if key !in states {
        AddState(key);
      } else {
        RecentKeysAfterHit(requests, key, Capacity());
        RepresentsHit(states, accessTimes, requests, answers, key);
      }
      accessTimes := accessTimes[key := time];
      time := time + 1;
      r := states[key];
      ClosedOnceAppend(states, answers, r);
      requests, answers := requests + [key], answers + [r];
    }
  }

  type States = map<Key, ConsoleCardState>

  /** What was handed out and is no longer kept was closed exactly once, the rest never. */
  ghost predicate ClosedOnce(states: States, answers: seq<ConsoleCardState>)
    reads answers
  {
    forall o :: o in answers ==> o.closes == if o in states.Values then 0 else 1
  }

  lemma ClosedOnceAppend(states: States, answers: seq<ConsoleCardState>, r: ConsoleCardState)
    requires ClosedOnce(states, answers) && r in states.Values && r.closes == 0
    ensures ClosedOnce(states, answers + [r])
  {
  }

  lemma ClosedOnceAdded(states: States, answers: seq<ConsoleCardState>, key: Key, r: ConsoleCardState)
    requires ClosedOnce(states, answers) && r !in answers && key !in states
    ensures ClosedOnce(states[key := r], answers)
    ensures states[key := r].Keys == states.Keys + {key}
  {
    ValuesAdded(states, key, r);
  }

  ghost predicate Injective(states: States) {
    forall a, b :: a in states && b in states && states[a] == states[b] ==> a == b
  }

  /** The dictionaries hold, for their keys, the time of the last request and the object
      that was handed out then. */
  ghost predicate Represents(states: States, times: Times, h: seq<Key>, answers: seq<ConsoleCardState>) {
    && |answers| == |h|
    && states.Keys == times.Keys
    && (forall k :: k in states ==> IsEntry(states[k], times[k], k, h, answers))
    && (forall i :: 0 <= i < |h| ==> answers[i].key == h[i])
  }

  ghost predicate IsEntry(state: ConsoleCardState, time: nat, k: Key, h: seq<Key>, answers: seq<ConsoleCardState>)
    requires |answers| == |h|
  {
    k in h && time == LastRequest(h, k) && state == answers[time]
  }

  lemma RepresentsDistinct(states: States, times: Times, h: seq<Key>, answers: seq<ConsoleCardState>)
    requires Represents(states, times, h, answers)
    ensures states.Keys == times.Keys && |answers| == |h|
    ensures DistinctTimes(times) && Injective(states)
    ensures forall k :: k in states ==> k in h && times[k] == LastRequest(h, k) && states[k] in answers
  {
    forall k | k in states ensures k in h && times[k] == LastRequest(h, k) && states[k] in answers && states[k].key == k {
      assert IsEntry(states[k], times[k], k, h, answers);
    }
  }

  lemma ValuesRemoved(states: States, key: Key)
    requires key in states && Injective(states)
    ensures (states - {key}).Values == states.Values - {states[key]}
    ensures Injective(states - {key})
  {
    var rest := states - {key};
    forall o ensures o in rest.Values <==> o in states.Values - {states[key]} {
      if o in states.Values && o != states[key] {
        var k :| k in states && states[k] == o;
        assert rest[k] == o;
      }
    }
  }

  lemma ValuesAdded(states: States, key: Key, r: ConsoleCardState)
    requires key !in states
    ensures states[key := r].Values == states.Values + {r}
    ensures states[key := r].Keys == states.Keys + {key}
  {
    forall o ensures o in states[key := r].Values <==> o in states.Values + {r} {
      if o in states.Values {
        var k :| k in states && states[k] == o;
        assert states[key := r][k] == o;
      }
      assert states[key := r][key] == r;
    }
  }

  lemma EntryKept(state: ConsoleCardState, time: nat, k: Key, h: seq<Key>, answers: seq<ConsoleCardState>,
                  key: Key, r: ConsoleCardState)
    requires |answers| == |h| && IsEntry(state, time, k, h, answers) && k != key
    ensures IsEntry(state, time, k, h + [key], answers + [r])
  {
    LastAppend(h, key, k);
  }

  lemma EntryNew(h: seq<Key>, answers: seq<ConsoleCardState>, key: Key, r: ConsoleCardState)
    requires |answers| == |h|
    ensures IsEntry(r, |h|, key, h + [key], answers + [r])
  {
    LastAppend(h, key, key);
  }

  lemma {:induction false} RepresentsHit(states: States, times: Times, h: seq<Key>, answers: seq<ConsoleCardState>, key: Key)
    requires Represents(states, times, h, answers) && key in states
    ensures states[key].key == key && key in h && states[key] == answers[LastRequest(h, key)] && states[key] in answers
    ensures Represents(states, times[key := |h|], h + [key], answers + [states[key]])
  {
    assert IsEntry(states[key], times[key], key, h, answers);
    EntryNew(h, answers, key, states[key]);
    forall k | k in states && k != key ensures IsEntry(states[k], times[k], k, h + [key], answers + [states[key]]) {
      EntryKept(states[k], times[k], k, h, answers, key, states[key]);
    }
  }

  lemma RepresentsMiss(states: States, times: Times, h: seq<Key>, answers: seq<ConsoleCardState>,
                       key: Key, kept: States, keptTimes: Times, r: ConsoleCardState)
    requires Represents(states, times, h, answers) && key !in states && r.key == key
    requires kept.Keys == keptTimes.Keys <= states.Keys
    requires forall k :: k in kept ==> kept[k] == states[k] && keptTimes[k] == times[k]
    ensures Represents(kept[key := r], keptTimes[key := |h|], h + [key], answers + [r])
  {
    EntryNew(h, answers, key, r);
    forall k | k in kept ensures IsEntry(kept[k], keptTimes[k], k, h + [key], answers + [r]) {
      EntryKept(states[k], times[k], k, h, answers, key, r);
    }
  }

  lemma MinusMinus<V>(m: map<Key, V>, gone: set<Key>, key: Key)
    ensures m - gone - {key} == m - (gone + {key})
  {
  }

  lemma TakeNone(keys: seq<Key>)
    ensures Sequences.Elements(keys[..0]) == {}
  {
  }

  lemma TakeNext(keys: seq<Key>, i: nat)
    requires Sequences.NoDuplicates(keys) && i < |keys|
    ensures keys[i] !in Sequences.Elements(keys[..i]) && keys[i] in Sequences.Elements(keys)
    ensures Sequences.Elements(keys[..i + 1]) == Sequences.Elements(keys[..i]) + {keys[i]}
  {
    assert keys[..i + 1] == keys[..i] + [keys[i]];
  }

  lemma Parts(keys: seq<Key>, n: nat)
    requires Sequences.NoDuplicates(keys) && n <= |keys|
    ensures Sequences.NoDuplicates(keys[..n]) && Sequences.NoDuplicates(keys[n..])
    ensures Sequences.Elements(keys[n..]) == Sequences.Elements(keys) - Sequences.Elements(keys[..n])
  {
    assert keys == keys[..n] + keys[n..];
  }

  /** Dropping the oldest until max are left, leaves the newest. */
  lemma RemainingNewest(t: Times, keys: seq<Key>, max: nat)
    requires DistinctTimes(t) && OldestFirst(t, keys) && max <= |t.Keys|
    ensures |keys| == |t.Keys|
    ensures var gone := keys[..|keys| - max];
            Sequences.NoDuplicates(gone) && Sequences.Elements(gone) <= t.Keys && Newest(t, max) == t.Keys - Sequences.Elements(gone)
  {
    OldestFirstSize(t, keys);
    var n := |keys| - max;
    Parts(keys, n);
    Sequences.DistinctSize(keys[n..]);
    LaterPart(t, keys, n);
    hide Sequences.Elements, Newest, DistinctTimes;
    NewestUnique(t, Sequences.Elements(keys[n..]), max);
  }

  lemma LaterPart(t: Times, keys: seq<Key>, n: nat)
    requires OldestFirst(t, keys) && n <= |keys|
    ensures Sequences.NoDuplicates(keys) && Sequences.Elements(keys) == t.Keys
    ensures forall a, b :: a in Sequences.Elements(keys[n..]) && b in t && b !in Sequences.Elements(keys[n..]) ==> t[b] < t[a]
  {
    forall a, b | a in Sequences.Elements(keys[n..]) && b in t && b !in Sequences.Elements(keys[n..]) ensures t[b] < t[a] {
      var i :| n <= i < |keys| && keys[i] == a;
      assert keys == keys[..n] + keys[n..];
      var j :| 0 <= j < n && keys[j] == b;
    }
  }

  lemma OldestFirstSize(t: Times, keys: seq<Key>)
    requires OldestFirst(t, keys)
    ensures |keys| == |t.Keys|
  {
    Sequences.DistinctSize(keys);
    assert t.Keys == Sequences.Elements(keys);
  }

  /** When the access times are those of the recent keys, keeping the newest cap - 1 keeps
      exactly the keys that stay recent once another key is requested. */
  lemma NewestAreRecent(h: seq<Key>, t: Times, key: Key, cap: nat)
    requires cap > 0 && key !in RecentKeys(h, cap)
    requires t.Keys == RecentKeys(h, cap)
    requires forall k :: k in t ==> k in h && t[k] == LastRequest(h, k)
    ensures RecentKeys(h + [key], cap) == Newest(t, cap - 1) + {key}
  {
    SinceAppend(h, key, key);
    forall k | k != key ensures k in Newest(t, cap - 1) <==> k in RecentKeys(h + [key], cap) {
      RecentAfterMiss(h, key, k, cap);
      if k in t {
        NewerAreSince(h, t, k, cap);
      }
    }
  }

  lemma NewerAreSince(h: seq<Key>, t: Times, k: Key, cap: nat)
    requires k in t
    requires t.Keys == RecentKeys(h, cap)
    requires forall x :: x in t ==> x in h && t[x] == LastRequest(h, x)
    ensures Newer(t, k) == RequestedSince(h, k)
  {
    forall x ensures x in Newer(t, k) <==> x in RequestedSince(h, k) {
      SinceIsLater(h, k, x);
      if x in RequestedSince(h, k) {
        SinceIsLater(h, x, k);
        LaterSince(h, x, k);
      }
    }
  }

  // ----- Serial consoles -----

  class SerialState {
    const alias: OptString
    var closes: nat

    constructor (alias: OptString)
      ensures this.alias == alias && closes == 0
    {
      this.alias := alias;
      closes := 0;
    }

    method Close()
      modifies this
      ensures closes == old(closes) + 1
    {
      closes := closes + 1;
    }
  }

  class SerialStates {
    var states: seq<SerialState>

    ghost predicate Valid()
      reads this
    {
      Sequences.NoDuplicates(states)
    }

    constructor ()
      ensures Valid() && states == []
    {
      states := [];
    }

    predicate Shows(aliases: seq<OptString>): (b: bool)
      reads this
      ensures b <==> |aliases| == |states| && forall i :: 0 <= i < |aliases| ==> aliases[i] == states[i].alias
    {
      |aliases| == |states| && forall i :: 0 <= i < |aliases| ==> aliases[i] == states[i].alias
    }

    /** One state for each serial console: the old ones if the aliases are unchanged,
        otherwise all old ones are closed, once each, and replaced. */
    method Ensure(aliases: seq<OptString>) returns (r: seq<SerialState>)
      requires Valid()
      modifies this, states
      ensures Valid() && r == states
      ensures |r| == |aliases| && forall i :: 0 <= i < |r| ==> r[i].alias == aliases[i]
      ensures old(Shows(aliases)) ==> states == old(states) && forall s :: s in states ==> s.closes == old(s.closes)
      ensures !old(Shows(aliases)) ==> forall s :: s in states ==> fresh(s) && s.closes == 0
      ensures !old(Shows(aliases)) ==> forall s :: s in old(states) ==> s.closes == old(s.closes) + 1
    {
      if !Shows(aliases) {
        Close();
        var i := 0;
        while i < |aliases|
          invariant 0 <= i <= |aliases| && |states| == i && Valid()
          invariant forall j :: 0 <= j < i ==> fresh(states[j]) && states[j].alias == aliases[j] && states[j].closes == 0
          invariant forall s :: s in old(states) ==> s.closes == old(s.closes) + 1
        {
          var state := new SerialState(aliases[i]);
          states := states + [state];
          i := i + 1;
        }
      }
      r := states;
    }

    method Close()
      requires Valid()
      modifies this, states
      ensures states == []
      ensures forall s :: s in old(states) ==> s.closes == old(s.closes) + 1
    {
      var i := 0;
      while i < |states|
        invariant 0 <= i <= |states| && states == old(states)
        invariant forall j :: 0 <= j < |states| ==> states[j].closes == old(states[j].closes) + if j < i then 1 else 0
      {
        states[i].Close();
        i := i + 1;
      }
      states := [];
    }
  }
}
