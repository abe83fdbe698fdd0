/**
 * Placeholders for virtual machines that are being created, and the timers that clean them up.
 */
module Placeholders {
  import opened Options
  import opened Sequences

  datatype Key = Key(connectionName: string, name: string)

  datatype UiVm = UiVm(createInProgress: bool, downloadProgress: OptString)

  /** A timer of the browser: whose placeholder it removes, and when it is due. */
  datatype Timer = Timer(key: Key, due: nat)

  /** `timeouts` holds the recorded timer of each name, `armed` the timers that really are set,
      `lastSet` when a creation was last announced. */
  datatype State = State(
    uivms: map<Key, UiVm>, timeouts: map<Key, nat>, armed: map<nat, Timer>, now: nat, lastTimer: nat, lastSet: map<Key, nat>)

  function Initial(now: nat): State {
    State(map[], map[], map[], now, 0, map[])
  }

  datatype Event =
    | SetInProgress(key: Key)
    | Progress(key: Key, progress: OptString)
    | Clear(key: Key)
    | Fire(id: nat)
    | Tick(now: nat)

  /** Timers fire when they are due, and time does not pass one that is due. */
  predicate Enabled(s: State, e: Event) {
    match e
    case Fire(id) => id in s.armed && s.armed[id].due == s.now
    case Tick(now) => s.now <= now && forall id :: id in s.armed ==> now <= s.armed[id].due
    case _ => true
  }

  /** setUiVm */
  function SetUiVm(uivms: map<Key, UiVm>, key: Key, createInProgress: Option<bool>, progress: Option<OptString>): map<Key, UiVm> {
    var vm := if key in uivms then uivms[key] else UiVm(false, None);
    uivms[key := UiVm(createInProgress.GetOr(vm.createInProgress), progress.GetOr(vm.downloadProgress))]
  }

  /** clearVmUiState: the recorded timer is cancelled and forgotten, and the placeholder goes. */
  function Cleared(s: State, key: Key): State {
    s.(armed := if key in s.timeouts then s.armed - {s.timeouts[key]} else s.armed,
       timeouts := s.timeouts - {key},
       uivms := s.uivms - {key})
  }

  /** VMS_CONFIG.DummyVmsWaitInterval is a parameter. */
  function Step(s: State, e: Event, interval: nat): State
    requires Enabled(s, e)
  {
    match e
    case SetInProgress(key) =>
      // the timer recorded before, if any, stays armed
      var id := s.lastTimer + 1;
      s.(uivms := SetUiVm(s.uivms, key, Some(true), None),
         lastTimer := id,
         armed := s.armed[id := Timer(key, s.now + interval)],
         timeouts := s.timeouts[key := id],
         lastSet := s.lastSet[key := s.now])
    case Progress(key, progress) =>
      s.(uivms := SetUiVm(s.uivms, key, None, Some(progress)))
    case Clear(key) => Cleared(s, key)
    case Fire(id) => Cleared(s.(armed := s.armed - {id}), s.armed[id].key)
    case Tick(now) => s.(now := now)
  }

  predicate InProgress(s: State, key: Key) {
    key in s.uivms && s.uivms[key].createInProgress
  }

  /** The recorded timer of a name is armed, for that name, and due one interval after the
      creation was last announced. */
  predicate Watched(s: State, key: Key, interval: nat) {
    && key in s.timeouts && s.timeouts[key] in s.armed && key in s.lastSet
    && s.armed[s.timeouts[key]] == Timer(key, s.lastSet[key] + interval)
  }

  /** A timer is due from now on, and at latest one interval after the last announcement. */
  predicate Due(s: State, id: nat, interval: nat)
    requires id in s.armed
  {
    s.now <= s.armed[id].due && s.armed[id].key in s.lastSet && s.armed[id].due <= s.lastSet[s.armed[id].key] + interval
  }

  ghost predicate Good(s: State, interval: nat) {
    && (forall id :: id in s.armed ==> id <= s.lastTimer && Due(s, id, interval))
    && (forall key :: key in s.lastSet ==> s.lastSet[key] <= s.now)
    && (forall key :: key in s.timeouts ==> InProgress(s, key) && Watched(s, key, interval))
    && (forall key :: InProgress(s, key) ==> key in s.timeouts)
  }

  lemma SetGood(s: State, key: Key, interval: nat)
    requires Good(s, interval)
    ensures Good(Step(s, SetInProgress(key), interval), interval)
  {
    var t := Step(s, SetInProgress(key), interval);
    forall k | k in t.timeouts ensures InProgress(t, k) && Watched(t, k, interval) {
      if k != key {
        assert InProgress(s, k) && Watched(s, k, interval);
      }
    }
    forall k | InProgress(t, k) ensures k in t.timeouts {
      assert k == key || InProgress(s, k);
    }
  }

  lemma ProgressGood(s: State, key: Key, progress: OptString, interval: nat)
    requires Good(s, interval)
    ensures Good(Step(s, Progress(key, progress), interval), interval)
  {
    var t := Step(s, Progress(key, progress), interval);
    forall k ensures InProgress(t, k) == InProgress(s, k) {
    }
    forall k | k in t.timeouts ensures Watched(t, k, interval) {
      assert Watched(s, k, interval);
    }
  }

  /** Without the recorded timer of a name, or with it, removing timers keeps the others watched. */
  lemma ClearedGood(s: State, key: Key, interval: nat)
    requires forall id :: id in s.armed ==> id <= s.lastTimer && Due(s, id, interval)
    requires forall k :: k in s.lastSet ==> s.lastSet[k] <= s.now
    requires forall k :: k in s.timeouts && k != key ==> InProgress(s, k) && Watched(s, k, interval)
    requires forall k :: InProgress(s, k) && k != key ==> k in s.timeouts
    requires key in s.timeouts && s.timeouts[key] in s.armed ==> s.armed[s.timeouts[key]].key == key
    ensures Good(Cleared(s, key), interval)
  {
    var t := Cleared(s, key);
    forall k | k in t.timeouts ensures InProgress(t, k) && Watched(t, k, interval) {
      assert InProgress(s, k) && Watched(s, k, interval);
    }
    forall k | InProgress(t, k) ensures k in t.timeouts {
      assert InProgress(s, k);
    }
  }

  lemma FireGood(s: State, id: nat, interval: nat)
    requires Good(s, interval) && Enabled(s, Fire(id))
    ensures Good(Step(s, Fire(id), interval), interval)
  {
    var key := s.armed[id].key;
    var t := s.(armed := s.armed - {id});
    forall k | k in t.timeouts && k != key ensures InProgress(t, k) && Watched(t, k, interval) {
      assert InProgress(s, k) && Watched(s, k, interval);
    }
    forall k | InProgress(t, k) && k != key ensures k in t.timeouts {
      assert InProgress(s, k);
    }
    if key in t.timeouts {
      assert Watched(s, key, interval);
    }
    ClearedGood(t, key, interval);
  }

  lemma TickGood(s: State, now: nat, interval: nat)
    requires Good(s, interval) && Enabled(s, Tick(now))
    ensures Good(Step(s, Tick(now), interval), interval)
  {
    var t := Step(s, Tick(now), interval);
    forall k ensures InProgress(t, k) == InProgress(s, k) && Watched(t, k, interval) == Watched(s, k, interval) {
    }
  }

  lemma StepGood(s: State, e: Event, interval: nat)
    requires Good(s, interval) && Enabled(s, e)
    ensures Good(Step(s, e, interval), interval)
  {
    hide Good, Step;
    match e {
      case SetInProgress(key) => SetGood(s, key, interval);
      case Progress(key, progress) => ProgressGood(s, key, progress, interval);
      case Clear(key) => ClearGood(s, key, interval);
      case Fire(id) => FireGood(s, id, interval);
      case Tick(now) => TickGood(s, now, interval);
    }
  }

  lemma ClearGood(s: State, key: Key, interval: nat)
    requires Good(s, interval)
    ensures Good(Step(s, Clear(key), interval), interval)
  {
    if key in s.timeouts {
      assert Watched(s, key, interval);
    }
    ClearedGood(s, key, interval);
  }

  predicate AllEnabled(s: State, events: seq<Event>, interval: nat)
    decreases |events|
  {
    events == [] || (Enabled(s, events[0]) && AllEnabled(Step(s, events[0], interval), events[1..], interval))
  }

  function Run(s: State, events: seq<Event>, interval: nat): State
    requires AllEnabled(s, events, interval)
    decreases |events|
  {
    if events == [] then s else Run(Step(s, events[0], interval), events[1..], interval)
  }

  lemma {:induction false} RunGood(s: State, events: seq<Event>, interval: nat)
    requires Good(s, interval) && AllEnabled(s, events, interval)
    ensures Good(Run(s, events, interval), interval)
    decreases |events|
  {
    hide Good, Step, Enabled;
    if events != [] {
      StepGood(s, events[0], interval);
      RunGood(Step(s, events[0], interval), events[1..], interval);
    }
  }

  // ----- What holds in every run -----

  /** A placeholder marked as being created has an armed cleanup timer on record, and is never
      shown for longer than one interval after its creation was last announced. */
  lemma GoneInTime(start: nat, events: seq<Event>, interval: nat, key: Key)
    requires AllEnabled(Initial(start), events, interval)
    requires InProgress(Run(Initial(start), events, interval), key)
    ensures var s := Run(Initial(start), events, interval);
            Watched(s, key, interval) && s.now <= s.lastSet[key] + interval
  {
    RunGood(Initial(start), events, interval);
    var s := Run(Initial(start), events, interval);
    assert key in s.timeouts && Watched(s, key, interval);
  }

  /** Clearing takes the placeholder and its timer away together, and touches no other name. */
  lemma ClearTakesAll(s: State, key: Key, other: Key, interval: nat)
    requires Good(s, interval) && other != key
    ensures var t := Step(s, Clear(key), interval);
            && key !in t.uivms && key !in t.timeouts
            && (key in s.timeouts ==> s.timeouts[key] !in t.armed)
            && (other in t.uivms <==> other in s.uivms) && (other in s.uivms ==> t.uivms[other] == s.uivms[other])
            && (Watched(s, other, interval) ==> Watched(t, other, interval))
  {
    if Watched(s, other, interval) && key in s.timeouts {
      assert Watched(s, key, interval);
      assert s.timeouts[key] != s.timeouts[other];
    }
  }

  /** What each step does to what is shown: an announcement marks its name and keeps its progress,
      a report sets the progress and keeps the mark, adding the name unmarked if it is new, and
      no other name is touched. */
  lemma ShownAfter(s: State, e: Event, interval: nat)
    requires e.SetInProgress? || e.Progress?
    ensures var t := Step(s, e, interval).uivms;
            && e.key in t && t - {e.key} == s.uivms - {e.key}
            && t[e.key].createInProgress == (e.SetInProgress? || (e.key in s.uivms && s.uivms[e.key].createInProgress))
            && t[e.key].downloadProgress
               == (if e.Progress? then e.progress else if e.key in s.uivms then s.uivms[e.key].downloadProgress else None)
  {
  }

  // ----- Placeholders without a timer -----

  predicate HasTimer(s: State, key: Key) {
    exists id :: id in s.armed && s.armed[id].key == key
  }

  /** Every placeholder has a timer that will remove it, be it marked as being created or not. */
  ghost predicate AllTimed(s: State) {
    forall key :: key in s.uivms ==> HasTimer(s, key)
  }

  /** Download progress is reported for a name that is not listed and that no timer is armed for. */
  predicate ListsUntimed(s: State, e: Event) {
    e.Progress? && e.key !in s.uivms && !HasTimer(s, e.key)
  }

  /** A step leaves a placeholder without a timer exactly if it is such a report. */
  lemma UntimedByProgressOnly(s: State, e: Event, interval: nat)
    requires Good(s, interval) && AllTimed(s) && Enabled(s, e)
    ensures AllTimed(Step(s, e, interval)) <==> !ListsUntimed(s, e)
  {
    hide HasTimer, Good;
    var t := Step(s, e, interval);
    match e {
      case SetInProgress(key) =>
        forall k | k in t.uivms ensures HasTimer(t, k) {
          SetKeepsTimers(s, key, k, interval);
        }
      case Progress(key, progress) =>
        assert key in t.uivms;
        forall k ensures HasTimer(t, k) == HasTimer(s, k) {
          SameTimers(s, t, k);
        }
      case Clear(key) =>
        forall k | k in t.uivms ensures HasTimer(t, k) {
          ClearedKeepsTimers(s, s, key, k, interval);
        }
      case Fire(id) =>
        var u := s.(armed := s.armed - {id});
        forall k | k in t.uivms ensures HasTimer(t, k) {
          OtherTimers(s, id, k);
          ClearedKeepsTimers(s, u, s.armed[id].key, k, interval);
        }
      case Tick(now) =>
        forall k ensures HasTimer(t, k) == HasTimer(s, k) {
          SameTimers(s, t, k);
        }
    }
  }

  lemma SameTimers(s: State, t: State, key: Key)
    requires t.armed == s.armed
    ensures HasTimer(t, key) == HasTimer(s, key)
  {
  }

  lemma SetKeepsTimers(s: State, key: Key, other: Key, interval: nat)
    requires Good(s, interval)
    ensures HasTimer(s, other) || other == key ==> HasTimer(Step(s, SetInProgress(key), interval), other)
  {
    var t := Step(s, SetInProgress(key), interval);
    if other == key {
      assert t.armed[t.lastTimer].key == key;
    } else if HasTimer(s, other) {
      var id :| id in s.armed && s.armed[id].key == other;
      assert t.armed[id] == s.armed[id];
    }
  }

  lemma OtherTimers(s: State, id: nat, other: Key)
    requires id in s.armed
    ensures HasTimer(s, other) && s.armed[id].key != other ==> HasTimer(s.(armed := s.armed - {id}), other)
  {
    if HasTimer(s, other) && s.armed[id].key != other {
      var i :| i in s.armed && s.armed[i].key == other;
      assert (s.armed - {id})[i].key == other;
    }
  }

  /** The recorded timer of a name is for that name, so clearing leaves the timers of others. */
  lemma ClearedKeepsTimers(s: State, u: State, key: Key, other: Key, interval: nat)
    requires Good(s, interval) && u.timeouts == s.timeouts
    requires u.armed.Keys <= s.armed.Keys && forall id :: id in u.armed ==> u.armed[id] == s.armed[id]
    ensures HasTimer(u, other) && other != key ==> HasTimer(Cleared(u, key), other)
  {
    if HasTimer(u, other) && other != key {
      var id :| id in u.armed && u.armed[id].key == other;
      if key in s.timeouts {
        assert Watched(s, key, interval);
      }
      assert id in Cleared(u, key).armed;
    }
  }

  /** Every placeholder has a timer, before and after each step of a run. */
  ghost predicate AlwaysTimed(s: State, events: seq<Event>, interval: nat)
    requires AllEnabled(s, events, interval)
    decreases |events|
  {
    AllTimed(s) && (events != [] ==> AlwaysTimed(Step(s, events[0], interval), events[1..], interval))
  }

  ghost predicate NeverListsUntimed(s: State, events: seq<Event>, interval: nat)
    requires AllEnabled(s, events, interval)
    decreases |events|
  {
    events == [] || (!ListsUntimed(s, events[0]) && NeverListsUntimed(Step(s, events[0], interval), events[1..], interval))
  }

  /** Every placeholder has a timer throughout a run exactly if the run has no such report. */
  lemma {:induction false} TimedThroughout(s: State, events: seq<Event>, interval: nat)
    requires Good(s, interval) && AllTimed(s) && AllEnabled(s, events, interval)
    ensures AlwaysTimed(s, events, interval) <==> NeverListsUntimed(s, events, interval)
    decreases |events|
  {
    hide Good, AllTimed, ListsUntimed, Step, Enabled;
    if events != [] {
      StepGood(s, events[0], interval);
      UntimedByProgressOnly(s, events[0], interval);
      if AllTimed(Step(s, events[0], interval)) {
        TimedThroughout(Step(s, events[0], interval), events[1..], interval);
      }
    }
  }

  /** Nothing but clearing its name, or announcing its creation anew, ends a placeholder without
      a timer. */
  predicate Ends(e: Event, key: Key) {
    e == Clear(key) || e == SetInProgress(key)
  }

  lemma StepKeepsUntimed(s: State, e: Event, key: Key, interval: nat)
    requires key in s.uivms && !HasTimer(s, key) && Enabled(s, e) && !Ends(e, key)
    ensures key in Step(s, e, interval).uivms && !HasTimer(Step(s, e, interval), key)
  {
    var t := Step(s, e, interval);
    if e.Fire? {
      assert s.armed[e.id].key != key;
    }
    forall id | id in t.armed ensures t.armed[id].key != key {
      if id in s.armed && t.armed[id] == s.armed[id] {
        assert s.armed[id].key != key;
      }
    }
  }

  /** A placeholder without a timer stays for good in any run without such an event. */
  lemma {:induction false} UntimedStays(s: State, events: seq<Event>, key: Key, interval: nat)
    requires key in s.uivms && !HasTimer(s, key)
    requires AllEnabled(s, events, interval) && forall e :: e in events ==> !Ends(e, key)
    ensures key in Run(s, events, interval).uivms
    decreases |events|
  {
    hide HasTimer, Step, Enabled;
    if events != [] {
      assert events[0] in events;
      StepKeepsUntimed(s, events[0], key, interval);
      UntimedStays(Step(s, events[0], interval), events[1..], key, interval);
    }
  }

  /** There is one when a download outlasts the interval. */
  lemma DownloadOutlastsTimer(start: nat, interval: nat, key: Key, progress: OptString)
    ensures var events := [SetInProgress(key), Tick(start + interval), Fire(1), Progress(key, progress)];
            AllEnabled(Initial(start), events, interval)
            && var s := Run(Initial(start), events, interval);
               key in s.uivms && s.armed == map[] && s.timeouts == map[]
  {
    var events := [SetInProgress(key), Tick(start + interval), Fire(1), Progress(key, progress)];
    var s0 := Initial(start);
    var s1 := Step(s0, events[0], interval);
    assert s1.armed == map[1 := Timer(key, start + interval)];
    var s2 := Step(s1, events[1], interval);
    var s3 := Step(s2, events[2], interval);
    assert s3.armed == map[] && s3.timeouts == map[];
    var s4 := Step(s3, events[3], interval);
    RunEnds(s4, interval);
    RunCons(s3, events[3], [], interval);
    RunCons(s2, events[2], [events[3]], interval);
    RunCons(s1, events[1], [events[2], events[3]], interval);
    RunCons(s0, events[0], [events[1], events[2], events[3]], interval);
    assert events == [events[0]] + [events[1], events[2], events[3]];
    assert [events[1], events[2], events[3]] == [events[1]] + [events[2], events[3]];
    assert [events[2], events[3]] == [events[2]] + [events[3]];
    assert [events[3]] == [events[3]] + [];
  }

  lemma RunEnds(s: State, interval: nat)
    ensures AllEnabled(s, [], interval) && Run(s, [], interval) == s
  {
  }

  lemma RunCons(s: State, e: Event, events: seq<Event>, interval: nat)
    requires Enabled(s, e) && AllEnabled(Step(s, e, interval), events, interval)
    ensures AllEnabled(s, [e] + events, interval)
    ensures Run(s, [e] + events, interval) == Run(Step(s, e, interval), events, interval)
  {
    assert ([e] + events)[1..] == events;
  }

  // ----- Placeholders that go before their time -----

  /** A timer that will fire less than one interval after the creation was last announced. */
  predicate Early(s: State, id: nat, interval: nat) {
    id in s.armed && s.armed[id].key in s.lastSet && s.armed[id].due < s.lastSet[s.armed[id].key] + interval
  }

  ghost predicate NoneEarly(s: State, interval: nat) {
    forall id :: !Early(s, id, interval)
  }

  /** A creation is announced anew while a timer of an earlier announcement is armed. */
  predicate Overtakes(s: State, e: Event) {
    e.SetInProgress? && HasTimer(s, e.key) && e.key in s.lastSet && s.lastSet[e.key] < s.now
  }

  /** From a state without early timers, a step leaves one exactly if it overtakes a timer. */
  lemma EarlyByOvertakingOnly(s: State, e: Event, interval: nat)
    requires Good(s, interval) && NoneEarly(s, interval) && Enabled(s, e)
    ensures NoneEarly(Step(s, e, interval), interval) <==> !Overtakes(s, e)
  {
    if e.SetInProgress? {
      SetOvertakes(s, e.key, interval);
    } else {
      OthersKeepTime(s, e, interval);
    }
  }

  lemma SetOvertakes(s: State, key: Key, interval: nat)
    requires Good(s, interval) && NoneEarly(s, interval)
    ensures NoneEarly(Step(s, SetInProgress(key), interval), interval) <==> !Overtakes(s, SetInProgress(key))
  {
    var t := Step(s, SetInProgress(key), interval);
    assert forall id :: id in s.armed ==> id <= s.lastTimer && t.armed[id] == s.armed[id];
    assert forall id :: id in s.armed ==> !Early(s, id, interval) && Due(s, id, interval);
    if Overtakes(s, SetInProgress(key)) {
      var id :| id in s.armed && s.armed[id].key == key;
      assert s.armed[id].due <= s.lastSet[key] + interval < t.lastSet[key] + interval;
      assert Early(t, id, interval);
    } else {
      forall id | id in t.armed ensures !Early(t, id, interval) {
        if id in s.armed && s.armed[id].key == key {
          assert HasTimer(s, key) && s.lastSet[key] == s.now;
        }
      }
    }
  }

  lemma OthersKeepTime(s: State, e: Event, interval: nat)
    requires NoneEarly(s, interval) && Enabled(s, e) && !e.SetInProgress?
    ensures NoneEarly(Step(s, e, interval), interval)
  {
    var t := Step(s, e, interval);
    forall id ensures !Early(t, id, interval) {
      assert !Early(s, id, interval);
    }
  }

  /** While every armed timer is the recorded one, overtaking is announcing a creation anew,
      later, before its timer has fired. */
  lemma OvertakingRecorded(s: State, key: Key, interval: nat)
    requires Good(s, interval)
    requires forall id :: id in s.armed ==> s.armed[id].key in s.timeouts && s.timeouts[s.armed[id].key] == id
    ensures Overtakes(s, SetInProgress(key)) <==> key in s.timeouts && s.lastSet[key] < s.now
  {
    if key in s.timeouts {
      assert Watched(s, key, interval);
      assert s.timeouts[key] in s.armed && s.armed[s.timeouts[key]].key == key;
    }
  }

  /** No step of a run overtakes a timer. */
  predicate NeverOvertakes(s: State, events: seq<Event>, interval: nat)
    requires AllEnabled(s, events, interval)
    decreases |events|
  {
    events == [] || (!Overtakes(s, events[0]) && NeverOvertakes(Step(s, events[0], interval), events[1..], interval))
  }

  lemma {:induction false} RunNoneEarly(s: State, events: seq<Event>, interval: nat)
    requires Good(s, interval) && NoneEarly(s, interval)
    requires AllEnabled(s, events, interval) && NeverOvertakes(s, events, interval)
    ensures NoneEarly(Run(s, events, interval), interval)
    decreases |events|
  {
    hide Good, NoneEarly, Step, Enabled, Overtakes;
    if events != [] {
      StepGood(s, events[0], interval);
      EarlyByOvertakingOnly(s, events[0], interval);
      RunNoneEarly(Step(s, events[0], interval), events[1..], interval);
    }
  }

  /** In a run that never overtakes a timer, no timer takes a placeholder away before its time. */
  lemma NeverTooEarly(start: nat, events: seq<Event>, interval: nat, id: nat)
    requires AllEnabled(Initial(start), events, interval) && NeverOvertakes(Initial(start), events, interval)
    requires Enabled(Run(Initial(start), events, interval), Fire(id))
    ensures var s := Run(Initial(start), events, interval);
            s.armed[id].key in s.lastSet && s.now == s.lastSet[s.armed[id].key] + interval
  {
    hide Step;
    RunGood(Initial(start), events, interval);
    RunNoneEarly(Initial(start), events, interval);
    var s := Run(Initial(start), events, interval);
    assert !Early(s, id, interval) && Due(s, id, interval);
  }

  /** But once it is there an early timer is never cancelled, as it is not on record. */
  lemma EarlyStays(s: State, e: Event, id: nat, interval: nat)
    requires Good(s, interval) && Early(s, id, interval) && Enabled(s, e) && e != Fire(id)
    ensures Early(Step(s, e, interval), id, interval)
  {
    forall key | key in s.timeouts ensures s.timeouts[key] != id {
      assert Watched(s, key, interval);
    }
    if e.SetInProgress? {
      assert id <= s.lastTimer;
      if s.armed[id].key == e.key {
        assert s.lastSet[e.key] <= s.now;
      }
    }
  }

  /** And when it fires it takes the placeholder of its name away before its time. */
  lemma StaleTimerFiresEarly(s: State, id: nat, interval: nat)
    requires Good(s, interval) && Enabled(s, Fire(id))
    ensures var key := s.armed[id].key;
            && key !in Step(s, Fire(id), interval).uivms
            && (s.now < s.lastSet[key] + interval <==> Early(s, id, interval))
  {
    assert Due(s, id, interval);
  }

  /** A run without announcements in whose last state a timer fires that takes a placeholder away
      before its time. */
  ghost predicate TakenEarly(s: State, events: seq<Event>, id: nat, interval: nat) {
    && AllEnabled(s, events, interval) && (forall e :: e in events ==> !e.SetInProgress?)
    && var t := Run(s, events, interval);
       Enabled(t, Fire(id)) && Early(t, id, interval) && t.armed[id].key in t.uivms
  }

  /** The one among some timers that is due first. */
  lemma {:induction false} Soonest(s: State, ids: set<nat>) returns (first: nat)
    requires ids != {} && ids <= s.armed.Keys
    ensures first in ids && forall id :: id in ids ==> s.armed[first].due <= s.armed[id].due
  {
    first :| first in ids;
    if ids != {first} {
      var other := Soonest(s, ids - {first});
      if s.armed[other].due < s.armed[first].due {
        first := other;
      }
    }
  }

  /** Time goes by until the next timer is due. */
  lemma NextDue(s: State, first: nat, id: nat, interval: nat)
    requires Good(s, interval) && first in s.armed && Early(s, id, interval)
    requires forall i :: i in s.armed ==> s.armed[first].due <= s.armed[i].due
    ensures Enabled(s, Tick(s.armed[first].due))
    ensures var t := Step(s, Tick(s.armed[first].due), interval);
            Good(t, interval) && Enabled(t, Fire(first)) && Early(t, id, interval)
  {
    assert Due(s, first, interval);
    TickGood(s, s.armed[first].due, interval);
  }

  lemma FireOther(s: State, first: nat, id: nat, interval: nat)
    requires Good(s, interval) && Enabled(s, Fire(first)) && Early(s, id, interval)
    requires s.armed[first].key != s.armed[id].key
    ensures var t := Step(s, Fire(first), interval);
            && Good(t, interval) && Early(t, id, interval) && |t.armed| < |s.armed|
            && t.armed[id] == s.armed[id] && (s.armed[id].key in s.uivms ==> s.armed[id].key in t.uivms)
  {
    FireGood(s, first, interval);
    EarlyStays(s, Fire(first), id, interval);
    var t := Step(s, Fire(first), interval);
    FewerTimers(s.armed, t.armed, first);
  }

  lemma FewerTimers(a: map<nat, Timer>, b: map<nat, Timer>, id: nat)
    requires id in a && id !in b && b.Keys <= a.Keys
    ensures |b| < |a|
  {
    SubsetSize(b.Keys, a.Keys - {id});
    assert |a.Keys - {id}| == |a.Keys| - 1;
  }

  lemma {:induction false} SubsetSize(a: set<nat>, b: set<nat>)
    requires a <= b
    ensures |a| <= |b|
  {
    if a != {} {
      var x :| x in a;
      SubsetSize(a - {x}, b - {x});
    }
  }

  /** An early timer for a placeholder lets it be taken away early, by that timer or another one
      for the same name, once the timers due before have fired. */
  lemma {:induction false} EarlyWillFire(s: State, id: nat, interval: nat) returns (events: seq<Event>, last: nat)
    requires Good(s, interval) && Early(s, id, interval) && s.armed[id].key in s.uivms
    ensures TakenEarly(s, events, last, interval)
    decreases |s.armed|
  {
    assert id in s.armed.Keys;
    hide Good, Step, Enabled, Early;
    var first := Soonest(s, s.armed.Keys);
    var tick := Tick(s.armed[first].due);
    NextDue(s, first, id, interval);
    var t := Step(s, tick, interval);
    TickKeeps(s, tick.now, interval);
    RunEnds(t, interval);
    if s.armed[first].key == s.armed[id].key {
      events, last := [tick], first;
      FirstIsEarly(t, first, id, interval);
      RunCons(s, tick, [], interval);
      assert [tick] + [] == [tick];
    } else {
      FireOther(t, first, id, interval);
      var rest;
      rest, last := EarlyWillFire(Step(t, Fire(first), interval), id, interval);
      RunCons(t, Fire(first), rest, interval);
      RunCons(s, tick, [Fire(first)] + rest, interval);
      events := [tick] + ([Fire(first)] + rest);
    }
  }

  lemma TickKeeps(s: State, now: nat, interval: nat)
    requires Enabled(s, Tick(now))
    ensures var t := Step(s, Tick(now), interval); t.armed == s.armed && t.uivms == s.uivms
  {
  }

  lemma FirstIsEarly(s: State, first: nat, id: nat, interval: nat)
    requires Early(s, id, interval) && first in s.armed
    requires s.armed[first].key == s.armed[id].key && s.armed[first].due <= s.armed[id].due
    ensures Early(s, first, interval)
  {
  }

  /** Without early timers, and without further announcements, none is taken away early. */
  lemma {:induction false} NoneTakenEarly(s: State, events: seq<Event>, id: nat, interval: nat)
    requires NoneEarly(s, interval)
    ensures !TakenEarly(s, events, id, interval)
    decreases |events|
  {
    if TakenEarly(s, events, id, interval) {
      hide NoneEarly, Step, Enabled, Early;
      if events == [] {
        NotEarly(s, id, interval);
      } else {
        assert events[0] in events;
        OthersKeepTime(s, events[0], interval);
        NoneTakenEarly(Step(s, events[0], interval), events[1..], id, interval);
      }
    }
  }

  lemma NotEarly(s: State, id: nat, interval: nat)
    requires NoneEarly(s, interval)
    ensures !Early(s, id, interval)
  {
  }

  /** A step lets a placeholder be taken away before its time, without any further announcement,
      exactly if it overtakes a timer. */
  lemma TooEarlyExactly(s: State, e: Event, interval: nat)
    requires Good(s, interval) && NoneEarly(s, interval) && Enabled(s, e)
    ensures (exists events, id :: TakenEarly(Step(s, e, interval), events, id, interval)) <==> Overtakes(s, e)
  {
    hide NoneEarly, TakenEarly;
    var t := Step(s, e, interval);
    if Overtakes(s, e) {
      StepGood(s, e, interval);
      var id := OvertakenIsEarly(s, e.key, interval);
      var events, last := EarlyWillFire(t, id, interval);
    } else {
      EarlyByOvertakingOnly(s, e, interval);
      forall events, id ensures !TakenEarly(t, events, id, interval) {
        NoneTakenEarly(t, events, id, interval);
      }
    }
  }

  lemma OvertakenIsEarly(s: State, key: Key, interval: nat) returns (id: nat)
    requires Good(s, interval) && Overtakes(s, SetInProgress(key))
    ensures var t := Step(s, SetInProgress(key), interval);
            Early(t, id, interval) && t.armed[id].key == key && key in t.uivms
  {
    id :| id in s.armed && s.armed[id].key == key;
    assert Due(s, id, interval) && id <= s.lastTimer;
  }

  // ----- The list that is shown -----

  datatype Vm = Vm(connectionName: string, name: string)

  predicate Exists(vms: seq<Vm>, ui: Key) {
    exists i :: 0 <= i < |vms| && vms[i].name == ui.name && vms[i].connectionName == ui.connectionName
  }

  /** dummyVmsFilter */
  function DummyVmsFilter(vms: seq<Vm>, uiVms: seq<Key>): seq<Key> {
    Filter(uiVms, (ui: Key) => FindIndex(vms, (vm: Vm) => vm.name == ui.name && vm.connectionName == ui.connectionName).None?)
  }

  /** The placeholders shown are those of machines that do not exist. */
  lemma ShownPlaceholders(vms: seq<Vm>, uiVms: seq<Key>, ui: Key)
    ensures ui in DummyVmsFilter(vms, uiVms) <==> ui in uiVms && !Exists(vms, ui)
  {
    FilterMember(uiVms, (ui: Key) => FindIndex(vms, (vm: Vm) => vm.name == ui.name && vm.connectionName == ui.connectionName).None?, ui);
  }

  // ----- The module variables -----

  class UiState {
    var uivms: map<Key, UiVm>
    var timeouts: map<Key, nat>
    const interval: nat

    ghost var armed: map<nat, Timer>
    ghost var now: nat
    ghost var lastSet: map<Key, nat>
    var lastTimer: nat

    ghost function Now(): State
      reads this
    {
      State(uivms, timeouts, armed, now, lastTimer, lastSet)
    }

    constructor (interval: nat, ghost now: nat)
      ensures Now() == Initial(now) && this.interval == interval && Good(Now(), interval)
    {
      uivms, timeouts, this.interval, lastTimer := map[], map[], interval, 0;
      armed, this.now, lastSet := map[], now, map[];
    }

    method SetVmCreateInProgress(key: Key)
      requires Good(Now(), interval)
      modifies this
      ensures Good(Now(), interval) && Now() == Step(old(Now()), SetInProgress(key), interval)
    {
      hide Good;
      StepGood(Now(), SetInProgress(key), interval);
      uivms := SetUiVm(uivms, key, Some(true), None);
      SetupCleanupTimeout(key);
      lastSet := lastSet[key := now];
    }

    method SetupCleanupTimeout(key: Key)
      modifies this`lastTimer, this`armed, this`timeouts
      ensures lastTimer == old(lastTimer) + 1
      ensures armed == old(armed)[lastTimer := Timer(key, now + interval)]
      ensures timeouts == old(timeouts)[key := lastTimer]
    {
      lastTimer := lastTimer + 1;
      armed := armed[lastTimer := Timer(key, now + interval)];
      timeouts := timeouts[key := lastTimer];
    }

    method UpdateImageDownloadProgress(key: Key, progress: OptString)
      requires Good(Now(), interval)
      modifies this`uivms
      ensures Good(Now(), interval) && Now() == Step(old(Now()), Progress(key, progress), interval)
    {
      hide Good;
      StepGood(Now(), Progress(key, progress), interval);
      uivms := SetUiVm(uivms, key, None, Some(progress));
    }

    method ClearVmUiState(key: Key)
      requires Good(Now(), interval)
      modifies this`uivms, this`timeouts, this`armed
      ensures Good(Now(), interval) && Now() == Step(old(Now()), Clear(key), interval)
    {
      hide Good;
      StepGood(Now(), Clear(key), interval);
      Clearing(key);
    }

    method Clearing(key: Key)
      modifies this`uivms, this`timeouts, this`armed
      ensures Now() == Cleared(old(Now()), key)
    {
      if key in timeouts {
        armed := armed - {timeouts[key]};
        timeouts := timeouts - {key};
      }
      assert key !in timeouts && timeouts - {key} == timeouts;
      uivms := uivms - {key};
    }

    /** The callback of a timer, which knows the name it was set for. */
    method TimerFires(ghost id: nat, key: Key)
      requires Good(Now(), interval) && Enabled(Now(), Fire(id)) && armed[id].key == key
      modifies this`uivms, this`timeouts, this`armed
      ensures Good(Now(), interval) && Now() == Step(old(Now()), Fire(id), interval)
    {
      hide Good;
      StepGood(Now(), Fire(id), interval);
      armed := armed - {id};
      Clearing(key);
    }
  }
}
