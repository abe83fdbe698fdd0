/**
 * Loading of the application data: init, initAllVMs and initVM cut at their awaits, and every
 * interleaving of what runs between.
 */
module Loading {
  import opened Options

  /** The flags, the promises that are remembered, and the work that is under way. */
  datatype State = State(
    commonDataInited: bool, vmsInited: bool, loadingResources: bool,
    initStarted: bool, allVmsStarted: bool, vmRequested: string,
    /** init waits for the common data. */
    initPending: bool,
    /** initAllVMs waits for the connection names (quietly, or not). */
    namesPending: bool, quiet: bool,
    /** initAllVMs waits for all virtual machines. */
    allPending: bool,
    /** initVM waits for these machines. */
    vmPending: multiset<string>,
    /** How often the full load has been started, and whether it has finished. */
    fullLoads: nat, fullLoadDone: bool)

  const INITIAL := State(false, true, true, false, false, "", false, false, false, false, multiset{}, 0, false)

  datatype Event =
    | Init | InitDone
    | InitAllVMs(quietly: bool) | NamesDone | AllDone
    | InitVM(name: string, connectionName: string) | VmDone(key: string)
    /** Any other change of the state, after which #update runs. */
    | Change

  function Key(name: string, connectionName: string): (key: string)
    ensures key != ""
  {
    name + ":" + connectionName
  }

  /** Completions happen only of what is under way; calls can happen at any time. */
  predicate Enabled(s: State, e: Event) {
    match e
    case InitDone => s.initPending
    case NamesDone => s.namesPending
    case AllDone => s.allPending
    case VmDone(key) => key in s.vmPending
    case _ => true
  }

  /** #update */
  function Refresh(s: State): State {
    s.(loadingResources := !(s.commonDataInited && s.vmsInited))
  }

  function Step(s: State, e: Event): State
    requires Enabled(s, e)
  {
    match e
    case Init =>
      if s.initStarted then s else s.(initStarted := true, initPending := true)
    case InitDone =>
      Refresh(s.(commonDataInited := true, initPending := false))
    case InitAllVMs(quietly) =>
      if s.allVmsStarted then s
      else s.(allVmsStarted := true, namesPending := true, quiet := quietly, fullLoads := s.fullLoads + 1)
    case NamesDone =>
      Refresh(s.(namesPending := false, allPending := true, vmsInited := s.quiet && s.vmsInited))
    case AllDone =>
      Refresh(s.(allPending := false, vmsInited := true, fullLoadDone := true))
    case InitVM(name, connectionName) =>
      var key := Key(name, connectionName);
      if s.allVmsStarted || s.vmRequested == key then s
      else Refresh(s.(vmRequested := key, vmsInited := false, vmPending := s.vmPending + multiset{key}))
    case VmDone(key) =>
      var t := s.(vmPending := s.vmPending - multiset{key});
      if s.vmRequested == key then Refresh(t.(vmsInited := true)) else t
    case Change => Refresh(s)
  }

  /** A task is under way whose completion sets the VM flag. */
  predicate FlagWillBeSet(s: State) {
    s.allPending || s.vmRequested in s.vmPending
  }

  predicate Good(s: State) {
    && s.loadingResources == !(s.commonDataInited && s.vmsInited)
    && (s.vmsInited || FlagWillBeSet(s))
    && s.fullLoads == (if s.allVmsStarted then 1 else 0)
    && (s.namesPending || s.allPending || s.fullLoadDone ==> s.allVmsStarted)
    && !(s.namesPending && s.allPending)
    && (s.fullLoadDone ==> s.vmsInited && !s.namesPending && !s.allPending)
    && (s.allVmsStarted ==> s.namesPending || s.allPending || s.fullLoadDone)
    && (s.initStarted <==> s.initPending || s.commonDataInited)
    && !(s.initPending && s.commonDataInited)
  }

  lemma StepGood(s: State, e: Event)
    requires Good(s) && Enabled(s, e)
    ensures Good(Step(s, e))
    ensures s.fullLoadDone ==> Step(s, e).fullLoadDone
    ensures s.commonDataInited ==> Step(s, e).commonDataInited
  {
  }

  predicate AllEnabled(s: State, events: seq<Event>)
    decreases |events|
  {
    events == [] || (Enabled(s, events[0]) && AllEnabled(Step(s, events[0]), events[1..]))
  }

  function Run(s: State, events: seq<Event>): State
    requires AllEnabled(s, events)
    decreases |events|
  {
    if events == [] then s else Run(Step(s, events[0]), events[1..])
  }

  lemma {:induction false} RunGood(s: State, events: seq<Event>)
    requires Good(s) && AllEnabled(s, events)
    ensures Good(Run(s, events))
    ensures s.fullLoadDone ==> Run(s, events).fullLoadDone
    decreases |events|
  {
    hide Good;
    if events != [] {
      StepGood(s, events[0]);
      RunGood(Step(s, events[0]), events[1..]);
    }
  }

  // ----- What holds in every run -----

  /** A VM flag that is down will be raised by something under way. */
  lemma NeverStuck(events: seq<Event>)
    requires AllEnabled(INITIAL, events)
    ensures var s := Run(INITIAL, events); s.vmsInited || FlagWillBeSet(s)
  {
    RunGood(INITIAL, events);
  }

  /** What users see is the negated conjunction of the two flags. */
  lemma LoadingIsExact(events: seq<Event>)
    requires AllEnabled(INITIAL, events)
    ensures var s := Run(INITIAL, events); s.loadingResources <==> !s.commonDataInited || !s.vmsInited
  {
    RunGood(INITIAL, events);
  }

  /** The full load is started at most once. */
  lemma FullLoadOnce(events: seq<Event>)
    requires AllEnabled(INITIAL, events)
    ensures Run(INITIAL, events).fullLoads <= 1
  {
    RunGood(INITIAL, events);
  }

  lemma {:induction false} RunSplit(s: State, first: seq<Event>, rest: seq<Event>)
    requires AllEnabled(s, first + rest)
    ensures AllEnabled(s, first) && AllEnabled(Run(s, first), rest)
    ensures Run(s, first + rest) == Run(Run(s, first), rest)
    decreases |first|
  {
    hide Step, Enabled;
    if first == [] {
      assert first + rest == rest;
    } else {
      assert (first + rest)[1..] == first[1..] + rest;
      RunSplit(Step(s, first[0]), first[1..], rest);
    }
  }

  /** Once the full load has finished, the VM flag stays up for good. */
  lemma LoadedForGood(before: seq<Event>, after: seq<Event>)
    requires AllEnabled(INITIAL, before + after)
    ensures AllEnabled(INITIAL, before)
    ensures Run(INITIAL, before).fullLoadDone ==> Run(INITIAL, before + after).vmsInited
  {
    RunSplit(INITIAL, before, after);
    RunGood(INITIAL, before);
    RunGood(Run(INITIAL, before), after);
  }

  // ----- Work that is started -----

  /** A call of initVM that starts a fetch: the full load was not started, and this machine is
      not the one asked for last. */
  predicate StartsFetch(s: State, e: Event, key: string) {
    e.InitVM? && e.name + ":" + e.connectionName == key && !s.allVmsStarted && s.vmRequested != key
  }

  /** It begins one fetch of that machine and lowers the flag, and no other step begins one. */
  lemma OneFetch(s: State, e: Event, key: string)
    requires Enabled(s, e)
    ensures Step(s, e).vmPending[key]
         == s.vmPending[key] + (if StartsFetch(s, e, key) then 1 else 0) - (if e == VmDone(key) then 1 else 0)
    ensures StartsFetch(s, e, key) ==> Requested(Step(s, e), key)
  {
    match e {
      case InitVM(name, connectionName) => FetchBegun(s, name, connectionName, key);
      case VmDone(other) =>
        assert (s.vmPending - multiset{other})[key] == s.vmPending[key] - if other == key then 1 else 0;
      case _ =>
    }
  }

  lemma FetchBegun(s: State, name: string, connectionName: string, key: string)
    ensures var e := InitVM(name, connectionName);
            && Step(s, e).vmPending[key] == s.vmPending[key] + (if StartsFetch(s, e, key) then 1 else 0)
            && (StartsFetch(s, e, key) ==> Requested(Step(s, e), key))
  {
    var other := Key(name, connectionName);
    assert (s.vmPending + multiset{other})[key] == s.vmPending[key] + if other == key then 1 else 0;
  }

  /** The machine is the one asked for last and awaited, and the flag is down. */
  predicate Requested(s: State, key: string) {
    s.vmRequested == key && key in s.vmPending && !s.vmsInited
  }

  /** How many fetches of a machine a run begins, and how many it sees arrive. */
  function Fetches(s: State, events: seq<Event>, key: string): nat
    requires AllEnabled(s, events)
    decreases |events|
  {
    if events == [] then 0
    else (if StartsFetch(s, events[0], key) then 1 else 0) + Fetches(Step(s, events[0]), events[1..], key)
  }

  function Arrivals(events: seq<Event>, key: string): nat {
    if events == [] then 0 else (if events[0] == VmDone(key) then 1 else 0) + Arrivals(events[1..], key)
  }

  /** In every run, what was begun has arrived or is awaited. */
  lemma {:induction false} FetchesConserved(s: State, events: seq<Event>, key: string)
    requires Good(s) && AllEnabled(s, events)
    ensures s.vmPending[key] + Fetches(s, events, key) == Arrivals(events, key) + Run(s, events).vmPending[key]
    decreases |events|
  {
    hide Good, Step, Enabled, StartsFetch;
    if events != [] {
      StepGood(s, events[0]);
      OneFetch(s, events[0], key);
      FetchesConserved(Step(s, events[0]), events[1..], key);
    }
  }

  /** What ends the waiting: the machine or the full load arrives, or another machine is asked for. */
  predicate EndsWait(e: Event, key: string) {
    e == VmDone(key) || e.AllDone? || (e.InitVM? && e.name + ":" + e.connectionName != key)
  }

  lemma StillRequested(s: State, e: Event, key: string)
    requires Requested(s, key) && Enabled(s, e) && !EndsWait(e, key)
    ensures Requested(Step(s, e), key)
  {
  }

  /** Until then the machine is awaited and the flag is down, in every run from a call that
      starts a fetch. */
  lemma {:induction false} AwaitedUntil(s: State, events: seq<Event>, key: string)
    requires Requested(s, key)
    requires AllEnabled(s, events) && forall e :: e in events ==> !EndsWait(e, key)
    ensures Requested(Run(s, events), key)
    decreases |events|
  {
    hide Requested, EndsWait, Step, Enabled;
    if events != [] {
      assert events[0] in events;
      StillRequested(s, events[0], key);
      AwaitedUntil(Step(s, events[0]), events[1..], key);
    }
  }

  /** The full load is asked for, quietly or not. */
  ghost predicate AllAsked(events: seq<Event>) {
    InitAllVMs(true) in events || InitAllVMs(false) in events
  }

  lemma {:induction false} RunStarts(s: State, events: seq<Event>)
    requires Good(s) && AllEnabled(s, events)
    ensures Run(s, events).initStarted <==> s.initStarted || Init in events
    ensures Run(s, events).allVmsStarted <==> s.allVmsStarted || AllAsked(events)
    decreases |events|
  {
    hide Good, Step, Enabled;
    if events != [] {
      StepGood(s, events[0]);
      StepStarts(s, events[0]);
      RunStarts(Step(s, events[0]), events[1..]);
      assert events == [events[0]] + events[1..];
    }
  }

  lemma StepStarts(s: State, e: Event)
    requires Enabled(s, e)
    ensures Step(s, e).initStarted <==> s.initStarted || e == Init
    ensures Step(s, e).allVmsStarted <==> s.allVmsStarted || e == InitAllVMs(true) || e == InitAllVMs(false)
  {
    match e {
      case Init =>
      case InitAllVMs(_) =>
      case InitVM(_, _) =>
      case _ =>
    }
  }

  /** In every run, the common data is being loaded or there exactly if init was called, and the
      full load has been started, once, and is under way or done, exactly if it was asked for. */
  lemma StartedExactly(events: seq<Event>)
    requires AllEnabled(INITIAL, events)
    ensures var s := Run(INITIAL, events);
            && (s.initPending || s.commonDataInited <==> Init in events)
            && (s.fullLoads == 1 <==> AllAsked(events))
            && (s.namesPending || s.allPending || s.fullLoadDone <==> AllAsked(events))
  {
    RunGood(INITIAL, events);
    RunStarts(INITIAL, events);
  }

  /** How the full load is asked for first. */
  function FirstCall(events: seq<Event>): Option<bool> {
    if events == [] then None
    else if events[0].InitAllVMs? then Some(events[0].quietly)
    else FirstCall(events[1..])
  }

  /** The first call decides whether the full load is quiet. */
  lemma {:induction false} QuietAsAsked(s: State, events: seq<Event>)
    requires AllEnabled(s, events)
    ensures Run(s, events).quiet
         == if s.allVmsStarted || FirstCall(events).None? then s.quiet else FirstCall(events).value
    decreases |events|
  {
    hide Enabled, Step;
    if events != [] {
      StepStarts(s, events[0]);
      StepQuiet(s, events[0]);
      QuietAsAsked(Step(s, events[0]), events[1..]);
    }
  }

  lemma StepQuiet(s: State, e: Event)
    requires Enabled(s, e)
    ensures Step(s, e).quiet == if e.InitAllVMs? && !s.allVmsStarted then e.quietly else s.quiet
  {
    match e {
      case InitAllVMs(_) =>
      case InitVM(_, _) =>
      case _ =>
    }
  }

  /** The flag is up, and no full load that is not quiet is about to lower it. */
  predicate UpAndQuiet(s: State) {
    s.vmsInited && (s.namesPending ==> s.quiet)
  }

  lemma StepStaysQuiet(s: State, e: Event)
    requires UpAndQuiet(s) && Enabled(s, e) && !e.InitVM? && e != InitAllVMs(false)
    ensures UpAndQuiet(Step(s, e))
  {
  }

  lemma {:induction false} StaysQuiet(s: State, events: seq<Event>)
    requires UpAndQuiet(s)
    requires AllEnabled(s, events) && InitAllVMs(false) !in events && forall e :: e in events ==> !e.InitVM?
    ensures Run(s, events).vmsInited
    decreases |events|
  {
    hide Step, Enabled;
    if events != [] {
      assert events[0] in events;
      StepStaysQuiet(s, events[0]);
      StaysQuiet(Step(s, events[0]), events[1..]);
    }
  }

  /** The flag is left alone when the names are known if the first call was quiet, and lowered
      if it was not; without other calls a quiet full load never lowers it. */
  lemma QuietExactly(events: seq<Event>)
    requires AllEnabled(INITIAL, events)
    ensures var s := Run(INITIAL, events);
            s.namesPending ==> FirstCall(events).Some?
                               && Step(s, NamesDone).vmsInited == (FirstCall(events).value && s.vmsInited)
    ensures InitAllVMs(false) !in events && (forall e :: e in events ==> !e.InitVM?) ==> Run(INITIAL, events).vmsInited
  {
    RunGood(INITIAL, events);
    RunStarts(INITIAL, events);
    QuietAsAsked(INITIAL, events);
    AskedFirst(events);
    if InitAllVMs(false) !in events && forall e :: e in events ==> !e.InitVM? {
      StaysQuiet(INITIAL, events);
    }
  }

  lemma {:induction false} AskedFirst(events: seq<Event>)
    ensures AllAsked(events) <==> FirstCall(events).Some?
  {
    if events != [] {
      AskedFirst(events[1..]);
      assert events == [events[0]] + events[1..];
    }
  }

  // ----- Loading comes to an end -----

  predicate IsCompletion(e: Event) {
    e.InitDone? || e.NamesDone? || e.AllDone? || e.VmDone?
  }

  /** The number of completions that are still to come. */
  function Outstanding(s: State): nat {
    (if s.initPending then 1 else 0) + (if s.namesPending then 2 else 0) + (if s.allPending then 1 else 0) + |s.vmPending|
  }

  lemma CompletionCounts(s: State, e: Event)
    requires Good(s) && Enabled(s, e) && IsCompletion(e)
    ensures Outstanding(Step(s, e)) == Outstanding(s) - 1
  {
    if e.VmDone? {
      assert |s.vmPending - multiset{e.key}| == |s.vmPending| - 1;
    }
  }

  lemma SomethingOutstanding(s: State)
    requires Outstanding(s) > 0
    ensures exists e :: IsCompletion(e) && Enabled(s, e)
  {
    if s.initPending {
      assert Enabled(s, InitDone);
    } else if s.namesPending {
      assert Enabled(s, NamesDone);
    } else if s.allPending {
      assert Enabled(s, AllDone);
    } else {
      var key :| key in s.vmPending;
      assert Enabled(s, VmDone(key));
    }
  }

  /** When no more calls come, the tasks complete in any order: as long as fewer have completed
      than were outstanding another one can, and then all requested data is shown as loaded. */
  lemma {:induction false} LoadingEnds(s: State, completions: seq<Event>)
    requires Good(s) && AllEnabled(s, completions) && forall e :: e in completions ==> IsCompletion(e)
    ensures |completions| <= Outstanding(s)
    ensures |completions| < Outstanding(s) ==> exists e :: IsCompletion(e) && Enabled(Run(s, completions), e)
    ensures Outstanding(Run(s, completions)) == Outstanding(s) - |completions|
    ensures |completions| == Outstanding(s) ==>
              Run(s, completions).vmsInited && (Run(s, completions).loadingResources <==> !s.initStarted)
    decreases |completions|
  {
    hide Good, IsCompletion, Outstanding;
    if completions == [] {
      EndOfLoading(s);
      if Outstanding(s) > 0 {
        SomethingOutstanding(s);
      }
    } else {
      assert completions[0] in completions;
      StepGood(s, completions[0]);
      CompletionCounts(s, completions[0]);
      CompletionKeepsInit(s, completions[0]);
      LoadingEnds(Step(s, completions[0]), completions[1..]);
    }
  }

  lemma CompletionKeepsInit(s: State, e: Event)
    requires Enabled(s, e) && IsCompletion(e)
    ensures Step(s, e).initStarted == s.initStarted
  {
    match e {
      case InitDone =>
      case NamesDone =>
      case AllDone =>
      case VmDone(key) =>
      case _ =>
    }
  }

  lemma EndOfLoading(s: State)
    requires Good(s)
    ensures Outstanding(s) == 0 ==> s.vmsInited && (s.loadingResources <==> !s.initStarted)
    ensures Outstanding(s) >= 0
  {
  }

  // ----- Loaded too early -----

  /** The full load is waiting for its machines, and the flag is down. */
  predicate LoadingAll(s: State) {
    s.allPending && !s.vmsInited
  }

  /** A step raises the flag during the full load exactly if the machine that was asked for
      last, by itself, arrives. */
  lemma RaisedEarly(s: State, e: Event)
    requires Good(s) && Enabled(s, e) && LoadingAll(s) && !e.AllDone?
    ensures Step(s, e).allPending
    ensures Step(s, e).vmsInited <==> e == VmDone(s.vmRequested)
  {
    match e {
      case InitVM(_, _) =>
      case VmDone(_) =>
      case _ =>
    }
  }

  lemma RequestStays(s: State, e: Event)
    requires Good(s) && Enabled(s, e) && LoadingAll(s) && !e.AllDone?
    ensures Step(s, e).vmRequested == s.vmRequested
    ensures s.vmRequested !in s.vmPending ==> s.vmRequested !in Step(s, e).vmPending
  {
    match e {
      case InitVM(_, _) =>
      case VmDone(_) =>
      case _ =>
    }
  }

  lemma {:induction false} StaysDown(s: State, events: seq<Event>)
    requires Good(s) && LoadingAll(s) && s.vmRequested !in s.vmPending
    requires AllEnabled(s, events) && AllDone !in events
    ensures LoadingAll(Run(s, events))
    decreases |events|
  {
    hide Step, Good, Enabled;
    if events != [] {
      assert events[0] in events;
      StepGood(s, events[0]);
      NotRequested(s, events[0]);
      RaisedEarly(s, events[0]);
      RequestStays(s, events[0]);
      StaysDown(Step(s, events[0]), events[1..]);
    }
  }

  lemma NotRequested(s: State, e: Event)
    requires Enabled(s, e) && s.vmRequested !in s.vmPending
    ensures e != VmDone(s.vmRequested)
  {
  }

  lemma RunOne(s: State, e: Event)
    requires Enabled(s, e)
    ensures AllEnabled(s, [e]) && Run(s, [e]) == Step(s, e)
  {
    hide Step;
    assert [e][1..] == [];
  }

  /** Whether the flag stays down until the full load is done, whatever happens meanwhile. */
  ghost predicate DownUntilDone(s: State) {
    forall events: seq<Event> ::
      AllEnabled(s, events) && AllDone !in events ==> !Run(s, events).vmsInited
  }

  /** It does exactly if no machine that was asked for last, by itself, is still awaited. */
  lemma EarlyExactly(s: State)
    requires Good(s) && LoadingAll(s)
    ensures DownUntilDone(s) <==> s.vmRequested !in s.vmPending
  {
    hide Step, Good;
    if s.vmRequested !in s.vmPending {
      forall events: seq<Event> | AllEnabled(s, events) && AllDone !in events ensures !Run(s, events).vmsInited {
        StaysDown(s, events);
      }
    } else {
      var events := [VmDone(s.vmRequested)];
      RaisedEarly(s, events[0]);
      RunOne(s, events[0]);
      assert Run(s, events).vmsInited;
    }
  }

  /** From the start: after the names are known, a full load that is not quiet keeps the flag
      down until it is done exactly if the last single machine has arrived before. */
  lemma LoadedTooEarly(before: seq<Event>)
    requires AllEnabled(INITIAL, before)
    requires Enabled(Run(INITIAL, before), NamesDone) && !Run(INITIAL, before).quiet
    ensures var s := Run(INITIAL, before);
            DownUntilDone(Step(s, NamesDone)) <==> s.vmRequested !in s.vmPending
  {
    hide DownUntilDone;
    RunGood(INITIAL, before);
    var s := Run(INITIAL, before);
    StepGood(s, NamesDone);
    EarlyExactly(Step(s, NamesDone));
  }
}
