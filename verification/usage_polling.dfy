/**
 * Usage polling: one timer, restarted when a round of polling is done, under every
 * interleaving of specification changes, visibility changes, timer firings and completed polls.
 */
module UsagePolling {
  import opened Options

  /** usagePolling: false, true, or the UUID of one virtual machine. */
  datatype Spec = Off | All | One(uuid: string)

  /** A call of startUsagePolling that is under way, with the machines it has yet to poll. */
  datatype Round = Round(rest: seq<string>)

  /** `timer` is usagePollingTimeoutId; `armed` are the timers that really are set. */
  datatype State = State(
    spec: Spec, hidden: bool, timer: nat, armed: set<nat>, rounds: multiset<Round>, lastTimer: nat)

  function Initial(hidden: bool): State {
    State(Off, hidden, 0, {}, multiset{}, 0)
  }

  /** Is this machine covered by the specification? */
  predicate Covers(spec: Spec, uuid: string) {
    spec.All? || (spec.One? && spec.uuid == uuid)
  }

  // ----- The functions, as far as they run without waiting -----

  /** The round that starts polling; a first machine, if any, is polled at once. The machines
      of the application state are given by their UUIDs. */
  function FirstRound(s: State, vms: seq<string>): Round {
    if s.hidden then Round([])
    else
      match s.spec
      case One(_) => Round([])
      case All => Round(if vms == [] then [] else vms[1..])
      case Off => Round([])
  }

  function FirstPolled(s: State, vms: seq<string>): Option<string> {
    if s.hidden then None
    else
      match s.spec
      case One(uuid) => if uuid in vms then Some(uuid) else None
      case All => if vms == [] then None else Some(vms[0])
      case Off => None
  }

  function StartUsagePolling(s: State, vms: seq<string>): State {
    s.(rounds := s.rounds + multiset{FirstRound(s, vms)})
  }

  function CancelUsagePolling(s: State): State {
    s.(armed := s.armed - {s.timer}, timer := 0)
  }

  /** What startUsagePolling does when its polling is done. */
  function FinishUsagePolling(s: State): State {
    if s.spec != Off && !s.hidden && s.timer == 0
    then s.(lastTimer := s.lastTimer + 1, timer := s.lastTimer + 1, armed := s.armed + {s.lastTimer + 1})
    else s
  }

  datatype Event =
    | Ensure(spec: Spec, vms: seq<string>)
    | Visibility(hidden: bool, vms: seq<string>)
    | Fire(id: nat, vms: seq<string>)
    /** The machine a round is waiting for has been polled. */
    | Polled(round: Round)

  predicate Enabled(s: State, e: Event) {
    match e
    case Fire(id, _) => id in s.armed
    case Polled(round) => round in s.rounds
    case _ => true
  }

  /** A round goes on to its next machine only while everything is to be polled. */
  predicate GoesOn(s: State, round: Round) {
    round.rest != [] && s.spec == All && !s.hidden
  }

  function Step(s: State, e: Event): State
    requires Enabled(s, e)
  {
    match e
    case Ensure(spec, vms) =>
      if spec == s.spec then s else StartUsagePolling(CancelUsagePolling(s.(spec := spec)), vms)
    case Visibility(hidden, vms) =>
      var t := s.(hidden := hidden);
      if hidden then CancelUsagePolling(t) else StartUsagePolling(t, vms)
    case Fire(id, vms) =>
      StartUsagePolling(s.(armed := s.armed - {id}, timer := 0), vms)
    case Polled(round) =>
      var t := s.(rounds := s.rounds - multiset{round});
      if GoesOn(s, round) then t.(rounds := t.rounds + multiset{Round(round.rest[1..])})
      else FinishUsagePolling(t)
  }

  /** The machine whose usage a step starts to ask for, if any. */
  function Begun(s: State, e: Event): Option<string>
    requires Enabled(s, e)
  {
    match e
    case Ensure(spec, vms) => if spec == s.spec then None else FirstPolled(s.(spec := spec), vms)
    case Visibility(hidden, vms) => if hidden then None else FirstPolled(s.(hidden := hidden), vms)
    case Fire(_, vms) => FirstPolled(s, vms)
    case Polled(round) => if GoesOn(s, round) then Some(round.rest[0]) else None
  }

  // ----- What holds in every run -----

  /** At most one timer is armed, and it is the recorded one; it is armed only while polling is
      on and the page visible; and while it should go on, it does. */
  predicate Good(s: State) {
    && s.armed == (if s.timer == 0 then {} else {s.timer})
    && s.timer <= s.lastTimer
    && (s.armed != {} ==> s.spec != Off && !s.hidden)
    && (s.spec != Off && !s.hidden ==> s.armed != {} || s.rounds != multiset{})
  }

  lemma InitialGood(hidden: bool)
    ensures Good(Initial(hidden))
  {
  }

  lemma StepGood(s: State, e: Event)
    requires Good(s) && Enabled(s, e)
    ensures Good(Step(s, e))
  {
    match e {
      case Ensure(spec, vms) => StartNotIdle(CancelUsagePolling(s.(spec := spec)), vms);
      case Visibility(hidden, vms) => StartNotIdle(s.(hidden := hidden), vms);
      case Fire(id, vms) => StartNotIdle(s.(armed := s.armed - {id}, timer := 0), vms);
      case Polled(round) => StepPolled(s, round);
    }
  }

  lemma StartNotIdle(s: State, vms: seq<string>)
    ensures StartUsagePolling(s, vms).rounds != multiset{}
  {
    assert FirstRound(s, vms) in StartUsagePolling(s, vms).rounds;
  }

  lemma StepPolled(s: State, round: Round)
    requires Good(s) && round in s.rounds
    ensures Good(Step(s, Polled(round)))
  {
    if GoesOn(s, round) {
      assert Round(round.rest[1..]) in Step(s, Polled(round)).rounds;
    }
  }

  /** A machine is asked for its usage only while the page is visible and polling covers it. */
  lemma BegunCovered(s: State, e: Event, uuid: string)
    requires Enabled(s, e) && Begun(s, e) == Some(uuid)
    ensures !Step(s, e).hidden && Covers(Step(s, e).spec, uuid)
  {
  }

  predicate AllEnabled(s: State, events: seq<Event>)
    decreases |events|
  {
    events == [] || (Enabled(s, events[0]) && AllEnabled(Step(s, events[0]), events[1..]))
  }

  function Run(s: State, events: seq<Event>): State
    requires AllEnabled(s, events)
    decreases |events|
  {
    if events == [] then s else Run(Step(s, events[0]), events[1..])
  }

  lemma {:induction false} RunGood(s: State, events: seq<Event>)
    requires Good(s) && AllEnabled(s, events)
    ensures Good(Run(s, events))
    decreases |events|
  {
    hide Good, Step, Enabled;
    if events != [] {
      StepGood(s, events[0]);
      RunGood(Step(s, events[0]), events[1..]);
    }
  }

  /** The protocol, whatever happens. */
  lemma OneTimer(hidden: bool, events: seq<Event>)
    requires AllEnabled(Initial(hidden), events)
    ensures var s := Run(Initial(hidden), events);
            && |s.armed| <= 1 && (forall id :: id in s.armed ==> id == s.timer)
            && (s.armed != {} ==> s.spec != Off && !s.hidden)
            && (s.spec != Off && !s.hidden ==> s.armed != {} || s.rounds != multiset{})
  {
    InitialGood(hidden);
    RunGood(Initial(hidden), events);
  }

  // ----- Rounds come to an end -----

  /** The answers a round gets when nothing else happens. */
  function Answers(s: State, round: Round): (r: seq<Event>)
    requires round in s.rounds
    ensures |r| <= |round.rest| + 1
    decreases |round.rest|
  {
    [Polled(round)] + if GoesOn(s, round) then Answers(Step(s, Polled(round)), Round(round.rest[1..])) else []
  }

  /** A round that is left alone finishes after at most one answer for each of its machines,
      and if polling is on and visible then, a timer is armed for the next round. */
  lemma {:induction false} RoundEnds(s: State, round: Round)
    requires Good(s) && round in s.rounds
    ensures var events := Answers(s, round);
            && AllEnabled(s, events)
            && var t := Run(s, events);
               t.rounds == s.rounds - multiset{round} && (s.spec != Off && !s.hidden ==> t.armed != {})
    decreases |round.rest|
  {
    hide Good, Run, AllEnabled, Step;
    var t := Step(s, Polled(round));
    StepGood(s, Polled(round));
    PolledStep(s, round);
    if GoesOn(s, round) {
      var next := Round(round.rest[1..]);
      RoundEnds(t, next);
      RunCons(s, Polled(round), Answers(t, next));
      assert t.rounds - multiset{next} == s.rounds - multiset{round};
    } else {
      NothingMore(t);
      RunCons(s, Polled(round), []);
      assert [Polled(round)] + [] == Answers(s, round);
      GoodTimer(t);
    }
  }

  lemma PolledStep(s: State, round: Round)
    requires round in s.rounds
    ensures var t := Step(s, Polled(round));
            && t.spec == s.spec && t.hidden == s.hidden
            && (GoesOn(s, round) ==> t.rounds == s.rounds - multiset{round} + multiset{Round(round.rest[1..])})
            && (!GoesOn(s, round) ==> t.rounds == s.rounds - multiset{round} && (s.spec != Off && !s.hidden ==> t.timer != 0))
  {
  }

  lemma NothingMore(s: State)
    ensures AllEnabled(s, []) && Run(s, []) == s
  {
  }

  lemma RunCons(s: State, e: Event, events: seq<Event>)
    requires Enabled(s, e) && AllEnabled(Step(s, e), events)
    ensures AllEnabled(s, [e] + events) && Run(s, [e] + events) == Run(Step(s, e), events)
  {
    assert ([e] + events)[1..] == events;
  }

  lemma GoodTimer(s: State)
    requires Good(s)
    ensures s.armed != {} <==> s.timer != 0
  {
  }

  // ----- Whom a round asks -----

  /** The machines asked in a run, in order. */
  function Asked(s: State, events: seq<Event>): seq<string>
    requires AllEnabled(s, events)
    decreases |events|
  {
    if events == [] then []
    else
      (match Begun(s, events[0])
       case Some(uuid) => [uuid]
       case None => [])
      + Asked(Step(s, events[0]), events[1..])
  }

  /** The specification changes, the page is shown, or the timer fires. */
  predicate StartsRound(s: State, e: Event) {
    (e.Ensure? && e.spec != s.spec) || (e.Visibility? && !e.hidden) || e.Fire?
  }

  function Machines(e: Event): seq<string>
    requires !e.Polled?
  {
    e.vms
  }

  ghost predicate Started(s: State, t: State, round: Round) {
    t.rounds == s.rounds + multiset{round}
  }

  /** Such a step starts one round, and no other step does. */
  lemma OneRoundStarts(s: State, e: Event)
    requires Enabled(s, e) && !e.Polled?
    ensures (exists round :: Started(s, Step(s, e), round)) <==> StartsRound(s, e)
    ensures !StartsRound(s, e) ==> Step(s, e).rounds == s.rounds && Begun(s, e).None?
  {
    if StartsRound(s, e) {
      assert Started(s, Step(s, e), FirstRound(Step(s, e), Machines(e)));
    } else {
      forall round ensures !Started(s, Step(s, e), round) {
        assert (s.rounds + multiset{round})[round] == s.rounds[round] + 1;
      }
    }
  }

  /** If that round is left alone, the machines it asks are, in order, all that there are when
      everything is polled and the page is visible; the one that is named, if it is there, when
      one is; and none otherwise. */
  lemma RoundAsks(s: State, e: Event, round: Round)
    requires Good(s) && Enabled(s, e) && StartsRound(s, e) && Started(s, Step(s, e), round)
    ensures var t := Step(s, e);
            && round in t.rounds
            && var events := [e] + Answers(t, round);
               && AllEnabled(s, events)
               && Asked(s, events) ==
                  if t.hidden || t.spec == Off then []
                  else if t.spec == All then Machines(e)
                  else if t.spec.uuid in Machines(e) then [t.spec.uuid]
                  else []
  {
    hide Step, Begun, FirstRound, FirstPolled, Good, Answers, AllEnabled, Run;
    var t := Step(s, e);
    StartedRound(s, e);
    var first := FirstRound(t, Machines(e));
    assert (s.rounds + multiset{first})[first] == s.rounds[first] + 1;
    assert round == first;
    StepGood(s, e);
    RoundEnds(t, round);
    RestAsked(t, round);
    RunCons(s, e, Answers(t, round));
    FirstAndRest(t, Machines(e));
    assert ([e] + Answers(t, round))[1..] == Answers(t, round);
  }

  lemma StartedRound(s: State, e: Event)
    requires Enabled(s, e) && StartsRound(s, e)
    ensures var t := Step(s, e);
            t.rounds == s.rounds + multiset{FirstRound(t, Machines(e))} && Begun(s, e) == FirstPolled(t, Machines(e))
  {
  }

  lemma FirstAndRest(s: State, vms: seq<string>)
    ensures (match FirstPolled(s, vms) case Some(uuid) => [uuid] case None => [])
            + (if s.spec == All && !s.hidden then FirstRound(s, vms).rest else [])
         == if s.hidden || s.spec == Off then []
            else if s.spec == All then vms
            else if s.spec.uuid in vms then [s.spec.uuid]
            else []
  {
  }

  lemma {:induction false} RestAsked(s: State, round: Round)
    requires round in s.rounds && AllEnabled(s, Answers(s, round))
    ensures Asked(s, Answers(s, round)) == if s.spec == All && !s.hidden then round.rest else []
    decreases |round.rest|
  {
    hide Step, Enabled;
    PolledStep(s, round);
    NothingMore(Step(s, Polled(round)));
    if GoesOn(s, round) {
      var t, next := Step(s, Polled(round)), Round(round.rest[1..]);
      assert Answers(s, round)[1..] == Answers(t, next);
      RestAsked(t, next);
      assert round.rest == [round.rest[0]] + next.rest;
    } else {
      assert Answers(s, round)[1..] == [];
    }
  }

  // ----- The module variables -----

  class Poller {
    var usagePolling: Spec
    var hidden: bool
    var usagePollingTimeoutId: nat

    /** The timers of the browser, and the calls that are waiting. */
    ghost var armed: set<nat>
    ghost var rounds: multiset<Round>
    var lastTimer: nat

    ghost function Now(): State
      reads this
    {
      State(usagePolling, hidden, usagePollingTimeoutId, armed, rounds, lastTimer)
    }

    constructor (hidden: bool)
      ensures Now() == Initial(hidden) && Good(Now())
    {
      usagePolling, this.hidden, usagePollingTimeoutId := Off, hidden, 0;
      armed, rounds, lastTimer := {}, multiset{}, 0;
    }

    method Cancel()
      requires armed == if usagePollingTimeoutId == 0 then {} else {usagePollingTimeoutId}
      modifies this`armed, this`usagePollingTimeoutId
      ensures Now() == CancelUsagePolling(old(Now()))
    {
      if usagePollingTimeoutId != 0 {
        armed := armed - {usagePollingTimeoutId};
        usagePollingTimeoutId := 0;
      }
    }

    /** startUsagePolling until it waits: which machines are asked, and which come later. */
    method Start(vms: seq<string>) returns (begun: Option<string>)
      modifies this`rounds
      ensures Now() == StartUsagePolling(old(Now()), vms)
      ensures begun == FirstPolled(old(Now()), vms)
    {
      begun := None;
      ghost var rest := [];
      if !hidden {
        if usagePolling.One? {
          if usagePolling.uuid in vms {
            begun := Some(usagePolling.uuid);
          }
        } else if usagePolling.All? && |vms| > 0 {
          begun := Some(vms[0]);
          rest := vms[1..];
        }
      }
      rounds := rounds + multiset{Round(rest)};
    }

    method EnsureUsagePolling(spec: Spec, vms: seq<string>) returns (begun: Option<string>)
      requires Good(Now())
      modifies this
      ensures Good(Now()) && Now() == Step(old(Now()), Ensure(spec, vms))
      ensures begun == Begun(old(Now()), Ensure(spec, vms))
    {
      StepGood(Now(), Ensure(spec, vms));
      begun := None;
      if spec != usagePolling {
        usagePolling := spec;
        Cancel();
        begun := Start(vms);
      }
    }

    method VisibilityChange(isHidden: bool, vms: seq<string>) returns (begun: Option<string>)
      requires Good(Now())
      modifies this
      ensures Good(Now()) && Now() == Step(old(Now()), Visibility(isHidden, vms))
      ensures begun == Begun(old(Now()), Visibility(isHidden, vms))
    {
      StepGood(Now(), Visibility(isHidden, vms));
      begun := None;
      hidden := isHidden;
      if hidden {
        Cancel();
      } else {
        begun := Start(vms);
      }
    }

    method TimerFires(ghost id: nat, vms: seq<string>) returns (begun: Option<string>)
      requires Good(Now()) && Enabled(Now(), Fire(id, vms))
      modifies this
      ensures Good(Now()) && Now() == Step(old(Now()), Fire(id, vms))
      ensures begun == Begun(old(Now()), Fire(id, vms))
    {
      StepGood(Now(), Fire(id, vms));
      armed := armed - {id};
      usagePollingTimeoutId := 0;
      begun := Start(vms);
    }

    /** A poll is answered: the round goes on, or startUsagePolling does its second half. */
    method PollAnswered(round: Round) returns (begun: Option<string>)
      requires Good(Now()) && Enabled(Now(), Polled(round))
      modifies this
      ensures Good(Now()) && Now() == Step(old(Now()), Polled(round))
      ensures begun == Begun(old(Now()), Polled(round))
    {
      StepGood(Now(), Polled(round));
      begun := None;
      rounds := rounds - multiset{round};
      if round.rest != [] && usagePolling.All? && !hidden {
        begun := Some(round.rest[0]);
        rounds := rounds + multiset{Round(round.rest[1..])};
      } else if usagePolling != Off && !hidden && usagePollingTimeoutId == 0 {
        lastTimer := lastTimer + 1;
        usagePollingTimeoutId := lastTimer;
        armed := armed + {lastTimer};
      }
    }
  }
}
