/**
 * The debouncers of a websocket connection (handleEvent and eventLoop in hub.go): a timer per full-data topic, reset by
 * every further event, whose callback pushes the data. A step is what one goroutine does between two synchronisation
 * points: the event loop and the callbacks meet at a mutex, and a timer that fires starts its callback on a goroutine of
 * its own. Whether the topic was active when the event came in is decided before the mutex and may be stale.
 */
module Debounce {

  datatype Timer = Timer(topic: string, armed: bool)

  /** A callback goroutine: before it removes the debouncer, or between that and its look at the active topics. */
  datatype Callback = Callback(topic: string, removed: bool)

  /** What happened, in order: events taken up, pushes begun, and callbacks that found their topic inactive. */
  datatype Mark = Handled(topic: string) | Pushed(topic: string) | Declined(topic: string)

  datatype State = State(timers: map<nat, Timer>, debouncers: map<string, nat>, callbacks: map<nat, Callback>,
                         nextTimer: nat, nextCallback: nat, active: set<string>, exited: bool, log: seq<Mark>)

  datatype Step =
    | Handle(topic: string)
    | Fire(timer: nat)
    | Remove(callback: nat)
    | Look(callback: nat)
    | SetActive(topics: set<string>)
    | Exit

  function Init(active: set<string>): State { State(map[], map[], map[], 0, 0, active, false, []) }

  predicate Enabled(s: State, step: Step) {
    match step
    case Handle(_) => !s.exited
    case Fire(timer) => timer in s.timers && s.timers[timer].armed
    case Remove(callback) => callback in s.callbacks && !s.callbacks[callback].removed
    case Look(callback) => callback in s.callbacks && s.callbacks[callback].removed
    case SetActive(_) => true
    case Exit => !s.exited
  }

  /** An existing timer is reset, which arms it again even if it has fired; otherwise a new one is started. */
  function DoHandle(s: State, topic: string): State {
    if topic in s.debouncers then
      s.(timers := s.timers[s.debouncers[topic] := Timer(topic, true)], log := s.log + [Handled(topic)])
    else
      s.(timers := s.timers[s.nextTimer := Timer(topic, true)], debouncers := s.debouncers[topic := s.nextTimer],
         nextTimer := s.nextTimer + 1, log := s.log + [Handled(topic)])
  }

  function DoFire(s: State, timer: nat): State
    requires Enabled(s, Fire(timer))
  {
    var t := s.timers[timer];
    s.(timers := s.timers[timer := t.(armed := false)],
       callbacks := s.callbacks[s.nextCallback := Callback(t.topic, false)], nextCallback := s.nextCallback + 1)
  }

  function DoRemove(s: State, callback: nat): State
    requires Enabled(s, Remove(callback))
  {
    var topic := s.callbacks[callback].topic;
    s.(debouncers := s.debouncers - {topic}, callbacks := s.callbacks[callback := Callback(topic, true)])
  }

  function DoLook(s: State, callback: nat): State
    requires Enabled(s, Look(callback))
  {
    var topic := s.callbacks[callback].topic;
    s.(callbacks := s.callbacks - {callback}, log := s.log + [if topic in s.active then Pushed(topic) else Declined(topic)])
  }

  /** The deferred stop: every timer that the map still holds. */
  function DoExit(s: State): State {
    s.(exited := true, timers := map id | id in s.timers :: if id in s.debouncers.Values then s.timers[id].(armed := false) else s.timers[id])
  }

  function Apply(s: State, step: Step): State
    requires Enabled(s, step)
  {
    match step
    case Handle(topic) => DoHandle(s, topic)
    case Fire(timer) => DoFire(s, timer)
    case Remove(callback) => DoRemove(s, callback)
    case Look(callback) => DoLook(s, callback)
    case SetActive(topics) => s.(active := topics)
    case Exit => DoExit(s)
  }

  // ----- the invariant -----

  /** Ids are fresh and the map files timers under their own topic. */
  ghost predicate WellFiled(s: State) {
    && (forall id | id in s.timers :: id < s.nextTimer)
    && (forall id | id in s.callbacks :: id < s.nextCallback)
    && (forall t | t in s.debouncers :: s.debouncers[t] in s.timers && s.timers[s.debouncers[t]].topic == t)
  }

  function Armed(s: State, topic: string): set<nat> {
    set id | id in s.timers && s.timers[id] == Timer(topic, true)
  }

  function InFlight(s: State, topic: string): set<nat> {
    set id | id in s.callbacks && s.callbacks[id].topic == topic
  }

  /** Whether an event on a topic was taken up that no callback has looked after since. */
  predicate Unsettled(log: seq<Mark>, topic: string) {
    log != [] &&
    var last := log[|log| - 1];
    if last.topic == topic then last.Handled? else Unsettled(log[..|log| - 1], topic)
  }

  function Count(log: seq<Mark>, m: Mark): nat {
    if log == [] then 0 else Count(log[..|log| - 1], m) + (if log[|log| - 1] == m then 1 else 0)
  }

  /** Callbacks that looked after a topic. */
  function Looks(log: seq<Mark>, topic: string): nat { Count(log, Pushed(topic)) + Count(log, Declined(topic)) }

  /** An unsettled topic has a timer that will fire or a callback that will look; and there are no more of them than events. */
  ghost predicate TopicOk(s: State, topic: string) {
    && (Unsettled(s.log, topic) && !s.exited ==> Armed(s, topic) + InFlight(s, topic) != {})
    && Looks(s.log, topic) + |Armed(s, topic)| + |InFlight(s, topic)| <= Count(s.log, Handled(topic))
  }

  ghost predicate Inv(s: State) { WellFiled(s) && forall topic :: TopicOk(s, topic) }

  lemma LogGrows(log: seq<Mark>, m: Mark, topic: string)
    ensures Unsettled(log + [m], topic) <==> if m.topic == topic then m.Handled? else Unsettled(log, topic)
    ensures Count(log + [m], Handled(topic)) == Count(log, Handled(topic)) + (if m == Handled(topic) then 1 else 0)
    ensures Looks(log + [m], topic) == Looks(log, topic) + (if m == Pushed(topic) || m == Declined(topic) then 1 else 0)
  {
  }

  lemma HandleArms(s: State, topic: string, t: string)
    requires WellFiled(s)
    ensures var id := if topic in s.debouncers then s.debouncers[topic] else s.nextTimer;
            Armed(DoHandle(s, topic), t) == if t == topic then Armed(s, t) + {id} else Armed(s, t)
    ensures InFlight(DoHandle(s, topic), t) == InFlight(s, t)
  {
  }

  lemma HandleOk(s: State, topic: string, t: string)
    requires WellFiled(s) && TopicOk(s, t)
    ensures TopicOk(DoHandle(s, topic), t)
  {
    LogGrows(s.log, Handled(topic), t);
    HandleArms(s, topic, t);
  }

  lemma FireMoves(s: State, timer: nat, t: string)
    requires WellFiled(s) && Enabled(s, Fire(timer))
    ensures var topic := s.timers[timer].topic;
            && timer in Armed(s, topic) && s.nextCallback !in InFlight(s, t)
            && Armed(DoFire(s, timer), t) == (if t == topic then Armed(s, t) - {timer} else Armed(s, t))
            && InFlight(DoFire(s, timer), t) == (if t == topic then InFlight(s, t) + {s.nextCallback} else InFlight(s, t))
  {
  }

  lemma FireOk(s: State, timer: nat, t: string)
    requires WellFiled(s) && TopicOk(s, t) && Enabled(s, Fire(timer))
    ensures TopicOk(DoFire(s, timer), t)
  {
    FireMoves(s, timer, t);
    assert DoFire(s, timer).log == s.log;
  }

  lemma RemoveOk(s: State, callback: nat, t: string)
    requires WellFiled(s) && TopicOk(s, t) && Enabled(s, Remove(callback))
    ensures TopicOk(DoRemove(s, callback), t)
  {
    assert Armed(DoRemove(s, callback), t) == Armed(s, t);
    assert InFlight(DoRemove(s, callback), t) == InFlight(s, t);
  }

  lemma LookEnds(s: State, callback: nat, t: string)
    requires Enabled(s, Look(callback))
    ensures var topic := s.callbacks[callback].topic;
            && callback in InFlight(s, topic) && Armed(DoLook(s, callback), t) == Armed(s, t)
            && InFlight(DoLook(s, callback), t) == if t == topic then InFlight(s, t) - {callback} else InFlight(s, t)
  {
  }

  lemma LookOk(s: State, callback: nat, t: string)
    requires TopicOk(s, t) && Enabled(s, Look(callback))
    ensures TopicOk(DoLook(s, callback), t)
  {
    var topic := s.callbacks[callback].topic;
    LookEnds(s, callback, t);
    LogGrows(s.log, if topic in s.active then Pushed(topic) else Declined(topic), t);
  }

  lemma ExitOk(s: State, t: string)
    requires TopicOk(s, t)
    ensures TopicOk(DoExit(s), t)
  {
    Subset(Armed(DoExit(s), t), Armed(s, t));
    assert InFlight(DoExit(s), t) == InFlight(s, t);
  }

  lemma Subset(a: set<nat>, b: set<nat>)
    requires a <= b
    ensures |a| <= |b|
  {
    assert b == a + (b - a);
  }

  lemma StepInv(s: State, step: Step)
    requires Inv(s) && Enabled(s, step)
    ensures Inv(Apply(s, step))
  {
    forall t ensures TopicOk(Apply(s, step), t) {
      assert TopicOk(s, t);
      match step
      case Handle(topic) => HandleOk(s, topic, t);
      case Fire(timer) => FireOk(s, timer, t);
      case Remove(callback) => RemoveOk(s, callback, t);
      case Look(callback) => LookOk(s, callback, t);
      case SetActive(topics) =>
        assert Armed(Apply(s, step), t) == Armed(s, t) && InFlight(Apply(s, step), t) == InFlight(s, t);
      case Exit => ExitOk(s, t);
    }
  }

  // ----- whole runs -----

  ghost predicate IsRun(active: set<string>, steps: seq<Step>, states: seq<State>) {
    && |states| == |steps| + 1 && states[0] == Init(active)
    && forall i | 0 <= i < |steps| :: Enabled(states[i], steps[i]) && states[i + 1] == Apply(states[i], steps[i])
  }

  lemma {:induction false} RunInv(active: set<string>, steps: seq<Step>, states: seq<State>, n: nat)
    requires IsRun(active, steps, states) && n < |states|
    ensures Inv(states[n])
  {
    if n == 0 {
      forall t ensures TopicOk(states[0], t) {
        assert Armed(states[0], t) == {} && InFlight(states[0], t) == {};
      }
    } else {
      RunInv(active, steps, states, n - 1);
      StepInv(states[n - 1], steps[n - 1]);
    }
  }

  /** A later callback looked after the topic. */
  ghost predicate LookedAfter(log: seq<Mark>, i: nat, topic: string) {
    exists j | i < j < |log| :: log[j] == Pushed(topic) || log[j] == Declined(topic)
  }

  lemma {:induction false} UnsettledMeans(log: seq<Mark>, i: nat, topic: string)
    requires i < |log| && log[i] == Handled(topic) && !LookedAfter(log, i, topic)
    ensures Unsettled(log, topic)
  {
    var n := |log| - 1;
    if i < n && log[n].topic != topic {
      assert log[..n][i] == log[i];
      assert forall j | i < j < n :: log[..n][j] == log[j];
      UnsettledMeans(log[..n], i, topic);
    } else if i < n {
      assert !(log[n] == Pushed(topic) || log[n] == Declined(topic));
    }
  }

  /**
   * No event is lost: in every state of every interleaving before the loop exits, each event taken up has been followed
   * by a push of its topic (or by a callback that found the topic inactive), or a timer or callback that will do so is
   * on its way. And a topic is never looked after more often than it had events, those on their way included.
   */
  lemma NoEventIsLost(active: set<string>, steps: seq<Step>, states: seq<State>, n: nat, topic: string)
    requires IsRun(active, steps, states) && n < |states|
    ensures forall i: nat | i < |states[n].log| && states[n].log[i] == Handled(topic) && !states[n].exited ::
              LookedAfter(states[n].log, i, topic) || Armed(states[n], topic) + InFlight(states[n], topic) != {}
    ensures Looks(states[n].log, topic) + |Armed(states[n], topic)| + |InFlight(states[n], topic)| <=
            Count(states[n].log, Handled(topic))
  {
    var s := states[n];
    RunInv(active, steps, states, n);
    assert TopicOk(s, topic);
    forall i: nat | i < |s.log| && s.log[i] == Handled(topic) && !s.exited
      ensures LookedAfter(s.log, i, topic) || Armed(s, topic) + InFlight(s, topic) != {}
    {
      if !LookedAfter(s.log, i, topic) { UnsettledMeans(s.log, i, topic); }
    }
  }

  // ----- stopping on exit -----

  /** An armed timer that the map does not hold: the deferred stop misses it. */
  predicate Orphan(s: State, id: nat) {
    id in s.timers && s.timers[id].armed && id !in s.debouncers.Values
  }

  ghost predicate AllStopped(s: State) { forall id | id in s.timers :: !s.timers[id].armed }

  /** The stop at the exit stops every timer exactly if there is no orphan. */
  lemma ExitStopsAllIff(s: State)
    ensures AllStopped(DoExit(s)) <==> forall id :: !Orphan(s, id)
  {
    var s' := DoExit(s);
    forall id ensures Orphan(s, id) <==> id in s'.timers && s'.timers[id].armed {}
  }

  /** The step orphans a timer: a callback removes the debouncer that holds it while it is armed. */
  predicate Orphans(s: State, step: Step, id: nat) {
    && step.Remove? && step.callback in s.callbacks && id in s.timers && s.timers[id].armed
    && var topic := s.callbacks[step.callback].topic;
       topic in s.debouncers && s.debouncers[topic] == id
  }

  lemma FiledOnce(s: State, id: nat)
    requires WellFiled(s) && id in s.timers
    ensures id in s.debouncers.Values <==> s.timers[id].topic in s.debouncers && s.debouncers[s.timers[id].topic] == id
  {
  }

  lemma HandleOrphansNone(s: State, topic: string, id: nat)
    requires WellFiled(s)
    ensures Orphan(DoHandle(s, topic), id) <==> Orphan(s, id)
  {
    var s' := DoHandle(s, topic);
    assert topic in s'.debouncers && s'.debouncers[topic] in s'.debouncers.Values;
    assert WellFiled(s');
    if id in s.timers {
      FiledOnce(s, id);
      FiledOnce(s', id);
    }
  }

  /** What one step does to the orphans, in every state: such a removal makes one, and only its own firing ends one. */
  lemma OrphanStep(s: State, step: Step, id: nat)
    requires WellFiled(s) && Enabled(s, step)
    ensures Orphan(Apply(s, step), id) <==> Orphans(s, step, id) || (Orphan(s, id) && step != Fire(id))
  {
    var s' := Apply(s, step);
    match step
    case Handle(topic) => HandleOrphansNone(s, topic, id);
    case Remove(callback) =>
      if id in s.timers {
        FiledOnce(s, id);
        assert WellFiled(s');
        FiledOnce(s', id);
      }
    case _ =>
  }

  /** A timer fires strictly between two steps of a run. */
  ghost predicate FiresBetween(steps: seq<Step>, from: int, to: nat, id: nat)
    requires to <= |steps|
  {
    exists j | 0 <= j < to && from < j :: steps[j] == Fire(id)
  }

  /** A timer was orphaned before the n-th step and has not fired since. */
  ghost predicate OrphanedBefore(steps: seq<Step>, states: seq<State>, n: nat, id: nat)
    requires n <= |steps| < |states|
  {
    exists k | 0 <= k < n :: Orphans(states[k], steps[k], id) && !FiresBetween(steps, k, n, id)
  }

  lemma OrphanedGrows(steps: seq<Step>, states: seq<State>, n: nat, id: nat)
    requires n < |steps| < |states|
    ensures OrphanedBefore(steps, states, n + 1, id) <==>
            Orphans(states[n], steps[n], id) || (OrphanedBefore(steps, states, n, id) && steps[n] != Fire(id))
  {
    if Orphans(states[n], steps[n], id) {
      assert !FiresBetween(steps, n, n + 1, id);
    }
    if OrphanedBefore(steps, states, n, id) && steps[n] != Fire(id) {
      var k :| 0 <= k < n && Orphans(states[k], steps[k], id) && !FiresBetween(steps, k, n, id);
      assert !FiresBetween(steps, k, n + 1, id);
    }
    if OrphanedBefore(steps, states, n + 1, id) && !Orphans(states[n], steps[n], id) {
      var k :| 0 <= k < n + 1 && Orphans(states[k], steps[k], id) && !FiresBetween(steps, k, n + 1, id);
      assert !FiresBetween(steps, k, n, id);
    }
  }

  lemma {:induction false} OrphanHistory(active: set<string>, steps: seq<Step>, states: seq<State>, n: nat, id: nat)
    requires IsRun(active, steps, states) && n < |states|
    ensures Orphan(states[n], id) <==> OrphanedBefore(steps, states, n, id)
  {
    if n > 0 {
      OrphanHistory(active, steps, states, n - 1, id);
      RunInv(active, steps, states, n - 1);
      OrphanStep(states[n - 1], steps[n - 1], id);
      OrphanedGrows(steps, states, n - 1, id);
    }
  }

  /**
   * Exactly when "stop all debouncers on exit" holds, for every run: the exit leaves no timer armed if and only if every
   * timer that a callback ever removed from the map while it was armed has fired between that removal and the exit.
   */
  lemma ExitStopsAllDebouncersIff(active: set<string>, steps: seq<Step>, states: seq<State>, n: nat)
    requires IsRun(active, steps, states) && n < |steps| && steps[n] == Exit
    ensures AllStopped(states[n + 1]) <==>
            forall k: nat, id | k < n && Orphans(states[k], steps[k], id) :: FiresBetween(steps, k, n, id)
  {
    ExitStopsAllIff(states[n]);
    forall id ensures Orphan(states[n], id) <==> OrphanedBefore(steps, states, n, id) {
      OrphanHistory(active, steps, states, n, id);
    }
    if !AllStopped(states[n + 1]) {
      var id :| Orphan(states[n], id);
      assert OrphanedBefore(steps, states, n, id);
    }
    forall k: nat, id | k < n && Orphans(states[k], steps[k], id) && AllStopped(states[n + 1])
      ensures FiresBetween(steps, k, n, id)
    {
      assert !Orphan(states[n], id);
    }
  }

  /**
   * A run whose first event fires its timer, whose second event resets that timer before the callback has the mutex,
   * and whose callback then removes the debouncer: the exit leaves the timer armed, so it fires after the loop is gone.
   */
  lemma StopOnExitCanMiss(topic: string)
    ensures var steps := [Handle(topic), Fire(0), Handle(topic), Remove(0), Exit];
            exists states: seq<State> :: IsRun({topic}, steps, states) && states[5].exited && Enabled(states[5], Fire(0))
  {
    var steps := [Handle(topic), Fire(0), Handle(topic), Remove(0), Exit];
    var s0 := Init({topic});
    var s1 := Apply(s0, steps[0]);
    var s2 := Apply(s1, steps[1]);
    var s3 := Apply(s2, steps[2]);
    assert Orphans(s3, steps[3], 0);
    var s4 := Apply(s3, steps[3]);
    assert s4.debouncers == map[];
    var s5 := Apply(s4, steps[4]);
    assert IsRun({topic}, steps, [s0, s1, s2, s3, s4, s5]);
  }

  // ----- pushes -----

  /** The step is the last one of a callback for the topic. */
  predicate LooksAt(s: State, step: Step, topic: string) {
    step.Look? && step.callback in s.callbacks && s.callbacks[step.callback] == Callback(topic, true)
  }

  /** An event was taken up, a topic was pushed while it was active, or declined while it was not. */
  ghost predicate Happened(steps: seq<Step>, states: seq<State>, n: nat, m: Mark)
    requires n <= |steps| < |states|
  {
    match m
    case Handled(topic) => exists k | 0 <= k < n :: steps[k] == Handle(topic)
    case Pushed(topic) => exists k | 0 <= k < n :: LooksAt(states[k], steps[k], topic) && topic in states[k].active
    case Declined(topic) => exists k | 0 <= k < n :: LooksAt(states[k], steps[k], topic) && topic !in states[k].active
  }

  lemma HappenedBefore(steps: seq<Step>, states: seq<State>, n: nat, m: Mark)
    requires n < |steps| < |states| && Happened(steps, states, n, m)
    ensures Happened(steps, states, n + 1, m)
  {
  }

  /** In every run: what the log says has happened. */
  lemma {:induction false} PushesAreOfActiveTopics(active: set<string>, steps: seq<Step>, states: seq<State>, n: nat)
    requires IsRun(active, steps, states) && n < |states|
    ensures forall m | m in states[n].log :: Happened(steps, states, n, m)
  {
    if n > 0 {
      PushesAreOfActiveTopics(active, steps, states, n - 1);
      forall m | m in states[n].log ensures Happened(steps, states, n, m) {
        if m in states[n - 1].log {
          HappenedBefore(steps, states, n - 1, m);
        } else {
          assert steps[n - 1].Handle? || steps[n - 1].Look?;
        }
      }
    }
  }
}
