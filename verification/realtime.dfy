/** The shared polling timer of `realtime.ts`: a set of subscribed callbacks
    and at most one interval timer that calls all of them. Callbacks are
    identified by a number; the timer is a record of which timer it is and
    the interval it was created with, and `created` counts the timers made
    so far so that each new one is distinguishable from the last. */
module Realtime {
  import opened Options

  /** The default interval of `startRealtimeUpdates`, in milliseconds. */
  const DefaultIntervalMs: nat := 30000

  datatype Timer = Timer(serial: nat, intervalMs: nat)

  datatype Poller = Poller(subscribers: set<nat>, timer: Option<Timer>, created: nat)

  const Initial: Poller := Poller({}, None, 0)

  /** A timer runs exactly while somebody is subscribed, and it is one of the
      timers created so far. */
  predicate Valid(p: Poller) {
    && (p.timer.Some? <==> p.subscribers != {})
    && (p.timer.Some? ==> p.timer.value.serial < p.created)
  }

  /** `startRealtimeUpdates`: subscribe, and create a timer with the given
      interval only if there is none; an existing timer keeps its interval. */
  function Start(p: Poller, callback: nat, intervalMs: nat): (q: Poller)
    ensures q.subscribers == p.subscribers + {callback}
    ensures p.timer.Some? ==> q.timer == p.timer && q.created == p.created
    ensures p.timer.None? ==> q.timer == Some(Timer(p.created, intervalMs)) && q.created == p.created + 1
  {
    var subscribers := p.subscribers + {callback};
    if p.timer.Some? then p.(subscribers := subscribers)
    else Poller(subscribers, Some(Timer(p.created, intervalMs)), p.created + 1)
  }

  /** `stopRealtimeUpdates`: unsubscribe, and clear the timer once nobody is
      left. */
  function Stop(p: Poller, callback: nat): (q: Poller)
    ensures q.subscribers == p.subscribers - {callback}
    ensures q.timer.None? <==> p.timer.None? || q.subscribers == {}
    ensures q.timer.Some? ==> q.timer == p.timer
    ensures q.created == p.created
  {
    var subscribers := p.subscribers - {callback};
    if subscribers == {} && p.timer.Some? then Poller(subscribers, None, p.created)
    else p.(subscribers := subscribers)
  }

  /** The callbacks one firing of the timer calls: every current subscriber,
      once each; with no timer nothing fires. */
  function Tick(p: Poller): (invoked: set<nat>)
    ensures invoked <= p.subscribers
    ensures p.timer.Some? ==> invoked == p.subscribers
  {
    if p.timer.Some? then p.subscribers else {}
  }

  lemma StartPreservesValid(p: Poller, callback: nat, intervalMs: nat)
    requires Valid(p)
    ensures Valid(Start(p, callback, intervalMs))
  {
  }

  lemma StopPreservesValid(p: Poller, callback: nat)
    requires Valid(p)
    ensures Valid(Stop(p, callback))
  {
  }

  /** Under the invariant, a tick calls exactly the subscribers. */
  lemma TickCallsSubscribers(p: Poller)
    requires Valid(p)
    ensures Tick(p) == p.subscribers
  {
  }

  /** Starting the same callback twice stores it once and creates one timer,
      with the first call's interval. */
  lemma StartTwiceOneTimer(p: Poller, callback: nat, first: nat, second: nat)
    requires p.timer.None?
    ensures var q := Start(Start(p, callback, first), callback, second);
      && q.subscribers == p.subscribers + {callback}
      && q.timer == Some(Timer(p.created, first))
      && q.created == p.created + 1
  {
  }

  /** Two different callbacks share one timer, created by the first start. */
  lemma TwoSubscribersOneTimer(a: nat, b: nat, first: nat, second: nat)
    ensures var q := Start(Start(Initial, a, first), b, second);
      && q.subscribers == {a, b}
      && q.timer == Some(Timer(0, first))
      && q.created == 1
  {
  }

  /** Stopping one of two subscribers keeps the timer; stopping the last
      clears it. */
  lemma StopKeepsTimerUntilLast(a: nat, b: nat)
    requires a != b
    ensures var one := Stop(Start(Start(Initial, a, DefaultIntervalMs), b, DefaultIntervalMs), a);
      && one.subscribers == {b}
      && one.timer == Some(Timer(0, DefaultIntervalMs))
      && Stop(one, b).timer.None?
  {
  }

  /** After the timer is cleared, the next start creates a new timer, distinct
      from every earlier one. */
  lemma RestartCreatesNewTimer(p: Poller, callback: nat, intervalMs: nat)
    requires Valid(p) && p.subscribers == {callback}
    ensures var cleared := Stop(p, callback);
      && cleared.timer.None?
      && Start(cleared, callback, intervalMs).timer == Some(Timer(p.created, intervalMs))
      && p.timer.value.serial < p.created
  {
  }

  /** A stopped callback is not called by later ticks. */
  lemma StoppedNotInvoked(p: Poller, callback: nat)
    ensures callback !in Tick(Stop(p, callback))
  {
  }

  /** One step of a run of the poller. */
  datatype Event = Subscribe(callback: nat, intervalMs: nat) | Unsubscribe(callback: nat) | Fire

  function Step(p: Poller, e: Event): Poller {
    match e
    case Subscribe(callback, intervalMs) => Start(p, callback, intervalMs)
    case Unsubscribe(callback) => Stop(p, callback)
    case Fire => p
  }

  /** The poller after a run of events, and what each firing called. */
  function Run(p: Poller, events: seq<Event>): (res: (Poller, seq<set<nat>>))
    ensures |res.1| <= |events|
    decreases |events|
  {
    if events == [] then (p, [])
    else
      var next := Step(p, events[0]);
      var rest := Run(next, events[1..]);
      if events[0].Fire? then (rest.0, [Tick(p)] + rest.1) else rest
  }

  /** Every run from a valid poller keeps the invariant, so at every firing
      a timer runs exactly when somebody is subscribed (see
      `TickCallsSubscribers`), and timer numbers only grow. */
  lemma {:induction false} RunValid(p: Poller, events: seq<Event>)
    requires Valid(p)
    ensures Valid(Run(p, events).0)
    ensures Run(p, events).0.created >= p.created
    decreases |events|
  {
    if events != [] {
      var next := Step(p, events[0]);
      match events[0] {
        case Subscribe(c, i) => StartPreservesValid(p, c, i);
        case Unsubscribe(c) => StopPreservesValid(p, c);
        case Fire =>
      }
      RunValid(next, events[1..]);
    }
  }

  /** Over any run from the initial state, the timers ever created are
      numbered consecutively: a timer present at the end is the most recently
      created one. */
  lemma {:induction false} RunTimerIsLatest(p: Poller, events: seq<Event>)
    requires Valid(p) && (p.timer.Some? ==> p.timer.value.serial == p.created - 1)
    ensures var q := Run(p, events).0;
      q.timer.Some? ==> q.timer.value.serial == q.created - 1
    decreases |events|
  {
    if events != [] {
      var next := Step(p, events[0]);
      match events[0] {
        case Subscribe(c, i) => StartPreservesValid(p, c, i);
        case Unsubscribe(c) => StopPreservesValid(p, c);
        case Fire =>
      }
      RunTimerIsLatest(next, events[1..]);
    }
  }
}
