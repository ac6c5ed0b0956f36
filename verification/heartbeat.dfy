/** The session keep-alive (App/frontend/src/utils/heartbeatManager.js).

    The singleton manager is a value: whether it is running, whether it holds an
    interval handle, how many intervals are live in the browser, and how many
    heartbeat requests it has issued. Timer ticks and request completions are
    explicit events; the backend's answer is an input. */
module Heartbeat {
  import opened Wrappers
  import opened Text
  import SessionStore

  /** `HEARTBEAT_INTERVAL`: milliseconds between two periodic heartbeats. */
  const HeartbeatInterval: int := 15000

  /** `isRunning`; `handle` is `heartbeatInterval !== null`; `liveIntervals` counts
      intervals armed and not yet cleared; `sent` counts heartbeat requests issued. */
  datatype Keeper = Keeper(isRunning: bool, handle: bool, liveIntervals: nat, sent: nat)

  /** The constructor's state. */
  const Initial: Keeper := Keeper(false, false, 0, 0)

  /** What the awaited heartbeat request ends with: success, or an error carrying
      an optional HTTP `status` and a `message`. */
  datatype Outcome = Succeeded | Failed(status: Option<int>, message: string)

  /** The error every call ends with while `api.js` defines no `sessionHeartbeat`:
      a `TypeError`, which has no `status`. */
  const MissingEndpoint: Outcome := Failed(None, "api.sessionHeartbeat is not a function")

  /** The manager's own bookkeeping is consistent: running exactly when it holds
      a handle, and exactly one interval live while running. */
  predicate Valid(k: Keeper) {
    k.isRunning == k.handle && k.liveIntervals == (if k.handle then 1 else 0)
  }

  /** A stored session `start` accepts: present, truthy id, trolley id not 'unknown'. */
  predicate Startable(st: SessionStore.Storage) {
    st.session.Some? && SessionStore.Truthy(st.session.value.id) &&
    st.session.value.trolleyId != Some("unknown")
  }

  /** `stop()`: clears the held interval (if any) and clears the running flag. */
  function Stop(k: Keeper): (r: Keeper)
    ensures !r.isRunning && !r.handle && r.sent == k.sent
    ensures r.liveIntervals == k.liveIntervals - (if k.handle && k.liveIntervals > 0 then 1 else 0)
    ensures Valid(k) ==> Valid(r) && r.liveIntervals == 0
  {
    Keeper(false, false, if k.handle && k.liveIntervals > 0 then k.liveIntervals - 1 else k.liveIntervals, k.sent)
  }

  /** `start()`: a no-op while running or without a startable session; otherwise
      it sets running, issues one immediate heartbeat and arms one interval. */
  function Start(k: Keeper, st: SessionStore.Storage): (r: Keeper)
    ensures k.isRunning ==> r == k
    ensures !k.isRunning && !Startable(st) ==> r == k
    ensures !k.isRunning && Startable(st) ==>
      r.isRunning && r.handle && r.sent == k.sent + 1 && r.liveIntervals == k.liveIntervals + 1
    ensures Valid(k) ==> Valid(r)
  {
    if k.isRunning then k
    else if !Startable(st) then k
    else Keeper(true, true, k.liveIntervals + 1, k.sent + 1)
  }

  /** One firing of the interval: the synchronous part of `sendHeartbeat()`, which
      stops the manager when no session id is stored and otherwise issues a request. */
  function Tick(k: Keeper, st: SessionStore.Storage): (r: Keeper)
    ensures st.session.None? || !SessionStore.Truthy(st.session.value.id) ==> r == Stop(k)
    ensures st.session.Some? && SessionStore.Truthy(st.session.value.id) ==>
      r == k.(sent := k.sent + 1)
    ensures Valid(k) ==> Valid(r)
  {
    if st.session.None? || !SessionStore.Truthy(st.session.value.id) then Stop(k)
    else k.(sent := k.sent + 1)
  }

  /** The failures after which the manager gives up: status 404, or a message mentioning 'expired'. */
  predicate GivesUp(o: Outcome) {
    o.Failed? && (o.status == Some(404) || Contains(o.message, "expired"))
  }

  /** The awaited request settles: success touches `lastActivity`; a giving-up
      failure stops the manager; no outcome clears the stored session or cart. */
  function Complete(k: Keeper, st: SessionStore.Storage, o: Outcome, now: int): (r: (Keeper, SessionStore.Storage))
    ensures o.Succeeded? ==> r == (k, SessionStore.UpdateLastActivity(st, now))
    ensures o.Failed? ==> r.1 == st
    ensures GivesUp(o) ==> r.0 == Stop(k)
    ensures o.Failed? && !GivesUp(o) ==> r.0 == k
    ensures r.1.cart == st.cart && (r.1.session.Some? <==> st.session.Some?)
    ensures Valid(k) ==> Valid(r.0)
  {
    match o
    case Succeeded => (k, SessionStore.UpdateLastActivity(st, now))
    case Failed(_, _) => (if GivesUp(o) then Stop(k) else k, st)
  }

  /** `isActive()`. */
  function IsActive(k: Keeper): (b: bool)
    ensures b <==> k.isRunning
  {
    k.isRunning
  }

  /** Everything that can happen to the manager. */
  datatype Event = StartCall | StopCall | IntervalFires | RequestSettles(outcome: Outcome, now: int)

  function Step(k: Keeper, st: SessionStore.Storage, e: Event): (Keeper, SessionStore.Storage) {
    match e
    case StartCall => (Start(k, st), st)
    case StopCall => (Stop(k), st)
    case IntervalFires => if k.handle then (Tick(k, st), st) else (k, st)
    case RequestSettles(o, now) => Complete(k, st, o, now)
  }

  function Run(k: Keeper, st: SessionStore.Storage, events: seq<Event>): (Keeper, SessionStore.Storage)
    decreases |events|
  {
    if |events| == 0 then (k, st)
    else
      var (k1, st1) := Step(k, st, events[0]);
      Run(k1, st1, events[1..])
  }

  /** From the constructor's state, no sequence of calls leaves more than one
      interval alive: repeated `start()` never arms a second one. */
  lemma {:induction false} RunKeepsOneInterval(k: Keeper, st: SessionStore.Storage, events: seq<Event>)
    requires Valid(k)
    ensures Valid(Run(k, st, events).0)
    ensures Run(k, st, events).0.liveIntervals <= 1
    decreases |events|
  {
    if |events| > 0 {
      var (k1, st1) := Step(k, st, events[0]);
      assert Valid(k1);
      RunKeepsOneInterval(k1, st1, events[1..]);
    }
  }

  /** Over any sequence of calls from a consistent state, `isActive()` reports
      exactly whether a heartbeat interval is live. */
  lemma IsActiveMeansOneInterval(k: Keeper, st: SessionStore.Storage, events: seq<Event>)
    requires Valid(k)
    ensures var k' := Run(k, st, events).0;
      IsActive(k') <==> k'.liveIntervals == 1
  {
    RunKeepsOneInterval(k, st, events);
  }

  /** `stop()` always deactivates; `start()` activates exactly when the manager
      was inactive with a startable session, or was already active. */
  lemma IsActiveAfterCalls(k: Keeper, st: SessionStore.Storage)
    ensures !IsActive(Stop(k))
    ensures IsActive(Start(k, st)) <==> IsActive(k) || Startable(st)
  {
  }

  /** `stop()` is idempotent. */
  lemma StopIdempotent(k: Keeper)
    ensures Stop(Stop(k)) == Stop(k)
  {
  }

  /** With the `api.js` of this repository every heartbeat fails with a `TypeError`
      that neither stops the manager nor touches the stored session: a started
      manager keeps running until `stop()` or a tick that finds no session. */
  lemma MissingEndpointKeepsRunning(k: Keeper, st: SessionStore.Storage, now: int)
    ensures Complete(k, st, MissingEndpoint, now) == (k, st)
  {
    AbsentCharNotContained(MissingEndpoint.message, "expired", 1);
  }
}
