/**
 AuthenticationInterceptor: the state behind its lock, its lock sections, and the protocol that
 arises when any number of adapt and retry calls run beside a credential refresh.
 */
module AuthInterceptor {
  import opened Wrappers

  type Id = nat

  type Credential = nat

  datatype AuthError = MissingCredential | ExcessiveRefresh | RefreshError(code: int)

  datatype RefreshWindow = RefreshWindow(interval: real, maximumAttempts: int)

  /** What a completion handler is called with. */
  datatype Outcome =
    | Authenticated(credential: Credential) | AdaptFailed(error: AuthError)
    | Retry | DoNotRetry | DoNotRetryWithError(error: AuthError)

  /** A closure handed to the interceptor's serial dispatch queue. */
  datatype Block =
    | RefreshCall(credential: Credential)
    | Resume(adapts: seq<Id>, retries: seq<Id>)
    | Reject(adapts: seq<Id>, retries: seq<Id>, error: AuthError)

  datatype AdaptResult = Adapt(credential: Credential) | DoNotAdapt(error: AuthError) | AdaptDeferred

  /** The lock-protected state, and the dispatch queue. */
  datatype Core = Core(
    credential: Option<Credential>, isRefreshing: bool, refreshTimestamps: seq<real>,
    refreshWindow: Option<RefreshWindow>, adaptOperations: seq<Id>, requestsToRetry: seq<Id>, queue: seq<Block>)

  // ----- the lock sections

  /** Number of recorded refreshes at or after lo. */
  function CountFrom(ts: seq<real>, lo: real): nat {
    if ts == [] then 0 else CountFrom(ts[..|ts| - 1], lo) + if lo <= ts[|ts| - 1] then 1 else 0
  }

  /** isRefreshExcessive, with the clock reading `uptime`. */
  predicate IsRefreshExcessive(c: Core, uptime: real) {
    c.refreshWindow.Some? &&
    CountFrom(c.refreshTimestamps, uptime - c.refreshWindow.value.interval) >= c.refreshWindow.value.maximumAttempts
  }

  /** handleRefreshFailure */
  function RefreshFailed(c: Core, error: AuthError): Core {
    c.(adaptOperations := [], requestsToRetry := [], isRefreshing := false,
       queue := c.queue + [Reject(c.adaptOperations, c.requestsToRetry, error)])
  }

  /** handleRefreshSuccess */
  function RefreshSucceeded(c: Core, credential: Credential): Core {
    c.(credential := Some(credential), adaptOperations := [], requestsToRetry := [], isRefreshing := false,
       queue := c.queue + [Resume(c.adaptOperations, c.requestsToRetry)])
  }

  /** refresh: the clock is read for the check (t1) and again for the record (t2). */
  function Refreshed(c: Core, credential: Credential, t1: real, t2: real): Core {
    if IsRefreshExcessive(c, t1) then RefreshFailed(c, ExcessiveRefresh)
    else c.(refreshTimestamps := c.refreshTimestamps + [t2], isRefreshing := true,
      queue := c.queue + [RefreshCall(credential)])
  }

  /** The lock section of adapt. */
  function AdaptLocked(c: Core, id: Id, requiresRefresh: bool, t1: real, t2: real): (Core, AdaptResult) {
    if c.isRefreshing then (c.(adaptOperations := c.adaptOperations + [id]), AdaptDeferred)
    else if c.credential.None? then (c, DoNotAdapt(MissingCredential))
    else if requiresRefresh then
      (Refreshed(c.(adaptOperations := c.adaptOperations + [id]), c.credential.value, t1, t2), AdaptDeferred)
    else (c, Adapt(c.credential.value))
  }

  /** The lock section at the end of retry; the credential was read in an earlier one. */
  function RetryLocked(c: Core, id: Id, credential: Credential, t1: real, t2: real): Core {
    var d := c.(requestsToRetry := c.requestsToRetry + [id]);
    if c.isRefreshing then d else Refreshed(d, credential, t1, t2)
  }

  /** The object, whose lock sections update its fields in place. */
  class Interceptor {
    var credential: Option<Credential>
    var isRefreshing: bool
    var refreshTimestamps: seq<real>
    var refreshWindow: Option<RefreshWindow>
    var adaptOperations: seq<Id>
    var requestsToRetry: seq<Id>
    var queue: seq<Block>

    ghost function Now(): Core
      reads this
    {
      Core(credential, isRefreshing, refreshTimestamps, refreshWindow, adaptOperations, requestsToRetry, queue)
    }

    constructor (credential: Option<Credential>, refreshWindow: Option<RefreshWindow>)
      ensures Now() == Core(credential, false, [], refreshWindow, [], [], [])
    {
      this.credential := credential;
      isRefreshing := false;
      refreshTimestamps := [];
      this.refreshWindow := refreshWindow;
      adaptOperations := [];
      requestsToRetry := [];
      queue := [];
    }

    /** isRefreshExcessive */
    method CheckExcessive(uptime: real) returns (excessive: bool)
      ensures excessive == IsRefreshExcessive(Now(), uptime)
    {
      if refreshWindow.None? {
        return false;
      }
      var refreshWindowMin := uptime - refreshWindow.value.interval;
      var attempts := 0;
      var i := 0;
      while i < |refreshTimestamps|
        invariant i <= |refreshTimestamps| && attempts == CountFrom(refreshTimestamps[..i], refreshWindowMin)
      {
        assert refreshTimestamps[..i + 1][..i] == refreshTimestamps[..i];
        if refreshWindowMin <= refreshTimestamps[i] {
          attempts := attempts + 1;
        }
        i := i + 1;
      }
      assert refreshTimestamps[..i] == refreshTimestamps;
      excessive := attempts >= refreshWindow.value.maximumAttempts;
    }

    /** refresh */
    method Refresh(credential: Credential, t1: real, t2: real)
      modifies this
      ensures Now() == Refreshed(old(Now()), credential, t1, t2)
    {
      var excessive := CheckExcessive(t1);
      if excessive {
        HandleRefreshFailure(ExcessiveRefresh);
        return;
      }
      refreshTimestamps := refreshTimestamps + [t2];
      isRefreshing := true;
      queue := queue + [RefreshCall(credential)];
    }

    /** handleRefreshSuccess */
    method HandleRefreshSuccess(newCredential: Credential)
      modifies this
      ensures Now() == RefreshSucceeded(old(Now()), newCredential)
      ensures credential == Some(newCredential) && !isRefreshing && adaptOperations == [] && requestsToRetry == []
      ensures queue == old(queue) + [Resume(old(adaptOperations), old(requestsToRetry))]
      ensures refreshTimestamps == old(refreshTimestamps) && refreshWindow == old(refreshWindow)
    {
      credential := Some(newCredential);
      var adapts, retries := adaptOperations, requestsToRetry;
      adaptOperations := [];
      requestsToRetry := [];
      isRefreshing := false;
      queue := queue + [Resume(adapts, retries)];
    }

    /** handleRefreshFailure */
    method HandleRefreshFailure(error: AuthError)
      modifies this
      ensures Now() == RefreshFailed(old(Now()), error)
      ensures credential == old(credential) && !isRefreshing && adaptOperations == [] && requestsToRetry == []
      ensures queue == old(queue) + [Reject(old(adaptOperations), old(requestsToRetry), error)]
      ensures refreshTimestamps == old(refreshTimestamps) && refreshWindow == old(refreshWindow)
    {
      var adapts, retries := adaptOperations, requestsToRetry;
      adaptOperations := [];
      requestsToRetry := [];
      isRefreshing := false;
      queue := queue + [Reject(adapts, retries, error)];
    }

    /** adapt, up to the end of its lock section. */
    method AdaptSection(id: Id, requiresRefresh: bool, t1: real, t2: real) returns (result: AdaptResult)
      modifies this
      ensures (Now(), result) == AdaptLocked(old(Now()), id, requiresRefresh, t1, t2)
    {
      if isRefreshing {
        adaptOperations := adaptOperations + [id];
        return AdaptDeferred;
      }
      if credential.None? {
        return DoNotAdapt(MissingCredential);
      }
      if requiresRefresh {
        adaptOperations := adaptOperations + [id];
        Refresh(credential.value, t1, t2);
        return AdaptDeferred;
      }
      return Adapt(credential.value);
    }

    /** The last lock section of retry. */
    method RetrySection(id: Id, readCredential: Credential, t1: real, t2: real)
      modifies this
      ensures Now() == RetryLocked(old(Now()), id, readCredential, t1, t2)
    {
      requestsToRetry := requestsToRetry + [id];
      if isRefreshing {
        return;
      }
      Refresh(readCredential, t1, t2);
    }
  }

  // ----- the protocol

  datatype Kind = AdaptCall | RetryCall

  /** Where a call in progress stands. */
  datatype Pc = Starting | HasCredential(credential: Credential) | Completing(outcome: Outcome)

  datatype Delivery = Delivery(id: Id, outcome: Outcome)

  datatype State = State(
    core: Core, now: real, submitted: map<Id, Kind>, running: map<Id, Pc>,
    resuming: Option<Id>, awaiting: nat, delivered: seq<Delivery>)

  /** The atomic steps; their arguments are the choices of the environment. */
  datatype Label =
    | Submit(id: Id, kind: Kind)
    | AdaptStep(id: Id, requiresRefresh: bool, t1: real, t2: real)
    | RetryRead(id: Id, eligible: bool)
    | RetryStep(id: Id, authenticated: bool, t1: real, t2: real)
    | Complete(id: Id)
    | RunRefresh
    | ReplySuccess(credential: Credential)
    | ReplyFailure(code: int)
    | NextInBlock
    | SetCredential(replacement: Option<Credential>)
    | Tick(to: real)

  function Init(credential: Option<Credential>, window: Option<RefreshWindow>, now: real): State {
    State(Core(credential, false, [], window, [], [], []), now, map[], map[], None, 0, [])
  }

  predicate Runs(s: State, id: Id, kind: Kind, pc: Pc) {
    id in s.submitted && s.submitted[id] == kind && id in s.running && s.running[id] == pc
  }

  /** The call that the running block made by re-adapting has returned, if there was one. */
  predicate BlockFree(s: State) {
    s.resuming.Some? ==> s.resuming.value !in s.running
  }

  /** A call leaves the set of running calls. */
  function Leave(s: State, id: Id): State {
    s.(running := s.running - {id})
  }

  function Goto(s: State, id: Id, pc: Pc): State {
    s.(running := s.running[id := pc])
  }

  function Deliver(s: State, id: Id, outcome: Outcome): State {
    s.(delivered := s.delivered + [Delivery(id, outcome)])
  }

  function AfterAdapt(s: State, id: Id, requiresRefresh: bool, t1: real, t2: real): State {
    var (core, result) := AdaptLocked(s.core, id, requiresRefresh, t1, t2);
    var t := s.(core := core, now := t2);
    match result
    case Adapt(c) => Goto(t, id, Completing(Authenticated(c)))
    case DoNotAdapt(e) => Goto(t, id, Completing(AdaptFailed(e)))
    case AdaptDeferred => Leave(t, id)
  }

  /** The head of the queue, a Resume or Reject block, takes up its next caller, or ends. */
  function BlockStep(s: State): State
    requires |s.core.queue| > 0 && !s.core.queue[0].RefreshCall?
  {
    var b, rest := s.core.queue[0], s.core.queue[1..];
    if b.adapts != [] then
      var id := b.adapts[0];
      var t := s.(core := s.core.(queue := [b.(adapts := b.adapts[1..])] + rest));
      if b.Resume? then Goto(t, id, Starting).(resuming := Some(id)) else Deliver(t, id, AdaptFailed(b.error))
    else if b.retries != [] then
      var t := s.(core := s.core.(queue := [b.(retries := b.retries[1..])] + rest));
      Deliver(t, b.retries[0], if b.Resume? then Retry else DoNotRetryWithError(b.error))
    else s.(core := s.core.(queue := rest), resuming := None)
  }

  /** The successor state, when the step is possible. */
  function Next(s: State, l: Label): Option<State> {
    match l
    case Submit(id, kind) =>
      if id in s.submitted then None
      else Some(Goto(s.(submitted := s.submitted[id := kind]), id, Starting))
    case AdaptStep(id, needs, t1, t2) =>
      if Runs(s, id, AdaptCall, Starting) && s.now <= t1 <= t2 then Some(AfterAdapt(s, id, needs, t1, t2)) else None
    case RetryRead(id, eligible) =>
      if !Runs(s, id, RetryCall, Starting) then None
      else if !eligible then Some(Goto(s, id, Completing(DoNotRetry)))
      else if s.core.credential.None? then Some(Goto(s, id, Completing(DoNotRetryWithError(MissingCredential))))
      else Some(Goto(s, id, HasCredential(s.core.credential.value)))
    case RetryStep(id, authenticated, t1, t2) =>
      if !(id in s.submitted && s.submitted[id].RetryCall? && id in s.running && s.running[id].HasCredential?) then None
      else if !(s.now <= t1 <= t2) then None
      else if !authenticated then Some(Goto(s, id, Completing(Retry)))
      else Some(Leave(s.(core := RetryLocked(s.core, id, s.running[id].credential, t1, t2), now := t2), id))
    case Complete(id) =>
      if id in s.running && s.running[id].Completing? then Some(Deliver(Leave(s, id), id, s.running[id].outcome))
      else None
    case RunRefresh =>
      if |s.core.queue| > 0 && s.core.queue[0].RefreshCall?
      then Some(s.(core := s.core.(queue := s.core.queue[1..]), awaiting := s.awaiting + 1)) else None
    case ReplySuccess(c) =>
      if s.awaiting > 0 then Some(s.(core := RefreshSucceeded(s.core, c), awaiting := s.awaiting - 1)) else None
    case ReplyFailure(code) =>
      if s.awaiting > 0 then Some(s.(core := RefreshFailed(s.core, RefreshError(code)), awaiting := s.awaiting - 1))
      else None
    case NextInBlock =>
      if |s.core.queue| > 0 && !s.core.queue[0].RefreshCall? && BlockFree(s) then Some(BlockStep(s)) else None
    case SetCredential(c) => Some(s.(core := s.core.(credential := c)))
    case Tick(to) => if s.now <= to then Some(s.(now := to)) else None
  }

  /** The state after a run, when every step of it is possible. */
  function Run(s: State, labels: seq<Label>): Option<State>
    decreases |labels|
  {
    if labels == [] then Some(s)
    else
      match Next(s, labels[0])
      case None => None
      case Some(t) => Run(t, labels[1..])
  }
}
