/**
 Request: its life-cycle states, the lock sections of its response-serializer pipeline, and the
 protocol of finish, serializers, retries and cancellation running beside each other.
 */
module RequestPipeline {
  import opened Wrappers

  type Id = nat

  datatype ReqState = Initialized | Resumed | Suspended | Cancelled | Finished

  predicate CanTransitionTo(from: ReqState, to: ReqState) {
    match (from, to)
    case (Initialized, _) => true
    case (_, Initialized) => false
    case (Cancelled, _) => false
    case (Finished, _) => false
    case (Resumed, Cancelled) => true
    case (Suspended, Cancelled) => true
    case (Resumed, Suspended) => true
    case (Suspended, Resumed) => true
    case (Suspended, Suspended) => false
    case (Resumed, Resumed) => false
    case (_, Finished) => true
  }

  /** The lock-protected state that the pipeline uses. */
  datatype Core = Core(
    state: ReqState, serializers: seq<Id>, completions: seq<Id>,
    processingFinished: bool, isFinishing: bool, retryCount: nat)

  // ----- the lock sections

  function MovedTo(c: Core, to: ReqState): Core {
    if CanTransitionTo(c.state, to) then c.(state := to) else c
  }

  function WithSerializer(c: Core, id: Id): Core {
    c.(serializers := c.serializers + [id], state := if c.state.Finished? then Resumed else c.state)
  }

  function NextSerializer(c: Core): Option<Id> {
    if |c.completions| < |c.serializers| then Some(c.serializers[|c.completions|]) else None
  }

  /** The state after the completions have been taken out to be called. */
  function Emptied(c: Core): Core {
    MovedTo(c, Finished).(serializers := [], completions := [], processingFinished := true, isFinishing := false)
  }

  function WithCompletion(c: Core, id: Id): Core {
    c.(completions := c.completions + [id])
  }

  function ForRetry(c: Core): Core {
    c.(retryCount := c.retryCount + 1, isFinishing := false, completions := [])
  }

  /** The object, whose lock sections update its fields in place. */
  class Request {
    var state: ReqState
    var responseSerializers: seq<Id>
    var responseSerializerCompletions: seq<Id>
    var responseSerializerProcessingFinished: bool
    var isFinishing: bool
    var retryCount: nat

    ghost function Now(): Core
      reads this
    {
      Core(state, responseSerializers, responseSerializerCompletions, responseSerializerProcessingFinished,
        isFinishing, retryCount)
    }

    constructor ()
      ensures Now() == Core(Initialized, [], [], false, false, 0)
    {
      state := Initialized;
      responseSerializers := [];
      responseSerializerCompletions := [];
      responseSerializerProcessingFinished := false;
      isFinishing := false;
      retryCount := 0;
    }

    /** Tells whether the pipeline is to be set going again and whether a resume is to be tried. */
    method AppendResponseSerializer(id: Id) returns (process: bool, resume: bool)
      modifies this
      ensures Now() == WithSerializer(old(Now()), id)
      ensures process == old(responseSerializerProcessingFinished)
      ensures resume == (state.Initialized? || state.Suspended?)
    {
      responseSerializers := responseSerializers + [id];
      if state == Finished {
        state := Resumed;
      }
      process := responseSerializerProcessingFinished;
      resume := CanTransitionTo(state, Resumed);
    }

    method NextResponseSerializer() returns (next: Option<Id>)
      ensures next == NextSerializer(Now())
    {
      var responseSerializerIndex := |responseSerializerCompletions|;
      if responseSerializerIndex < |responseSerializers| {
        return Some(responseSerializers[responseSerializerIndex]);
      }
      return None;
    }

    /** The last part of processNextResponseSerializer, when no serializer is left. */
    method TakeCompletions() returns (completions: seq<Id>)
      modifies this
      ensures Now() == Emptied(old(Now())) && completions == old(responseSerializerCompletions)
    {
      completions := responseSerializerCompletions;
      responseSerializers := [];
      responseSerializerCompletions := [];
      if CanTransitionTo(state, Finished) {
        state := Finished;
      }
      responseSerializerProcessingFinished := true;
      isFinishing := false;
    }

    /** Without interference: either a serializer to run, or the completions to call. */
    method ProcessNextResponseSerializer() returns (next: Option<Id>, completions: seq<Id>)
      modifies this
      ensures next == NextSerializer(old(Now()))
      ensures if next.Some? then Now() == old(Now()) && completions == []
              else Now() == Emptied(old(Now())) && completions == old(responseSerializerCompletions)
    {
      next := NextResponseSerializer();
      completions := [];
      if next.None? {
        completions := TakeCompletions();
      }
    }

    /** The lock section of responseSerializerDidComplete. */
    method AddCompletion(id: Id)
      modifies this
      ensures Now() == WithCompletion(old(Now()), id)
    {
      responseSerializerCompletions := responseSerializerCompletions + [id];
    }

    /** finish, up to starting the pipeline. */
    method Finish() returns (process: bool)
      modifies this
      ensures process == !old(isFinishing) && Now() == old(Now()).(isFinishing := true)
    {
      if isFinishing {
        return false;
      }
      isFinishing := true;
      return true;
    }

    method Reset()
      modifies this
      ensures Now() == old(Now()).(isFinishing := false, completions := [])
    {
      isFinishing := false;
      responseSerializerCompletions := [];
    }

    method PrepareForRetry()
      modifies this
      ensures Now() == ForRetry(old(Now()))
    {
      retryCount := retryCount + 1;
      Reset();
    }

    /** Tells whether finish is to be called, no task being there to complete. */
    method Cancel(liveTask: bool) returns (finish: bool)
      modifies this
      ensures Now() == old(Now()).(state := if old(state).Finished? then Finished else Cancelled)
      ensures finish == (!liveTask && (old(state).Initialized? || old(state).Resumed? || old(state).Suspended?))
    {
      if !CanTransitionTo(state, Cancelled) {
        return false;
      }
      state := Cancelled;
      return !liveTask;
    }

    method Suspend()
      modifies this
      ensures Now() == old(Now()).(state :=
                if old(state).Initialized? || old(state).Resumed? then Suspended else old(state))
    {
      if CanTransitionTo(state, Suspended) {
        state := Suspended;
      }
    }

    method Resume()
      modifies this
      ensures Now() == old(Now()).(state :=
                if old(state).Initialized? || old(state).Suspended? then Resumed else old(state))
    {
      if CanTransitionTo(state, Resumed) {
        state := Resumed;
      }
    }
  }

  // ----- the protocol

  /** One run of processNextResponseSerializer and what follows from it. */
  datatype Chain =
    | Next                       // about to look for the next serializer
    | Draining                   // found none, about to take the completions
    | Completing(rest: seq<Id>)  // calling the completions it took
    | Serializing(id: Id)
    | Serialized(id: Id)         // about to add its completion
    | RetryDue(id: Id)           // the serializer failed and its retry is queued

  /** The current attempt at the request. */
  datatype Attempt = Preparing | Running | TaskRetryDue | Over

  /** A closure on the serial queue that has passed its guard and has not acted yet. */
  datatype Busy = Free | PassedFinish | PassedRetry

  datatype Event =
    | Appended(id: Id) | Began(id: Id) | Ended(id: Id) | WasReset | Drained | Ran(id: Id)

  datatype World = World(
    core: Core, attempt: Attempt, busy: Busy, finishes: nat, chains: seq<Chain>, log: seq<Event>,
    cancelledLive: bool,  // the request was cancelled while its task could still complete
    dropped: bool)        // a serializer's retry, or a task's after that, came due for the cancelled request

  /** The atomic steps; their arguments are the choices of the environment. */
  datatype Label =
    | Append(id: Id) | Cancel(live: bool) | Suspend | Resume
    | StartTask | GiveUp | AttemptEnds(retry: bool)
    | CallFinish | StartFinishing
    | RetryTask | Prepare
    | Advance(chain: nat, retry: bool)

  const INIT := World(Core(Initialized, [], [], false, false, 0), Preparing, Free, 0, [], [], false, false)

  function Logged(w: World, e: Event): World {
    w.(log := w.log + [e])
  }

  function AfterAppend(w: World, id: Id): World {
    var chains := if w.core.processingFinished then w.chains + [Next] else w.chains;
    Logged(w.(core := WithSerializer(w.core, id), chains := chains), Appended(id))
  }

  /** `live`: there is a task that has not completed, and that will therefore end the attempt. */
  function AfterCancel(w: World, live: bool): World {
    if !CanTransitionTo(w.core.state, Cancelled) then w
    else if live then w.(core := w.core.(state := Cancelled), cancelledLive := true)
    else w.(core := w.core.(state := Cancelled), finishes := w.finishes + 1)
  }

  function WithoutChain(w: World, i: nat): World
    requires i < |w.chains|
  {
    w.(chains := w.chains[..i] + w.chains[i + 1..])
  }

  /** A chain's next step; a queued retry has to wait for the serial queue. */
  function AfterAdvance(w: World, i: nat, retry: bool): Option<World>
    requires i < |w.chains|
  {
    match w.chains[i]
    case Next =>
      (match NextSerializer(w.core)
       case Some(id) => Some(Logged(w.(chains := w.chains[i := Serializing(id)]), Began(id)))
       case None => Some(w.(chains := w.chains[i := Draining])))
    case Draining =>
      Some(Logged(w.(core := Emptied(w.core), chains := w.chains[i := Completing(w.core.completions)]), Drained))
    case Completing(rest) =>
      if rest == [] then Some(WithoutChain(w, i))
      else Some(Logged(w.(chains := w.chains[i := Completing(rest[1..])]), Ran(rest[0])))
    case Serializing(id) => Some(w.(chains := w.chains[i := if retry then RetryDue(id) else Serialized(id)]))
    case Serialized(id) =>
      Some(Logged(w.(core := WithCompletion(w.core, id), chains := w.chains[i := Next]), Ended(id)))
    case RetryDue(_) =>
      if !w.busy.Free? then None
      else if w.core.state.Cancelled? then Some(WithoutChain(w, i).(dropped := true))
      else Some(WithoutChain(w, i).(busy := PassedRetry))
  }

  /** The successor state, when the step is possible. */
  function Step(w: World, l: Label): Option<World> {
    match l
    case Append(id) => Some(AfterAppend(w, id))
    case Cancel(live) => if live && !w.attempt.Running? then None else Some(AfterCancel(w, live))
    case Suspend => Some(w.(core := MovedTo(w.core, Suspended)))
    case Resume => Some(w.(core := MovedTo(w.core, Resumed)))
    case StartTask => if w.attempt.Preparing? then Some(w.(attempt := Running)) else None
    case GiveUp => if w.attempt.Preparing? && w.core.state.Cancelled? then Some(w.(attempt := Over)) else None
    case AttemptEnds(retry) =>
      if !(w.attempt.Preparing? || w.attempt.Running?) then None
      else if retry then Some(w.(attempt := TaskRetryDue))
      else Some(w.(attempt := Over, finishes := w.finishes + 1))
    case CallFinish =>
      if !(w.finishes > 0 && w.busy.Free?) then None
      else if w.core.isFinishing then Some(w.(finishes := w.finishes - 1))
      else Some(w.(finishes := w.finishes - 1, busy := PassedFinish))
    case StartFinishing =>
      if w.busy.PassedFinish?
      then Some(w.(core := w.core.(isFinishing := true), busy := Free, chains := w.chains + [Next]))
      else None
    case RetryTask =>
      if !(w.attempt.TaskRetryDue? && w.busy.Free?) then None
      else if w.core.state.Cancelled? then Some(w.(attempt := Over, dropped := w.dropped || w.cancelledLive))
      else Some(w.(attempt := Over, busy := PassedRetry))
    case Prepare =>
      if w.busy.PassedRetry?
      then Some(Logged(w.(core := ForRetry(w.core), busy := Free, attempt := Preparing), WasReset))
      else None
    case Advance(i, retry) => if i < |w.chains| then AfterAdvance(w, i, retry) else None
  }

  /** The state after a run, when every step of it is possible. */
  function Run(w: World, labels: seq<Label>): Option<World>
    decreases |labels|
  {
    if labels == [] then Some(w)
    else
      match Step(w, labels[0])
      case None => None
      case Some(v) => Run(v, labels[1..])
  }

  // ----- the simple form that the protocol refines

  /** What a client may rely on: the serializers appended, and how far the current attempt and the completions are. */
  datatype Spec = Spec(appended: seq<Id>, open: bool, done: nat, drained: bool, ran: nat)

  /** Serializers run one at a time in order; an attempt may be abandoned; completions run in order after the last. */
  function Observe(m: Spec, e: Event): Option<Spec> {
    match e
    case Appended(id) => if m.drained then None else Some(m.(appended := m.appended + [id]))
    case Began(id) =>
      if !m.drained && !m.open && m.done < |m.appended| && id == m.appended[m.done] then Some(m.(open := true))
      else None
    case Ended(id) =>
      if m.open && m.done < |m.appended| && id == m.appended[m.done] then Some(m.(open := false, done := m.done + 1))
      else None
    case WasReset =>
      if !m.drained && (m.open || m.done == 0) then Some(m.(open := false, done := 0)) else None
    case Drained =>
      if m.drained then Some(m)
      else if !m.open && m.done == |m.appended| then Some(m.(drained := true)) else None
    case Ran(id) =>
      if m.drained && m.ran < |m.appended| && id == m.appended[m.ran] then Some(m.(ran := m.ran + 1)) else None
  }

  /** The state of the simple form after a history, when it allows the history. */
  function Observed(log: seq<Event>): Option<Spec> {
    if log == [] then Some(Spec([], false, 0, false, 0))
    else
      match Observed(log[..|log| - 1])
      case None => None
      case Some(m) => Observe(m, log[|log| - 1])
  }
}
