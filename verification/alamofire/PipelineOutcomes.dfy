/** How a run of the response-serializer pipeline ends, and when its completions are never called. */
module PipelineOutcomes {
  import opened PipelineInvariants
  import opened RequestPipeline
  import opened Wrappers

  // ----- retries that are dropped

  lemma {:induction false} RunThen(w: World, labels: seq<Label>, l: Label)
    ensures Run(w, labels + [l]) == if Run(w, labels).None? then None else Step(Run(w, labels).value, l)
    ensures Run(w, labels).Some? && Timely(w, labels) && InTime(Run(w, labels).value, l) ==> Timely(w, labels + [l])
    decreases |labels|
  {
    hide Step, InTime;
    if labels == [] {
      assert [l][1..] == [] && labels + [l] == [l];
    } else {
      assert (labels + [l])[1..] == labels[1..] + [l];
      if Step(w, labels[0]).Some? {
        RunThen(Step(w, labels[0]).value, labels[1..], l);
      }
    }
  }

  /** The state that step i of a run finds. */
  function Before(labels: seq<Label>, i: nat): Option<World>
    requires i <= |labels|
  {
    Run(INIT, labels[..i])
  }

  /** Step i finds the request cancelled. */
  predicate FindsCancelled(labels: seq<Label>, i: nat)
    requires i < |labels|
  {
    Before(labels, i).Some? && Before(labels, i).value.core.state.Cancelled?
  }

  /** Step i cancels the request while its task can still complete, so that nothing but the task will finish it. */
  predicate CancelsLive(labels: seq<Label>, i: nat)
    requires i < |labels|
  {
    labels[i] == Cancel(true) && Before(labels, i).Some? &&
      CanTransitionTo(Before(labels, i).value.core.state, Cancelled)
  }

  /** In step i the retry that a serializer asked for comes due, and finds the request cancelled. */
  predicate DropsSerializersRetry(labels: seq<Label>, i: nat)
    requires i < |labels|
  {
    && FindsCancelled(labels, i)
    && labels[i].Advance? && labels[i].chain < |Before(labels, i).value.chains|
    && Before(labels, i).value.chains[labels[i].chain].RetryDue?
  }

  /** In step i the retry of a task that was cancelled while it could still complete comes due. */
  predicate DropsTasksRetry(labels: seq<Label>, i: nat)
    requires i < |labels|
  {
    labels[i].RetryTask? && FindsCancelled(labels, i) && exists j | 0 <= j < i :: CancelsLive(labels, j)
  }

  predicate DropsRetry(labels: seq<Label>, i: nat)
    requires i < |labels|
  {
    DropsSerializersRetry(labels, i) || DropsTasksRetry(labels, i)
  }

  predicate RetryDropped(labels: seq<Label>) {
    exists i | 0 <= i < |labels| :: DropsRetry(labels, i)
  }

  predicate CancelledLive(labels: seq<Label>) {
    exists i | 0 <= i < |labels| :: CancelsLive(labels, i)
  }

  lemma {:induction false} EarlierSteps(labels: seq<Label>, l: Label, i: nat)
    requires i < |labels|
    ensures CancelsLive(labels + [l], i) == CancelsLive(labels, i)
    ensures DropsSerializersRetry(labels + [l], i) == DropsSerializersRetry(labels, i)
    ensures FindsCancelled(labels + [l], i) == FindsCancelled(labels, i)
  {
    assert (labels + [l])[..i] == labels[..i];
  }

  lemma {:induction false} CancelledLiveThen(labels: seq<Label>, l: Label)
    ensures CancelledLive(labels + [l]) == (CancelledLive(labels) || CancelsLive(labels + [l], |labels|))
  {
    hide CancelsLive;
    var all := labels + [l];
    forall i | 0 <= i < |labels| ensures CancelsLive(all, i) == CancelsLive(labels, i) {
      EarlierSteps(labels, l, i);
    }
  }

  lemma {:induction false} EarlierDrop(labels: seq<Label>, l: Label, i: nat)
    requires i < |labels|
    ensures DropsRetry(labels + [l], i) == DropsRetry(labels, i)
  {
    hide CancelsLive, DropsSerializersRetry, FindsCancelled;
    EarlierSteps(labels, l, i);
    forall j | 0 <= j < i ensures CancelsLive(labels + [l], j) == CancelsLive(labels, j) {
      EarlierSteps(labels, l, j);
    }
  }

  lemma {:induction false} RetryDroppedThen(labels: seq<Label>, l: Label)
    ensures RetryDropped(labels + [l]) == (RetryDropped(labels) || DropsRetry(labels + [l], |labels|))
  {
    hide DropsRetry;
    forall i | 0 <= i < |labels| ensures DropsRetry(labels + [l], i) == DropsRetry(labels, i) {
      EarlierDrop(labels, l, i);
    }
  }

  /** What the last step adds. */
  lemma {:induction false} LastStepDrops(labels: seq<Label>, l: Label)
    requires Run(INIT, labels).Some? && Step(Run(INIT, labels).value, l).Some?
    requires Run(INIT, labels).value.cancelledLive == CancelledLive(labels)
    ensures var w, v := Run(INIT, labels).value, Step(Run(INIT, labels).value, l).value;
            && v.cancelledLive == (w.cancelledLive || CancelsLive(labels + [l], |labels|))
            && v.dropped == (w.dropped || DropsRetry(labels + [l], |labels|))
  {
    hide Run, CancelsLive;
    var all, n := labels + [l], |labels|;
    assert all[..n] == labels && all[n] == l;
    LastCancels(labels, l);
    if l.RetryTask? {
      forall j | 0 <= j < n ensures CancelsLive(all, j) == CancelsLive(labels, j) {
        EarlierSteps(labels, l, j);
      }
    }
  }

  lemma {:induction false} LastCancels(labels: seq<Label>, l: Label)
    requires Run(INIT, labels).Some? && Step(Run(INIT, labels).value, l).Some?
    ensures var w, v := Run(INIT, labels).value, Step(Run(INIT, labels).value, l).value;
            v.cancelledLive == (w.cancelledLive || CancelsLive(labels + [l], |labels|))
  {
    hide Run;
    assert (labels + [l])[..|labels|] == labels;
  }

  /** The two flags of a state record what its run did. */
  lemma {:induction false} FlagsTell(labels: seq<Label>)
    requires Run(INIT, labels).Some?
    ensures Run(INIT, labels).value.cancelledLive == CancelledLive(labels)
    ensures Run(INIT, labels).value.dropped == RetryDropped(labels)
    decreases |labels|
  {
    if labels != [] {
      hide Run, Step, CancelledLive, RetryDropped;
      var n := |labels| - 1;
      var before, l := labels[..n], labels[n];
      assert labels == before + [l];
      RunThen(INIT, before, l);
      FlagsTell(before);
      LastStepDrops(before, l);
      CancelledLiveThen(before, l);
      RetryDroppedThen(before, l);
    }
  }

  /**
   A quiet request has called every completion, unless a serializer's retry came due after a
   cancellation, or a task's retry after the cancellation of that task; then it has called none.
   */
  lemma {:induction false} QuietOutcome(labels: seq<Label>)
    requires Timely(INIT, labels) && Run(INIT, labels).Some? && Quiet(Run(INIT, labels).value)
    ensures var w := Run(INIT, labels).value;
            && Observed(w.log).Some?
            && var m := Observed(w.log).value;
               && m.ran == (if RetryDropped(labels) then 0 else |m.appended|) && m.drained == !RetryDropped(labels)
  {
    hide RetryDropped;
    InitInv();
    RunKeeps(INIT, labels);
    FlagsTell(labels);
  }

  /** A request whose retry was dropped never calls a completion, whatever comes. */
  lemma {:induction false} DroppedForever(labels: seq<Label>, more: seq<Label>)
    requires Timely(INIT, labels) && Run(INIT, labels).Some? && RetryDropped(labels)
    requires Timely(Run(INIT, labels).value, more) && Run(Run(INIT, labels).value, more).Some?
    ensures !Run(Run(INIT, labels).value, more).value.core.processingFinished
  {
    hide RetryDropped;
    InitInv();
    RunKeeps(INIT, labels);
    FlagsTell(labels);
    StaysDropped(Run(INIT, labels).value, more);
  }

  lemma {:induction false} StaysDropped(w: World, labels: seq<Label>)
    requires Inv(w) && w.dropped && Timely(w, labels) && Run(w, labels).Some?
    ensures Run(w, labels).value.dropped && !Run(w, labels).value.core.processingFinished
    decreases |labels|
  {
    if labels != [] {
      StepKeeps(w, labels[0]);
      assert Step(w, labels[0]).value.dropped;
      StaysDropped(Step(w, labels[0]).value, labels[1..]);
    }
  }

  // ----- runs in which a completion is never called

  lemma {:induction false} Start()
    ensures Run(INIT, []) == Some(INIT) && Timely(INIT, [])
  {
  }

  /** A run gone on by one step. */
  lemma {:induction false} Then(labels: seq<Label>, w: World, l: Label) returns (more: seq<Label>, v: World)
    requires Run(INIT, labels) == Some(w) && Step(w, l).Some?
    ensures more == labels + [l] && v == Step(w, l).value && Run(INIT, more) == Some(v)
    ensures Timely(INIT, labels) && InTime(w, l) ==> Timely(INIT, more)
  {
    RunThen(INIT, labels, l);
    more, v := labels + [l], Step(w, l).value;
  }

  /** The request finishes, with its first chain ready to go. */
  lemma {:induction false} Finishing(id: Id) returns (labels: seq<Label>, w: World)
    ensures Timely(INIT, labels) && Run(INIT, labels) == Some(w)
    ensures w == World(Core(Initialized, [id], [], false, true, 0), Over, Free, 0, [Next], [Appended(id)], false, false)
  {
    hide Run, Timely;
    labels, w := [], INIT;
    Start();
    labels, w := Then(labels, w, Append(id));
    labels, w := Then(labels, w, StartTask);
    labels, w := Then(labels, w, AttemptEnds(false));
    labels, w := Then(labels, w, CallFinish);
    labels, w := Then(labels, w, StartFinishing);
  }

  /**
   Cancelled between a serializer's retry being asked for and its coming due, a request never calls its completion.
   */
  lemma {:induction false} CancelledRetryHangs(id: Id) returns (labels: seq<Label>)
    ensures Timely(INIT, labels) && Run(INIT, labels).Some?
    ensures var w := Run(INIT, labels).value;
            Quiet(w) && w.log == [Appended(id), Began(id)]
  {
    hide Run, Timely;
    var w;
    labels, w := Finishing(id);
    labels, w := Then(labels, w, Advance(0, false));
    labels, w := Then(labels, w, Advance(0, true));
    labels, w := Then(labels, w, Cancel(false));
    labels, w := Then(labels, w, CallFinish);
    labels, w := Then(labels, w, Advance(0, false));
  }

  /** Cancelled while its task runs, and retried for the error of that task, a request never even begins to finish. */
  lemma {:induction false} CancelledTaskHangs(id: Id) returns (labels: seq<Label>)
    ensures Timely(INIT, labels) && Run(INIT, labels).Some?
    ensures var w := Run(INIT, labels).value;
            Quiet(w) && !w.core.isFinishing && w.log == [Appended(id)]
  {
    hide Run, Timely;
    var w;
    labels, w := [], INIT;
    Start();
    labels, w := Then(labels, w, Append(id));
    labels, w := Then(labels, w, StartTask);
    labels, w := Then(labels, w, Cancel(true));
    labels, w := Then(labels, w, AttemptEnds(true));
    labels, w := Then(labels, w, RetryTask);
  }

  /** The pipeline of a request without serializers has looked for one. */
  lemma {:induction false} FoundNone() returns (labels: seq<Label>, w: World)
    ensures Run(INIT, labels) == Some(w)
    ensures w == World(Core(Initialized, [], [], false, true, 0), Over, Free, 0, [Draining], [], false, false)
  {
    hide Run, Timely;
    labels, w := [], INIT;
    Start();
    labels, w := Then(labels, w, AttemptEnds(false));
    labels, w := Then(labels, w, CallFinish);
    labels, w := Then(labels, w, StartFinishing);
    labels, w := Then(labels, w, Advance(0, false));
  }

  /** Appended between the pipeline's finding no serializer and its taking the completions, a serializer is lost. */
  lemma {:induction false} LateSerializerLost(id: Id) returns (labels: seq<Label>)
    ensures Run(INIT, labels).Some?
    ensures var w := Run(INIT, labels).value;
            Quiet(w) && w.core.state.Finished? && w.core.serializers == [] && w.log == [Appended(id), Drained]
  {
    hide Run, Timely;
    var w;
    labels, w := FoundNone();
    labels, w := Then(labels, w, Append(id));
    labels, w := Then(labels, w, Advance(0, false));
    labels, w := Then(labels, w, Advance(0, false));
  }
}
