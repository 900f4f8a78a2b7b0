/**
 The life of a request, told from the steps of a run alone: which moves succeed, how often finish
 is to be called, when the request is finishing, how often it was retried, and what its lists hold.
 */
module LifeCycle {
  import opened PipelineOutcomes
  import opened RequestPipeline

  /** `due` counts the calls of finish that are still to come. */
  datatype Life = Life(state: ReqState, finishing: bool, drained: bool, retries: int, due: int)

  /** Neither cancelled nor finished. */
  predicate Active(s: ReqState) {
    s.Initialized? || s.Resumed? || s.Suspended?
  }

  /** What a step does to the life of the request; `drains`: with it the completions are taken. */
  function Lived(x: Life, l: Label, drains: bool): Life {
    match l
    case Append(_) => if x.state.Finished? then x.(state := Resumed) else x
    case Cancel(live) =>
      if !Active(x.state) then x
      else if live then x.(state := Cancelled) else x.(state := Cancelled, due := x.due + 1)
    case Suspend => if x.state.Initialized? || x.state.Resumed? then x.(state := Suspended) else x
    case Resume => if x.state.Initialized? || x.state.Suspended? then x.(state := Resumed) else x
    case AttemptEnds(retry) => if retry then x else x.(due := x.due + 1)
    case CallFinish => x.(due := x.due - 1)
    case StartFinishing => x.(finishing := true)
    case Prepare => x.(finishing := false, retries := x.retries + 1)
    case Advance(_, _) =>
      if drains then x.(state := if Active(x.state) then Finished else x.state, finishing := false, drained := true)
      else x
    case _ => x
  }

  predicate Drains(w: World, l: Label) {
    l.Advance? && l.chain < |w.chains| && w.chains[l.chain].Draining?
  }

  lemma {:induction false} RunSplit(labels: seq<Label>)
    requires labels != [] && Run(INIT, labels).Some?
    ensures var before, l := labels[..|labels| - 1], labels[|labels| - 1];
            Run(INIT, before).Some? && Step(Run(INIT, before).value, l) == Run(INIT, labels)
  {
    hide Run, Step;
    RunThen(INIT, labels[..|labels| - 1], labels[|labels| - 1]);
    assert labels[..|labels| - 1] + [labels[|labels| - 1]] == labels;
  }

  /** The life of the request in a run. */
  function LifeAfter(labels: seq<Label>): Life
    requires Run(INIT, labels).Some?
    decreases |labels|
  {
    if labels == [] then Life(Initialized, false, false, 0, 0)
    else
      var before, l := labels[..|labels| - 1], labels[|labels| - 1];
      RunSplit(labels);
      Lived(LifeAfter(before), l, Drains(Run(INIT, before).value, l))
  }

  /** The serializers appended since the last drain. */
  function AppendedSince(log: seq<Event>): seq<Id> {
    if log == [] then []
    else
      var before, e := AppendedSince(log[..|log| - 1]), log[|log| - 1];
      match e
      case Appended(id) => before + [id]
      case Drained => []
      case _ => before
  }

  /** The serializers completed since the last drain and the last retry. */
  function EndedSince(log: seq<Event>): seq<Id> {
    if log == [] then []
    else
      var before, e := EndedSince(log[..|log| - 1]), log[|log| - 1];
      match e
      case Ended(id) => before + [id]
      case Drained => []
      case WasReset => []
      case _ => before
  }

  predicate Lives(w: World, x: Life) {
    && w.core.state == x.state && w.core.isFinishing == x.finishing && w.core.processingFinished == x.drained
    && w.core.retryCount == x.retries && w.finishes == x.due
  }

  predicate Lists(w: World) {
    w.core.serializers == AppendedSince(w.log) && w.core.completions == EndedSince(w.log)
  }

  lemma {:induction false} AdvanceLives(w: World, x: Life, i: nat, retry: bool)
    requires Lives(w, x) && i < |w.chains| && AfterAdvance(w, i, retry).Some?
    ensures Lives(AfterAdvance(w, i, retry).value, Lived(x, Advance(i, retry), w.chains[i].Draining?))
  {
  }

  lemma {:induction false} StepLives(w: World, x: Life, l: Label)
    requires Lives(w, x) && Step(w, l).Some?
    ensures Lives(Step(w, l).value, Lived(x, l, Drains(w, l)))
  {
    hide AfterAdvance;
    match l
    case Advance(i, retry) => AdvanceLives(w, x, i, retry);
    case _ =>
  }

  lemma {:induction false} LogLists(log: seq<Event>, e: Event)
    ensures AppendedSince(log + [e]) ==
            if e.Appended? then AppendedSince(log) + [e.id] else if e.Drained? then [] else AppendedSince(log)
    ensures EndedSince(log + [e]) ==
            if e.Ended? then EndedSince(log) + [e.id] else if e.Drained? || e.WasReset? then [] else EndedSince(log)
  {
    assert (log + [e])[..|log|] == log;
  }

  lemma {:induction false} AdvanceLists(w: World, i: nat, retry: bool)
    requires Lists(w) && i < |w.chains| && AfterAdvance(w, i, retry).Some?
    ensures Lists(AfterAdvance(w, i, retry).value)
  {
    hide AppendedSince, EndedSince;
    var v := AfterAdvance(w, i, retry).value;
    if v.log != w.log {
      LogLists(w.log, v.log[|v.log| - 1]);
    }
  }

  lemma {:induction false} StepLists(w: World, l: Label)
    requires Lists(w) && Step(w, l).Some?
    ensures Lists(Step(w, l).value)
  {
    hide AfterAdvance, AppendedSince, EndedSince;
    match l
    case Advance(i, retry) => AdvanceLists(w, i, retry);
    case Append(id) => LogLists(w.log, Appended(id));
    case Prepare => LogLists(w.log, WasReset);
    case _ =>
  }

  /**
   In every run, whatever the order of its steps: the state of the request, whether it is finishing,
   how often it was retried and how often finish is still to be called are what its life says, and
   its lists are what was appended and completed since they were emptied.
   */
  lemma {:induction false} LivesAsTold(labels: seq<Label>)
    requires Run(INIT, labels).Some?
    ensures var w, x := Run(INIT, labels).value, LifeAfter(labels);
            && w.core.state == x.state && w.core.isFinishing == x.finishing && w.core.processingFinished == x.drained
            && w.core.retryCount == x.retries && w.finishes == x.due
            && w.core.serializers == AppendedSince(w.log) && w.core.completions == EndedSince(w.log)
    decreases |labels|
  {
    hide Step, Lived;
    if labels != [] {
      var before, l := labels[..|labels| - 1], labels[|labels| - 1];
      RunSplit(labels);
      LivesAsTold(before);
      StepLives(Run(INIT, before).value, LifeAfter(before), l);
      StepLists(Run(INIT, before).value, l);
    }
  }

  /** Number of steps of the run that prepare a retry. */
  function Prepares(labels: seq<Label>): nat {
    if labels == [] then 0
    else Prepares(labels[..|labels| - 1]) + if labels[|labels| - 1] == Prepare then 1 else 0
  }

  /** A request's retryCount is the number of its retries. */
  lemma {:induction false} RetriesCounted(labels: seq<Label>)
    requires Run(INIT, labels).Some?
    ensures Run(INIT, labels).value.core.retryCount == Prepares(labels)
    decreases |labels|
  {
    hide Step;
    if labels != [] {
      var before, l := labels[..|labels| - 1], labels[|labels| - 1];
      RunSplit(labels);
      RetriesCounted(before);
      LivesAsTold(before);
      StepLives(Run(INIT, before).value, LifeAfter(before), l);
    }
  }

  /** Cancelling takes effect on every request that is neither cancelled nor finished, and leads to its end. */
  lemma {:induction false} CancelTakesEffect(labels: seq<Label>, live: bool)
    requires Run(INIT, labels + [Cancel(live)]).Some?
    ensures Run(INIT, labels).Some?
    ensures var w, v := Run(INIT, labels).value, Run(INIT, labels + [Cancel(live)]).value;
            && v.core.state == (if w.core.state.Finished? then Finished else Cancelled)
            && v.finishes == w.finishes + (if Active(w.core.state) && !live then 1 else 0)
            && (live ==> w.attempt.Running?)
  {
    RunThen(INIT, labels, Cancel(live));
  }

  /** Suspending takes effect on a request that has not been suspended, cancelled or finished; resuming likewise. */
  lemma {:induction false} SuspendAndResume(labels: seq<Label>)
    requires Run(INIT, labels).Some?
    ensures Run(INIT, labels + [Suspend]).Some? && Run(INIT, labels + [Resume]).Some?
    ensures var s := Run(INIT, labels).value.core.state;
            && Run(INIT, labels + [Suspend]).value.core.state == (if Active(s) then Suspended else s)
            && Run(INIT, labels + [Resume]).value.core.state == (if Active(s) then Resumed else s)
  {
    RunThen(INIT, labels, Suspend);
    RunThen(INIT, labels, Resume);
  }
}
