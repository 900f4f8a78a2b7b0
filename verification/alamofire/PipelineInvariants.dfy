/** What holds in every run of the response-serializer pipeline. */
module PipelineInvariants {
  import opened RequestPipeline

  // ----- the state of a request, in every run

  /**
   A cancelled request stays cancelled; no request becomes initialized again; only an append revives a finished one.
   */
  predicate StateLaw(before: ReqState, after: ReqState, appends: bool) {
    && (before.Cancelled? ==> after.Cancelled?)
    && (!before.Initialized? ==> !after.Initialized?)
    && (before.Finished? && !appends ==> after.Finished?)
  }

  lemma {:induction false} AdvanceState(w: World, i: nat, retry: bool)
    requires i < |w.chains| && AfterAdvance(w, i, retry).Some?
    ensures StateLaw(w.core.state, AfterAdvance(w, i, retry).value.core.state, false)
  {
  }

  lemma {:induction false} StepState(w: World, l: Label)
    requires Step(w, l).Some?
    ensures StateLaw(w.core.state, Step(w, l).value.core.state, l.Append?)
  {
    hide AfterAdvance;
    match l
    case Advance(i, retry) => AdvanceState(w, i, retry);
    case _ =>
  }

  lemma {:induction false} StatesOverRuns(w: World, labels: seq<Label>)
    requires Run(w, labels).Some?
    ensures StateLaw(w.core.state, Run(w, labels).value.core.state, exists i | 0 <= i < |labels| :: labels[i].Append?)
    decreases |labels|
  {
    if labels != [] {
      StepState(w, labels[0]);
      StatesOverRuns(Step(w, labels[0]).value, labels[1..]);
      assert forall i | 0 <= i < |labels[1..]| :: labels[1..][i] == labels[i + 1];
    }
  }

  // ----- where the pipeline stands, seen from the simple form

  predicate ChainOk(c: Chain, m: Spec) {
    match c
    case Next => !m.open
    case Draining => !m.open && m.done == |m.appended|
    case Completing(_) => false
    case Serializing(id) => m.open && m.done < |m.appended| && id == m.appended[m.done]
    case Serialized(id) => m.open && m.done < |m.appended| && id == m.appended[m.done]
    case RetryDue(id) => m.open && m.done < |m.appended|
  }

  /** At most one chain is at work; the lists are those of the simple form. */
  predicate Processing(w: World, m: Spec) {
    && w.core.serializers == m.appended && m.ran == 0
    && m.done == |w.core.completions| <= |m.appended| && w.core.completions == m.appended[..m.done]
    && |w.chains| <= 1
    && (w.chains != [] ==> w.core.isFinishing && w.busy.Free? && !w.dropped && ChainOk(w.chains[0], m))
    && (w.chains == [] && w.core.isFinishing ==> m.open && m.done < |m.appended| && (w.busy.PassedRetry? || w.dropped))
    && (!w.core.isFinishing ==> !m.open && m.done == 0)
    && (w.busy.PassedFinish? ==> !w.core.isFinishing)
    && (w.dropped ==> w.busy.Free?)
  }

  predicate Spent(c: Chain) {
    c == Next || c == Draining || c == Completing([])
  }

  /** The first chain has the remaining completions to call; the others have nothing left to do. */
  predicate Done(w: World, m: Spec) {
    && w.core.serializers == [] && w.core.completions == [] && !w.dropped && !w.busy.PassedRetry? && !m.open
    && (w.core.state.Finished? || w.core.state.Cancelled?)
    && m.ran <= |m.appended|
    && (m.ran < |m.appended| ==> w.chains != [] && w.chains[0] == Completing(m.appended[m.ran..]))
    && (forall i | 0 <= i < |w.chains| ::
          Spent(w.chains[i]) || (i == 0 && w.chains[i] == Completing(m.appended[m.ran..])))
  }

  predicate Pipe(w: World) {
    && Observed(w.log).Some?
    && var m := Observed(w.log).value;
       m.drained == w.core.processingFinished && if m.drained then Done(w, m) else Processing(w, m)
  }

  function B(b: bool): nat {
    if b then 1 else 0
  }

  /** What may still lead the request to its end. */
  function Tokens(w: World): nat {
    w.finishes + B(w.busy.PassedFinish?) + B(w.core.isFinishing) + B(!w.attempt.Over?)
    + B(w.busy.PassedRetry? && !w.core.isFinishing)
  }

  /** Unless a cancellation added another, exactly one thing leads the request to its end. */
  predicate Control(w: World) {
    && (w.cancelledLive ==> w.core.state.Cancelled? && !w.attempt.Preparing? && !w.busy.PassedRetry?)
    && (w.busy.PassedRetry? && w.core.state.Cancelled? ==> w.finishes > 0)
    && (w.dropped ==> w.core.state.Cancelled? && (w.core.isFinishing || w.cancelledLive))
    && (!w.core.state.Cancelled? || w.cancelledLive ==>
          Tokens(w) == B(!w.core.processingFinished && !(w.dropped && !w.core.isFinishing)))
    && (w.core.state.Cancelled? && !w.cancelledLive && !w.core.processingFinished ==>
          w.finishes > 0 || w.busy.PassedFinish? || w.core.isFinishing)
    && (w.core.processingFinished && (!w.core.state.Cancelled? || w.cancelledLive) ==>
          forall i | 0 <= i < |w.chains| :: w.chains[i].Completing?)
    && (w.core.processingFinished && w.core.isFinishing ==> Next in w.chains || Draining in w.chains)
  }

  predicate Inv(w: World) {
    Pipe(w) && Control(w)
  }

  // ----- every step keeps the invariant

  /** Appends that come before the completions are about to be taken. */
  predicate InTime(w: World, l: Label) {
    l.Append? ==> !w.core.processingFinished && Draining !in w.chains
  }

  lemma {:induction false} AppendKeeps(w: World, id: Id)
    requires Inv(w) && InTime(w, Append(id))
    ensures Inv(AfterAppend(w, id))
  {
  }

  lemma {:induction false} StateKeeps(w: World, to: ReqState)
    requires Inv(w) && (to.Suspended? || to.Resumed?)
    ensures Inv(w.(core := MovedTo(w.core, to)))
  {
  }

  lemma {:induction false} CancelKeeps(w: World, live: bool)
    requires Inv(w) && (live ==> w.attempt.Running?)
    ensures Inv(AfterCancel(w, live))
  {
  }

  lemma {:induction false} AttemptKeeps(w: World, l: Label)
    requires Inv(w) && Step(w, l).Some? && (l.StartTask? || l.GiveUp? || l.AttemptEnds?)
    ensures Inv(Step(w, l).value)
  {
  }

  lemma {:induction false} FinishKeeps(w: World, l: Label)
    requires Inv(w) && Step(w, l).Some? && (l.CallFinish? || l.StartFinishing?)
    ensures Inv(Step(w, l).value)
  {
  }

  lemma {:induction false} RetryKeeps(w: World)
    requires Inv(w) && Step(w, RetryTask).Some?
    ensures Inv(Step(w, RetryTask).value)
  {
  }

  lemma {:induction false} PrepareKeeps(w: World)
    requires Inv(w) && Step(w, Prepare).Some?
    ensures Inv(Step(w, Prepare).value)
  {
  }

  lemma {:induction false} NextKeeps(w: World)
    requires Inv(w) && !w.core.processingFinished && w.chains == [Next]
    ensures Inv(AfterAdvance(w, 0, false).value)
  {
  }

  lemma {:induction false} DrainingKeeps(w: World)
    requires Inv(w) && !w.core.processingFinished && w.chains == [Draining]
    ensures Inv(AfterAdvance(w, 0, false).value)
  {
  }

  lemma {:induction false} SerializingKeeps(w: World, id: Id, retry: bool)
    requires Inv(w) && !w.core.processingFinished && w.chains == [Serializing(id)]
    ensures Inv(AfterAdvance(w, 0, retry).value)
  {
  }

  lemma {:induction false} SerializedKeeps(w: World, id: Id)
    requires Inv(w) && !w.core.processingFinished && w.chains == [Serialized(id)]
    ensures Inv(AfterAdvance(w, 0, false).value)
  {
  }

  lemma {:induction false} RetryDueKeeps(w: World, id: Id)
    requires Inv(w) && !w.core.processingFinished && w.chains == [RetryDue(id)] && w.busy.Free?
    ensures Inv(AfterAdvance(w, 0, false).value)
  {
  }

  lemma {:induction false} OneChain(w: World, i: nat)
    requires Inv(w) && !w.core.processingFinished && i < |w.chains|
    ensures i == 0 && w.chains == [w.chains[0]] && !w.chains[0].Completing?
  {
  }

  lemma {:induction false} ProcessingAdvance(w: World, i: nat, retry: bool)
    requires Inv(w) && !w.core.processingFinished && i < |w.chains| && AfterAdvance(w, i, retry).Some?
    ensures Inv(AfterAdvance(w, i, retry).value)
  {
    hide Inv, NextSerializer, Emptied, WithCompletion;
    OneChain(w, i);
    match w.chains[0]
    case Next => NextKeeps(w);
    case Draining => DrainingKeeps(w);
    case Serializing(id) => SerializingKeeps(w, id, retry);
    case Serialized(id) => SerializedKeeps(w, id);
    case RetryDue(id) => RetryDueKeeps(w, id);
    case Completing(_) => assert false;
  }

  /** After the first drain, another one finds nothing. */
  lemma {:induction false} SpentKeeps(w: World, i: nat, retry: bool)
    requires Inv(w) && w.core.processingFinished && i < |w.chains| && (w.chains[i] == Next || w.chains[i] == Draining)
    ensures AfterAdvance(w, i, retry).Some? && Inv(AfterAdvance(w, i, retry).value)
  {
    assert AfterAdvance(w, i, retry).value.chains[i] in AfterAdvance(w, i, retry).value.chains;
  }

  lemma {:induction false} CompletingKeeps(w: World, i: nat, retry: bool)
    requires Inv(w) && w.core.processingFinished && i < |w.chains| && w.chains[i].Completing?
    ensures AfterAdvance(w, i, retry).Some? && Inv(AfterAdvance(w, i, retry).value)
  {
    hide Control;
    var rest, m := w.chains[i].rest, Observed(w.log).value;
    if rest != [] {
      assert i == 0 && rest == m.appended[m.ran..];
      assert rest[1..] == m.appended[m.ran + 1..];
    }
    CompletingControl(w, i, retry);
  }

  lemma {:induction false} CompletingControl(w: World, i: nat, retry: bool)
    requires Control(w) && w.core.processingFinished && i < |w.chains| && w.chains[i].Completing?
    ensures Control(AfterAdvance(w, i, retry).value)
  {
    var v := AfterAdvance(w, i, retry).value;
    if w.core.isFinishing {
      var k :| 0 <= k < |w.chains| && (w.chains[k].Next? || w.chains[k].Draining?);
      assert v.chains[if |v.chains| < |w.chains| && k > i then k - 1 else k] == w.chains[k];
    }
  }

  lemma {:induction false} AdvanceKeeps(w: World, i: nat, retry: bool)
    requires Inv(w) && i < |w.chains| && AfterAdvance(w, i, retry).Some?
    ensures Inv(AfterAdvance(w, i, retry).value)
  {
    if !w.core.processingFinished {
      ProcessingAdvance(w, i, retry);
    } else if w.chains[i].Completing? {
      CompletingKeeps(w, i, retry);
    } else {
      SpentKeeps(w, i, retry);
    }
  }

  lemma {:induction false} StepKeeps(w: World, l: Label)
    requires Inv(w) && InTime(w, l) && Step(w, l).Some?
    ensures Inv(Step(w, l).value)
  {
    hide Inv, AfterAdvance, AfterAppend, AfterCancel;
    match l
    case Append(id) => AppendKeeps(w, id);
    case Cancel(live) => CancelKeeps(w, live);
    case Suspend => StateKeeps(w, Suspended);
    case Resume => StateKeeps(w, Resumed);
    case RetryTask => RetryKeeps(w);
    case Prepare => PrepareKeeps(w);
    case Advance(i, retry) => AdvanceKeeps(w, i, retry);
    case CallFinish => FinishKeeps(w, l);
    case StartFinishing => FinishKeeps(w, l);
    case _ => AttemptKeeps(w, l);
  }

  // ----- over whole runs

  /** Every serializer is appended before the completions are about to be taken. */
  predicate Timely(w: World, labels: seq<Label>)
    decreases |labels|
  {
    labels == [] ||
    (InTime(w, labels[0]) && (Step(w, labels[0]).Some? ==> Timely(Step(w, labels[0]).value, labels[1..])))
  }

  lemma {:induction false} RunKeeps(w: World, labels: seq<Label>)
    requires Inv(w) && Timely(w, labels) && Run(w, labels).Some?
    ensures Inv(Run(w, labels).value)
    decreases |labels|
  {
    if labels != [] {
      StepKeeps(w, labels[0]);
      RunKeeps(Step(w, labels[0]).value, labels[1..]);
    }
  }

  lemma {:induction false} InitInv()
    ensures Inv(INIT)
  {
  }

  /** Every history is one of the simple form: one serializer at a time, in order, in every attempt. */
  lemma {:induction false} RefinesSimpleForm(labels: seq<Label>)
    requires Timely(INIT, labels) && Run(INIT, labels).Some?
    ensures Observed(Run(INIT, labels).value.log).Some?
    ensures Observed(Run(INIT, labels).value.log).value.drained == Run(INIT, labels).value.core.processingFinished
  {
    InitInv();
    RunKeeps(INIT, labels);
  }

  /** Nothing is under way or will come by itself. */
  predicate Quiet(w: World) {
    w.chains == [] && w.finishes == 0 && w.busy.Free? && w.attempt.Over?
  }

  // ----- what the simple form says

  function AppendedIn(log: seq<Event>): seq<Id> {
    if log == [] then [] else
      var e := log[|log| - 1];
      AppendedIn(log[..|log| - 1]) + if e.Appended? then [e.id] else []
  }

  function RanIn(log: seq<Event>): seq<Id> {
    if log == [] then [] else
      var e := log[|log| - 1];
      RanIn(log[..|log| - 1]) + if e.Ran? then [e.id] else []
  }

  /** The serializers begun in the current attempt. */
  function BegunIn(log: seq<Event>): seq<Id> {
    if log == [] then [] else
      var e := log[|log| - 1];
      if e.WasReset? then [] else BegunIn(log[..|log| - 1]) + if e.Began? then [e.id] else []
  }

  /** The serializers completed in the current attempt. */
  function EndedIn(log: seq<Event>): seq<Id> {
    if log == [] then [] else
      var e := log[|log| - 1];
      if e.WasReset? then [] else EndedIn(log[..|log| - 1]) + if e.Ended? then [e.id] else []
  }

  /**
   The appended serializers are worked through in order, and the completions called are those of all of them in order.
   */
  predicate Means(m: Spec, log: seq<Event>) {
    && m.done + B(m.open) <= |m.appended| && m.ran <= |m.appended|
    && m.appended == AppendedIn(log)
    && BegunIn(log) == m.appended[..m.done + B(m.open)]
    && EndedIn(log) == m.appended[..m.done]
    && RanIn(log) == m.appended[..m.ran]
    && (m.ran > 0 ==> m.drained) && (m.drained ==> m.done == |m.appended| && !m.open)
  }

  lemma {:induction false} LogStep(log: seq<Event>, e: Event)
    ensures AppendedIn(log + [e]) == if e.Appended? then AppendedIn(log) + [e.id] else AppendedIn(log)
    ensures RanIn(log + [e]) == if e.Ran? then RanIn(log) + [e.id] else RanIn(log)
    ensures BegunIn(log + [e]) == if e.WasReset? then [] else if e.Began? then BegunIn(log) + [e.id] else BegunIn(log)
    ensures EndedIn(log + [e]) == if e.WasReset? then [] else if e.Ended? then EndedIn(log) + [e.id] else EndedIn(log)
  {
    assert (log + [e])[..|log|] == log;
  }

  lemma {:induction false} MeansStep(m: Spec, log: seq<Event>, e: Event)
    requires Means(m, log) && Observe(m, e).Some?
    ensures Means(Observe(m, e).value, log + [e])
  {
    LogStep(log, e);
    hide AppendedIn, RanIn, BegunIn, EndedIn;
    match e
    case Began(id) => assert m.appended[..m.done + 1] == m.appended[..m.done] + [id];
    case Ended(id) => assert m.appended[..m.done + 1] == m.appended[..m.done] + [id];
    case Ran(id) => assert m.appended[..m.ran + 1] == m.appended[..m.ran] + [id];
    case _ =>
  }

  lemma {:induction false} SimpleForm(log: seq<Event>)
    requires Observed(log).Some?
    ensures Means(Observed(log).value, log)
  {
    if log != [] {
      var n := |log| - 1;
      SimpleForm(log[..n]);
      MeansStep(Observed(log[..n]).value, log[..n], log[n]);
      assert log == log[..n] + [log[n]];
    }
  }
}
