/** The pipeline goes on until it is quiet, and between retries it does not go on for long. */
module PipelineProgress {
  import opened PipelineInvariants
  import opened RequestPipeline

  /** Steps that the request, its task and its serializers take by themselves. */
  predicate Internal(l: Label) {
    !l.Append? && !l.Cancel? && !l.Suspend? && !l.Resume?
  }

  /** Unless the request is quiet, some step is possible. */
  lemma {:induction false} NotStuck(w: World) returns (l: Label)
    requires !Quiet(w)
    ensures Internal(l) && Step(w, l).Some?
  {
    l := match w.busy
      case PassedFinish => StartFinishing
      case PassedRetry => Prepare
      case Free =>
        if w.chains != [] then Advance(0, false)
        else if w.finishes > 0 then CallFinish
        else if w.attempt.TaskRetryDue? then RetryTask
        else AttemptEnds(false);
  }

  // ----- a bound on the steps that are still to come without another retry, for at most n serializers

  /** A finish call starts a chain that works through all serializers. */
  function FinishWeight(n: nat): nat {
    5 * n + 5
  }

  function ChainWeight(c: Chain, finished: bool, done: int, n: nat): int {
    match c
    case Next => if finished then 3 else 4 * (n - done) + n + 3
    case Draining => if finished then 2 else n + 2
    case Completing(rest) => 1 + |rest|
    case Serializing(_) => 4 * (n - done) + n + 2
    case Serialized(_) => 4 * (n - done) + n + 1
    case RetryDue(_) => 3
  }

  function ChainsWeight(cs: seq<Chain>, finished: bool, done: int, n: nat): int {
    if cs == [] then 0 else ChainWeight(cs[0], finished, done, n) + ChainsWeight(cs[1..], finished, done, n)
  }

  function AttemptWeight(a: Attempt, n: nat): nat {
    match a
    case Preparing => FinishWeight(n) + 2
    case Running => FinishWeight(n) + 1
    case TaskRetryDue => 3
    case Over => 0
  }

  function BusyWeight(b: Busy, n: nat): nat {
    match b
    case Free => 0
    case PassedFinish => FinishWeight(n) - 1
    case PassedRetry => 2
  }

  /** A cancellation that is still possible counts for the finish call it may add. */
  function Weight(w: World, n: nat): int {
    ChainsWeight(w.chains, w.core.processingFinished, |w.core.completions|, n)
    + FinishWeight(n) * w.finishes + AttemptWeight(w.attempt, n) + BusyWeight(w.busy, n)
    + if w.core.state.Cancelled? then 0 else FinishWeight(n)
  }

  lemma {:induction false} ChainsSet(cs: seq<Chain>, i: nat, c: Chain, finished: bool, done: int, n: nat)
    requires i < |cs|
    ensures ChainsWeight(cs[i := c], finished, done, n) ==
            ChainsWeight(cs, finished, done, n) - ChainWeight(cs[i], finished, done, n) +
              ChainWeight(c, finished, done, n)
  {
    hide ChainWeight;
    if i > 0 {
      ChainsSet(cs[1..], i - 1, c, finished, done, n);
      assert cs[i := c][1..] == cs[1..][i - 1 := c];
    } else {
      assert cs[i := c][1..] == cs[1..];
    }
  }

  lemma {:induction false} ChainsRemoved(cs: seq<Chain>, i: nat, finished: bool, done: int, n: nat)
    requires i < |cs|
    ensures ChainsWeight(cs[..i] + cs[i + 1..], finished, done, n) ==
            ChainsWeight(cs, finished, done, n) - ChainWeight(cs[i], finished, done, n)
  {
    hide ChainWeight;
    if i > 0 {
      ChainsRemoved(cs[1..], i - 1, finished, done, n);
      assert (cs[..i] + cs[i + 1..])[1..] == cs[1..][..i - 1] + cs[1..][i..];
    } else {
      assert cs[..0] + cs[1..] == cs[1..];
    }
  }

  lemma {:induction false} ChainsAdded(cs: seq<Chain>, c: Chain, finished: bool, done: int, n: nat)
    ensures ChainsWeight(cs + [c], finished, done, n) ==
        ChainsWeight(cs, finished, done, n) + ChainWeight(c, finished, done, n)
  {
    hide ChainWeight;
    if cs == [] {
      assert cs + [c] == [c] && [c][1..] == [];
    } else {
      ChainsAdded(cs[1..], c, finished, done, n);
      assert (cs + [c])[1..] == cs[1..] + [c];
    }
  }

  lemma {:induction false} OneChainWeight(c: Chain, finished: bool, done: int, n: nat)
    ensures ChainsWeight([c], finished, done, n) == ChainWeight(c, finished, done, n)
  {
    assert [c][1..] == [];
  }

  // ----- one step

  /** Before the completions are taken. */
  lemma {:induction false} ProcessingWork(w: World, retry: bool, n: nat)
    requires Inv(w) && !w.core.processingFinished && |w.chains| > 0 && AfterAdvance(w, 0, retry).Some?
    requires |w.core.serializers| <= n
    ensures Weight(AfterAdvance(w, 0, retry).value, n) < Weight(w, n)
  {
    hide FinishWeight, AttemptWeight, Control;
    var c, done := w.chains[0], |w.core.completions|;
    var v := AfterAdvance(w, 0, retry).value;
    assert w.chains == [c];
    OneChainWeight(c, false, done, n);
    if |v.chains| == 1 {
      assert v.chains == [v.chains[0]];
      OneChainWeight(v.chains[0], v.core.processingFinished, |v.core.completions|, n);
    }
  }

  /** After they were taken. */
  lemma {:induction false} DoneWork(w: World, i: nat, retry: bool, n: nat)
    requires Inv(w) && w.core.processingFinished && i < |w.chains| && AfterAdvance(w, i, retry).Some?
    ensures Weight(AfterAdvance(w, i, retry).value, n) < Weight(w, n)
  {
    hide FinishWeight, AttemptWeight, Control, ChainsWeight;
    var v := AfterAdvance(w, i, retry).value;
    if |v.chains| == |w.chains| {
      ChainsSet(w.chains, i, v.chains[i], true, 0, n);
    } else {
      ChainsRemoved(w.chains, i, true, 0, n);
    }
  }

  lemma {:induction false} FinishWork(w: World, n: nat)
    requires Inv(w) && Step(w, StartFinishing).Some?
    ensures Weight(Step(w, StartFinishing).value, n) < Weight(w, n)
  {
    hide ChainsWeight, AttemptWeight, Control;
    ChainsAdded(w.chains, Next, w.core.processingFinished, |w.core.completions|, n);
  }

  lemma {:induction false} CallWork(w: World, n: nat)
    requires Step(w, CallFinish).Some?
    ensures Weight(Step(w, CallFinish).value, n) < Weight(w, n)
  {
    hide ChainsWeight, AttemptWeight;
    OneLess(FinishWeight(n), w.finishes);
  }

  lemma {:induction false} OneLess(a: nat, b: nat)
    requires b > 0
    ensures a * (b - 1) == a * b - a
  {
  }

  lemma {:induction false} AttemptWork(w: World, l: Label, n: nat)
    requires Step(w, l).Some? && (l.StartTask? || l.GiveUp? || l.AttemptEnds? || l.RetryTask?)
    ensures Weight(Step(w, l).value, n) < Weight(w, n)
  {
    hide ChainsWeight;
    OneLess(FinishWeight(n), w.finishes + 1);
  }

  /** Every step of the request's own uses up weight, except that a reset brings a new attempt. */
  lemma {:induction false} StepWork(w: World, l: Label, n: nat)
    requires Inv(w) && InTime(w, l) && Step(w, l).Some? && |w.core.serializers| <= n
    ensures var v := Step(w, l).value;
            Weight(v, n) <=
            Weight(w, n) - (if Internal(l) then 1 else 0) + if l.Prepare? then FinishWeight(n) + 1 else 0
  {
    hide Inv, Weight, AfterAdvance;
    match l
    case Advance(i, retry) =>
      if w.core.processingFinished {
        DoneWork(w, i, retry, n);
      } else {
        OneChain(w, i);
        ProcessingWork(w, retry, n);
      }
    case StartFinishing => FinishWork(w, n);
    case CallFinish => CallWork(w, n);
    case Prepare => PrepareWork(w, n);
    case Cancel(live) => CancelWork(w, live, n);
    case Append(id) => AppendWork(w, id, n);
    case Suspend => StateWork(w, Suspended, n);
    case Resume => StateWork(w, Resumed, n);
    case _ => AttemptWork(w, l, n);
  }

  lemma {:induction false} PrepareWork(w: World, n: nat)
    requires Inv(w) && Step(w, Prepare).Some?
    ensures Weight(Step(w, Prepare).value, n) <= Weight(w, n) + FinishWeight(n)
  {
    hide Control;
  }

  lemma {:induction false} CancelWork(w: World, live: bool, n: nat)
    requires Step(w, Cancel(live)).Some?
    ensures Weight(Step(w, Cancel(live)).value, n) <= Weight(w, n)
  {
    hide ChainsWeight, AttemptWeight;
    OneLess(FinishWeight(n), w.finishes + 1);
  }

  lemma {:induction false} AppendWork(w: World, id: Id, n: nat)
    requires InTime(w, Append(id))
    ensures Weight(AfterAppend(w, id), n) == Weight(w, n)
  {
  }

  lemma {:induction false} StateWork(w: World, to: ReqState, n: nat)
    requires to.Suspended? || to.Resumed?
    ensures Weight(w.(core := MovedTo(w.core, to)), n) == Weight(w, n)
  {
  }

  lemma {:induction false} WeightPositive(w: World, n: nat)
    requires Inv(w) && |w.core.serializers| <= n
    ensures Weight(w, n) >= 0
  {
    hide Control;
    ChainsPositive(w.chains, w.core.processingFinished, |w.core.completions|, n);
  }

  lemma {:induction false} ChainsPositive(cs: seq<Chain>, finished: bool, done: int, n: nat)
    requires done <= n
    ensures ChainsWeight(cs, finished, done, n) >= 0
  {
    if cs != [] {
      ChainsPositive(cs[1..], finished, done, n);
    }
  }

  // ----- whole runs

  function InternalSteps(labels: seq<Label>): nat {
    if labels == [] then 0 else (if Internal(labels[0]) then 1 else 0) + InternalSteps(labels[1..])
  }

  function Retries(labels: seq<Label>): nat {
    if labels == [] then 0 else (if labels[0].Prepare? then 1 else 0) + Retries(labels[1..])
  }

  function Appends(labels: seq<Label>): nat {
    if labels == [] then 0 else (if labels[0].Append? then 1 else 0) + Appends(labels[1..])
  }

  lemma {:induction false} StepAppends(w: World, l: Label)
    requires Step(w, l).Some?
    ensures |Step(w, l).value.core.serializers| <= |w.core.serializers| + if l.Append? then 1 else 0
  {
  }

  lemma {:induction false} RunWork(w: World, labels: seq<Label>, n: nat)
    requires Inv(w) && Timely(w, labels) && Run(w, labels).Some? && |w.core.serializers| + Appends(labels) <= n
    ensures InternalSteps(labels) <= Weight(w, n) + (FinishWeight(n) + 1) * Retries(labels)
    decreases |labels|
  {
    hide Inv, Step, Weight, InTime;
    if labels == [] {
      WeightPositive(w, n);
    } else {
      var l := labels[0];
      StepAppends(w, l);
      StepKeeps(w, l);
      StepWork(w, l, n);
      RunWork(Step(w, l).value, labels[1..], n);
      if l.Prepare? {
        OneLess(FinishWeight(n) + 1, Retries(labels));
      }
    }
  }

  /**
   In every run with n serializers, appended in time, and r retries, at most 10n + 12 + (5n + 6)r
   steps are taken besides appends, cancellations, suspensions and resumptions.
   */
  lemma {:induction false} BoundedWork(labels: seq<Label>)
    requires Timely(INIT, labels) && Run(INIT, labels).Some?
    ensures var n, r := Appends(labels), Retries(labels);
            InternalSteps(labels) <= 10 * n + 12 + (5 * n + 6) * r
  {
    InitInv();
    RunWork(INIT, labels, Appends(labels));
  }
}
