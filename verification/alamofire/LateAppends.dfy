/**
 When a serializer that is appended is run, all other appends being in time: exactly when, at that
 moment, no chain stands between finding no serializer and taking the completions.
 */
module LateAppends {
  import opened PipelineInvariants
  import opened PipelineOutcomes
  import opened RequestPipeline
  import opened Wrappers

  // ----- runs in two parts

  lemma {:induction false} RunConcat(w: World, a: seq<Label>, b: seq<Label>)
    ensures Run(w, a + b) == if Run(w, a).None? then None else Run(Run(w, a).value, b)
    decreases |a|
  {
    hide Step;
    if a == [] {
      assert a + b == b;
    } else {
      assert (a + b)[1..] == a[1..] + b;
      if Step(w, a[0]).Some? {
        RunConcat(Step(w, a[0]).value, a[1..], b);
      }
    }
  }

  /** The whole run in which id is appended after `pre`, and `post` follows. */
  function Whole(pre: seq<Label>, id: Id, post: seq<Label>): seq<Label> {
    pre + [Append(id)] + post
  }

  lemma {:induction false} WholeRun(pre: seq<Label>, id: Id, post: seq<Label>)
    requires Run(INIT, pre).Some?
    ensures Run(INIT, Whole(pre, id, post)) == Run(AfterAppend(Run(INIT, pre).value, id), post)
  {
    hide Run, AfterAppend;
    RunThen(INIT, pre, Append(id));
    RunConcat(INIT, pre + [Append(id)], post);
  }

  // ----- a serializer that is nowhere to be seen

  predicate Holds(c: Chain, id: Id) {
    match c
    case Completing(rest) => id in rest
    case Serializing(x) => x == id
    case Serialized(x) => x == id
    case _ => false
  }

  /** The serializer has not been begun, and no chain has it. */
  predicate Unseen(w: World, id: Id) {
    && Began(id) !in w.log && Ran(id) !in w.log && id !in w.core.completions
    && forall i | 0 <= i < |w.chains| :: !Holds(w.chains[i], id)
  }

  /** The only chain found no serializer and is about to take the completions; nothing can reset the request before. */
  predicate AboutToTake(w: World) {
    && !w.core.processingFinished && w.chains == [Draining] && w.core.isFinishing && w.busy.Free?
    && (w.attempt.Over? || w.core.state.Cancelled?)
  }

  /** The serializer is not on the list, or the list is about to be cleared. */
  predicate Lost(w: World, id: Id) {
    Unseen(w, id) && (AboutToTake(w) || id !in w.core.serializers)
  }

  lemma {:induction false} AdvanceLost(w: World, i: nat, retry: bool, id: Id)
    requires Lost(w, id) && i < |w.chains| && AfterAdvance(w, i, retry).Some?
    ensures Lost(AfterAdvance(w, i, retry).value, id)
  {
    hide AboutToTake, Unseen, AfterAdvance;
    if AboutToTake(w) {
      TakingLost(w, i, retry, id);
    } else {
      UnlistedLost(w, i, retry, id);
    }
  }

  lemma {:induction false} TakingLost(w: World, i: nat, retry: bool, id: Id)
    requires Unseen(w, id) && AboutToTake(w) && i < |w.chains|
    ensures AfterAdvance(w, i, retry).Some?
    ensures Unseen(AfterAdvance(w, i, retry).value, id) && AfterAdvance(w, i, retry).value.core.serializers == []
  {
  }

  lemma {:induction false} UnlistedLost(w: World, i: nat, retry: bool, id: Id)
    requires Unseen(w, id) && id !in w.core.serializers && i < |w.chains| && AfterAdvance(w, i, retry).Some?
    ensures Unseen(AfterAdvance(w, i, retry).value, id) && id !in AfterAdvance(w, i, retry).value.core.serializers
  {
    assert !Holds(w.chains[i], id);
    match w.chains[i]
    case Completing(rest) => if rest == [] { UnseenWithout(w, i, id); }
    case RetryDue(_) => UnseenWithout(w, i, id);
    case _ =>
  }

  lemma {:induction false} UnseenWithout(w: World, i: nat, id: Id)
    requires Unseen(w, id) && i < |w.chains|
    ensures Unseen(WithoutChain(w, i), id)
  {
    hide Holds;
  }

  lemma {:induction false} StepLost(w: World, l: Label, id: Id)
    requires Lost(w, id) && l != Append(id) && Step(w, l).Some?
    ensures Lost(Step(w, l).value, id)
  {
    hide AfterAdvance;
    match l
    case Advance(i, retry) => AdvanceLost(w, i, retry, id);
    case _ =>
  }

  lemma {:induction false} RunLost(w: World, labels: seq<Label>, id: Id)
    requires Lost(w, id) && Append(id) !in labels && Run(w, labels).Some?
    ensures Lost(Run(w, labels).value, id)
    decreases |labels|
  {
    hide Lost, Step;
    if labels != [] {
      StepLost(w, labels[0], id);
      RunLost(Step(w, labels[0]).value, labels[1..], id);
    }
  }

  /** Before it is appended, a serializer is nowhere. */
  lemma {:induction false} NotYetSeen(pre: seq<Label>, id: Id)
    requires Append(id) !in pre && Run(INIT, pre).Some?
    ensures Unseen(Run(INIT, pre).value, id)
  {
    RunLost(INIT, pre, id);
  }

  lemma {:induction false} TakingBlocks(w: World)
    requires Inv(w) && Draining in w.chains && !w.core.processingFinished
    ensures AboutToTake(w)
  {
  }

  /**
   A serializer appended while the pipeline stands between finding none and taking the completions
   is never begun and its completion never called, whatever follows.
   */
  lemma {:induction false} LateNeverBegun(pre: seq<Label>, id: Id, post: seq<Label>)
    requires Timely(INIT, pre) && Run(INIT, pre).Some? && Append(id) !in pre && Append(id) !in post
    requires Draining in Run(INIT, pre).value.chains && !Run(INIT, pre).value.core.processingFinished
    requires Run(INIT, Whole(pre, id, post)).Some?
    ensures var log := Run(INIT, Whole(pre, id, post)).value.log;
            Began(id) !in log && Ran(id) !in log
  {
    hide Run, Inv, AboutToTake, Timely;
    var w := Run(INIT, pre).value;
    InitInv();
    RunKeeps(INIT, pre);
    NotYetSeen(pre, id);
    TakingBlocks(w);
    AppendLost(w, id);
    WholeRun(pre, id, post);
    RunLost(AfterAppend(w, id), post, id);
  }

  lemma {:induction false} AppendLost(w: World, id: Id)
    requires Unseen(w, id) && AboutToTake(w)
    ensures Lost(AfterAppend(w, id), id)
  {
  }

  // ----- a serializer appended after the completions were taken

  /** The completion has been called, or a chain has taken it to call it. */
  predicate Secured(w: World, id: Id) {
    Ran(id) in w.log || exists i | 0 <= i < |w.chains| :: w.chains[i].Completing? && id in w.chains[i].rest
  }

  predicate Working(w: World) {
    exists i | 0 <= i < |w.chains| :: !w.chains[i].Completing?
  }

  /** At most one chain is at work. */
  predicate Alone(w: World) {
    forall i, j | 0 <= i < j < |w.chains| :: w.chains[i].Completing? || w.chains[j].Completing?
  }

  /** The chain works on the serializer, if it works on any. */
  predicate WorksOn(c: Chain, id: Id) {
    match c
    case Serializing(x) => x == id
    case Serialized(x) => x == id
    case RetryDue(x) => x == id
    case _ => true
  }

  /** Something will still drive an uncancelled request on, and it is one thing. */
  predicate Driven(w: World) {
    && Alone(w)
    && B(Working(w)) + w.finishes + B(w.busy.PassedFinish?) + B(w.busy.PassedRetry?) + B(!w.attempt.Over?) == 1
  }

  /** Something will still drive a cancelled request on; it is not reset any more. */
  predicate Pushed(w: World) {
    w.finishes > 0 || w.busy.PassedFinish? || Working(w) || (!w.attempt.Over? && w.cancelledLive)
  }

  /** The serializer is the only one on the list, and no chain takes the completions without its. */
  predicate OnTheList(w: World, id: Id) {
    && w.core.processingFinished && w.core.serializers == [id]
    && (forall i | 0 <= i < |w.core.completions| :: w.core.completions[i] == id)
    && (forall i | 0 <= i < |w.chains| :: WorksOn(w.chains[i], id))
    && (Draining in w.chains ==> w.core.completions != [])
    && (w.core.completions != [] || w.core.isFinishing ==> Working(w) || w.busy.PassedRetry?)
  }

  predicate OnTheWay(w: World, id: Id) {
    && OnTheList(w, id)
    && (w.cancelledLive ==> w.core.state.Cancelled? && !w.attempt.Preparing? && !w.busy.PassedRetry?)
    && (if !w.core.state.Cancelled? then Driven(w)
        else if w.busy.PassedRetry? then w.finishes > 0 && !Working(w)
        else Pushed(w))
  }

  predicate WillRun(w: World, id: Id) {
    w.dropped || Secured(w, id) || OnTheWay(w, id)
  }

  lemma {:induction false} StateWillRun(w: World, to: ReqState, id: Id)
    requires OnTheWay(w, id) && (to.Suspended? || to.Resumed?)
    ensures OnTheWay(w.(core := MovedTo(w.core, to)), id)
  {
  }

  lemma {:induction false} CancelWillRun(w: World, live: bool, id: Id)
    requires OnTheWay(w, id) && (live ==> w.attempt.Running?)
    ensures OnTheWay(AfterCancel(w, live), id)
  {
  }

  lemma {:induction false} AttemptWillRun(w: World, l: Label, id: Id)
    requires OnTheWay(w, id) && Step(w, l).Some? && (l.StartTask? || l.GiveUp? || l.AttemptEnds?)
    ensures OnTheWay(Step(w, l).value, id)
  {
  }

  lemma {:induction false} CallWillRun(w: World, id: Id)
    requires OnTheWay(w, id) && Step(w, CallFinish).Some?
    ensures OnTheWay(Step(w, CallFinish).value, id)
  {
  }

  lemma {:induction false} FinishWillRun(w: World, id: Id)
    requires OnTheWay(w, id) && Step(w, StartFinishing).Some?
    ensures OnTheWay(Step(w, StartFinishing).value, id)
  {
    var v := Step(w, StartFinishing).value;
    assert v.chains[|w.chains|] == Next;
  }

  lemma {:induction false} RetryWillRun(w: World, id: Id)
    requires OnTheWay(w, id) && Step(w, RetryTask).Some?
    ensures WillRun(Step(w, RetryTask).value, id)
  {
  }

  lemma {:induction false} PrepareWillRun(w: World, id: Id)
    requires OnTheWay(w, id) && Step(w, Prepare).Some?
    ensures OnTheWay(Step(w, Prepare).value, id)
  {
    assert !Working(w);
  }

  /** A chain at work goes on working. */
  lemma {:induction false} WorkWillRun(w: World, i: nat, retry: bool, id: Id)
    requires OnTheWay(w, id) && i < |w.chains| && AfterAdvance(w, i, retry).Some?
    requires w.chains[i].Next? || w.chains[i].Serializing? || w.chains[i].Serialized?
    ensures OnTheWay(AfterAdvance(w, i, retry).value, id)
  {
    assert WorksOn(w.chains[i], id);
    var v := AfterAdvance(w, i, retry).value;
    assert !v.chains[i].Completing? && forall j | 0 <= j < |w.chains| && j != i :: v.chains[j] == w.chains[j];
  }

  /** A chain that takes the completions takes the serializer's. */
  lemma {:induction false} DrainingWillRun(w: World, i: nat, retry: bool, id: Id)
    requires OnTheWay(w, id) && i < |w.chains| && w.chains[i].Draining?
    ensures Secured(AfterAdvance(w, i, retry).value, id)
  {
    var v := AfterAdvance(w, i, retry).value;
    assert w.chains[i] in w.chains && w.core.completions[0] == id;
    assert v.chains[i].Completing? && id in v.chains[i].rest;
  }

  lemma {:induction false} WithoutIndex(w: World, i: nat, j: nat)
    requires i < |w.chains| && j < |w.chains| && j != i
    ensures w.chains[j] in WithoutChain(w, i).chains
  {
    assert WithoutChain(w, i).chains[if j < i then j else j - 1] == w.chains[j];
  }

  lemma {:induction false} CompletingWillRun(w: World, i: nat, retry: bool, id: Id)
    requires OnTheWay(w, id) && i < |w.chains| && w.chains[i].Completing?
    ensures OnTheWay(AfterAdvance(w, i, retry).value, id)
  {
    var v := AfterAdvance(w, i, retry).value;
    if w.chains[i].rest == [] {
      OthersStay(w, i);
    } else {
      assert forall j | 0 <= j < |w.chains| && j != i :: v.chains[j] == w.chains[j];
    }
  }

  /** Removing a chain that is not at work. */
  lemma {:induction false} OthersStay(w: World, i: nat)
    requires i < |w.chains| && w.chains[i].Completing?
    ensures var v := WithoutChain(w, i);
            && Working(v) == Working(w) && (Alone(w) ==> Alone(v)) && (Draining in v.chains ==> Draining in w.chains)
            && forall c | c in v.chains :: c in w.chains
  {
    var v := WithoutChain(w, i);
    forall c | c in v.chains ensures c in w.chains {
    }
    if j :| 0 <= j < |w.chains| && !w.chains[j].Completing? {
      WithoutIndex(w, i, j);
    }
  }

  /** A retry that comes due is dropped, or lets the request be reset by the only chain at work. */
  lemma {:induction false} DueWillRun(w: World, i: nat, retry: bool, id: Id)
    requires OnTheWay(w, id) && i < |w.chains| && w.chains[i].RetryDue? && AfterAdvance(w, i, retry).Some?
    ensures WillRun(AfterAdvance(w, i, retry).value, id)
  {
    if !w.core.state.Cancelled? {
      var v := AfterAdvance(w, i, retry).value;
      forall j | 0 <= j < |v.chains| ensures v.chains[j].Completing? {
        assert v.chains[j] == w.chains[if j < i then j else j + 1];
      }
    }
  }

  lemma {:induction false} SecuredStays(w: World, l: Label, id: Id)
    requires Secured(w, id) && Step(w, l).Some?
    ensures Secured(Step(w, l).value, id)
  {
    var v := Step(w, l).value;
    if Ran(id) !in w.log {
      var k :| 0 <= k < |w.chains| && w.chains[k].Completing? && id in w.chains[k].rest;
      ChainStays(w, l, id, k);
    } else {
      LogStays(w, l, Ran(id));
    }
  }

  lemma {:induction false} LogStays(w: World, l: Label, e: Event)
    requires e in w.log && Step(w, l).Some?
    ensures e in Step(w, l).value.log
  {
  }

  lemma {:induction false} ChainStays(w: World, l: Label, id: Id, k: nat)
    requires k < |w.chains| && w.chains[k].Completing? && id in w.chains[k].rest && Step(w, l).Some?
    ensures Secured(Step(w, l).value, id)
  {
    hide NextSerializer, Emptied, WithCompletion, WithSerializer;
    var v := Step(w, l).value;
    if l.Advance? && l.chain == k {
      var rest := w.chains[k].rest;
      assert rest == [rest[0]] + rest[1..];
      assert v.chains[k] == Completing(rest[1..]);
      assert v.log[|w.log|] == Ran(rest[0]);
    } else if l.Advance? && |v.chains| < |w.chains| {
      WithoutIndex(w, l.chain, k);
      assert w.chains[k] in v.chains;
    } else {
      assert v.chains[k] == w.chains[k];
    }
  }

  lemma {:induction false} AdvanceWillRun(w: World, i: nat, retry: bool, id: Id)
    requires OnTheWay(w, id) && i < |w.chains| && AfterAdvance(w, i, retry).Some?
    ensures WillRun(AfterAdvance(w, i, retry).value, id)
  {
    hide OnTheWay, Secured, AfterAdvance;
    match w.chains[i]
    case Draining => DrainingWillRun(w, i, retry, id);
    case Completing(_) => CompletingWillRun(w, i, retry, id);
    case RetryDue(_) => DueWillRun(w, i, retry, id);
    case _ => WorkWillRun(w, i, retry, id);
  }

  lemma {:induction false} DroppedStays(w: World, l: Label)
    requires w.dropped && Step(w, l).Some?
    ensures Step(w, l).value.dropped
  {
  }

  lemma {:induction false} StepWillRun(w: World, l: Label, id: Id)
    requires WillRun(w, id) && !l.Append? && Step(w, l).Some?
    ensures WillRun(Step(w, l).value, id)
  {
    hide OnTheWay, Secured, AfterAdvance, AfterCancel;
    if w.dropped {
      DroppedStays(w, l);
    } else if Secured(w, id) {
      SecuredStays(w, l, id);
    } else {
      match l
      case Cancel(live) => CancelWillRun(w, live, id);
      case Suspend => StateWillRun(w, Suspended, id);
      case Resume => StateWillRun(w, Resumed, id);
      case CallFinish => CallWillRun(w, id);
      case StartFinishing => FinishWillRun(w, id);
      case RetryTask => RetryWillRun(w, id);
      case Prepare => PrepareWillRun(w, id);
      case Advance(i, retry) => AdvanceWillRun(w, i, retry, id);
      case _ => AttemptWillRun(w, l, id);
    }
  }

  lemma {:induction false} FinishedStays(w: World, l: Label)
    requires w.core.processingFinished && Step(w, l).Some?
    ensures Step(w, l).value.core.processingFinished
  {
  }

  lemma {:induction false} RunWillRun(w: World, labels: seq<Label>, id: Id)
    requires WillRun(w, id) && w.core.processingFinished && Timely(w, labels) && Run(w, labels).Some?
    ensures WillRun(Run(w, labels).value, id)
    decreases |labels|
  {
    hide WillRun, Step;
    if labels != [] {
      FinishedStays(w, labels[0]);
      StepWillRun(w, labels[0], id);
      RunWillRun(Step(w, labels[0]).value, labels[1..], id);
    }
  }

  lemma {:induction false} AppendedWillRun(w: World, id: Id)
    requires Inv(w) && w.core.processingFinished && Draining !in w.chains
    ensures WillRun(AfterAppend(w, id), id)
  {
    var v := AfterAppend(w, id);
    assert v.chains[|w.chains|] == Next;
    forall i | 0 <= i < |v.chains| ensures WorksOn(v.chains[i], id) {
      assert i < |w.chains| ==> v.chains[i] == w.chains[i] && (Spent(w.chains[i]) || w.chains[i].Completing?);
    }
    assert forall i | 0 <= i < |w.chains| :: v.chains[i] == w.chains[i];
  }

  lemma {:induction false} QuietHasRun(w: World, id: Id)
    requires WillRun(w, id) && Quiet(w) && !w.dropped
    ensures Ran(id) in w.log
  {
  }

  // ----- a serializer appended in time

  lemma {:induction false} InAppended(log: seq<Event>, id: Id)
    ensures Appended(id) in log <==> id in AppendedIn(log)
    ensures Ran(id) in log <==> id in RanIn(log)
  {
    if log != [] {
      var n := |log| - 1;
      InAppended(log[..n], id);
      assert log == log[..n] + [log[n]];
    }
  }

  lemma {:induction false} RunLogStays(w: World, labels: seq<Label>, e: Event)
    requires e in w.log && Run(w, labels).Some?
    ensures e in Run(w, labels).value.log
    decreases |labels|
  {
    hide Step;
    if labels != [] {
      LogStays(w, labels[0], e);
      RunLogStays(Step(w, labels[0]).value, labels[1..], e);
    }
  }

  lemma {:induction false} InTimeRuns(w: World, id: Id, post: seq<Label>)
    requires Inv(w) && InTime(w, Append(id)) && Timely(AfterAppend(w, id), post) && Run(AfterAppend(w, id), post).Some?
    requires Quiet(Run(AfterAppend(w, id), post).value) && !Run(AfterAppend(w, id), post).value.dropped
    ensures Ran(id) in Run(AfterAppend(w, id), post).value.log
  {
    hide Run, Timely, AppendedIn, RanIn;
    var v := AfterAppend(w, id);
    var u := Run(v, post).value;
    AppendKeeps(w, id);
    RunKeeps(v, post);
    assert Appended(id) in v.log;
    RunLogStays(v, post, Appended(id));
    SimpleForm(u.log);
    InAppended(u.log, id);
    AllRan(u);
  }

  lemma {:induction false} AllRan(w: World)
    requires Inv(w) && Quiet(w) && !w.dropped
    ensures Observed(w.log).Some? && Observed(w.log).value.ran == |Observed(w.log).value.appended|
  {
  }

  /** The run is quiet in the end, and no retry was dropped. */
  predicate EndsWell(labels: seq<Label>) {
    Run(INIT, labels).Some? && Quiet(Run(INIT, labels).value) && !RetryDropped(labels)
  }

  /**
   A serializer appended while no chain stands between finding none and taking the completions,
   before or after the completions were taken, is run whenever the request ends well and all other
   appends are in time.
   */
  lemma {:induction false} AppendedIsRun(pre: seq<Label>, id: Id, post: seq<Label>)
    requires Timely(INIT, pre) && Run(INIT, pre).Some? && Draining !in Run(INIT, pre).value.chains
    requires Timely(AfterAppend(Run(INIT, pre).value, id), post) && EndsWell(Whole(pre, id, post))
    ensures Ran(id) in Run(INIT, Whole(pre, id, post)).value.log
  {
    hide Run, Timely, Inv, RetryDropped, AfterAppend, WillRun, Whole;
    var w := Run(INIT, pre).value;
    InitInv();
    RunKeeps(INIT, pre);
    WholeRun(pre, id, post);
    FlagsTell(Whole(pre, id, post));
    if w.core.processingFinished {
      AppendedWillRun(w, id);
      AppendFinished(w, id);
      RunWillRun(AfterAppend(w, id), post, id);
      QuietHasRun(Run(AfterAppend(w, id), post).value, id);
    } else {
      InTimeRuns(w, id, post);
    }
  }

  lemma {:induction false} AppendFinished(w: World, id: Id)
    requires w.core.processingFinished
    ensures AfterAppend(w, id).core.processingFinished
  {
  }

  // ----- a serializer appended while a chain stands in between can be lost

  /** The list is empty; what is left to do ends without a reset. */
  predicate Settled(w: World) {
    && w.core.processingFinished && w.core.serializers == [] && w.core.completions == [] && !w.dropped
    && !w.busy.PassedRetry? && (!w.attempt.Over? ==> w.core.state.Cancelled? && !w.cancelledLive)
    && forall i | 0 <= i < |w.chains| :: w.chains[i].Next? || w.chains[i].Draining? || w.chains[i].Completing?
  }

  function ChainLeft(c: Chain): nat {
    match c
    case Next => 3
    case Draining => 2
    case Completing(rest) => 1 + |rest|
    case _ => 0
  }

  function ChainsLeft(cs: seq<Chain>): nat {
    if cs == [] then 0 else ChainLeft(cs[0]) + ChainsLeft(cs[1..])
  }

  /** The number of steps left, at most. */
  function Left(w: World): nat {
    ChainsLeft(w.chains) + 5 * w.finishes + (if w.busy.PassedFinish? then 4 else 0) +
    match w.attempt
    case Over => 0
    case TaskRetryDue => 1
    case _ => 6
  }

  lemma {:induction false} ChainsSnoc(cs: seq<Chain>, c: Chain)
    ensures ChainsLeft(cs + [c]) == ChainsLeft(cs) + ChainLeft(c)
  {
    if cs == [] {
      assert cs + [c] == [c] && [c][1..] == [];
    } else {
      ChainsSnoc(cs[1..], c);
      assert (cs + [c])[1..] == cs[1..] + [c];
    }
  }

  /** The first chain, or else something on the serial queue, or else the attempt, moves on. */
  function Onward(w: World): (l: Label)
    requires Settled(w) && !Quiet(w)
    ensures !l.Append?
    ensures Step(w, l).Some? && Settled(Step(w, l).value)
  {
    if w.chains != [] then Advance(0, false)
    else if w.busy.PassedFinish? then StartFinishing
    else if w.finishes > 0 then CallFinish
    else if w.attempt.TaskRetryDue? then RetryTask
    else AttemptEnds(false)
  }

  /** The first chain comes nearer to its end, and nothing else changes. */
  lemma {:induction false} FirstLeft(w: World)
    requires Settled(w) && w.chains != []
    ensures AfterAdvance(w, 0, false).Some?
    ensures var v := AfterAdvance(w, 0, false).value;
            && ChainsLeft(v.chains) < ChainsLeft(w.chains)
            && v.finishes == w.finishes && v.busy == w.busy && v.attempt == w.attempt
  {
    var v := AfterAdvance(w, 0, false).value;
    if |v.chains| == |w.chains| {
      assert v.chains[1..] == w.chains[1..];
    } else {
      assert v.chains == w.chains[1..];
    }
  }

  lemma {:induction false} OnwardLeft(w: World)
    requires Settled(w) && !Quiet(w)
    ensures Left(Step(w, Onward(w)).value) < Left(w)
  {
    hide AfterAdvance;
    if w.chains != [] {
      FirstLeft(w);
    } else if w.busy.PassedFinish? {
      ChainsSnoc([], Next);
    }
  }

  /** A settled request can come to rest without an append and without dropping a retry. */
  lemma {:induction false} Settles(w: World) returns (labels: seq<Label>)
    requires Settled(w)
    ensures (forall i | 0 <= i < |labels| :: !labels[i].Append?) && Timely(w, labels)
    ensures Run(w, labels).Some? && Quiet(Run(w, labels).value) && !Run(w, labels).value.dropped
    decreases Left(w)
  {
    hide Settled, Quiet, Step, Left;
    if Quiet(w) {
      labels := [];
      SettledUndropped(w);
    } else {
      var l := Onward(w);
      OnwardLeft(w);
      var rest := Settles(Step(w, l).value);
      labels := [l] + rest;
      assert labels[1..] == rest;
    }
  }

  lemma {:induction false} SettledUndropped(w: World)
    requires Settled(w)
    ensures !w.dropped
  {
  }

  /** The chain in between clears the list. */
  lemma {:induction false} Clears(w: World, id: Id, i: nat)
    requires Inv(w) && i < |w.chains| && w.chains[i] == Draining
    ensures var v := Step(AfterAppend(w, id), Advance(i, false));
            v.Some? && Settled(v.value) && (Unseen(w, id) ==> Lost(v.value, id))
  {
    var u := AfterAppend(w, id);
    assert u.chains[i] == Draining;
    var v := Step(u, Advance(i, false)).value;
    assert v.core.serializers == [] && v.core.completions == [];
  }

  /** What can happen to a serializer that is appended while a chain stands in between. */
  lemma {:induction false} CanBeLost(pre: seq<Label>, id: Id) returns (post: seq<Label>)
    requires Timely(INIT, pre) && Run(INIT, pre).Some? && Append(id) !in pre
    requires Draining in Run(INIT, pre).value.chains
    ensures Timely(AfterAppend(Run(INIT, pre).value, id), post) && EndsWell(Whole(pre, id, post))
    ensures forall i | 0 <= i < |post| :: !post[i].Append?
    ensures Ran(id) !in Run(INIT, Whole(pre, id, post)).value.log
  {
    hide Inv, Settled, Lost, AfterAppend, RetryDropped, Step, Unseen, Quiet, Whole;
    var w := Run(INIT, pre).value;
    InitInv();
    RunKeeps(INIT, pre);
    NotYetSeen(pre, id);
    var i :| 0 <= i < |w.chains| && w.chains[i] == Draining;
    Clears(w, id, i);
    var v := AfterAppend(w, id);
    var u := Step(v, Advance(i, false)).value;
    var rest := Settles(u);
    post := [Advance(i, false)] + rest;
    assert post[1..] == rest;
    RunLost(u, rest, id);
    LostNotRun(Run(u, rest).value, id);
    WholeRun(pre, id, post);
    FlagsTell(Whole(pre, id, post));
  }

  lemma {:induction false} LostNotRun(w: World, id: Id)
    requires Lost(w, id)
    ensures Ran(id) !in w.log
  {
  }

  /** Every continuation that ends well, with all other appends in time, calls the serializer's completion. */
  ghost predicate SureAmongTimely(pre: seq<Label>, id: Id)
    requires Run(INIT, pre).Some?
  {
    forall post | Timely(AfterAppend(Run(INIT, pre).value, id), post) && EndsWell(Whole(pre, id, post)) ::
      Ran(id) in Run(INIT, Whole(pre, id, post)).value.log
  }

  /** Then a serializer is sure to be run exactly when no chain stands in between at the moment of its append. */
  lemma {:induction false} SureAmongTimelyWhen(pre: seq<Label>, id: Id)
    requires Timely(INIT, pre) && Run(INIT, pre).Some? && Append(id) !in pre
    ensures SureAmongTimely(pre, id) <==> Draining !in Run(INIT, pre).value.chains
  {
    hide Run, Timely, Quiet, RetryDropped, AfterAppend, Whole;
    if Draining in Run(INIT, pre).value.chains {
      var post := CanBeLost(pre, id);
      assert !SureAmongTimely(pre, id);
    } else {
      forall post | Timely(AfterAppend(Run(INIT, pre).value, id), post) && EndsWell(Whole(pre, id, post))
        ensures Ran(id) in Run(INIT, Whole(pre, id, post)).value.log
      {
        AppendedIsRun(pre, id, post);
      }
    }
  }
}
