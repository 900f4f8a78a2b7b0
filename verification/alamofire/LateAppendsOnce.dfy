/**
 When the completion of a serializer that is appended is called exactly once, all other appends
 being in time: if it is appended in time as well, or if the request is cancelled and at rest.
 */
module LateAppendsOnce {
  import opened LateAppends
  import opened PipelineInvariants
  import opened PipelineOutcomes
  import opened RequestPipeline
  import opened Wrappers

  /** How often the completion has been called. */
  function Calls(log: seq<Event>, id: Id): nat {
    multiset(log)[Ran(id)]
  }

  /** How often the serializer has been appended. */
  function Appends(log: seq<Event>, id: Id): nat {
    multiset(log)[Appended(id)]
  }

  /** The completions were taken, the request is cancelled, and nothing will start another chain. */
  predicate Calm(w: World) {
    && w.core.processingFinished && w.core.state.Cancelled? && w.finishes == 0 && !w.busy.PassedFinish?
    && (w.attempt.Over? || w.attempt.TaskRetryDue?)
    && forall i | 0 <= i < |w.chains| :: w.chains[i].Completing?
  }

  // ----- appended in time

  lemma {:induction false} CountsAgree(log: seq<Event>, id: Id)
    ensures Calls(log, id) == multiset(RanIn(log))[id]
    ensures Appends(log, id) == multiset(AppendedIn(log))[id]
  {
    hide Calls, Appends, AppendedIn, RanIn;
    if log == [] {
      NothingIn(id);
    } else {
      var n := |log| - 1;
      var before, e := log[..n], log[n];
      assert log == before + [e];
      CountsAgree(before, id);
      CountsStep(before, e, id);
    }
  }

  lemma {:induction false} CountsStep(log: seq<Event>, e: Event, id: Id)
    requires Calls(log, id) == multiset(RanIn(log))[id] && Appends(log, id) == multiset(AppendedIn(log))[id]
    ensures Calls(log + [e], id) == multiset(RanIn(log + [e]))[id]
    ensures Appends(log + [e], id) == multiset(AppendedIn(log + [e]))[id]
  {
    hide AppendedIn, RanIn;
    LogStep(log, e);
    CountThen(log, e);
    if e.Appended? {
      CountThen(AppendedIn(log), e.id);
    } else if e.Ran? {
      CountThen(RanIn(log), e.id);
    }
  }

  lemma {:induction false} CountThen<T>(s: seq<T>, x: T)
    ensures multiset(s + [x]) == multiset(s) + multiset{x}
  {
  }

  lemma {:induction false} NothingIn(id: Id)
    ensures AppendedIn([]) == [] && RanIn([]) == [] && Calls([], id) == 0 && Appends([], id) == 0
  {
  }

  lemma {:induction false} StepAppended(w: World, l: Label, id: Id)
    requires Step(w, l).Some? && l != Append(id)
    ensures Appends(Step(w, l).value.log, id) == Appends(w.log, id)
  {
    hide Step;
    OneEvent(w, l);
    var v := Step(w, l).value;
    assert v.log == w.log + v.log[|w.log|..];
    assert |v.log| > |w.log| ==> v.log[|w.log|..] == [v.log[|w.log|]];
  }

  /** A step logs at most one event. */
  lemma {:induction false} OneEvent(w: World, l: Label)
    requires Step(w, l).Some?
    ensures var log := Step(w, l).value.log;
            && |w.log| <= |log| <= |w.log| + 1 && log[..|w.log|] == w.log
            && (|log| > |w.log| && log[|w.log|].Appended? ==> l == Append(log[|w.log|].id))
  {
    hide Emptied, NextSerializer, WithCompletion, WithSerializer, ForRetry;
  }

  lemma {:induction false} RunAppended(w: World, labels: seq<Label>, id: Id)
    requires Run(w, labels).Some? && Append(id) !in labels
    ensures Appends(Run(w, labels).value.log, id) == Appends(w.log, id)
    decreases |labels|
  {
    hide Step;
    if labels != [] {
      StepAppended(w, labels[0], id);
      RunAppended(Step(w, labels[0]).value, labels[1..], id);
    }
  }

  lemma {:induction false} InTimeOnce(w: World, id: Id, post: seq<Label>)
    requires Inv(w) && InTime(w, Append(id)) && Appends(w.log, id) == 0 && Append(id) !in post
    requires Timely(AfterAppend(w, id), post) && Run(AfterAppend(w, id), post).Some?
    requires Quiet(Run(AfterAppend(w, id), post).value) && !Run(AfterAppend(w, id), post).value.dropped
    ensures Calls(Run(AfterAppend(w, id), post).value.log, id) == 1
  {
    hide Run, Timely, AppendedIn, RanIn;
    var v := AfterAppend(w, id);
    var u := Run(v, post).value;
    AppendKeeps(w, id);
    RunKeeps(v, post);
    assert v.log == w.log + [Appended(id)];
    RunAppended(v, post, id);
    SimpleForm(u.log);
    CountsAgree(u.log, id);
    AllRan(u);
    var m := Observed(u.log).value;
    assert m.appended[..m.ran] == m.appended;
  }

  // ----- appended to a cancelled request at rest

  /** Nothing will start another chain. */
  predicate AtRest(w: World) {
    && w.core.processingFinished && w.core.state.Cancelled? && w.finishes == 0 && w.busy.Free?
    && (w.attempt.Over? || w.attempt.TaskRetryDue?)
  }

  /** The first n chains only call completions, and not the serializer's. */
  predicate OthersFirst(w: World, n: nat, id: Id)
    requires n <= |w.chains|
  {
    forall i | 0 <= i < n :: w.chains[i].Completing? && id !in w.chains[i].rest
  }

  /** The last chain works on the serializer, and nothing else does. */
  predicate LastWorks(w: World, id: Id) {
    && |w.chains| > 0 && OthersFirst(w, |w.chains| - 1, id)
    && match w.chains[|w.chains| - 1]
       case Next =>
         w.core.serializers == [id] && (w.core.completions == [] || w.core.completions == [id]) && Calls(w.log, id) == 0
       case Draining => w.core.serializers == [id] && w.core.completions == [id] && Calls(w.log, id) == 0
       case Completing(rest) => rest == [id] && Calls(w.log, id) == 0
       case Serializing(x) => x == id && w.core.serializers == [id] && w.core.completions == [] && Calls(w.log, id) == 0
       case Serialized(x) => x == id && w.core.serializers == [id] && w.core.completions == [] && Calls(w.log, id) == 0
       case RetryDue(x) => true
  }

  predicate Called(w: World, id: Id) {
    Calls(w.log, id) == 1 && OthersFirst(w, |w.chains|, id)
  }

  predicate OnceSoFar(w: World, id: Id) {
    w.dropped || (AtRest(w) && (LastWorks(w, id) || Called(w, id)))
  }

  lemma {:induction false} OtherAdvances(w: World, i: nat, retry: bool, id: Id, n: nat)
    requires n <= |w.chains| && i < n && OthersFirst(w, n, id)
    ensures var v := AfterAdvance(w, i, retry);
            && v.Some? && v.value.core == w.core && Calls(v.value.log, id) == Calls(w.log, id)
            && var m := |v.value.chains| - (|w.chains| - n);
               && 0 <= m && OthersFirst(v.value, m, id)
               && v.value.chains[m..] == w.chains[n..]
  {
  }

  lemma {:induction false} LastAdvances(w: World, retry: bool, id: Id)
    requires AtRest(w) && LastWorks(w, id) && AfterAdvance(w, |w.chains| - 1, retry).Some?
    ensures OnceSoFar(AfterAdvance(w, |w.chains| - 1, retry).value, id)
  {
    hide OnceSoFar;
    var n := |w.chains| - 1;
    match w.chains[n]
    case Next => LastLooks(w, retry, id);
    case Draining => LastTakes(w, retry, id);
    case Completing(_) => LastCalls(w, retry, id);
    case _ => LastRuns(w, retry, id);
  }

  lemma {:induction false} LastLooks(w: World, retry: bool, id: Id)
    requires AtRest(w) && LastWorks(w, id) && w.chains[|w.chains| - 1].Next?
    ensures OnceSoFar(AfterAdvance(w, |w.chains| - 1, retry).value, id)
  {
    hide Calls, NextSerializer;
    var n, v := |w.chains| - 1, AfterAdvance(w, |w.chains| - 1, retry).value;
    assert NextSerializer(w.core) == if w.core.completions == [] then Some(id) else None by {
      LooksFor(w.core, id);
    }
    CallsThen(w.log, Began(id), id);
    assert forall i | 0 <= i < n :: v.chains[i] == w.chains[i];
  }

  lemma {:induction false} LooksFor(c: Core, id: Id)
    requires c.serializers == [id]
    ensures NextSerializer(c) == if c.completions == [] then Some(id) else None
  {
  }

  lemma {:induction false} CallsThen(log: seq<Event>, e: Event, id: Id)
    ensures Calls(log + [e], id) == Calls(log, id) + if e == Ran(id) then 1 else 0
  {
  }

  lemma {:induction false} LastTakes(w: World, retry: bool, id: Id)
    requires AtRest(w) && LastWorks(w, id) && w.chains[|w.chains| - 1].Draining?
    ensures OnceSoFar(AfterAdvance(w, |w.chains| - 1, retry).value, id)
  {
    var n, v := |w.chains| - 1, AfterAdvance(w, |w.chains| - 1, retry).value;
    assert v.chains[..n] == w.chains[..n] && v.chains[n] == Completing([id]);
  }

  lemma {:induction false} LastCalls(w: World, retry: bool, id: Id)
    requires AtRest(w) && LastWorks(w, id) && w.chains[|w.chains| - 1].Completing?
    ensures OnceSoFar(AfterAdvance(w, |w.chains| - 1, retry).value, id)
  {
    var n, v := |w.chains| - 1, AfterAdvance(w, |w.chains| - 1, retry).value;
    assert [id][1..] == [];
    assert v.chains[..n] == w.chains[..n] && v.chains[n] == Completing([]);
    assert v.log == w.log + [Ran(id)];
  }

  lemma {:induction false} LastRuns(w: World, retry: bool, id: Id)
    requires AtRest(w) && LastWorks(w, id) && AfterAdvance(w, |w.chains| - 1, retry).Some?
    requires var c := w.chains[|w.chains| - 1]; c.Serializing? || c.Serialized? || c.RetryDue?
    ensures OnceSoFar(AfterAdvance(w, |w.chains| - 1, retry).value, id)
  {
    var n, v := |w.chains| - 1, AfterAdvance(w, |w.chains| - 1, retry).value;
    assert v.chains[..n] == w.chains[..n];
    assert [] + [id] == [id];
  }

  lemma {:induction false} AdvanceOnce(w: World, i: nat, retry: bool, id: Id)
    requires OnceSoFar(w, id) && !w.dropped && i < |w.chains| && AfterAdvance(w, i, retry).Some?
    ensures OnceSoFar(AfterAdvance(w, i, retry).value, id)
  {
    var n := |w.chains| - 1;
    if LastWorks(w, id) && i == n {
      LastAdvances(w, retry, id);
    } else if LastWorks(w, id) {
      OtherLast(w, i, retry, id);
    } else {
      OtherAdvances(w, i, retry, id, |w.chains|);
      AdvanceAtRest(w, i, retry);
    }
  }

  lemma {:induction false} AdvanceAtRest(w: World, i: nat, retry: bool)
    requires AtRest(w) && i < |w.chains| && w.chains[i].Completing?
    ensures AfterAdvance(w, i, retry).Some? && AtRest(AfterAdvance(w, i, retry).value)
  {
  }

  lemma {:induction false} OtherLast(w: World, i: nat, retry: bool, id: Id)
    requires AtRest(w) && LastWorks(w, id) && i < |w.chains| - 1
    ensures AfterAdvance(w, i, retry).Some?
    ensures AtRest(AfterAdvance(w, i, retry).value) && LastWorks(AfterAdvance(w, i, retry).value, id)
  {
    hide AfterAdvance, Calls, OthersFirst;
    var n := |w.chains| - 1;
    OtherAdvances(w, i, retry, id, n);
    OtherCompletes(w, i, n, id);
    AdvanceAtRest(w, i, retry);
    var v := AfterAdvance(w, i, retry).value;
    var m := |v.chains| - 1;
    assert v.chains[m] == v.chains[m..][0] && w.chains[n] == w.chains[n..][0];
  }

  lemma {:induction false} OtherCompletes(w: World, i: nat, n: nat, id: Id)
    requires i < n <= |w.chains| && OthersFirst(w, n, id)
    ensures w.chains[i].Completing?
  {
  }

  lemma {:induction false} StepOnce(w: World, l: Label, id: Id)
    requires OnceSoFar(w, id) && !l.Append? && Step(w, l).Some?
    ensures OnceSoFar(Step(w, l).value, id)
  {
    hide AfterAdvance, LastWorks, Called;
    if w.dropped {
      DroppedStays(w, l);
    } else {
      match l
      case Advance(i, retry) => AdvanceOnce(w, i, retry, id);
      case _ => OtherOnce(w, l, id);
    }
  }

  lemma {:induction false} OtherOnce(w: World, l: Label, id: Id)
    requires AtRest(w) && (LastWorks(w, id) || Called(w, id)) && !l.Append? && !l.Advance? && Step(w, l).Some?
    ensures OnceSoFar(Step(w, l).value, id)
  {
  }

  lemma {:induction false} RunOnce(w: World, labels: seq<Label>, id: Id)
    requires OnceSoFar(w, id) && w.core.processingFinished && Timely(w, labels) && Run(w, labels).Some?
    ensures OnceSoFar(Run(w, labels).value, id)
    decreases |labels|
  {
    hide OnceSoFar, Step;
    if labels != [] {
      FinishedStays(w, labels[0]);
      StepOnce(w, labels[0], id);
      RunOnce(Step(w, labels[0]).value, labels[1..], id);
    }
  }

  lemma {:induction false} CalmOnce(w: World, id: Id)
    requires Inv(w) && Calm(w) && Unseen(w, id)
    ensures OnceSoFar(AfterAppend(w, id), id)
  {
    var v := AfterAppend(w, id);
    forall i | 0 <= i < |w.chains| ensures v.chains[i].Completing? && id !in v.chains[i].rest {
      assert !Holds(w.chains[i], id);
    }
    assert Ran(id) !in v.log;
  }

  lemma {:induction false} QuietOnce(w: World, id: Id)
    requires OnceSoFar(w, id) && Quiet(w) && !w.dropped
    ensures Calls(w.log, id) == 1
  {
  }

  // ----- appended otherwise, the completion can be called twice

  lemma {:induction false} Also(w: World, labels: seq<Label>, v: World, l: Label) returns (more: seq<Label>, u: World)
    requires Timely(w, labels) && Run(w, labels) == Some(v) && !l.Append? && Step(v, l).Some?
    ensures more == labels + [l] && u == Step(v, l).value && Timely(w, more) && Run(w, more) == Some(u)
  {
    RunThen(w, labels, l);
    more, u := labels + [l], Step(v, l).value;
  }

  lemma {:induction false} NoSteps(w: World)
    ensures Timely(w, []) && Run(w, []) == Some(w)
  {
  }

  /** The serializer is on the list alone, and two chains are about to look for one. */
  predicate TwoLook(w: World, id: Id, i: nat, j: nat) {
    && w.core.processingFinished && w.core.serializers == [id] && w.core.completions == [] && !w.dropped
    && !w.busy.PassedRetry? && (!w.attempt.Over? ==> w.core.state.Cancelled? && !w.cancelledLive)
    && i < j < |w.chains| && w.chains[i] == Next && w.chains[j] == Next
    && forall k | 0 <= k < |w.chains| :: w.chains[k].Next? || w.chains[k].Completing?
  }

  /** Both chains run it before either adds the completion. */
  lemma {:induction false} BothBegin(w: World, id: Id, i: nat, j: nat) returns (labels: seq<Label>, v: World)
    requires TwoLook(w, id, i, j)
    ensures Timely(w, labels) && Run(w, labels) == Some(v)
    ensures v == w.(chains := w.chains[i := Serialized(id)][j := Serialized(id)], log := w.log + [Began(id), Began(id)])
  {
    hide Run, Timely;
    NoSteps(w);
    labels, v := Also(w, [], w, Advance(i, false));
    labels, v := Also(w, labels, v, Advance(j, false));
    labels, v := Also(w, labels, v, Advance(i, false));
    labels, v := Also(w, labels, v, Advance(j, false));
    assert v.chains == w.chains[i := Serialized(id)][j := Serialized(id)];
    assert v.log == w.log + [Began(id), Began(id)];
  }

  /** A chain adds the completion, finds no further serializer, takes the completions and calls this one. */
  lemma {:induction false} CallsIt(w: World, prior: seq<Label>, v: World, id: Id, i: nat)
    returns (labels: seq<Label>, u: World)
    requires Timely(w, prior) && Run(w, prior) == Some(v)
    requires i < |v.chains| && v.chains[i] == Serialized(id) && |v.core.serializers| <= 1 && v.core.completions == []
    ensures Timely(w, labels) && Run(w, labels) == Some(u)
    ensures u == v.(core := Emptied(v.core), chains := v.chains[i := Completing([])],
                    log := v.log + [Ended(id), Drained, Ran(id)])
  {
    hide Run, Timely;
    labels, u := TakesIt(w, prior, v, id, i);
    labels, u := Also(w, labels, u, Advance(i, false));
    assert [id][1..] == [];
    assert u.chains == v.chains[i := Completing([])];
    assert u.log == v.log + [Ended(id), Drained, Ran(id)];
  }

  lemma {:induction false} TakesIt(w: World, prior: seq<Label>, v: World, id: Id, i: nat)
    returns (labels: seq<Label>, u: World)
    requires Timely(w, prior) && Run(w, prior) == Some(v)
    requires i < |v.chains| && v.chains[i] == Serialized(id) && |v.core.serializers| <= 1 && v.core.completions == []
    ensures Timely(w, labels) && Run(w, labels) == Some(u)
    ensures u == v.(core := Emptied(v.core), chains := v.chains[i := Completing([id])],
                    log := v.log + [Ended(id), Drained])
  {
    hide Run, Timely;
    labels, u := Also(w, prior, v, Advance(i, false));
    assert u.core.completions == [id] && u.chains[i] == Next;
    labels, u := Also(w, labels, u, Advance(i, false));
    assert u.chains[i] == Draining && u.core.completions == [id];
    labels, u := Also(w, labels, u, Advance(i, false));
    assert u.chains[i] == Completing([id]);
    assert u.chains == v.chains[i := Completing([id])];
    assert u.log == v.log + [Ended(id), Drained];
  }

  lemma {:induction false} LookTwice(w: World, prior: seq<Label>, v: World, id: Id, i: nat, j: nat)
    returns (labels: seq<Label>, u: World)
    requires Timely(w, prior) && Run(w, prior) == Some(v) && TwoLook(v, id, i, j)
    ensures Timely(w, labels) && Run(w, labels) == Some(u)
    ensures Settled(u) && Calls(u.log, id) >= 2
  {
    hide Run, Timely, Emptied;
    var first, x := BothBegin(v, id, i, j);
    RunConcat(w, prior, first);
    TimelyConcat(w, prior, first);
    labels, u := CallsIt(w, prior + first, x, id, i);
    EmptiedIs(x.core);
    labels, u := CallsIt(w, labels, u, id, j);
    EmptiedIs(Emptied(x.core));
    LooksSettled(v, x, u, id, i, j);
  }

  lemma {:induction false} EmptiedIs(c: Core)
    ensures Emptied(c).serializers == [] && Emptied(c).completions == [] && Emptied(c).processingFinished
    ensures Emptied(c).state.Cancelled? <==> c.state.Cancelled?
  {
  }

  lemma {:induction false} LooksSettled(v: World, x: World, u: World, id: Id, i: nat, j: nat)
    requires TwoLook(v, id, i, j)
    requires x == v.(chains := v.chains[i := Serialized(id)][j := Serialized(id)],
        log := v.log + [Began(id), Began(id)])
    requires u.chains == x.chains[i := Completing([])][j := Completing([])]
    requires u.log == x.log + [Ended(id), Drained, Ran(id)] + [Ended(id), Drained, Ran(id)]
    requires u == x.(core := u.core, chains := u.chains, log := u.log)
    requires u.core.processingFinished && u.core.serializers == [] && u.core.completions == []
    requires u.core.state.Cancelled? <==> x.core.state.Cancelled?
    ensures Settled(u) && Calls(u.log, id) >= 2
  {
    assert u.log[|x.log| + 2] == u.log[|x.log| + 5] == Ran(id);
    var head, tail := x.log + [Ended(id), Drained, Ran(id)], [Ended(id), Drained, Ran(id)];
    assert multiset(u.log) == multiset(head) + multiset(tail);
    assert head[|x.log| + 2] == Ran(id) && tail[2] == Ran(id);
    assert Ran(id) in multiset(head) && Ran(id) in multiset(tail);
  }

  lemma {:induction false} TimelyConcat(w: World, a: seq<Label>, b: seq<Label>)
    requires Timely(w, a) && Run(w, a).Some? && Timely(Run(w, a).value, b)
    ensures Timely(w, a + b)
    decreases |a|
  {
    hide Step, InTime;
    if a == [] {
      assert a + b == b;
    } else {
      assert (a + b)[1..] == a[1..] + b;
      TimelyConcat(Step(w, a[0]).value, a[1..], b);
    }
  }

  lemma {:induction false} LogGrows(w: World, l: Label, id: Id)
    requires Step(w, l).Some?
    ensures Calls(Step(w, l).value.log, id) >= Calls(w.log, id)
  {
    hide Step;
    OneEvent(w, l);
    var v := Step(w, l).value;
    assert v.log == w.log + v.log[|w.log|..];
  }

  lemma {:induction false} RunLogGrows(w: World, labels: seq<Label>, id: Id)
    requires Run(w, labels).Some?
    ensures Calls(Run(w, labels).value.log, id) >= Calls(w.log, id)
    decreases |labels|
  {
    hide Step, Calls;
    if labels != [] {
      LogGrows(w, labels[0], id);
      RunLogGrows(Step(w, labels[0]).value, labels[1..], id);
    }
  }

  /** Something starts a second chain, if there is none. */
  lemma {:induction false} SecondChain(w: World, id: Id) returns (labels: seq<Label>, u: World, i: nat, j: nat)
    requires Inv(w) && w.core.processingFinished && Draining !in w.chains && !Calm(w)
    ensures Timely(AfterAppend(w, id), labels) && Run(AfterAppend(w, id), labels) == Some(u)
    ensures TwoLook(u, id, i, j)
  {
    hide Run, Timely;
    var v := AfterAppend(w, id);
    AppendedChains(w, id);
    NoSteps(v);
    if Next in w.chains {
      i :| 0 <= i < |w.chains| && w.chains[i] == Next;
      j := |w.chains|;
      labels, u := [], v;
      assert v.chains[i] == Next;
    } else {
      i, j := |w.chains|, |w.chains| + 1;
      labels, u := Ending(w, id);
      labels, u := Also(v, labels, u, StartFinishing);
      assert u.chains == v.chains + [Next] && u.chains[i] == v.chains[i];
      assert forall k | 0 <= k < |v.chains| :: u.chains[k] == v.chains[k];
    }
  }

  lemma {:induction false} AppendedChains(w: World, id: Id)
    requires Inv(w) && w.core.processingFinished && Draining !in w.chains
    ensures var v := AfterAppend(w, id);
            && v.chains == w.chains + [Next] && v.core.serializers == [id] && v.core.completions == []
            && v.core.processingFinished && !v.dropped && !v.busy.PassedRetry?
            && (!v.attempt.Over? ==> v.core.state.Cancelled? && !v.cancelledLive)
            && forall k | 0 <= k < |v.chains| :: v.chains[k].Next? || v.chains[k].Completing?
  {
    var v := AfterAppend(w, id);
    forall k | 0 <= k < |v.chains| ensures v.chains[k].Next? || v.chains[k].Completing? {
      assert k < |w.chains| ==> v.chains[k] == w.chains[k] && w.chains[k] in w.chains;
      assert k < |w.chains| ==> Spent(w.chains[k]) || w.chains[k].Completing?;
    }
  }

  /** A finish call passes its guard: a pending one, or one that the end of the attempt or a cancellation brings. */
  lemma {:induction false} Ending(w: World, id: Id) returns (labels: seq<Label>, u: World)
    requires Inv(w) && w.core.processingFinished && Draining !in w.chains && Next !in w.chains && !Calm(w)
    ensures Timely(AfterAppend(w, id), labels) && Run(AfterAppend(w, id), labels) == Some(u)
    ensures var v := AfterAppend(w, id);
            && u == v.(core := u.core, attempt := u.attempt, busy := PassedFinish, finishes := u.finishes)
            && u.core == v.core.(state := Cancelled) && (u.attempt == v.attempt || u.attempt.Over?) && !u.cancelledLive
  {
    hide Run, Timely;
    var v := AfterAppend(w, id);
    NoSteps(v);
    labels, u := [], v;
    NotCalm(w);
    if !w.core.state.Cancelled? {
      labels, u := Also(v, labels, u, Cancel(false));
    } else if w.busy.Free? && w.finishes == 0 {
      labels, u := Also(v, labels, u, AttemptEnds(false));
    }
    if !u.busy.PassedFinish? {
      labels, u := Also(v, labels, u, CallFinish);
    }
  }

  lemma {:induction false} NotCalm(w: World)
    requires Inv(w) && w.core.processingFinished && Draining !in w.chains && Next !in w.chains && !Calm(w)
    ensures !w.core.isFinishing && !w.busy.PassedRetry?
    ensures !w.core.state.Cancelled? ==> w.core.state.Finished? && w.busy.Free? && w.attempt.Over? && !w.cancelledLive
    ensures w.core.state.Cancelled? ==>
              !w.cancelledLive && (w.busy.PassedFinish? || w.finishes > 0 || w.attempt.Preparing? || w.attempt.Running?)
  {
    forall i | 0 <= i < |w.chains| ensures w.chains[i].Completing? {
      assert w.chains[i] in w.chains;
      assert Spent(w.chains[i]) || w.chains[i].Completing?;
    }
  }

  /** A run that ends well, in which the completion is called at least twice. */
  lemma {:induction false} CalledTwice(pre: seq<Label>, id: Id) returns (post: seq<Label>)
    requires Timely(INIT, pre) && Run(INIT, pre).Some?
    requires Run(INIT, pre).value.core.processingFinished && !Calm(Run(INIT, pre).value)
    requires Draining !in Run(INIT, pre).value.chains
    ensures Timely(AfterAppend(Run(INIT, pre).value, id), post) && EndsWell(Whole(pre, id, post))
    ensures Calls(Run(INIT, Whole(pre, id, post)).value.log, id) >= 2
  {
    hide Run, Timely, Inv, Calm, RetryDropped, AfterAppend, Whole, Calls, Settled, Quiet, TwoLook;
    var w := Run(INIT, pre).value;
    var v := AfterAppend(w, id);
    InitInv();
    RunKeeps(INIT, pre);
    var first, x, i, j := SecondChain(w, id);
    var second, y := LookTwice(v, first, x, id, i, j);
    var third := Settles(y);
    post := second + third;
    RunConcat(v, second, third);
    TimelyConcat(v, second, third);
    RunLogGrows(y, third, id);
    WholeRun(pre, id, post);
    FlagsTell(Whole(pre, id, post));
  }

  // ----- exactly once

  /**
   Every continuation that ends well, with all other appends in time, calls the serializer's completion exactly once.
   */
  ghost predicate OnceAmongTimely(pre: seq<Label>, id: Id)
    requires Run(INIT, pre).Some?
  {
    forall post |
      Append(id) !in post && Timely(AfterAppend(Run(INIT, pre).value, id), post) && EndsWell(Whole(pre, id, post)) ::
      Calls(Run(INIT, Whole(pre, id, post)).value.log, id) == 1
  }

  lemma {:induction false} OnceIfSafe(pre: seq<Label>, id: Id, post: seq<Label>)
    requires Timely(INIT, pre) && Run(INIT, pre).Some? && Append(id) !in pre && Append(id) !in post
    requires InTime(Run(INIT, pre).value, Append(id)) || Calm(Run(INIT, pre).value)
    requires Timely(AfterAppend(Run(INIT, pre).value, id), post) && EndsWell(Whole(pre, id, post))
    ensures Calls(Run(INIT, Whole(pre, id, post)).value.log, id) == 1
  {
    hide Run, Timely, Inv, Calm, RetryDropped, AfterAppend, Whole, Calls, OnceSoFar, InTime, Unseen, Quiet;
    var w := Run(INIT, pre).value;
    InitInv();
    RunKeeps(INIT, pre);
    WholeRun(pre, id, post);
    FlagsTell(Whole(pre, id, post));
    if InTime(w, Append(id)) {
      RunAppended(INIT, pre, id);
      InTimeOnce(w, id, post);
    } else {
      NotYetSeen(pre, id);
      CalmOnce(w, id);
      CalmFinished(w, id);
      RunOnce(AfterAppend(w, id), post, id);
      QuietOnce(Run(AfterAppend(w, id), post).value, id);
    }
  }

  lemma {:induction false} CalmFinished(w: World, id: Id)
    requires Calm(w)
    ensures AfterAppend(w, id).core.processingFinished
  {
  }

  /**
   Then a completion is sure to be called exactly once if and only if its serializer is appended in
   time, or to a cancelled request at rest.
   */
  lemma {:induction false} OnceAmongTimelyWhen(pre: seq<Label>, id: Id)
    requires Timely(INIT, pre) && Run(INIT, pre).Some? && Append(id) !in pre
    ensures OnceAmongTimely(pre, id) <==> InTime(Run(INIT, pre).value, Append(id)) || Calm(Run(INIT, pre).value)
  {
    hide Run, Timely, RetryDropped, Quiet, AfterAppend, Whole, Calls, Calm;
    var w := Run(INIT, pre).value;
    if InTime(w, Append(id)) || Calm(w) {
      forall post |
        Append(id) !in post && Timely(AfterAppend(w, id), post) && EndsWell(Whole(pre, id, post))
        ensures Calls(Run(INIT, Whole(pre, id, post)).value.log, id) == 1
      {
        OnceIfSafe(pre, id, post);
      }
    } else if Draining in w.chains {
      var post := CanBeLost(pre, id);
      NoCalls(Run(INIT, Whole(pre, id, post)).value.log, id);
    } else {
      var post := CalledTwice(pre, id);
      WholeRun(pre, id, post);
      AppendFinished(w, id);
      NoLateAppend(AfterAppend(w, id), post, id);
    }
  }

  lemma {:induction false} NoCalls(log: seq<Event>, id: Id)
    requires Ran(id) !in log
    ensures Calls(log, id) == 0
  {
  }

  lemma {:induction false} NoLateAppend(w: World, labels: seq<Label>, id: Id)
    requires w.core.processingFinished && Timely(w, labels) && Run(w, labels).Some?
    ensures Append(id) !in labels
    decreases |labels|
  {
    hide Step;
    if labels != [] {
      FinishedStays(w, labels[0]);
      NoLateAppend(Step(w, labels[0]).value, labels[1..], id);
      assert labels == [labels[0]] + labels[1..];
    }
  }
}
