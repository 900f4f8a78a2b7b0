/**
 What is sure to happen to a serializer that is appended, whatever else is appended later: its
 completion is called exactly once if it is appended in time, and otherwise that is not sure.
 */
module AnyAppends {
  import opened LateAppends
  import opened LateAppendsOnce
  import opened PipelineInvariants
  import opened PipelineOutcomes
  import opened RequestPipeline
  import opened Wrappers

  // ----- a run that has not taken the completions

  lemma {:induction false} TakingStays(w: World, l: Label)
    requires AboutToTake(w) && Step(w, l).Some? && !Step(w, l).value.core.processingFinished
    ensures AboutToTake(Step(w, l).value)
  {
  }

  lemma {:induction false} NotTakenBefore(w: World, l: Label)
    requires Step(w, l).Some? && !Step(w, l).value.core.processingFinished
    ensures !w.core.processingFinished
  {
  }

  /** Until the completions are taken, an append out of time leaves them about to be taken. */
  lemma {:induction false} TimelyOrTaking(labels: seq<Label>)
    requires Run(INIT, labels).Some? && !Run(INIT, labels).value.core.processingFinished
    ensures Timely(INIT, labels) || AboutToTake(Run(INIT, labels).value)
    decreases |labels|
  {
    if labels == [] {
      NoSteps(INIT);
    } else {
      hide Run, Timely, Step, AboutToTake, Inv;
      var n := |labels| - 1;
      var before, l := labels[..n], labels[n];
      assert labels == before + [l];
      RunThen(INIT, before, l);
      var w := Run(INIT, before).value;
      NotTakenBefore(w, l);
      TimelyOrTaking(before);
      if Timely(INIT, before) && !InTime(w, l) {
        InitInv();
        RunKeeps(INIT, before);
        TakingBlocks(w);
      }
      if AboutToTake(w) {
        TakingStays(w, l);
      }
    }
  }

  // ----- in time: exactly once

  function OwedBy(c: Chain, id: Id): nat {
    if c.Completing? then multiset(c.rest)[id] else 0
  }

  /** How many calls of the completion the chains have still to make. */
  function Owed(cs: seq<Chain>, id: Id): nat {
    if cs == [] then 0 else OwedBy(cs[0], id) + Owed(cs[1..], id)
  }

  lemma {:induction false} OwedSet(cs: seq<Chain>, i: nat, c: Chain, id: Id)
    requires i < |cs|
    ensures Owed(cs[i := c], id) == Owed(cs, id) - OwedBy(cs[i], id) + OwedBy(c, id)
  {
    hide OwedBy;
    if i > 0 {
      OwedSet(cs[1..], i - 1, c, id);
      assert cs[i := c][1..] == cs[1..][i - 1 := c];
    } else {
      assert cs[i := c][1..] == cs[1..];
    }
  }

  lemma {:induction false} OwedRemoved(cs: seq<Chain>, i: nat, id: Id)
    requires i < |cs|
    ensures Owed(cs[..i] + cs[i + 1..], id) == Owed(cs, id) - OwedBy(cs[i], id)
  {
    hide OwedBy;
    if i > 0 {
      OwedRemoved(cs[1..], i - 1, id);
      assert (cs[..i] + cs[i + 1..])[1..] == cs[1..][..i - 1] + cs[1..][i..];
    } else {
      assert cs[..0] + cs[1..] == cs[1..];
    }
  }

  lemma {:induction false} OwedAdded(cs: seq<Chain>, c: Chain, id: Id)
    ensures Owed(cs + [c], id) == Owed(cs, id) + OwedBy(c, id)
  {
    hide OwedBy;
    if cs == [] {
      assert cs + [c] == [c] && [c][1..] == [];
    } else {
      OwedAdded(cs[1..], c, id);
      assert (cs + [c])[1..] == cs[1..] + [c];
    }
  }

  /** The completions were not taken; the serializer has been appended once. */
  predicate Listed(w: World, id: Id) {
    Inv(w) && !w.core.processingFinished && Appends(w.log, id) == 1
  }

  /** The completions are about to be taken, the serializer's among them. */
  predicate TakingOnce(w: World, id: Id) {
    AboutToTake(w) && multiset(w.core.completions)[id] == 1 && Calls(w.log, id) == 0
  }

  predicate WorksOnOther(c: Chain, id: Id) {
    match c
    case Serializing(x) => x != id
    case Serialized(x) => x != id
    case _ => true
  }

  /** The completion was taken once, and has been called or will be; the serializer is off the lists. */
  predicate Taken(w: World, id: Id) {
    && id !in w.core.serializers && id !in w.core.completions
    && (forall i | 0 <= i < |w.chains| :: WorksOnOther(w.chains[i], id))
    && Calls(w.log, id) + Owed(w.chains, id) == 1
  }

  predicate OnceAnyhow(w: World, id: Id) {
    w.dropped || Listed(w, id) || TakingOnce(w, id) || Taken(w, id)
  }

  lemma {:induction false} ListedTakes(w: World, id: Id)
    requires Listed(w, id) && Draining in w.chains
    ensures TakingOnce(w, id)
  {
    hide Calls, AppendedIn, RanIn, Control;
    ListedTaking(w);
    SimpleForm(w.log);
    CountsAgree(w.log, id);
    var m := Observed(w.log).value;
    assert w.chains[0] == Draining;
    assert m.appended[..m.done] == m.appended && m.appended[..0] == [];
  }

  lemma {:induction false} ListedTaking(w: World)
    requires Inv(w) && !w.core.processingFinished && Draining in w.chains
    ensures AboutToTake(w)
  {
    TakingBlocks(w);
  }

  /** Only the chain in between takes the completions. */
  lemma {:induction false} TakenByDraining(w: World, l: Label)
    requires !w.core.processingFinished && Draining !in w.chains && Step(w, l).Some?
    ensures !Step(w, l).value.core.processingFinished
  {
  }

  lemma {:induction false} ListedStep(w: World, l: Label, id: Id)
    requires Listed(w, id) && Draining !in w.chains && l != Append(id) && Step(w, l).Some?
    ensures Listed(Step(w, l).value, id)
  {
    hide Step, Inv;
    StepKeeps(w, l);
    StepAppended(w, l, id);
    TakenByDraining(w, l);
  }

  lemma {:induction false} TakingStep(w: World, l: Label, id: Id)
    requires TakingOnce(w, id) && l != Append(id) && Step(w, l).Some?
    ensures TakingOnce(Step(w, l).value, id) || Taken(Step(w, l).value, id)
  {
    hide Calls, Owed, AfterAdvance;
    var v := Step(w, l).value;
    if l.Advance? {
      TakesOnce(w, l.chain, l.retry, id);
    } else if l.Append? {
      CallsThen(w.log, Appended(l.id), id);
    }
  }

  lemma {:induction false} TakesOnce(w: World, i: nat, retry: bool, id: Id)
    requires TakingOnce(w, id) && i < |w.chains|
    ensures AfterAdvance(w, i, retry).Some? && Taken(AfterAdvance(w, i, retry).value, id)
  {
    hide Calls, Owed;
    var v := AfterAdvance(w, i, retry).value;
    assert v.chains == [] + [Completing(w.core.completions)];
    CallsThen(w.log, Drained, id);
    OwedAdded([], v.chains[0], id);
    NothingOwed(id);
  }

  lemma {:induction false} NothingOwed(id: Id)
    ensures Owed([], id) == 0
  {
  }

  lemma {:induction false} TakenAdvance(w: World, i: nat, retry: bool, id: Id)
    requires Taken(w, id) && i < |w.chains| && AfterAdvance(w, i, retry).Some?
    ensures Taken(AfterAdvance(w, i, retry).value, id)
  {
    hide Calls;
    assert WorksOnOther(w.chains[i], id);
    match w.chains[i]
    case Completing(rest) => TakenCompleting(w, i, retry, id);
    case RetryDue(_) =>
      OwedRemoved(w.chains, i, id);
      WithoutWorks(w, i, id);
    case _ => TakenWorking(w, i, retry, id);
  }

  lemma {:induction false} WithoutWorks(w: World, i: nat, id: Id)
    requires i < |w.chains| && forall j | 0 <= j < |w.chains| :: WorksOnOther(w.chains[j], id)
    ensures forall j | 0 <= j < |WithoutChain(w, i).chains| :: WorksOnOther(WithoutChain(w, i).chains[j], id)
  {
    hide WorksOnOther;
  }

  lemma {:induction false} TakenCompleting(w: World, i: nat, retry: bool, id: Id)
    requires Taken(w, id) && i < |w.chains| && w.chains[i].Completing?
    ensures Taken(AfterAdvance(w, i, retry).value, id)
  {
    hide Calls, Owed;
    var rest := w.chains[i].rest;
    if rest == [] {
      OwedRemoved(w.chains, i, id);
      WithoutWorks(w, i, id);
    } else {
      OwedSet(w.chains, i, Completing(rest[1..]), id);
      CallsThen(w.log, Ran(rest[0]), id);
      assert rest == [rest[0]] + rest[1..];
      assert multiset(rest)[id] == multiset(rest[1..])[id] + if rest[0] == id then 1 else 0;
    }
  }

  lemma {:induction false} TakenWorking(w: World, i: nat, retry: bool, id: Id)
    requires Taken(w, id) && i < |w.chains| && AfterAdvance(w, i, retry).Some?
    requires !w.chains[i].Completing? && !w.chains[i].RetryDue?
    ensures Taken(AfterAdvance(w, i, retry).value, id)
  {
    hide Calls, Owed;
    assert WorksOnOther(w.chains[i], id);
    var v := AfterAdvance(w, i, retry).value;
    OwedSet(w.chains, i, v.chains[i], id);
    if |v.log| > |w.log| {
      CallsThen(w.log, v.log[|w.log|], id);
    }
    assert v.chains == w.chains[i := v.chains[i]];
    assert multiset(w.core.completions)[id] == 0;
  }

  lemma {:induction false} TakenStep(w: World, l: Label, id: Id)
    requires Taken(w, id) && l != Append(id) && Step(w, l).Some?
    ensures Taken(Step(w, l).value, id)
  {
    hide AfterAdvance, Calls, Owed;
    var v := Step(w, l).value;
    match l
    case Advance(i, retry) => TakenAdvance(w, i, retry, id);
    case Append(x) =>
      CallsThen(w.log, Appended(x), id);
      OwedAdded(w.chains, Next, id);
    case StartFinishing => OwedAdded(w.chains, Next, id);
    case Prepare => CallsThen(w.log, WasReset, id);
    case _ =>
  }

  lemma {:induction false} StepOnceAnyhow(w: World, l: Label, id: Id)
    requires OnceAnyhow(w, id) && l != Append(id) && Step(w, l).Some?
    ensures OnceAnyhow(Step(w, l).value, id)
  {
    hide Listed, TakingOnce, Taken, Step;
    if w.dropped {
      DroppedStays(w, l);
    } else if Taken(w, id) {
      TakenStep(w, l, id);
    } else if TakingOnce(w, id) {
      TakingStep(w, l, id);
    } else if Draining in w.chains {
      ListedTakes(w, id);
      TakingStep(w, l, id);
    } else {
      ListedStep(w, l, id);
    }
  }

  lemma {:induction false} RunOnceAnyhow(w: World, labels: seq<Label>, id: Id)
    requires OnceAnyhow(w, id) && Append(id) !in labels && Run(w, labels).Some?
    ensures OnceAnyhow(Run(w, labels).value, id)
    decreases |labels|
  {
    hide OnceAnyhow, Step;
    if labels != [] {
      StepOnceAnyhow(w, labels[0], id);
      RunOnceAnyhow(Step(w, labels[0]).value, labels[1..], id);
    }
  }

  lemma {:induction false} QuietOnceAnyhow(w: World, id: Id)
    requires OnceAnyhow(w, id) && Quiet(w) && !w.dropped
    ensures Calls(w.log, id) == 1
  {
  }

  /**
   The completion of a serializer that is appended in time is called exactly once in every run
   that ends well, whatever else is appended, earlier or later.
   */
  lemma {:induction false} InTimeIsOnce(pre: seq<Label>, id: Id, post: seq<Label>)
    requires Run(INIT, pre).Some? && InTime(Run(INIT, pre).value, Append(id))
    requires Append(id) !in pre && Append(id) !in post && EndsWell(Whole(pre, id, post))
    ensures Calls(Run(INIT, Whole(pre, id, post)).value.log, id) == 1
  {
    hide Run, Timely, Inv, RetryDropped, AfterAppend, Whole, Calls, Quiet;
    var w := Run(INIT, pre).value;
    TimelyOrTaking(pre);
    InitInv();
    RunKeeps(INIT, pre);
    WholeRun(pre, id, post);
    FlagsTell(Whole(pre, id, post));
    RunAppended(INIT, pre, id);
    BecomesListed(w, id);
    RunOnceAnyhow(AfterAppend(w, id), post, id);
    QuietOnceAnyhow(Run(AfterAppend(w, id), post).value, id);
  }

  lemma {:induction false} BecomesListed(w: World, id: Id)
    requires Inv(w) && InTime(w, Append(id)) && Appends(w.log, id) == 0
    ensures Listed(AfterAppend(w, id), id)
  {
    hide Inv;
    AppendKeeps(w, id);
  }

  // ----- at rest and cancelled: a second append has the completion called twice

  /** A run gone on by one step. */
  lemma {:induction false} On(w: World, labels: seq<Label>, v: World, l: Label, id: Id)
    returns (more: seq<Label>, u: World)
    requires Run(w, labels) == Some(v) && Append(id) !in labels && l != Append(id) && Step(v, l).Some?
    ensures u == Step(v, l).value && Run(w, more) == Some(u) && Append(id) !in more
  {
    RunThen(w, labels, l);
    more, u := labels + [l], Step(v, l).value;
  }

  /** The chains are the same but for the i-th, which is c. */
  predicate Changed(cs: seq<Chain>, i: nat, c: Chain, ds: seq<Chain>) {
    |cs| == |ds| && i < |ds| && ds[i] == c && forall k | 0 <= k < |cs| && k != i :: ds[k] == cs[k]
  }

  /** Chain i begins the next serializer. */
  lemma {:induction false} Begins(w: World, labels: seq<Label>, v: World, i: nat, x: Id, id: Id)
    returns (more: seq<Label>, u: World)
    requires Run(w, labels) == Some(v) && Append(id) !in labels
    requires i < |v.chains| && v.chains[i] == Next && NextSerializer(v.core) == Some(x)
    ensures Run(w, more) == Some(u) && Append(id) !in more && Changed(v.chains, i, Serializing(x), u.chains)
    ensures u == v.(chains := u.chains, log := v.log + [Began(x)])
  {
    hide Run;
    more, u := On(w, labels, v, Advance(i, false), id);
  }

  /** The serializer of chain i completes. */
  lemma {:induction false} Completes(w: World, labels: seq<Label>, v: World, i: nat, x: Id, id: Id)
    returns (more: seq<Label>, u: World)
    requires Run(w, labels) == Some(v) && Append(id) !in labels
    requires i < |v.chains| && v.chains[i] == Serializing(x)
    ensures Run(w, more) == Some(u) && Append(id) !in more && Changed(v.chains, i, Next, u.chains)
    ensures u == v.(core := WithCompletion(v.core, x), chains := u.chains, log := v.log + [Ended(x)])
  {
    hide Run;
    more, u := On(w, labels, v, Advance(i, false), id);
    more, u := On(w, more, u, Advance(i, false), id);
  }

  /** Chain i finds no serializer and takes the completions. */
  lemma {:induction false} Takes(w: World, labels: seq<Label>, v: World, i: nat, id: Id)
    returns (more: seq<Label>, u: World)
    requires Run(w, labels) == Some(v) && Append(id) !in labels
    requires i < |v.chains| && v.chains[i] == Next && NextSerializer(v.core) == None
    ensures Run(w, more) == Some(u) && Append(id) !in more
    ensures Changed(v.chains, i, Completing(v.core.completions), u.chains)
    ensures u == v.(core := Emptied(v.core), chains := u.chains, log := v.log + [Drained])
  {
    hide Run;
    more, u := On(w, labels, v, Advance(i, false), id);
    more, u := On(w, more, u, Advance(i, false), id);
  }

  /** Chain i calls a completion. */
  lemma {:induction false} CallsNext(w: World, labels: seq<Label>, v: World, i: nat, x: Id, rest: seq<Id>, id: Id)
    returns (more: seq<Label>, u: World)
    requires Run(w, labels) == Some(v) && Append(id) !in labels
    requires i < |v.chains| && v.chains[i] == Completing([x] + rest)
    ensures Run(w, more) == Some(u) && Append(id) !in more && Changed(v.chains, i, Completing(rest), u.chains)
    ensures u == v.(chains := u.chains, log := v.log + [Ran(x)])
  {
    hide Run;
    assert ([x] + rest)[1..] == rest;
    more, u := On(w, labels, v, Advance(i, false), id);
  }

  /** Two serializers are on the list, and two chains, the second the last one, are about to look for one. */
  predicate TwoListed(w: World, a: Id, b: Id, i: nat) {
    && w.core.processingFinished && w.core.serializers == [a, b] && w.core.completions == [] && !w.dropped
    && w.busy.Free? && (!w.attempt.Over? ==> w.core.state.Cancelled? && !w.cancelledLive)
    && i + 2 == |w.chains| && w.chains[i] == Next && w.chains[i + 1] == Next
    && forall k | 0 <= k < i :: w.chains[k].Completing?
  }

  /** The first chain has gone on to the second serializer, while the second chain has the first. */
  predicate Overtaking(v: World, u: World, a: Id, b: Id, i: nat) {
    && u == v.(core := v.core.(completions := [a]), chains := u.chains,
      log := v.log + [Began(a), Began(a), Ended(a), Began(b)])
    && |u.chains| == |v.chains| == i + 2 && u.chains[i] == Serializing(b) && u.chains[i + 1] == Serializing(a)
    && forall k | 0 <= k < i :: u.chains[k] == v.chains[k]
  }

  lemma {:induction false} Overtakes(w: World, labels: seq<Label>, v: World, a: Id, b: Id, i: nat)
    returns (more: seq<Label>, u: World)
    requires Run(w, labels) == Some(v) && Append(a) !in labels && TwoListed(v, a, b, i)
    ensures Run(w, more) == Some(u) && Append(a) !in more && Overtaking(v, u, a, b, i)
  {
    hide Run;
    more, u := Begins(w, labels, v, i, a, a);
    more, u := Begins(w, more, u, i + 1, a, a);
    more, u := Completes(w, more, u, i, a, a);
    assert u.core.completions == [a];
    more, u := Begins(w, more, u, i, b, a);
    assert u.log == v.log + [Began(a), Began(a), Ended(a), Began(b)];
  }

  /** The second chain completes the first serializer as well, and takes and calls its completion twice. */
  lemma {:induction false} SecondCalls(w: World, labels: seq<Label>, v: World, a: Id, b: Id, i: nat)
    returns (more: seq<Label>, u: World)
    requires Run(w, labels) == Some(v) && Append(a) !in labels && |v.chains| == i + 2
    requires v.chains[i + 1] == Serializing(a) && v.core.completions == [a] && v.core.serializers == [a, b]
    ensures Run(w, more) == Some(u) && Append(a) !in more && Changed(v.chains, i + 1, Completing([]), u.chains)
    ensures u == v.(core := Emptied(v.core), chains := u.chains, log := v.log + [Ended(a), Drained] + [Ran(a), Ran(a)])
  {
    hide Run;
    more, u := Completes(w, labels, v, i + 1, a, a);
    assert u.core.completions == [a, a];
    more, u := Takes(w, more, u, i + 1, a);
    assert [a, a] == [a] + [a];
    more, u := CallsNext(w, more, u, i + 1, a, [a], a);
    assert [a] == [a] + [];
    more, u := CallsNext(w, more, u, i + 1, a, [], a);
    assert u.log == v.log + [Ended(a), Drained] + [Ran(a), Ran(a)];
  }

  lemma {:induction false} CallsTwice(w: World, labels: seq<Label>, v: World, a: Id, b: Id, i: nat)
    returns (more: seq<Label>, u: World)
    requires Run(w, labels) == Some(v) && Append(a) !in labels && TwoListed(v, a, b, i)
    ensures Run(w, more) == Some(u) && Append(a) !in more && Settled(u) && Calls(u.log, a) >= 2
  {
    hide Run, Calls;
    var x, y;
    more, x := Overtakes(w, labels, v, a, b, i);
    more, y := SecondCalls(w, more, x, a, b, i);
    TwoCalls(x.log + [Ended(a), Drained], a);
    more, u := Completes(w, more, y, i, b, a);
    more, u := Takes(w, more, u, i, a);
    CallsThen(y.log, Ended(b), a);
    CallsThen(y.log + [Ended(b)], Drained, a);
  }

  lemma {:induction false} TwoCalls(log: seq<Event>, a: Id)
    ensures Calls(log + [Ran(a), Ran(a)], a) >= 2
  {
    CallsThen(log, Ran(a), a);
    CallsThen(log + [Ran(a)], Ran(a), a);
    assert log + [Ran(a), Ran(a)] == log + [Ran(a)] + [Ran(a)];
  }

  /** A second serializer appended right after the first. */
  lemma {:induction false} SecondAppend(w: World, id: Id, b: Id) returns (labels: seq<Label>, u: World)
    requires Inv(w) && w.core.processingFinished && b != id
    requires forall i | 0 <= i < |w.chains| :: w.chains[i].Completing?
    requires w.busy.Free?
    ensures Run(AfterAppend(w, id), labels) == Some(u) && Append(id) !in labels
    ensures TwoListed(u, id, b, |w.chains|) && u.core.state == AfterAppend(w, id).core.state && u.attempt == w.attempt
    ensures u.cancelledLive == w.cancelledLive && |u.chains| == |w.chains| + 2
    ensures forall k | 0 <= k < |w.chains| :: u.chains[k] == w.chains[k]
    ensures u.log == w.log + [Appended(id), Appended(b)]
  {
    hide Run;
    var v := AfterAppend(w, id);
    NoSteps(v);
    labels, u := On(v, [], v, Append(b), id);
    assert u.chains == w.chains + [Next] + [Next];
    assert u.core.serializers == [id, b];
    assert u.log == w.log + [Appended(id), Appended(b)];
  }

  /** To a cancelled request at rest: a run that ends well, in which the completion is called at least twice. */
  lemma {:induction false} CalledTwiceAtRest(pre: seq<Label>, id: Id) returns (post: seq<Label>)
    requires Timely(INIT, pre) && Run(INIT, pre).Some? && Calm(Run(INIT, pre).value)
    ensures Append(id) !in post && EndsWell(Whole(pre, id, post))
    ensures Calls(Run(INIT, Whole(pre, id, post)).value.log, id) >= 2
  {
    hide Run, Timely, Inv, RetryDropped, AfterAppend, Whole, Calls, Settled, Quiet, TwoListed;
    var w := Run(INIT, pre).value;
    var v := AfterAppend(w, id);
    InitInv();
    RunKeeps(INIT, pre);
    CalmFree(w);
    var first, x := SecondAppend(w, id, id + 1);
    var second, y := CallsTwice(v, first, x, id, id + 1, |w.chains|);
    post := EndsSettled(pre, id, second, y);
    RunLogGrowsTo(pre, id, second, y, post);
  }

  lemma {:induction false} CalmFree(w: World)
    requires Inv(w) && Calm(w)
    ensures w.busy.Free?
  {
  }

  /** A continuation that settles the request can be prolonged until it ends well. */
  lemma {:induction false} EndsSettled(pre: seq<Label>, id: Id, second: seq<Label>, y: World) returns (post: seq<Label>)
    requires Run(INIT, pre).Some? && Run(AfterAppend(Run(INIT, pre).value, id), second) == Some(y)
    requires Append(id) !in second && Settled(y)
    ensures Append(id) !in post && EndsWell(Whole(pre, id, post)) && second <= post
    ensures forall i | |second| <= i < |post| :: !post[i].Append?
  {
    hide Run, RetryDropped, AfterAppend, Whole, Settled, Quiet;
    var v := AfterAppend(Run(INIT, pre).value, id);
    var third := Settles(y);
    post := second + third;
    RunConcat(v, second, third);
    WholeRun(pre, id, post);
    FlagsTell(Whole(pre, id, post));
  }

  lemma {:induction false} RunLogGrowsTo(pre: seq<Label>, id: Id, second: seq<Label>, y: World, post: seq<Label>)
    requires Run(INIT, pre).Some? && Run(AfterAppend(Run(INIT, pre).value, id), second) == Some(y)
    requires second <= post && EndsWell(Whole(pre, id, post))
    ensures Calls(Run(INIT, Whole(pre, id, post)).value.log, id) >= Calls(y.log, id)
  {
    hide Run, RetryDropped, AfterAppend, Whole, Quiet, Calls;
    var v, third := AfterAppend(Run(INIT, pre).value, id), post[|second|..];
    assert post == second + third;
    RunConcat(v, second, third);
    WholeRun(pre, id, post);
    RunLogGrows(y, third, id);
  }

  // ----- exactly once

  /** Every continuation that ends well calls the serializer's completion exactly once, whatever else is appended. */
  ghost predicate SureOnce(pre: seq<Label>, id: Id)
    requires Run(INIT, pre).Some?
  {
    forall post | Append(id) !in post && EndsWell(Whole(pre, id, post)) ::
      Calls(Run(INIT, Whole(pre, id, post)).value.log, id) == 1
  }

  /** A completion is sure to be called exactly once if and only if its serializer is appended in time. */
  lemma {:induction false} SureOnceWhen(pre: seq<Label>, id: Id)
    requires Timely(INIT, pre) && Run(INIT, pre).Some? && Append(id) !in pre
    ensures SureOnce(pre, id) <==> InTime(Run(INIT, pre).value, Append(id))
  {
    hide Run, Timely, RetryDropped, Quiet, AfterAppend, Whole, Calls, Calm;
    var w := Run(INIT, pre).value;
    if InTime(w, Append(id)) {
      forall post | Append(id) !in post && EndsWell(Whole(pre, id, post))
        ensures Calls(Run(INIT, Whole(pre, id, post)).value.log, id) == 1
      {
        InTimeIsOnce(pre, id, post);
      }
    } else if Draining in w.chains {
      var post := CanBeLost(pre, id);
      NoCalls(Run(INIT, Whole(pre, id, post)).value.log, id);
    } else if Calm(w) {
      var post := CalledTwiceAtRest(pre, id);
    } else {
      var post := CalledTwice(pre, id);
      WholeRun(pre, id, post);
      AppendFinished(w, id);
      NoLateAppend(AfterAppend(w, id), post, id);
    }
  }

  // ----- at least once

  /** The serializer is first on the list of a cancelled request, and no chain takes the completions without its. */
  predicate First(w: World, id: Id) {
    && w.core.processingFinished && w.core.state.Cancelled? && !w.busy.PassedRetry?
    && w.core.serializers != [] && w.core.serializers[0] == id
    && (w.core.completions != [] ==> w.core.completions[0] == id)
    && (w.core.completions == [] ==>
          forall i | 0 <= i < |w.chains| :: WorksOn(w.chains[i], id) || w.chains[i].RetryDue?)
    && (Draining in w.chains ==> w.core.completions != [])
    && (w.core.completions != [] || w.core.isFinishing ==> Working(w))
    && (w.cancelledLive ==> !w.attempt.Preparing?) && Pushed(w)
  }

  predicate FirstWillRun(w: World, id: Id) {
    w.dropped || Secured(w, id) || First(w, id)
  }

  lemma {:induction false} FirstWorks(w: World, i: nat, retry: bool, id: Id)
    requires First(w, id) && i < |w.chains| && AfterAdvance(w, i, retry).Some?
    requires w.chains[i].Next? || w.chains[i].Serializing? || w.chains[i].Serialized?
    ensures First(AfterAdvance(w, i, retry).value, id)
  {
    var v := AfterAdvance(w, i, retry).value;
    assert !v.chains[i].Completing? && forall j | 0 <= j < |w.chains| && j != i :: v.chains[j] == w.chains[j];
    assert w.core.completions == [] ==> WorksOn(w.chains[i], id);
  }

  lemma {:induction false} FirstTakes(w: World, i: nat, retry: bool, id: Id)
    requires First(w, id) && i < |w.chains| && w.chains[i].Draining?
    ensures Secured(AfterAdvance(w, i, retry).value, id)
  {
    var v := AfterAdvance(w, i, retry).value;
    assert w.chains[i] in w.chains && w.core.completions[0] == id;
    assert v.chains[i].Completing? && id in v.chains[i].rest;
  }

  lemma {:induction false} FirstCompleting(w: World, i: nat, retry: bool, id: Id)
    requires First(w, id) && i < |w.chains| && w.chains[i].Completing?
    ensures First(AfterAdvance(w, i, retry).value, id)
  {
    var v := AfterAdvance(w, i, retry).value;
    if w.chains[i].rest == [] {
      OthersStay(w, i);
      assert forall k | 0 <= k < |v.chains| :: v.chains[k] in v.chains;
    } else {
      assert forall j | 0 <= j < |w.chains| && j != i :: v.chains[j] == w.chains[j];
    }
  }

  lemma {:induction false} FirstAdvances(w: World, i: nat, retry: bool, id: Id)
    requires First(w, id) && i < |w.chains| && AfterAdvance(w, i, retry).Some?
    ensures FirstWillRun(AfterAdvance(w, i, retry).value, id)
  {
    hide Secured;
    match w.chains[i]
    case Draining => FirstTakes(w, i, retry, id);
    case Completing(_) => FirstCompleting(w, i, retry, id);
    case RetryDue(_) =>
    case _ => FirstWorks(w, i, retry, id);
  }

  lemma {:induction false} FirstGrows(w: World, l: Label, id: Id)
    requires First(w, id) && Step(w, l).Some? && (l.Append? || l.StartFinishing?)
    ensures First(Step(w, l).value, id)
  {
    var v := Step(w, l).value;
    assert v.chains[|w.chains|] == Next && forall k | 0 <= k < |w.chains| :: v.chains[k] == w.chains[k];
  }

  lemma {:induction false} FirstOther(w: World, l: Label, id: Id)
    requires First(w, id) && Step(w, l).Some? && !l.Append? && !l.StartFinishing? && !l.Advance?
    ensures First(Step(w, l).value, id) || Step(w, l).value.dropped
  {
  }

  lemma {:induction false} StepFirst(w: World, l: Label, id: Id)
    requires FirstWillRun(w, id) && Step(w, l).Some?
    ensures FirstWillRun(Step(w, l).value, id)
  {
    hide First, Secured, AfterAdvance;
    if w.dropped {
      DroppedStays(w, l);
    } else if Secured(w, id) {
      SecuredStays(w, l, id);
    } else {
      match l
      case Advance(i, retry) => FirstAdvances(w, i, retry, id);
      case Append(_) => FirstGrows(w, l, id);
      case StartFinishing => FirstGrows(w, l, id);
      case _ => FirstOther(w, l, id);
    }
  }

  lemma {:induction false} RunFirst(w: World, labels: seq<Label>, id: Id)
    requires FirstWillRun(w, id) && Run(w, labels).Some?
    ensures FirstWillRun(Run(w, labels).value, id)
    decreases |labels|
  {
    hide FirstWillRun, Step;
    if labels != [] {
      StepFirst(w, labels[0], id);
      RunFirst(Step(w, labels[0]).value, labels[1..], id);
    }
  }

  lemma {:induction false} BecomesFirst(w: World, id: Id)
    requires Inv(w) && w.core.processingFinished && w.core.state.Cancelled? && Draining !in w.chains
    ensures First(AfterAppend(w, id), id)
  {
    var v := AfterAppend(w, id);
    AppendedChains(w, id);
    assert v.chains[|w.chains|] == Next;
  }

  lemma {:induction false} QuietFirst(w: World, id: Id)
    requires FirstWillRun(w, id) && Quiet(w) && !w.dropped
    ensures Ran(id) in w.log
  {
  }

  // ----- not cancelled: a reset between two chains has the completion lost

  /** The serializer is off the lists, no chain has it, and its completion has not been called. */
  predicate Forgotten(w: World, id: Id) {
    && Ran(id) !in w.log && id !in w.core.completions && id !in w.core.serializers
    && forall i | 0 <= i < |w.chains| :: !Holds(w.chains[i], id)
  }

  lemma {:induction false} AdvanceForgotten(w: World, i: nat, retry: bool, id: Id)
    requires Forgotten(w, id) && i < |w.chains| && AfterAdvance(w, i, retry).Some?
    ensures Forgotten(AfterAdvance(w, i, retry).value, id)
  {
    assert !Holds(w.chains[i], id);
    match w.chains[i]
    case Completing(rest) => if rest == [] { ForgottenWithout(w, i, id); }
    case RetryDue(_) => ForgottenWithout(w, i, id);
    case _ =>
  }

  lemma {:induction false} ForgottenWithout(w: World, i: nat, id: Id)
    requires Forgotten(w, id) && i < |w.chains|
    ensures Forgotten(WithoutChain(w, i), id)
  {
    hide Holds;
  }

  lemma {:induction false} StepForgotten(w: World, l: Label, id: Id)
    requires Forgotten(w, id) && l != Append(id) && Step(w, l).Some?
    ensures Forgotten(Step(w, l).value, id)
  {
    hide AfterAdvance;
    match l
    case Advance(i, retry) => AdvanceForgotten(w, i, retry, id);
    case _ =>
  }

  lemma {:induction false} RunForgotten(w: World, labels: seq<Label>, id: Id)
    requires Forgotten(w, id) && Append(id) !in labels && Run(w, labels).Some?
    ensures Forgotten(Run(w, labels).value, id)
    decreases |labels|
  {
    hide Forgotten, Step;
    if labels != [] {
      StepForgotten(w, labels[0], id);
      RunForgotten(Step(w, labels[0]).value, labels[1..], id);
    }
  }

  /** The second chain fails on the first serializer, and its retry resets the request under the first chain. */
  lemma {:induction false} ResetUnder(w: World, labels: seq<Label>, v: World, a: Id, b: Id, i: nat)
    returns (more: seq<Label>, u: World)
    requires Run(w, labels) == Some(v) && Append(a) !in labels && TwoListed(v, a, b, i)
    requires !v.core.state.Cancelled? && v.attempt.Over?
    ensures Run(w, more) == Some(u) && Append(a) !in more
    ensures u == v.(core := ForRetry(v.core), attempt := Preparing, chains := u.chains, log := u.log)
    ensures u.log == v.log + [Began(a), Began(a), Ended(a), Began(b), WasReset]
    ensures u.chains == v.chains[..i] + [Serializing(b)]
  {
    hide Run;
    more, u := Overtakes(w, labels, v, a, b, i);
    more, u := On(w, more, u, Advance(i + 1, true), a);
    more, u := On(w, more, u, Advance(i + 1, false), a);
    assert u.chains == v.chains[..i] + [Serializing(b)];
    more, u := On(w, more, u, Prepare, a);
    assert u.log == v.log + [Began(a), Began(a), Ended(a), Began(b), WasReset];
  }

  /** The first chain completes the second serializer twice, and takes these completions for those of both. */
  lemma {:induction false} Loses(w: World, labels: seq<Label>, v: World, a: Id, b: Id, i: nat)
    returns (more: seq<Label>, u: World)
    requires Run(w, labels) == Some(v) && Append(a) !in labels && TwoListed(v, a, b, i) && a != b
    requires !v.core.state.Cancelled? && v.attempt.Over?
    requires Ran(a) !in v.log && forall k | 0 <= k < i :: !Holds(v.chains[k], a)
    ensures Run(w, more) == Some(u) && Append(a) !in more && Settled(u) && Forgotten(u, a)
  {
    hide Run, Forgotten, Settled;
    var x, y;
    more, x := ResetUnder(w, labels, v, a, b, i);
    more, y := SecondTwice(w, more, x, a, b, i);
    more, u := On(w, more, y, AttemptEnds(false), a);
    IsForgotten(v, x, y, a, b, i);
  }

  /** The last chain completes the second serializer twice, and takes its completions. */
  lemma {:induction false} SecondTwice(w: World, labels: seq<Label>, v: World, a: Id, b: Id, i: nat)
    returns (more: seq<Label>, u: World)
    requires Run(w, labels) == Some(v) && Append(a) !in labels && i < |v.chains|
    requires v.chains[i] == Serializing(b) && v.core.completions == [] && v.core.serializers == [a, b]
    ensures Run(w, more) == Some(u) && Append(a) !in more && Changed(v.chains, i, Completing([b, b]), u.chains)
    ensures u == v.(core := Emptied(v.core), chains := u.chains, log := v.log + [Ended(b), Began(b), Ended(b), Drained])
  {
    hide Run;
    more, u := Completes(w, labels, v, i, b, a);
    assert u.core.completions == [b];
    more, u := Begins(w, more, u, i, b, a);
    more, u := Completes(w, more, u, i, b, a);
    assert u.core.completions == [b, b];
    more, u := Takes(w, more, u, i, a);
    assert u.log == v.log + [Ended(b), Began(b), Ended(b), Drained];
  }

  lemma {:induction false} IsForgotten(v: World, x: World, y: World, a: Id, b: Id, i: nat)
    requires TwoListed(v, a, b, i) && a != b && !v.core.state.Cancelled?
    requires Ran(a) !in v.log && forall k | 0 <= k < i :: !Holds(v.chains[k], a)
    requires x == v.(core := ForRetry(v.core), attempt := Preparing, chains := v.chains[..i] + [Serializing(b)],
        log := x.log)
    requires x.log == v.log + [Began(a), Began(a), Ended(a), Began(b), WasReset]
    requires Changed(x.chains, i, Completing([b, b]), y.chains)
    requires y == x.(core := Emptied(x.core), chains := y.chains,
        log := x.log + [Ended(b), Began(b), Ended(b), Drained])
    ensures Step(y, AttemptEnds(false)).Some?
    ensures var u := Step(y, AttemptEnds(false)).value;
            Settled(u) && Forgotten(u, a)
  {
    assert forall k | 0 <= k < i :: y.chains[k] == v.chains[k];
  }

  /** After the completions were taken, and not cancelled: a run that ends well and never calls the completion. */
  lemma {:induction false} CanBeForgotten(pre: seq<Label>, id: Id) returns (post: seq<Label>)
    requires Timely(INIT, pre) && Run(INIT, pre).Some? && Append(id) !in pre
    requires Run(INIT, pre).value.core.processingFinished && !Run(INIT, pre).value.core.state.Cancelled?
    ensures Append(id) !in post && EndsWell(Whole(pre, id, post))
    ensures Ran(id) !in Run(INIT, Whole(pre, id, post)).value.log
  {
    hide Run, Timely, Inv, RetryDropped, AfterAppend, Whole, Settled, Quiet, TwoListed, Forgotten, Holds;
    var w := Run(INIT, pre).value;
    var v := AfterAppend(w, id);
    InitInv();
    RunKeeps(INIT, pre);
    NotYetSeen(pre, id);
    UncancelledRest(w, id);
    var first, x := SecondAppend(w, id, id + 1);
    assert forall k | 0 <= k < |w.chains| :: !Holds(w.chains[k], id);
    var second, y := Loses(v, first, x, id, id + 1, |w.chains|);
    post := EndsSettled(pre, id, second, y);
    var third := post[|second|..];
    assert post == second + third;
    RunConcat(v, second, third);
    WholeRun(pre, id, post);
    RunForgotten(y, third, id);
    ForgottenNotRun(Run(y, third).value, id);
  }

  lemma {:induction false} UncancelledRest(w: World, id: Id)
    requires Inv(w) && w.core.processingFinished && !w.core.state.Cancelled?
    ensures w.busy.Free? && w.attempt.Over? && !AfterAppend(w, id).core.state.Cancelled?
    ensures forall i | 0 <= i < |w.chains| :: w.chains[i].Completing?
  {
  }

  lemma {:induction false} ForgottenNotRun(w: World, id: Id)
    requires Forgotten(w, id)
    ensures Ran(id) !in w.log
  {
  }

  /** Every continuation that ends well calls the serializer's completion, whatever else is appended. */
  ghost predicate SureToRun(pre: seq<Label>, id: Id)
    requires Run(INIT, pre).Some?
  {
    forall post | Append(id) !in post && EndsWell(Whole(pre, id, post)) ::
      Ran(id) in Run(INIT, Whole(pre, id, post)).value.log
  }

  lemma {:induction false} RunIfSafe(pre: seq<Label>, id: Id, post: seq<Label>)
    requires Timely(INIT, pre) && Run(INIT, pre).Some? && Append(id) !in pre && Append(id) !in post
    requires InTime(Run(INIT, pre).value, Append(id)) ||
             (Run(INIT, pre).value.core.state.Cancelled? && Draining !in Run(INIT, pre).value.chains)
    requires EndsWell(Whole(pre, id, post))
    ensures Ran(id) in Run(INIT, Whole(pre, id, post)).value.log
  {
    hide Run, Timely, Inv, RetryDropped, AfterAppend, Whole, Quiet, First;
    var w := Run(INIT, pre).value;
    if InTime(w, Append(id)) {
      InTimeIsOnce(pre, id, post);
    } else {
      InitInv();
      RunKeeps(INIT, pre);
      WholeRun(pre, id, post);
      FlagsTell(Whole(pre, id, post));
      BecomesFirst(w, id);
      RunFirst(AfterAppend(w, id), post, id);
      QuietFirst(Run(AfterAppend(w, id), post).value, id);
    }
  }

  /**
   A completion is sure to be called, whatever else is appended, if and only if its serializer is
   appended in time, or to a cancelled request while no chain stands in between.
   */
  lemma {:induction false} SureToRunWhen(pre: seq<Label>, id: Id)
    requires Timely(INIT, pre) && Run(INIT, pre).Some? && Append(id) !in pre
    ensures SureToRun(pre, id) <==>
            InTime(Run(INIT, pre).value, Append(id)) ||
            (Run(INIT, pre).value.core.state.Cancelled? && Draining !in Run(INIT, pre).value.chains)
  {
    hide Run, Timely, RetryDropped, Quiet, AfterAppend, Whole;
    var w := Run(INIT, pre).value;
    if InTime(w, Append(id)) || (w.core.state.Cancelled? && Draining !in w.chains) {
      forall post | Append(id) !in post && EndsWell(Whole(pre, id, post))
        ensures Ran(id) in Run(INIT, Whole(pre, id, post)).value.log
      {
        RunIfSafe(pre, id, post);
      }
    } else if Draining in w.chains {
      var post := CanBeLost(pre, id);
    } else {
      var post := CanBeForgotten(pre, id);
    }
  }
}
