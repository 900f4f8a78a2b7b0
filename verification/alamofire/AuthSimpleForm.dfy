/**
 A simple form of the interceptor, computed from the steps of a run alone: the last credential
 given, the refreshes started, the refresh in progress with the callers that wait for it, and
 what was released by its replies. The interceptor behaves like it in every run.
 */
module AuthSimpleForm {
  import opened AuthInterceptor
  import opened AuthInvariants
  import opened AuthOutcomes
  import opened Wrappers

  // ----- the form

  /** The credential given last. */
  function LastGiven(initial: Option<Credential>, labels: seq<Label>): Option<Credential> {
    if labels == [] then initial
    else
      match labels[|labels| - 1]
      case ReplySuccess(c) => Some(c)
      case SetCredential(c) => c
      case _ => LastGiven(initial, labels[..|labels| - 1])
  }

  /** What becomes of a caller that waited. */
  datatype Release = AdaptAgain | RetryNow | AdaptError(error: AuthError) | RetryError(error: AuthError)

  datatype Due = Due(id: Id, release: Release)

  function All(ids: seq<Id>, release: Release): (ds: seq<Due>)
    ensures |ds| == |ids| && forall i | 0 <= i < |ids| :: ds[i] == Due(ids[i], release)
  {
    seq(|ids|, i requires 0 <= i < |ids| => Due(ids[i], release))
  }

  /** A refresh in progress: the credential to refresh, and who waits, in order of arrival. */
  datatype Refreshing = Refreshing(of: Credential, adapts: seq<Id>, retries: seq<Id>)

  datatype Simple = Simple(
    credential: Option<Credential>, window: Option<RefreshWindow>, starts: seq<real>,
    refresh: Option<Refreshing>, read: map<Id, Credential>, released: seq<Due>)

  /** The refreshes started from lo to hi. */
  function Recent(starts: seq<real>, lo: real, hi: real): set<nat> {
    set i: nat | i < |starts| && lo <= starts[i] <= hi
  }

  /** Everybody who waits for the refresh hears of its end. */
  function Ended(p: Simple, r: Refreshing, adapts: Release, retries: Release): Simple {
    p.(refresh := None, released := p.released + (All(r.adapts, adapts) + All(r.retries, retries)))
  }

  function Failing(p: Simple, r: Refreshing, error: AuthError): Simple {
    Ended(p, r, AdaptError(error), RetryError(error))
  }

  /** A refresh is asked for: it is refused if the window before t1 is full, and recorded at t2 if not. */
  function Asked(p: Simple, r: Refreshing, t1: real, t2: real): Simple {
    if p.window.Some? && |Recent(p.starts, t1 - p.window.value.interval, t1)| >= p.window.value.maximumAttempts
    then Failing(p, r, ExcessiveRefresh)
    else p.(starts := p.starts + [t2], refresh := Some(r))
  }

  function Moved(p: Simple, l: Label): Simple {
    match l
    case SetCredential(c) => p.(credential := c)
    case RetryRead(id, eligible) =>
      if eligible && p.credential.Some? then p.(read := p.read[id := p.credential.value]) else p
    case AdaptStep(id, needs, t1, t2) =>
      if p.refresh.Some? then p.(refresh := Some(p.refresh.value.(adapts := p.refresh.value.adapts + [id])))
      else if needs && p.credential.Some? then Asked(p, Refreshing(p.credential.value, [id], []), t1, t2)
      else p
    case RetryStep(id, authenticated, t1, t2) =>
      if !authenticated || id !in p.read then p
      else if p.refresh.Some? then p.(refresh := Some(p.refresh.value.(retries := p.refresh.value.retries + [id])))
      else Asked(p, Refreshing(p.read[id], [], [id]), t1, t2)
    case ReplySuccess(c) =>
      if p.refresh.None? then p
      else Ended(p.(credential := Some(c)), p.refresh.value, AdaptAgain, RetryNow)
    case ReplyFailure(code) =>
      if p.refresh.None? then p else Failing(p, p.refresh.value, RefreshError(code))
    case _ => p
  }

  /** The simple form after a run. */
  function SimpleAfter(initial: Option<Credential>, window: Option<RefreshWindow>, labels: seq<Label>): Simple {
    if labels == [] then Simple(initial, window, [], None, map[], [])
    else Moved(SimpleAfter(initial, window, labels[..|labels| - 1]), labels[|labels| - 1])
  }

  // ----- the interceptor behaves like it

  /** Who is next in the dispatch queue, and with what. */
  function Line(q: seq<Block>): seq<Due> {
    if q == [] then []
    else
      (match q[0]
       case RefreshCall(_) => []
       case Resume(adapts, retries) => All(adapts, AdaptAgain) + All(retries, RetryNow)
       case Reject(adapts, retries, e) => All(adapts, AdaptError(e)) + All(retries, RetryError(e)))
      + Line(q[1..])
  }

  /** Whose turn it was when a block went on from s to t, and what the caller got. */
  function Turn(s: State, t: State): seq<Due> {
    if |t.delivered| > |s.delivered| then
      var d := t.delivered[|t.delivered| - 1];
      match d.outcome
      case Retry => [Due(d.id, RetryNow)]
      case AdaptFailed(e) => [Due(d.id, AdaptError(e))]
      case DoNotRetryWithError(e) => [Due(d.id, RetryError(e))]
      case _ => []
    else if t.resuming.Some? && t.resuming.value in t.running && t.running[t.resuming.value] == Starting
    then [Due(t.resuming.value, AdaptAgain)]
    else []
  }

  lemma {:induction false} RecentCount(ts: seq<real>, lo: real, hi: real)
    ensures CountIn(ts, lo, hi) == |Recent(ts, lo, hi)|
  {
    if ts != [] {
      var before := ts[..|ts| - 1];
      RecentCount(before, lo, hi);
      var n := |ts| - 1;
      assert Recent(ts, lo, hi) == if lo <= ts[n] <= hi then Recent(before, lo, hi) + {n} else Recent(before, lo, hi);
    }
  }

  lemma {:induction false} PastCount(ts: seq<real>, lo: real, hi: real)
    requires forall i | 0 <= i < |ts| :: ts[i] <= hi
    ensures CountFrom(ts, lo) == CountIn(ts, lo, hi)
  {
    if ts != [] {
      PastCount(ts[..|ts| - 1], lo, hi);
    }
  }

  lemma {:induction false} ExcessiveIs(c: Core, t1: real)
    requires forall i | 0 <= i < |c.refreshTimestamps| :: c.refreshTimestamps[i] <= t1
    ensures IsRefreshExcessive(c, t1) <==>
            c.refreshWindow.Some? &&
            |Recent(c.refreshTimestamps, t1 - c.refreshWindow.value.interval,
              t1)| >= c.refreshWindow.value.maximumAttempts
  {
    if c.refreshWindow.Some? {
      PastCount(c.refreshTimestamps, t1 - c.refreshWindow.value.interval, t1);
      RecentCount(c.refreshTimestamps, t1 - c.refreshWindow.value.interval, t1);
    }
  }

  lemma {:induction false} NoCalls(q: seq<Block>)
    requires RefreshBlocks(q) == 0
    ensures forall i | 0 <= i < |q| :: !q[i].RefreshCall?
  {
    if q != [] {
      NoCalls(q[1..]);
      assert forall i | 0 < i < |q| :: q[i] == q[1..][i - 1];
    }
  }

  lemma {:induction false} LineAppend(q: seq<Block>, b: Block)
    ensures Line(q + [b]) == Line(q) + Line([b])
  {
    if q != [] {
      LineAppend(q[1..], b);
      assert (q + [b])[1..] == q[1..] + [b];
    } else {
      assert q + [b] == [b];
    }
  }

  /** The simple form is that of the fields. */
  predicate FieldsLike(c: Core, p: Simple) {
    && p.credential == c.credential && p.window == c.refreshWindow && p.starts == c.refreshTimestamps
    && (p.refresh.Some? <==> c.isRefreshing)
    && (p.refresh.Some? ==> p.refresh.value.adapts == c.adaptOperations)
    && (p.refresh.Some? ==> p.refresh.value.retries == c.requestsToRetry)
  }

  /** Refreshes are called with the credential that they were started for. */
  predicate CallsLike(q: seq<Block>, p: Simple) {
    forall i | 0 <= i < |q| && q[i].RefreshCall? :: p.refresh.Some? && p.refresh.value.of == q[i].credential
  }

  /** What has been released and has not had a turn is in the dispatch queue. */
  predicate InLine(q: seq<Block>, p: Simple, turns: seq<Due>) {
    p.released == turns + Line(q)
  }

  predicate CoreLike(c: Core, p: Simple, turns: seq<Due>) {
    FieldsLike(c, p) && CallsLike(c.queue, p) && InLine(c.queue, p, turns)
  }

  lemma {:induction false} CallsAppend(q: seq<Block>, b: Block, p: Simple)
    requires RefreshBlocks(q) == 0 && (b.RefreshCall? ==> p.refresh.Some? && p.refresh.value.of == b.credential)
    ensures CallsLike(q + [b], p)
  {
    NoCalls(q);
  }

  lemma {:induction false} OneBlock(b: Block)
    ensures Line([b]) ==
            match b
            case RefreshCall(_) => []
            case Resume(adapts, retries) => All(adapts, AdaptAgain) + All(retries, RetryNow)
            case Reject(adapts, retries, e) => All(adapts, AdaptError(e)) + All(retries, RetryError(e))
  {
    assert [b][1..] == [];
    assert Line([]) == [];
  }

  lemma {:induction false} Associative<T>(a: seq<T>, b: seq<T>, c: seq<T>)
    ensures (a + b) + c == a + (b + c)
  {
  }

  lemma {:induction false} LineGrows(q: seq<Block>, b: Block, p: Simple, z: Simple, turns: seq<Due>)
    requires InLine(q, p, turns) && z.released == p.released + Line([b])
    ensures InLine(q + [b], z, turns)
  {
    hide Line;
    LineAppend(q, b);
    Associative(turns, Line(q), Line([b]));
  }

  lemma {:induction false} RefreshedLike(c: Core, p: Simple, r: Refreshing, t1: real, t2: real, turns: seq<Due>)
    requires !c.isRefreshing && RefreshBlocks(c.queue) == 0
    requires forall i | 0 <= i < |c.refreshTimestamps| :: c.refreshTimestamps[i] <= t1
    requires CoreLike(c, p, turns)
    requires c.adaptOperations == r.adapts && c.requestsToRetry == r.retries
    ensures CoreLike(Refreshed(c, r.of, t1, t2), Asked(p, r, t1, t2), turns) && Asked(p, r, t1, t2).read == p.read
  {
    hide IsRefreshExcessive, Recent, Line, InLine, CallsLike, All;
    ExcessiveIs(c, t1);
    var b := if IsRefreshExcessive(c, t1) then Reject(r.adapts, r.retries, ExcessiveRefresh) else RefreshCall(r.of);
    OneBlock(b);
    CallsAppend(c.queue, b, Asked(p, r, t1, t2));
    LineGrows(c.queue, b, p, Asked(p, r, t1, t2), turns);
  }

  lemma {:induction false} ReplyLike(c: Core, p: Simple, l: Label, turns: seq<Due>)
    requires CoreLike(c, p, turns) && p.refresh.Some? && RefreshBlocks(c.queue) == 0 && IsReply(l)
    ensures var d := if l.ReplySuccess? then RefreshSucceeded(c, l.credential)
        else RefreshFailed(c, RefreshError(l.code));
            CoreLike(d, Moved(p, l), turns) && Moved(p, l).read == p.read
  {
    hide Line, InLine, CallsLike, All;
    var adapts, retries := c.adaptOperations, c.requestsToRetry;
    var b := if l.ReplySuccess? then Resume(adapts, retries) else Reject(adapts, retries, RefreshError(l.code));
    OneBlock(b);
    CallsAppend(c.queue, b, Moved(p, l));
    LineGrows(c.queue, b, p, Moved(p, l), turns);
  }

  /** Where every call in progress stands. */
  predicate ReadLike(s: State, p: Simple) {
    forall id | id in s.running && s.running[id].HasCredential? ::
      id in p.read && p.read[id] == s.running[id].credential
  }

  ghost predicate Like(s: State, p: Simple, turns: seq<Due>) {
    CoreLike(s.core, p, turns) && ReadLike(s, p)
  }

  /** Whose turn it was with the step. */
  function TurnOf(s: State, l: Label): seq<Due>
    requires Next(s, l).Some?
  {
    if l.NextInBlock? then Turn(s, Next(s, l).value) else []
  }

  lemma {:induction false} AdaptLike(s: State, p: Simple, turns: seq<Due>, l: Label)
    requires RefreshInv(s) && Like(s, p, turns) && l.AdaptStep? && Next(s, l).Some?
    requires forall i | 0 <= i < |s.core.refreshTimestamps| :: s.core.refreshTimestamps[i] <= s.now
    ensures Like(Next(s, l).value, Moved(p, l), turns)
  {
    hide Refreshed, Asked, Line;
    var c := s.core;
    if !c.isRefreshing && c.credential.Some? && l.requiresRefresh {
      var d := c.(adaptOperations := [l.id]);
      assert c.adaptOperations + [l.id] == [l.id];
      RefreshedLike(d, p, Refreshing(c.credential.value, [l.id], []), l.t1, l.t2, turns);
    }
  }

  lemma {:induction false} RetryLike(s: State, p: Simple, turns: seq<Due>, l: Label)
    requires RefreshInv(s) && Like(s, p, turns) && l.RetryStep? && Next(s, l).Some?
    requires forall i | 0 <= i < |s.core.refreshTimestamps| :: s.core.refreshTimestamps[i] <= s.now
    ensures Like(Next(s, l).value, Moved(p, l), turns)
  {
    hide Refreshed, Asked, Line;
    var c := s.core;
    if !c.isRefreshing && l.authenticated {
      var d := c.(requestsToRetry := [l.id]);
      assert c.requestsToRetry + [l.id] == [l.id];
      RefreshedLike(d, p, Refreshing(p.read[l.id], [], [l.id]), l.t1, l.t2, turns);
    }
  }

  lemma {:induction false} CallLike(s: State, p: Simple, turns: seq<Due>, l: Label)
    requires RefreshInv(s) && Like(s, p, turns) && l.RunRefresh? && Next(s, l).Some?
    ensures Like(Next(s, l).value, Moved(p, l), turns)
  {
    hide Asked;
    assert s.core.queue == [s.core.queue[0]] + s.core.queue[1..];
  }

  lemma {:induction false} TakeFirst(ids: seq<Id>, release: Release)
    requires ids != []
    ensures All(ids, release) == [Due(ids[0], release)] + All(ids[1..], release)
  {
  }

  lemma {:induction false} HeadOfLine(b: Block, rest: seq<Block>)
    ensures Line([b] + rest) == Line([b]) + Line(rest)
  {
    OneBlock(b);
    assert ([b] + rest)[1..] == rest;
  }

  /** Who is next in a block, and the block without it. */
  function Head(b: Block): Due
    requires !b.RefreshCall? && (b.adapts != [] || b.retries != [])
  {
    if b.adapts != [] then Due(b.adapts[0], if b.Reject? then AdaptError(b.error) else AdaptAgain)
    else Due(b.retries[0], if b.Reject? then RetryError(b.error) else RetryNow)
  }

  function Tail(b: Block): Block
    requires !b.RefreshCall? && (b.adapts != [] || b.retries != [])
  {
    if b.adapts != [] then b.(adapts := b.adapts[1..]) else b.(retries := b.retries[1..])
  }

  lemma {:induction false} TakeHead(b: Block)
    requires !b.RefreshCall? && (b.adapts != [] || b.retries != [])
    ensures Line([b]) == [Head(b)] + Line([Tail(b)])
  {
    hide Line, All;
    OneBlock(b);
    OneBlock(Tail(b));
    if b.adapts != [] {
      TakeFirst(b.adapts, Head(b).release);
      var others := All(b.retries, if b.Reject? then RetryError(b.error) else RetryNow);
      Associative([Head(b)], All(b.adapts[1..], Head(b).release), others);
    } else {
      NoneOf(if b.Reject? then AdaptError(b.error) else AdaptAgain);
      TakeFirst(b.retries, Head(b).release);
    }
  }

  lemma {:induction false} NoneOf(release: Release)
    ensures All([], release) == [] && forall ds: seq<Due> :: [] + ds == ds
  {
  }

  lemma {:induction false} EmptyBlock(b: Block)
    requires !b.RefreshCall? && b.adapts == [] && b.retries == []
    ensures Line([b]) == []
  {
    OneBlock(b);
  }

  /** A turn goes to the head of the line. */
  lemma {:induction false} TurnIs(s: State)
    requires |s.core.queue| > 0 && !s.core.queue[0].RefreshCall?
    ensures var b, t := s.core.queue[0], BlockStep(s);
            if b.adapts != [] || b.retries != []
            then Turn(s, t) == [Head(b)] && t.core == s.core.(queue := [Tail(b)] + s.core.queue[1..])
            else Turn(s, t) == [] && t.core == s.core.(queue := s.core.queue[1..])
  {
  }

  lemma {:induction false} LineShrinks(q: seq<Block>, turns: seq<Due>, p: Simple)
    requires |q| > 0 && !q[0].RefreshCall? && InLine(q, p, turns)
    ensures if q[0].adapts != [] || q[0].retries != []
            then InLine([Tail(q[0])] + q[1..], p, turns + [Head(q[0])]) else InLine(q[1..], p, turns + [])
  {
    hide Line;
    var b, rest := q[0], q[1..];
    assert q == [b] + rest;
    HeadOfLine(b, rest);
    if b.adapts != [] || b.retries != [] {
      TakeHead(b);
      HeadOfLine(Tail(b), rest);
      Associative([Head(b)], Line([Tail(b)]), Line(rest));
      Associative(turns, [Head(b)], Line([Tail(b)] + rest));
    } else {
      EmptyBlock(b);
      assert turns + [] == turns;
    }
  }

  lemma {:induction false} BlockLike(s: State, p: Simple, turns: seq<Due>, l: Label)
    requires RefreshInv(s) && Like(s, p, turns) && l.NextInBlock? && Next(s, l).Some?
    ensures Like(Next(s, l).value, Moved(p, l), turns + TurnOf(s, l))
  {
    hide Line, Turn, InLine, Head;
    TurnIs(s);
    LineShrinks(s.core.queue, turns, p);
  }

  lemma {:induction false} StepLike(s: State, p: Simple, turns: seq<Due>, l: Label)
    requires Inv(s) && Like(s, p, turns) && Next(s, l).Some?
    ensures Like(Next(s, l).value, Moved(p, l), turns + TurnOf(s, l))
  {
    hide Line, ConservedInv, KindInv, RateOk, Turn, BlockStep, Asked, Refreshed;
    assert turns + [] == turns;
    match l
    case AdaptStep(_, _, _, _) => AdaptLike(s, p, turns, l);
    case RetryStep(_, _, _, _) => RetryLike(s, p, turns, l);
    case RunRefresh => CallLike(s, p, turns, l);
    case NextInBlock => BlockLike(s, p, turns, l);
    case ReplySuccess(_) => ReplyLike(s.core, p, l, turns);
    case ReplyFailure(_) => ReplyLike(s.core, p, l, turns);
    case _ =>
  }

  // ----- over whole runs

  /** Who had a turn in the run, in order. */
  function Turns(s: State, labels: seq<Label>): seq<Due>
    requires Run(s, labels).Some?
    decreases |labels|
  {
    if labels == [] then []
    else
      var before, l := labels[..|labels| - 1], labels[|labels| - 1];
      RunSplit(s, labels);
      Turns(s, before) + TurnOf(Run(s, before).value, l)
  }

  lemma {:induction false} RunSplit(s: State, labels: seq<Label>)
    requires labels != [] && Run(s, labels).Some?
    ensures var before, l := labels[..|labels| - 1], labels[|labels| - 1];
            Run(s, before).Some? && Next(Run(s, before).value, l) == Run(s, labels)
  {
    hide Run, Next;
    RunThen(s, labels[..|labels| - 1], labels[|labels| - 1]);
    assert labels[..|labels| - 1] + [labels[|labels| - 1]] == labels;
  }

  /**
   In every run the fields are those of the simple form, a refresh is called with the credential
   it was started for, and the callers that were released get their turn in the order in which
   they were.
   */
  lemma {:induction false} FollowsSimpleForm(
    initial: Option<Credential>, window: Option<RefreshWindow>, now: real, labels: seq<Label>)
    requires Run(Init(initial, window, now), labels).Some?
    ensures var s := Run(Init(initial, window, now), labels).value;
            Like(s, SimpleAfter(initial, window, labels), Turns(Init(initial, window, now), labels)) && Inv(s)
    decreases |labels|
  {
    hide Like, Inv, Init, Moved, TurnOf, Next;
    if labels == [] {
      StartLike(initial, window, now);
    } else {
      var before, l := labels[..|labels| - 1], labels[|labels| - 1];
      RunSplit(Init(initial, window, now), labels);
      FollowsSimpleForm(initial, window, now, before);
      var s := Run(Init(initial, window, now), before).value;
      StepLike(s, SimpleAfter(initial, window, before), Turns(Init(initial, window, now), before), l);
      StepKeepsInv(s, l);
    }
  }

  lemma {:induction false} StartLike(initial: Option<Credential>, window: Option<RefreshWindow>, now: real)
    ensures var s := Init(initial, window, now);
            Like(s, SimpleAfter(initial, window, []), []) && Inv(s) && Turns(s, []) == []
  {
    InitInv(initial, window, now);
  }

  /** In every run the stored credential is the one that was given last. */
  lemma {:induction false} StoresLastGiven(
    initial: Option<Credential>, window: Option<RefreshWindow>, now: real, labels: seq<Label>)
    requires Run(Init(initial, window, now), labels).Some?
    ensures Run(Init(initial, window, now), labels).value.core.credential == LastGiven(initial, labels)
    decreases |labels|
  {
    hide Init;
    if labels == [] {
      FirstGiven(initial, window, now);
    } else {
      RunSplit(Init(initial, window, now), labels);
      StoresLastGiven(initial, window, now, labels[..|labels| - 1]);
      CredentialStep(Run(Init(initial, window, now), labels[..|labels| - 1]).value, labels[|labels| - 1]);
    }
  }

  lemma {:induction false} FirstGiven(initial: Option<Credential>, window: Option<RefreshWindow>, now: real)
    ensures Init(initial, window, now).core.credential == initial
  {
  }

  lemma {:induction false} CredentialStep(s: State, l: Label)
    requires Next(s, l).Some?
    ensures Next(s, l).value.core.credential ==
            match l
            case ReplySuccess(c) => Some(c)
            case SetCredential(c) => c
            case _ => s.core.credential
  {
  }

  /** A caller is authenticated with the credential that was given last when its adapt call found it. */
  lemma {:induction false} AuthenticatedWithLast(
    initial: Option<Credential>, window: Option<RefreshWindow>, now: real, labels: seq<Label>, d: Delivery)
    requires Run(Init(initial, window, now), labels).Some?
    requires d in Run(Init(initial, window, now), labels).value.delivered && d.outcome.Authenticated?
    ensures exists i | 0 <= i < |labels| ::
              AdaptsAt(labels, d.id, i) && LastGiven(initial, labels[..i]) == Some(d.outcome.credential)
  {
    AnswersAreJustified(initial, window, now, labels);
    var h := History(initial, window, now, labels);
    var c := d.outcome.credential;
    assert Justified(h, d.id, d.outcome);
    var i :| 0 <= i < |labels| && FindsCredential(h, d.id, c, i);
    StoresLastGiven(initial, window, now, labels[..i]);
    assert AdaptsAt(labels, d.id, i);
  }

  /** With step i the caller's adapt call found that it needed no refresh. */
  predicate AdaptsAt(labels: seq<Label>, id: Id, i: nat)
    requires i < |labels|
  {
    labels[i].AdaptStep? && labels[i].id == id && !labels[i].requiresRefresh
  }

  /** The recorded refreshes are those that were started, and callers wait in their order of arrival. */
  lemma {:induction false} RecordsAndWaits(
    initial: Option<Credential>, window: Option<RefreshWindow>, now: real, labels: seq<Label>)
    requires Run(Init(initial, window, now), labels).Some?
    ensures var c, p := Run(Init(initial, window, now), labels).value.core, SimpleAfter(initial, window, labels);
            && c.refreshTimestamps == p.starts && (c.isRefreshing <==> p.refresh.Some?)
            && (c.isRefreshing ==>
                  c.adaptOperations == p.refresh.value.adapts && c.requestsToRetry == p.refresh.value.retries)
            && (forall i | 0 <= i < |c.queue| && c.queue[i].RefreshCall? ::
                  p.refresh.Some? && c.queue[i].credential == p.refresh.value.of)
  {
    FollowsSimpleForm(initial, window, now, labels);
  }

  /** Released callers have their turns first come, first served; in a quiet state all had theirs. */
  lemma {:induction false} FirstComeFirstServed(
    initial: Option<Credential>, window: Option<RefreshWindow>, now: real, labels: seq<Label>)
    requires Run(Init(initial, window, now), labels).Some?
    ensures var turns, p := Turns(Init(initial, window, now), labels), SimpleAfter(initial, window, labels);
            && |turns| <= |p.released| && turns == p.released[..|turns|]
            && (Run(Init(initial, window, now), labels).value.core.queue == [] ==> turns == p.released)
  {
    hide Init, Turns, SimpleAfter, Inv;
    FollowsSimpleForm(initial, window, now, labels);
  }

  lemma {:induction false} ResumingStays(s: State, labels: seq<Label>)
    requires Run(s, labels).Some? && NextInBlock !in labels
    ensures Run(s, labels).value.resuming == s.resuming
    decreases |labels|
  {
    if labels != [] {
      assert labels[0] in labels && forall l | l in labels[1..] :: l in labels;
      StepResuming(s, labels[0]);
      ResumingStays(Next(s, labels[0]).value, labels[1..]);
    }
  }

  lemma {:induction false} StepResuming(s: State, l: Label)
    requires Next(s, l).Some? && !l.NextInBlock?
    ensures Next(s, l).value.resuming == s.resuming
  {
  }

  /** A caller whose turn it was to adapt again has done so before anybody else has a turn. */
  lemma {:induction false} OneAtATime(s: State, labels: seq<Label>, id: Id)
    requires Next(s, NextInBlock).Some? && Turn(s, Next(s, NextInBlock).value) == [Due(id, AdaptAgain)]
    requires Run(Next(s, NextInBlock).value, labels).Some? && NextInBlock !in labels
    requires Next(Run(Next(s, NextInBlock).value, labels).value, NextInBlock).Some?
    ensures id !in Run(Next(s, NextInBlock).value, labels).value.running
  {
    hide Run;
    ResumingStays(Next(s, NextInBlock).value, labels);
  }
}
