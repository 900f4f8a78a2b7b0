/** Why a caller of the interceptor gets the answer it gets. */
module AuthOutcomes {
  import opened AuthInterceptor
  import opened AuthInvariants
  import opened Wrappers

  /** How a run began, and the steps that were taken since. */
  datatype History = History(
    initial: Option<Credential>, window: Option<RefreshWindow>, now: real, steps: seq<Label>)

  function After(h: History): Option<State> {
    Run(Init(h.initial, h.window, h.now), h.steps)
  }

  /** The state that step i found. */
  function Found(h: History, i: nat): Option<Core>
    requires i < |h.steps|
  {
    match After(h.(steps := h.steps[..i]))
    case None => None
    case Some(s) => Some(s.core)
  }

  /** The history went on. */
  predicate Later(h: History, k: History) {
    && k == h.(steps := k.steps)
    && |h.steps| <= |k.steps| && h.steps == k.steps[..|h.steps|]
  }

  // ----- causes

  /** Step i gave the interceptor the credential. */
  predicate Gives(h: History, c: Credential, i: nat)
    requires i < |h.steps|
  {
    h.steps[i] == ReplySuccess(c) || h.steps[i] == SetCredential(Some(c))
  }

  predicate Given(h: History, c: Credential) {
    h.initial == Some(c) || exists i | 0 <= i < |h.steps| :: Gives(h, c, i)
  }

  predicate IsReply(l: Label) {
    l.ReplySuccess? || l.ReplyFailure?
  }

  predicate NoReply(h: History, i: nat, j: nat)
    requires j <= |h.steps|
  {
    forall k | i < k < j :: !IsReply(h.steps[k])
  }

  /** With step i the caller began to wait for a refresh, or asked for one that was refused. */
  predicate Waits(h: History, id: Id, kind: Kind, i: nat)
    requires i < |h.steps|
  {
    match h.steps[i]
    case AdaptStep(x, needs, _, _) =>
      && kind.AdaptCall? && x == id && Found(h, i).Some?
      && var c := Found(h, i).value;
         c.isRefreshing || (c.credential.Some? && needs)
    case RetryStep(x, authenticated, _, _) => kind.RetryCall? && x == id && authenticated
    case _ => false
  }

  /** With step i the caller began to wait, and it has had no reply since. */
  predicate Waiting(h: History, id: Id, kind: Kind) {
    exists i | 0 <= i < |h.steps| :: Waits(h, id, kind, i) && NoReply(h, i, |h.steps|)
  }

  /** Step j is the first reply after the caller began to wait with step i. */
  predicate Answers(h: History, id: Id, kind: Kind, i: nat, j: nat)
    requires i < |h.steps| && j < |h.steps|
  {
    i < j && Waits(h, id, kind, i) && IsReply(h.steps[j]) && NoReply(h, i, j)
  }

  /** The reply that the caller waited for is l. */
  predicate Answered(h: History, id: Id, kind: Kind, l: Label) {
    exists i, j | 0 <= i < |h.steps| && 0 <= j < |h.steps| :: Answers(h, id, kind, i, j) && h.steps[j] == l
  }

  predicate AnsweredWell(h: History, id: Id, kind: Kind) {
    exists i, j | 0 <= i < |h.steps| && 0 <= j < |h.steps| :: Answers(h, id, kind, i, j) && h.steps[j].ReplySuccess?
  }

  /** The refresh that the caller asked for with step i was one too many. */
  predicate Refused(h: History, id: Id, kind: Kind, i: nat)
    requires i < |h.steps|
  {
    && Waits(h, id, kind, i) && (h.steps[i].AdaptStep? || h.steps[i].RetryStep?) && Found(h, i).Some?
    && !Found(h, i).value.isRefreshing && IsRefreshExcessive(Found(h, i).value, h.steps[i].t1)
  }

  /** With step i the caller found no credential. */
  predicate FindsNone(h: History, id: Id, kind: Kind, i: nat)
    requires i < |h.steps|
  {
    && Found(h, i).Some? && Found(h, i).value.credential.None?
    && match h.steps[i]
       case AdaptStep(x, _, _, _) => kind.AdaptCall? && x == id && !Found(h, i).value.isRefreshing
       case RetryRead(x, eligible) => kind.RetryCall? && x == id && eligible
       case _ => false
  }

  predicate ErrorJustified(h: History, id: Id, kind: Kind, e: AuthError) {
    match e
    case MissingCredential => exists i | 0 <= i < |h.steps| :: FindsNone(h, id, kind, i)
    case ExcessiveRefresh => exists i | 0 <= i < |h.steps| :: Refused(h, id, kind, i)
    case RefreshError(code) => Answered(h, id, kind, ReplyFailure(code))
  }

  /** With step i the caller found the credential, and it needed no refresh. */
  predicate FindsCredential(h: History, id: Id, c: Credential, i: nat)
    requires i < |h.steps|
  {
    && h.steps[i].AdaptStep? && h.steps[i].id == id && !h.steps[i].requiresRefresh
    && Found(h, i).Some? && !Found(h, i).value.isRefreshing && Found(h, i).value.credential == Some(c)
  }

  /** Step i tells that the caller's request was not authenticated with the credential that the caller had read. */
  predicate TellsStale(h: History, id: Id, i: nat)
    requires i < |h.steps|
  {
    h.steps[i].RetryStep? && h.steps[i].id == id && !h.steps[i].authenticated
  }

  predicate Justified(h: History, id: Id, o: Outcome) {
    match o
    case Authenticated(c) => Given(h, c) && exists i | 0 <= i < |h.steps| :: FindsCredential(h, id, c, i)
    case AdaptFailed(e) => ErrorJustified(h, id, AdaptCall, e)
    case Retry => AnsweredWell(h, id, RetryCall) || exists i | 0 <= i < |h.steps| :: TellsStale(h, id, i)
    case DoNotRetry => RetryRead(id, false) in h.steps
    case DoNotRetryWithError(e) => ErrorJustified(h, id, RetryCall, e)
  }

  // ----- a longer history justifies no less

  lemma {:induction false} LaterFound(h: History, k: History, i: nat)
    requires Later(h, k) && i < |h.steps|
    ensures h.steps[i] == k.steps[i] && Found(h, i) == Found(k, i)
  {
    assert h.steps[..i] == k.steps[..i];
  }

  lemma {:induction false} LaterWaits(h: History, k: History, id: Id, kind: Kind, i: nat)
    requires Later(h, k) && i < |h.steps|
    ensures Waits(h, id, kind, i) == Waits(k, id, kind, i)
    ensures Refused(h, id, kind, i) == Refused(k, id, kind, i) && FindsNone(h, id, kind, i) == FindsNone(k, id, kind, i)
  {
    hide Found, Later;
    LaterFound(h, k, i);
  }

  lemma {:induction false} LaterAnswers(h: History, k: History, id: Id, kind: Kind, i: nat, j: nat)
    requires Later(h, k) && i < |h.steps| && j < |h.steps| && Answers(h, id, kind, i, j)
    ensures Answers(k, id, kind, i, j) && k.steps[j] == h.steps[j]
  {
    hide Found;
    LaterWaits(h, k, id, kind, i);
    forall n | i < n <= j ensures k.steps[n] == h.steps[n] {
      LaterFound(h, k, n);
    }
  }

  lemma {:induction false} LaterError(h: History, k: History, id: Id, kind: Kind, e: AuthError)
    requires Later(h, k) && ErrorJustified(h, id, kind, e)
    ensures ErrorJustified(k, id, kind, e)
  {
    hide Later, Waits, Refused, FindsNone, Answers;
    Longer(h, k);
    match e
    case MissingCredential =>
      var i :| 0 <= i < |h.steps| && FindsNone(h, id, kind, i);
      LaterWaits(h, k, id, kind, i);
    case ExcessiveRefresh =>
      var i :| 0 <= i < |h.steps| && Refused(h, id, kind, i);
      LaterWaits(h, k, id, kind, i);
    case RefreshError(code) =>
      var i, j :| 0 <= i < |h.steps| && 0 <= j < |h.steps| && Answers(h, id, kind, i, j) &&
        h.steps[j] == ReplyFailure(code);
      LaterAnswers(h, k, id, kind, i, j);
  }

  lemma {:induction false} Longer(h: History, k: History)
    requires Later(h, k)
    ensures |h.steps| <= |k.steps| && h.initial == k.initial && h.window == k.window
    ensures forall l | l in h.steps :: l in k.steps
  {
    forall l | l in h.steps ensures l in k.steps {
      var i :| 0 <= i < |h.steps| && h.steps[i] == l;
      assert k.steps[i] == l;
    }
  }

  lemma {:induction false} LaterGiven(h: History, k: History, c: Credential)
    requires Later(h, k) && Given(h, c)
    ensures Given(k, c)
  {
    if h.initial != Some(c) {
      var i :| 0 <= i < |h.steps| && Gives(h, c, i);
      assert k.steps[i] == h.steps[i] && Gives(k, c, i);
    }
  }

  lemma {:induction false} LaterSuccess(h: History, k: History, id: Id, kind: Kind)
    requires Later(h, k) && AnsweredWell(h, id, kind)
    ensures AnsweredWell(k, id, kind)
  {
    hide Later, Answers;
    Longer(h, k);
    var i, j :| 0 <= i < |h.steps| && 0 <= j < |h.steps| && Answers(h, id, kind, i, j) && h.steps[j].ReplySuccess?;
    LaterAnswers(h, k, id, kind, i, j);
  }

  lemma {:induction false} LaterOutcome(h: History, k: History, id: Id, o: Outcome)
    requires Later(h, k) && Justified(h, id, o)
    ensures Justified(k, id, o)
  {
    hide Later, Given, ErrorJustified, AnsweredWell, Found;
    Longer(h, k);
    match o
    case Authenticated(c) =>
      LaterGiven(h, k, c);
      var i :| 0 <= i < |h.steps| && FindsCredential(h, id, c, i);
      LaterFound(h, k, i);
      assert FindsCredential(k, id, c, i);
    case AdaptFailed(e) => LaterError(h, k, id, AdaptCall, e);
    case DoNotRetryWithError(e) => LaterError(h, k, id, RetryCall, e);
    case DoNotRetry =>
    case Retry =>
      if AnsweredWell(h, id, RetryCall) {
        LaterSuccess(h, k, id, RetryCall);
      } else {
        var i :| 0 <= i < |h.steps| && TellsStale(h, id, i);
        LaterFound(h, k, i);
        assert TellsStale(k, id, i);
      }
  }

  // ----- everything in a state is justified

  predicate AllWait(h: History, ids: seq<Id>, kind: Kind) {
    forall i | 0 <= i < |ids| :: Waiting(h, ids[i], kind)
  }

  predicate AllAnsweredWell(h: History, ids: seq<Id>) {
    forall i | 0 <= i < |ids| :: AnsweredWell(h, ids[i], RetryCall)
  }

  predicate AllRejected(h: History, ids: seq<Id>, kind: Kind, e: AuthError) {
    forall i | 0 <= i < |ids| :: ErrorJustified(h, ids[i], kind, e)
  }

  predicate BlockJustified(h: History, b: Block) {
    match b
    case RefreshCall(c) => Given(h, c)
    case Resume(_, retries) => AllAnsweredWell(h, retries)
    case Reject(adapts, retries, e) => AllRejected(h, adapts, AdaptCall, e) && AllRejected(h, retries, RetryCall, e)
  }

  predicate QueueJustified(h: History, q: seq<Block>) {
    forall i | 0 <= i < |q| :: BlockJustified(h, q[i])
  }

  predicate CredentialJustified(h: History, credential: Option<Credential>) {
    credential.Some? ==> Given(h, credential.value)
  }

  predicate QueuesWait(h: History, c: Core) {
    AllWait(h, c.adaptOperations, AdaptCall) && AllWait(h, c.requestsToRetry, RetryCall)
  }

  /** All but the queues of waiting callers, which a reply empties. */
  predicate CoreJustified(h: History, c: Core) {
    CredentialJustified(h, c.credential) && QueueJustified(h, c.queue)
  }

  predicate PcJustified(h: History, id: Id, pc: Pc) {
    match pc
    case Starting => true
    case HasCredential(c) => Given(h, c)
    case Completing(o) => Justified(h, id, o)
  }

  predicate RunningJustified(h: History, running: map<Id, Pc>) {
    forall id | id in running :: PcJustified(h, id, running[id])
  }

  predicate AnswersJustified(h: History, ds: seq<Delivery>) {
    forall i | 0 <= i < |ds| :: Justified(h, ds[i].id, ds[i].outcome)
  }

  predicate AllJustified(h: History, s: State) {
    CoreJustified(h, s.core) && RunningJustified(h, s.running) && AnswersJustified(h, s.delivered)
  }

  lemma {:induction false} LaterBlock(h: History, k: History, b: Block)
    requires Later(h, k) && BlockJustified(h, b)
    ensures BlockJustified(k, b)
  {
    hide Later, AnsweredWell, ErrorJustified, Given;
    match b
    case RefreshCall(c) => LaterGiven(h, k, c);
    case Resume(_, retries) =>
      forall i | 0 <= i < |retries| ensures AnsweredWell(k, retries[i], RetryCall) {
        LaterSuccess(h, k, retries[i], RetryCall);
      }
    case Reject(adapts, retries, e) =>
      forall i | 0 <= i < |adapts| ensures ErrorJustified(k, adapts[i], AdaptCall, e) {
        LaterError(h, k, adapts[i], AdaptCall, e);
      }
      forall i | 0 <= i < |retries| ensures ErrorJustified(k, retries[i], RetryCall, e) {
        LaterError(h, k, retries[i], RetryCall, e);
      }
  }

  lemma {:induction false} LaterPc(h: History, k: History, id: Id, pc: Pc)
    requires Later(h, k) && PcJustified(h, id, pc)
    ensures PcJustified(k, id, pc)
  {
    match pc
    case Starting =>
    case HasCredential(c) => LaterGiven(h, k, c);
    case Completing(o) => LaterOutcome(h, k, id, o);
  }

  lemma {:induction false} LaterState(h: History, k: History, s: State)
    requires Later(h, k) && AllJustified(h, s)
    ensures AllJustified(k, s)
  {
    hide BlockJustified, PcJustified, Justified, Later, Given;
    forall i | 0 <= i < |s.core.queue| ensures BlockJustified(k, s.core.queue[i]) {
      LaterBlock(h, k, s.core.queue[i]);
    }
    forall id | id in s.running ensures PcJustified(k, id, s.running[id]) {
      LaterPc(h, k, id, s.running[id]);
    }
    forall i | 0 <= i < |s.delivered| ensures Justified(k, s.delivered[i].id, s.delivered[i].outcome) {
      LaterOutcome(h, k, s.delivered[i].id, s.delivered[i].outcome);
    }
    if s.core.credential.Some? {
      LaterGiven(h, k, s.core.credential.value);
    }
  }

  // ----- the last step of a history

  function Extended(h: History, l: Label): (k: History)
    ensures |k.steps| == |h.steps| + 1 && k.steps[|h.steps|] == l
  {
    h.(steps := h.steps + [l])
  }

  lemma {:induction false} ExtendedIs(h: History, l: Label)
    ensures Later(h, Extended(h, l))
    ensures Found(Extended(h, l), |h.steps|) == match After(h) case None => None case Some(s) => Some(s.core)
  {
    assert Extended(h, l).steps[..|h.steps|] == h.steps;
  }

  /** Whoever waited still waits, unless the step is a reply. */
  lemma {:induction false} StillWaiting(h: History, l: Label, id: Id, kind: Kind)
    requires Waiting(h, id, kind) && !IsReply(l)
    ensures Waiting(Extended(h, l), id, kind)
  {
    hide Waits;
    var k := Extended(h, l);
    ExtendedIs(h, l);
    var i :| 0 <= i < |h.steps| && Waits(h, id, kind, i) && NoReply(h, i, |h.steps|);
    LaterWaits(h, k, id, kind, i);
    assert NoReply(k, i, |k.steps|);
  }

  lemma {:induction false} StillWait(h: History, l: Label, c: Core)
    requires QueuesWait(h, c) && !IsReply(l)
    ensures QueuesWait(Extended(h, l), c)
  {
    hide Waiting;
    var k := Extended(h, l);
    forall i | 0 <= i < |c.adaptOperations| ensures Waiting(k, c.adaptOperations[i], AdaptCall) {
      StillWaiting(h, l, c.adaptOperations[i], AdaptCall);
    }
    forall i | 0 <= i < |c.requestsToRetry| ensures Waiting(k, c.requestsToRetry[i], RetryCall) {
      StillWaiting(h, l, c.requestsToRetry[i], RetryCall);
    }
  }

  /** A reply answers whoever waits. */
  lemma {:induction false} ReplyAnswers(h: History, l: Label, id: Id, kind: Kind)
    requires Waiting(h, id, kind) && IsReply(l)
    ensures Answered(Extended(h, l), id, kind, l) && (l.ReplySuccess? ==> AnsweredWell(Extended(h, l), id, kind))
  {
    hide Waits;
    var k := Extended(h, l);
    ExtendedIs(h, l);
    var i :| 0 <= i < |h.steps| && Waits(h, id, kind, i) && NoReply(h, i, |h.steps|);
    LaterWaits(h, k, id, kind, i);
    assert Answers(k, id, kind, i, |h.steps|);
  }

  /** The caller of the last step begins to wait. */
  lemma {:induction false} BeginsToWait(h: History, l: Label, id: Id, kind: Kind)
    requires Waits(Extended(h, l), id, kind, |h.steps|)
    ensures Waiting(Extended(h, l), id, kind)
  {
    var k := Extended(h, l);
    assert NoReply(k, |h.steps|, |k.steps|);
  }

  // ----- every step keeps everything justified

  /** What a refresh started by step |h.steps| does; its caller has just been queued, alone. */
  lemma {:induction false} RefreshedJustified(k: History, c: Core, credential: Credential, t1: real, t2: real)
    requires CoreJustified(k, c) && QueuesWait(k, c) && Given(k, credential)
    requires IsRefreshExcessive(c, t1) ==>
               && AllRejected(k, c.adaptOperations, AdaptCall, ExcessiveRefresh)
               && AllRejected(k, c.requestsToRetry, RetryCall, ExcessiveRefresh)
    ensures CoreJustified(k, Refreshed(c, credential, t1, t2)) && QueuesWait(k, Refreshed(c, credential, t1, t2))
  {
    hide Given, ErrorJustified, Waiting;
  }

  lemma {:induction false} AdaptCore(h: History, s: State, id: Id, needs: bool, t1: real, t2: real)
    requires var l := AdaptStep(id, needs, t1, t2);
             && After(h) == Some(s) && RefreshInv(s)
             && CoreJustified(Extended(h, l), s.core) && QueuesWait(Extended(h, l), s.core)
    ensures var k, d := Extended(h, AdaptStep(id, needs, t1, t2)), AdaptLocked(s.core, id, needs, t1, t2).0;
            CoreJustified(k, d) && QueuesWait(k, d)
  {
    hide QueueJustified, Given, ErrorJustified, Waiting, CountFrom, After;
    var l := AdaptStep(id, needs, t1, t2);
    var k := Extended(h, l);
    ExtendedIs(h, l);
    var d := s.core.(adaptOperations := s.core.adaptOperations + [id]);
    if s.core.isRefreshing || (s.core.credential.Some? && needs) {
      BeginsToWait(h, l, id, AdaptCall);
      assert QueuesWait(k, d);
    }
    if !s.core.isRefreshing && s.core.credential.Some? && needs {
      if IsRefreshExcessive(d, t1) {
        assert Refused(k, id, AdaptCall, |h.steps|);
        RefusedIs(k, id, AdaptCall, |h.steps|);
      }
      RefreshedJustified(k, d, s.core.credential.value, t1, t2);
    }
  }

  lemma {:induction false} RefusedIs(k: History, id: Id, kind: Kind, i: nat)
    requires i < |k.steps| && Refused(k, id, kind, i)
    ensures ErrorJustified(k, id, kind, ExcessiveRefresh)
  {
  }

  lemma {:induction false} AdaptOutcome(h: History, s: State, id: Id, needs: bool, t1: real, t2: real)
    requires After(h) == Some(s) && CredentialJustified(Extended(h, AdaptStep(id, needs, t1, t2)), s.core.credential)
    ensures match AdaptLocked(s.core, id, needs, t1, t2).1
            case Adapt(c) => Justified(Extended(h, AdaptStep(id, needs, t1, t2)), id, Authenticated(c))
            case DoNotAdapt(e) => Justified(Extended(h, AdaptStep(id, needs, t1, t2)), id, AdaptFailed(e))
            case AdaptDeferred => true
  {
    hide Given, After;
    var l := AdaptStep(id, needs, t1, t2);
    var k := Extended(h, l);
    ExtendedIs(h, l);
    if !s.core.isRefreshing {
      if s.core.credential.None? {
        assert FindsNone(k, id, AdaptCall, |h.steps|);
      } else if !needs {
        assert FindsCredential(k, id, s.core.credential.value, |h.steps|);
      }
    }
  }

  lemma {:induction false} RetryCore(h: History, s: State, id: Id, credential: Credential, t1: real, t2: real)
    requires var l := RetryStep(id, true, t1, t2);
             && After(h) == Some(s) && RefreshInv(s)
             && CoreJustified(Extended(h, l), s.core) && QueuesWait(Extended(h, l), s.core) &&
               Given(Extended(h, l), credential)
    ensures var k, d := Extended(h, RetryStep(id, true, t1, t2)), RetryLocked(s.core, id, credential, t1, t2);
            CoreJustified(k, d) && QueuesWait(k, d)
  {
    hide QueueJustified, Given, ErrorJustified, Waiting, CountFrom, After;
    var l := RetryStep(id, true, t1, t2);
    var k := Extended(h, l);
    ExtendedIs(h, l);
    var d := s.core.(requestsToRetry := s.core.requestsToRetry + [id]);
    BeginsToWait(h, l, id, RetryCall);
    assert QueuesWait(k, d);
    if !s.core.isRefreshing {
      if IsRefreshExcessive(d, t1) {
        assert Refused(k, id, RetryCall, |h.steps|);
        RefusedIs(k, id, RetryCall, |h.steps|);
      }
      RefreshedJustified(k, d, credential, t1, t2);
    }
  }

  lemma {:induction false} ReplyCore(h: History, c: Core, l: Label)
    requires CoreJustified(Extended(h, l), c) && QueuesWait(h, c)
    ensures l.ReplySuccess? ==>
              var d := RefreshSucceeded(c, l.credential);
              CoreJustified(Extended(h, l), d) && QueuesWait(Extended(h, l), d)
    ensures l.ReplyFailure? ==>
              var d := RefreshFailed(c, RefreshError(l.code));
              CoreJustified(Extended(h, l), d) && QueuesWait(Extended(h, l), d)
  {
    hide Waiting, Answered, AnsweredWell, Given;
    var k := Extended(h, l);
    if IsReply(l) {
      forall i | 0 <= i < |c.adaptOperations| ensures Answered(k, c.adaptOperations[i], AdaptCall, l) {
        ReplyAnswers(h, l, c.adaptOperations[i], AdaptCall);
      }
      forall i | 0 <= i < |c.requestsToRetry|
        ensures Answered(k, c.requestsToRetry[i], RetryCall, l)
        ensures l.ReplySuccess? ==> AnsweredWell(k, c.requestsToRetry[i], RetryCall)
      {
        ReplyAnswers(h, l, c.requestsToRetry[i], RetryCall);
      }
    }
    NewlyGiven(h, l);
  }

  lemma {:induction false} NewlyGiven(h: History, l: Label)
    ensures l.ReplySuccess? ==> Given(Extended(h, l), l.credential)
    ensures l.SetCredential? ==> CredentialJustified(Extended(h, l), l.replacement)
  {
    var k := Extended(h, l);
    if l.ReplySuccess? {
      assert Gives(k, l.credential, |h.steps|);
    }
    if l.SetCredential? && l.replacement.Some? {
      assert Gives(k, l.replacement.value, |h.steps|);
    }
  }

  lemma {:induction false} ReadOutcome(h: History, s: State, id: Id, eligible: bool)
    requires After(h) == Some(s)
    ensures var k := Extended(h, RetryRead(id, eligible));
            && (!eligible ==> Justified(k, id, DoNotRetry))
            && (eligible && s.core.credential.None? ==> Justified(k, id, DoNotRetryWithError(MissingCredential)))
  {
    hide After;
    var l := RetryRead(id, eligible);
    var k := Extended(h, l);
    ExtendedIs(h, l);
    assert l == k.steps[|h.steps|] && l in k.steps;
    if eligible && s.core.credential.None? {
      assert FindsNone(k, id, RetryCall, |h.steps|);
    }
  }

  lemma {:induction false} BlockStepJustified(k: History, s: State)
    requires AllJustified(k, s) && QueuesWait(k, s.core) && |s.core.queue| > 0 && !s.core.queue[0].RefreshCall?
    ensures AllJustified(k, BlockStep(s)) && QueuesWait(k, BlockStep(s).core)
  {
    hide Given, ErrorJustified, AnsweredWell, Waiting;
    assert BlockJustified(k, s.core.queue[0]);
  }

  lemma {:induction false} StaleJustified(h: History, id: Id, t1: real, t2: real)
    ensures Justified(Extended(h, RetryStep(id, false, t1, t2)), id, Retry)
  {
    assert TellsStale(Extended(h, RetryStep(id, false, t1, t2)), id, |h.steps|);
  }

  /** One more step; what the state before it held is justified already. */
  lemma {:induction false} StepJustified(h: History, s: State, l: Label)
    requires After(h) == Some(s) && RefreshInv(s) && Next(s, l).Some?
    requires AllJustified(Extended(h, l), s) && QueuesWait(h, s.core)
    ensures AllJustified(Extended(h, l), Next(s, l).value) && QueuesWait(Extended(h, l), Next(s, l).value.core)
  {
    hide After, AdaptLocked, BlockStep, RetryLocked, RefreshSucceeded, RefreshFailed, Given, Justified, QueueJustified,
         Waiting, RefreshInv, Extended;
    var k := Extended(h, l);
    if !IsReply(l) {
      StillWait(h, l, s.core);
    }
    match l
    case AdaptStep(id, needs, t1, t2) =>
      AdaptCore(h, s, id, needs, t1, t2);
      AdaptOutcome(h, s, id, needs, t1, t2);
    case RetryRead(id, eligible) => ReadOutcome(h, s, id, eligible);
    case RetryStep(id, authenticated, t1, t2) =>
      if authenticated {
        assert PcJustified(k, id, s.running[id]);
        RetryCore(h, s, id, s.running[id].credential, t1, t2);
      } else {
        StaleJustified(h, id, t1, t2);
      }
    case Complete(id) => assert PcJustified(k, id, s.running[id]);
    case ReplySuccess(c) => ReplyCore(h, s.core, l);
    case ReplyFailure(code) => ReplyCore(h, s.core, l);
    case NextInBlock => BlockStepJustified(k, s);
    case SetCredential(c) => NewlyGiven(h, l);
    case RunRefresh => TailJustified(k, s.core.queue);
    case Submit(id, kind) =>
    case Tick(to) =>
  }

  lemma {:induction false} TailJustified(k: History, q: seq<Block>)
    requires QueueJustified(k, q) && q != []
    ensures QueueJustified(k, q[1..])
  {
  }

  // ----- over whole runs

  lemma {:induction false} RunThen(s: State, labels: seq<Label>, l: Label)
    ensures Run(s, labels + [l]) == if Run(s, labels).None? then None else Next(Run(s, labels).value, l)
    decreases |labels|
  {
    hide Next;
    if labels == [] {
      assert [l][1..] == [] && labels + [l] == [l];
    } else {
      assert (labels + [l])[1..] == labels[1..] + [l];
      if Next(s, labels[0]).Some? {
        RunThen(Next(s, labels[0]).value, labels[1..], l);
      }
    }
  }

  lemma {:induction false} RunJustified(h: History)
    requires After(h).Some?
    ensures AllJustified(h, After(h).value) && QueuesWait(h, After(h).value.core) && Inv(After(h).value)
    decreases |h.steps|
  {
    hide AllJustified, QueuesWait, Inv, Next, Later, Init;
    if h.steps == [] {
      StartJustified(h);
    } else {
      var n := |h.steps| - 1;
      var before, l := h.(steps := h.steps[..n]), h.steps[n];
      assert h == Extended(before, l) && h.steps == h.steps[..n] + [l];
      RunThen(Init(h.initial, h.window, h.now), h.steps[..n], l);
      RunJustified(before);
      var s := After(before).value;
      ExtendedIs(before, l);
      LaterState(before, h, s);
      RefreshOf(s);
      StepJustified(before, s, l);
      StepKeepsInv(s, l);
    }
  }

  lemma {:induction false} RefreshOf(s: State)
    requires Inv(s)
    ensures RefreshInv(s)
  {
  }

  lemma {:induction false} StartJustified(h: History)
    requires h.steps == []
    ensures After(h) == Some(Init(h.initial, h.window, h.now))
    ensures AllJustified(h, After(h).value) && QueuesWait(h, After(h).value.core) && Inv(After(h).value)
  {
    InitInv(h.initial, h.window, h.now);
  }

  /**
   Every answer is justified by the caller's own steps and the reply it waited for, and every
   refresh uses a credential the interceptor was given.
   */
  lemma {:induction false} AnswersAreJustified(
    credential: Option<Credential>, window: Option<RefreshWindow>, now: real, labels: seq<Label>)
    requires Run(Init(credential, window, now), labels).Some?
    ensures var s := Run(Init(credential, window, now), labels).value;
            var h := History(credential, window, now, labels);
            && AnswersJustified(h, s.delivered)
            && forall i | 0 <= i < |s.core.queue| && s.core.queue[i].RefreshCall? ::
                 Given(h, s.core.queue[i].credential)
  {
    hide Given;
    var h := History(credential, window, now, labels);
    RunJustified(h);
    var s := After(h).value;
    assert forall i | 0 <= i < |s.core.queue| :: BlockJustified(h, s.core.queue[i]);
  }
}
