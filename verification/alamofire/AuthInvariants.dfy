/** What holds in every reachable state of the interceptor. */
module AuthInvariants {
  import opened AuthInterceptor
  import opened Wrappers

  // ----- one refresh at a time

  function RefreshBlocks(q: seq<Block>): nat {
    if q == [] then 0 else (if q[0].RefreshCall? then 1 else 0) + RefreshBlocks(q[1..])
  }

  /** Refreshes that have been started and have not been answered. */
  function Outstanding(s: State): nat {
    RefreshBlocks(s.core.queue) + s.awaiting
  }

  /**
   isRefreshing tells whether a refresh is outstanding, there is never more than one, and callers wait only for it.
   */
  predicate RefreshInv(s: State) {
    && Outstanding(s) == (if s.core.isRefreshing then 1 else 0)
    && (!s.core.isRefreshing ==> s.core.adaptOperations == [] && s.core.requestsToRetry == [])
  }

  lemma {:induction false} BlocksAppend(q: seq<Block>, b: Block)
    ensures RefreshBlocks(q + [b]) == RefreshBlocks(q) + if b.RefreshCall? then 1 else 0
  {
    if q != [] {
      BlocksAppend(q[1..], b);
      assert (q + [b])[1..] == q[1..] + [b];
    } else {
      assert (q + [b])[1..] == [];
    }
  }

  lemma {:induction false} RefreshedOne(c: Core, credential: Credential, t1: real, t2: real)
    requires !c.isRefreshing
    ensures var d := Refreshed(c, credential, t1, t2);
            && RefreshBlocks(d.queue) == RefreshBlocks(c.queue) + (if d.isRefreshing then 1 else 0)
            && (!d.isRefreshing ==> d.adaptOperations == [] && d.requestsToRetry == [])
  {
    BlocksAppend(c.queue, RefreshCall(credential));
    BlocksAppend(c.queue, Reject(c.adaptOperations, c.requestsToRetry, ExcessiveRefresh));
  }

  lemma {:induction false} BlockKeepsRefresh(s: State)
    requires RefreshInv(s) && |s.core.queue| > 0 && !s.core.queue[0].RefreshCall?
    ensures RefreshInv(BlockStep(s))
  {
  }

  lemma {:induction false} StepKeepsRefresh(s: State, l: Label)
    requires RefreshInv(s) && Next(s, l).Some?
    ensures RefreshInv(Next(s, l).value)
  {
    match l
    case AdaptStep(id, needs, t1, t2) =>
      if !s.core.isRefreshing && s.core.credential.Some? {
        RefreshedOne(s.core.(adaptOperations := s.core.adaptOperations + [id]), s.core.credential.value, t1, t2);
      }
    case RetryStep(id, authenticated, t1, t2) =>
      if !s.core.isRefreshing {
        RefreshedOne(s.core.(requestsToRetry := s.core.requestsToRetry + [id]), s.running[id].credential, t1, t2);
      }
    case ReplySuccess(c) => BlocksAppend(s.core.queue, Resume(s.core.adaptOperations, s.core.requestsToRetry));
    case ReplyFailure(code) =>
      BlocksAppend(s.core.queue, Reject(s.core.adaptOperations, s.core.requestsToRetry, RefreshError(code)));
    case NextInBlock => BlockKeepsRefresh(s);
    case _ =>
  }

  // ----- every caller is in exactly one place

  function BlockIds(b: Block): multiset<Id> {
    if b.RefreshCall? then multiset{} else multiset(b.adapts) + multiset(b.retries)
  }

  function QueueIds(q: seq<Block>): multiset<Id> {
    if q == [] then multiset{} else BlockIds(q[0]) + QueueIds(q[1..])
  }

  function DeliveredIds(ds: seq<Delivery>): multiset<Id> {
    if ds == [] then multiset{} else DeliveredIds(ds[..|ds| - 1]) + multiset{ds[|ds| - 1].id}
  }

  /** Callers that the interceptor holds: queued for the refresh or in a dispatched block. */
  function Held(c: Core): multiset<Id> {
    multiset(c.adaptOperations) + multiset(c.requestsToRetry) + QueueIds(c.queue)
  }

  function Places(s: State): multiset<Id> {
    multiset(s.running.Keys) + Held(s.core) + DeliveredIds(s.delivered)
  }

  /** Every submitted caller is in exactly one place, once. */
  predicate ConservedInv(s: State) {
    Places(s) == multiset(s.submitted.Keys)
  }

  lemma {:induction false} QueueAppend(q: seq<Block>, b: Block)
    ensures QueueIds(q + [b]) == QueueIds(q) + BlockIds(b)
  {
    if q == [] {
      assert (q + [b])[1..] == [];
    } else {
      QueueAppend(q[1..], b);
      assert (q + [b])[1..] == q[1..] + [b];
    }
  }

  lemma {:induction false} QueueHead(b: Block, q: seq<Block>)
    ensures QueueIds([b] + q) == BlockIds(b) + QueueIds(q)
  {
  }

  lemma {:induction false} RefreshedHolds(c: Core, credential: Credential, t1: real, t2: real)
    ensures Held(Refreshed(c, credential, t1, t2)) == Held(c)
  {
    QueueAppend(c.queue, RefreshCall(credential));
    QueueAppend(c.queue, Reject(c.adaptOperations, c.requestsToRetry, ExcessiveRefresh));
  }

  lemma {:induction false} AdaptHolds(c: Core, id: Id, needs: bool, t1: real, t2: real)
    ensures var (d, r) := AdaptLocked(c, id, needs, t1, t2);
            Held(d) == if r.AdaptDeferred? then Held(c) + multiset{id} else Held(c)
  {
    if !c.isRefreshing && c.credential.Some? {
      RefreshedHolds(c.(adaptOperations := c.adaptOperations + [id]), c.credential.value, t1, t2);
    }
  }

  lemma {:induction false} RetryHolds(c: Core, id: Id, credential: Credential, t1: real, t2: real)
    ensures Held(RetryLocked(c, id, credential, t1, t2)) == Held(c) + multiset{id}
  {
    RefreshedHolds(c.(requestsToRetry := c.requestsToRetry + [id]), credential, t1, t2);
  }

  lemma {:induction false} ReplyHolds(c: Core, credential: Credential, error: AuthError)
    ensures Held(RefreshSucceeded(c, credential)) == Held(c) && Held(RefreshFailed(c, error)) == Held(c)
  {
    QueueAppend(c.queue, Resume(c.adaptOperations, c.requestsToRetry));
    QueueAppend(c.queue, Reject(c.adaptOperations, c.requestsToRetry, error));
  }

  lemma {:induction false} KeysGrow<T>(m: map<Id, T>, id: Id, v: T)
    ensures multiset(m[id := v].Keys) == if id in m then multiset(m.Keys) else multiset(m.Keys) + multiset{id}
  {
  }

  lemma {:induction false} GotoKeepsCallers(s: State, id: Id, pc: Pc)
    requires ConservedInv(s) && id in s.running
    ensures ConservedInv(Goto(s, id, pc))
  {
  }

  lemma {:induction false} LeaveToCore(s: State, id: Id, core: Core, now: real)
    requires ConservedInv(s) && id in s.running && Held(core) == Held(s.core) + multiset{id}
    ensures ConservedInv(Leave(s.(core := core, now := now), id))
  {
  }

  lemma {:induction false} AdaptKeepsCallers(s: State, id: Id, needs: bool, t1: real, t2: real)
    requires ConservedInv(s) && id in s.running
    ensures ConservedInv(AfterAdapt(s, id, needs, t1, t2))
  {
    hide AdaptLocked, ConservedInv, Held;
    AdaptHolds(s.core, id, needs, t1, t2);
    var (core, r) := AdaptLocked(s.core, id, needs, t1, t2);
    match r
    case AdaptDeferred => LeaveToCore(s, id, core, t2);
    case Adapt(c) =>
      CoreKeepsCallers(s, core, t2, s.awaiting);
      GotoKeepsCallers(s.(core := core, now := t2), id, Completing(Authenticated(c)));
    case DoNotAdapt(e) =>
      CoreKeepsCallers(s, core, t2, s.awaiting);
      GotoKeepsCallers(s.(core := core, now := t2), id, Completing(AdaptFailed(e)));
  }

  lemma {:induction false} RetryKeepsCallers(s: State, id: Id, credential: Credential, t1: real, t2: real)
    requires ConservedInv(s) && id in s.running
    ensures ConservedInv(Leave(s.(core := RetryLocked(s.core, id, credential, t1, t2), now := t2), id))
  {
    RetryHolds(s.core, id, credential, t1, t2);
    LeaveToCore(s, id, RetryLocked(s.core, id, credential, t1, t2), t2);
  }

  lemma {:induction false} FirstOf(ids: seq<Id>)
    requires ids != []
    ensures multiset(ids) == multiset{ids[0]} + multiset(ids[1..])
  {
    assert ids == [ids[0]] + ids[1..];
  }

  lemma {:induction false} TakeAdapt(b: Block, rest: seq<Block>)
    requires !b.RefreshCall? && b.adapts != []
    ensures QueueIds([b] + rest) == QueueIds([b.(adapts := b.adapts[1..])] + rest) + multiset{b.adapts[0]}
  {
    FirstOf(b.adapts);
    QueueHead(b, rest);
    QueueHead(b.(adapts := b.adapts[1..]), rest);
  }

  lemma {:induction false} TakeRetry(b: Block, rest: seq<Block>)
    requires !b.RefreshCall? && b.retries != []
    ensures QueueIds([b] + rest) == QueueIds([b.(retries := b.retries[1..])] + rest) + multiset{b.retries[0]}
  {
    FirstOf(b.retries);
    QueueHead(b, rest);
    QueueHead(b.(retries := b.retries[1..]), rest);
  }

  /** A caller moves from the dispatch queue to the delivered ones. */
  lemma {:induction false} HandOver(s: State, queue: seq<Block>, id: Id, outcome: Outcome)
    requires ConservedInv(s) && QueueIds(s.core.queue) == QueueIds(queue) + multiset{id}
    ensures ConservedInv(Deliver(s.(core := s.core.(queue := queue)), id, outcome))
  {
  }

  /** A caller moves from the dispatch queue to the running ones. */
  lemma {:induction false} StartAgain(s: State, queue: seq<Block>, id: Id)
    requires ConservedInv(s) && QueueIds(s.core.queue) == QueueIds(queue) + multiset{id}
    ensures ConservedInv(Goto(s.(core := s.core.(queue := queue)), id, Starting).(resuming := Some(id)))
  {
  }

  lemma {:induction false} BlockKeepsCallers(s: State)
    requires ConservedInv(s) && |s.core.queue| > 0 && !s.core.queue[0].RefreshCall?
    ensures ConservedInv(BlockStep(s))
  {
    hide ConservedInv, QueueIds;
    var b, rest := s.core.queue[0], s.core.queue[1..];
    assert s.core.queue == [b] + rest;
    match b
    case Resume(adapts, retries) =>
      if adapts != [] {
        TakeAdapt(b, rest);
        StartAgain(s, [Resume(adapts[1..], retries)] + rest, adapts[0]);
      } else if retries != [] {
        TakeRetry(b, rest);
        HandOver(s, [Resume([], retries[1..])] + rest, retries[0], Retry);
      } else {
        BlockEnds(s);
      }
    case Reject(adapts, retries, error) =>
      if adapts != [] {
        TakeAdapt(b, rest);
        HandOver(s, [Reject(adapts[1..], retries, error)] + rest, adapts[0], AdaptFailed(error));
      } else if retries != [] {
        TakeRetry(b, rest);
        HandOver(s, [Reject([], retries[1..], error)] + rest, retries[0], DoNotRetryWithError(error));
      } else {
        BlockEnds(s);
      }
  }

  lemma {:induction false} BlockEnds(s: State)
    requires ConservedInv(s) && |s.core.queue| > 0 && BlockIds(s.core.queue[0]) == multiset{}
    ensures ConservedInv(s.(core := s.core.(queue := s.core.queue[1..]), resuming := None))
  {
  }

  lemma {:induction false} StepKeepsCallers(s: State, l: Label)
    requires ConservedInv(s) && Next(s, l).Some?
    ensures ConservedInv(Next(s, l).value)
  {
    hide ConservedInv, Held, AfterAdapt, BlockStep, RetryLocked, RefreshSucceeded, RefreshFailed;
    match l
    case Submit(id, kind) => SubmitKeepsCallers(s, id, kind);
    case AdaptStep(id, needs, t1, t2) => AdaptKeepsCallers(s, id, needs, t1, t2);
    case RetryRead(id, eligible) => GotoKeepsCallers(s, id, Next(s, l).value.running[id]);
    case RetryStep(id, authenticated, t1, t2) =>
      if authenticated {
        RetryKeepsCallers(s, id, s.running[id].credential, t1, t2);
      } else {
        GotoKeepsCallers(s, id, Completing(Retry));
      }
    case Complete(id) => CompletionDelivers(s, id, s.running[id].outcome);
    case RunRefresh =>
      RefreshCallHolds(s.core);
      CoreKeepsCallers(s, s.core.(queue := s.core.queue[1..]), s.now, s.awaiting + 1);
    case ReplySuccess(c) =>
      ReplyHolds(s.core, c, MissingCredential);
      CoreKeepsCallers(s, RefreshSucceeded(s.core, c), s.now, s.awaiting - 1);
    case ReplyFailure(code) =>
      ReplyHolds(s.core, 0, RefreshError(code));
      CoreKeepsCallers(s, RefreshFailed(s.core, RefreshError(code)), s.now, s.awaiting - 1);
    case NextInBlock => BlockKeepsCallers(s);
    case SetCredential(c) =>
      CredentialHolds(s.core, c);
      CoreKeepsCallers(s, s.core.(credential := c), s.now, s.awaiting);
    case Tick(to) => CoreKeepsCallers(s, s.core, to, s.awaiting);
  }

  lemma {:induction false} RefreshCallHolds(c: Core)
    requires |c.queue| > 0 && c.queue[0].RefreshCall?
    ensures Held(c.(queue := c.queue[1..])) == Held(c)
  {
  }

  lemma {:induction false} CredentialHolds(c: Core, credential: Option<Credential>)
    ensures Held(c.(credential := credential)) == Held(c)
  {
  }

  lemma {:induction false} CoreKeepsCallers(s: State, core: Core, now: real, awaiting: nat)
    requires ConservedInv(s) && Held(core) == Held(s.core)
    ensures ConservedInv(s.(core := core, now := now, awaiting := awaiting))
  {
  }

  lemma {:induction false} CompletionDelivers(s: State, id: Id, outcome: Outcome)
    requires ConservedInv(s) && id in s.running
    ensures ConservedInv(Deliver(Leave(s, id), id, outcome))
  {
  }

  lemma {:induction false} SubmitKeepsCallers(s: State, id: Id, kind: Kind)
    requires ConservedInv(s) && id !in s.submitted
    ensures ConservedInv(Next(s, Submit(id, kind)).value)
  {
    assert multiset(s.submitted.Keys)[id] == 0;
    assert Places(s)[id] == 0;
    KeysGrow(s.running, id, Starting);
    KeysGrow(s.submitted, id, kind);
  }

  // ----- the refresh rate

  /** Number of refreshes recorded in the closed window from lo to hi. */
  function CountIn(ts: seq<real>, lo: real, hi: real): nat {
    if ts == [] then 0 else CountIn(ts[..|ts| - 1], lo, hi) + if lo <= ts[|ts| - 1] <= hi then 1 else 0
  }

  function Limit(w: RefreshWindow): nat {
    if w.maximumAttempts < 0 then 0 else w.maximumAttempts
  }

  /** No window of the configured length holds more refreshes than allowed. */
  ghost predicate RateOk(ts: seq<real>, w: RefreshWindow) {
    forall lo: real :: WindowOk(ts, w, lo)
  }

  predicate WindowOk(ts: seq<real>, w: RefreshWindow, lo: real) {
    CountIn(ts, lo, lo + w.interval) <= Limit(w)
  }

  ghost predicate RateInv(s: State) {
    CoreRate(s.core, s.now)
  }

  /** The recorded refreshes are past at `now`, and no more frequent than allowed. */
  ghost predicate CoreRate(c: Core, now: real) {
    && (forall i | 0 <= i < |c.refreshTimestamps| :: c.refreshTimestamps[i] <= now)
    && (c.refreshWindow.Some? ==> RateOk(c.refreshTimestamps, c.refreshWindow.value))
  }

  lemma {:induction false} CountWithin(ts: seq<real>, lo: real, hi: real, from: real)
    requires from <= lo
    ensures CountIn(ts, lo, hi) <= CountFrom(ts, from)
  {
    if ts != [] {
      CountWithin(ts[..|ts| - 1], lo, hi, from);
    }
  }

  lemma {:induction false} RateAppend(ts: seq<real>, w: RefreshWindow, t1: real, t2: real)
    requires RateOk(ts, w) && t1 <= t2 && CountFrom(ts, t1 - w.interval) < w.maximumAttempts
    ensures RateOk(ts + [t2], w)
  {
    forall lo: real ensures WindowOk(ts + [t2], w, lo) {
      assert WindowOk(ts, w, lo);
      assert (ts + [t2])[..|ts|] == ts;
      if lo <= t2 <= lo + w.interval {
        CountWithin(ts, lo, lo + w.interval, t1 - w.interval);
      }
    }
  }

  lemma {:induction false} RefreshedRate(c: Core, credential: Credential, t1: real, t2: real)
    requires t1 <= t2 && CoreRate(c, t1)
    ensures CoreRate(Refreshed(c, credential, t1, t2), t2)
    ensures Refreshed(c, credential, t1, t2).refreshWindow == c.refreshWindow
  {
    if c.refreshWindow.Some? && !IsRefreshExcessive(c, t1) {
      RateAppend(c.refreshTimestamps, c.refreshWindow.value, t1, t2);
    }
  }

  lemma {:induction false} StepKeepsRate(s: State, l: Label)
    requires RateInv(s) && Next(s, l).Some?
    ensures RateInv(Next(s, l).value) && Next(s, l).value.core.refreshWindow == s.core.refreshWindow
  {
    hide Refreshed, RateOk;
    match l
    case AdaptStep(id, needs, t1, t2) =>
      if s.core.credential.Some? && !s.core.isRefreshing {
        RefreshedRate(s.core.(adaptOperations := s.core.adaptOperations + [id]), s.core.credential.value, t1, t2);
      }
    case RetryStep(id, authenticated, t1, t2) =>
      RefreshedRate(s.core.(requestsToRetry := s.core.requestsToRetry + [id]), s.running[id].credential, t1, t2);
    case _ =>
  }

  // ----- adapt callers get adapt outcomes, retry callers retry outcomes

  predicate OutcomeOf(kind: Kind, o: Outcome) {
    if kind.AdaptCall? then o.Authenticated? || o.AdaptFailed? else o.Retry? || o.DoNotRetry? || o.DoNotRetryWithError?
  }

  predicate AllOfKind(s: map<Id, Kind>, ids: seq<Id>, kind: Kind) {
    forall i | 0 <= i < |ids| :: ids[i] in s && s[ids[i]] == kind
  }

  predicate BlockKinds(s: map<Id, Kind>, b: Block) {
    b.RefreshCall? || (AllOfKind(s, b.adapts, AdaptCall) && AllOfKind(s, b.retries, RetryCall))
  }

  predicate PcKind(kind: Kind, pc: Pc) {
    match pc
    case Starting => true
    case HasCredential(_) => kind.RetryCall?
    case Completing(o) => OutcomeOf(kind, o)
  }

  predicate CoreKinds(m: map<Id, Kind>, c: Core) {
    && AllOfKind(m, c.adaptOperations, AdaptCall)
    && AllOfKind(m, c.requestsToRetry, RetryCall)
    && (forall i | 0 <= i < |c.queue| :: BlockKinds(m, c.queue[i]))
  }

  predicate RunningKinds(m: map<Id, Kind>, running: map<Id, Pc>) {
    forall id | id in running :: id in m && PcKind(m[id], running[id])
  }

  predicate DeliveredKinds(m: map<Id, Kind>, ds: seq<Delivery>) {
    forall i | 0 <= i < |ds| :: ds[i].id in m && OutcomeOf(m[ds[i].id], ds[i].outcome)
  }

  predicate KindInv(s: State) {
    CoreKinds(s.submitted, s.core) && RunningKinds(s.submitted, s.running) && DeliveredKinds(s.submitted, s.delivered)
  }

  lemma {:induction false} BlockKeepsKinds(s: State)
    requires KindInv(s) && |s.core.queue| > 0 && !s.core.queue[0].RefreshCall?
    ensures KindInv(BlockStep(s))
  {
  }

  lemma {:induction false} AdaptKeepsKinds(s: State, id: Id, needs: bool, t1: real, t2: real)
    requires KindInv(s) && Runs(s, id, AdaptCall, Starting)
    ensures KindInv(AfterAdapt(s, id, needs, t1, t2))
  {
  }

  lemma {:induction false} RetryKeepsKinds(
    m: map<Id, Kind>, c: Core, id: Id, credential: Credential, t1: real, t2: real)
    requires CoreKinds(m, c) && id in m && m[id].RetryCall?
    ensures CoreKinds(m, RetryLocked(c, id, credential, t1, t2))
  {
  }

  lemma {:induction false} ReplyKinds(m: map<Id, Kind>, c: Core, credential: Credential, error: AuthError)
    requires CoreKinds(m, c)
    ensures CoreKinds(m, RefreshSucceeded(c, credential)) && CoreKinds(m, RefreshFailed(c, error))
  {
  }

  lemma {:induction false} TailKinds(m: map<Id, Kind>, c: Core)
    requires CoreKinds(m, c) && |c.queue| > 0
    ensures CoreKinds(m, c.(queue := c.queue[1..]))
  {
  }

  lemma {:induction false} CredentialKinds(m: map<Id, Kind>, c: Core, credential: Option<Credential>)
    requires CoreKinds(m, c)
    ensures CoreKinds(m, c.(credential := credential))
  {
  }

  lemma {:induction false} StepKeepsKinds(s: State, l: Label)
    requires KindInv(s) && Next(s, l).Some?
    ensures KindInv(Next(s, l).value)
  {
    hide CoreKinds, AfterAdapt, BlockStep, RetryLocked, RefreshSucceeded, RefreshFailed;
    match l
    case Submit(id, kind) => SubmitKeepsKinds(s, id, kind);
    case AdaptStep(id, needs, t1, t2) => AdaptKeepsKinds(s, id, needs, t1, t2);
    case RetryStep(id, authenticated, t1, t2) =>
      RetryKeepsKinds(s.submitted, s.core, id, s.running[id].credential, t1, t2);
    case ReplySuccess(c) => ReplyKinds(s.submitted, s.core, c, MissingCredential);
    case ReplyFailure(code) => ReplyKinds(s.submitted, s.core, 0, RefreshError(code));
    case NextInBlock => BlockKeepsKinds(s);
    case RunRefresh => TailKinds(s.submitted, s.core);
    case SetCredential(c) => CredentialKinds(s.submitted, s.core, c);
    case _ =>
  }

  lemma {:induction false} SubmitKeepsKinds(s: State, id: Id, kind: Kind)
    requires KindInv(s) && id !in s.submitted
    ensures KindInv(Next(s, Submit(id, kind)).value)
  {
  }

  // ----- over whole runs

  ghost predicate Inv(s: State) {
    RefreshInv(s) && ConservedInv(s) && RateInv(s) && KindInv(s)
  }

  lemma {:induction false} StepKeepsInv(s: State, l: Label)
    requires Inv(s) && Next(s, l).Some?
    ensures Inv(Next(s, l).value) && Next(s, l).value.core.refreshWindow == s.core.refreshWindow
  {
    StepKeepsRefresh(s, l);
    StepKeepsCallers(s, l);
    StepKeepsRate(s, l);
    StepKeepsKinds(s, l);
  }

  lemma {:induction false} RunKeepsInv(s: State, labels: seq<Label>)
    requires Inv(s) && Run(s, labels).Some?
    ensures Inv(Run(s, labels).value) && Run(s, labels).value.core.refreshWindow == s.core.refreshWindow
    decreases |labels|
  {
    if labels != [] {
      StepKeepsInv(s, labels[0]);
      RunKeepsInv(Next(s, labels[0]).value, labels[1..]);
    }
  }

  lemma {:induction false} InitInv(credential: Option<Credential>, window: Option<RefreshWindow>, now: real)
    ensures Inv(Init(credential, window, now))
  {
  }

  /** At most one refresh is outstanding, isRefreshing says whether there is one, and only then do callers wait. */
  lemma {:induction false} OneRefreshAtATime(
    credential: Option<Credential>, window: Option<RefreshWindow>, now: real, labels: seq<Label>)
    requires Run(Init(credential, window, now), labels).Some?
    ensures var s := Run(Init(credential, window, now), labels).value;
            && (s.core.isRefreshing <==> Outstanding(s) == 1) && Outstanding(s) <= 1
            && (s.core.adaptOperations != [] || s.core.requestsToRetry != [] ==> s.core.isRefreshing)
  {
    InitInv(credential, window, now);
    RunKeepsInv(Init(credential, window, now), labels);
  }

  /** Every window of the configured length contains at most maximumAttempts refreshes, in every run. */
  lemma {:induction false} RefreshRateBounded(
    credential: Option<Credential>, w: RefreshWindow, now: real, labels: seq<Label>, lo: real)
    requires Run(Init(credential, Some(w), now), labels).Some?
    ensures var s := Run(Init(credential, Some(w), now), labels).value;
            CountIn(s.core.refreshTimestamps, lo, lo + w.interval) <= Limit(w)
  {
    InitInv(credential, Some(w), now);
    RunKeepsInv(Init(credential, Some(w), now), labels);
    assert WindowOk(Run(Init(credential, Some(w), now), labels).value.core.refreshTimestamps, w, lo);
  }

  predicate Quiet(s: State) {
    s.awaiting == 0 && s.core.queue == [] && s.running == map[]
  }

  /** No completion is ever called twice, and each with an outcome of its own kind. */
  lemma {:induction false} DeliveredAtMostOnce(
    credential: Option<Credential>, window: Option<RefreshWindow>, now: real, labels: seq<Label>, id: Id)
    requires Run(Init(credential, window, now), labels).Some?
    ensures var s := Run(Init(credential, window, now), labels).value;
            && DeliveredIds(s.delivered)[id] <= (if id in s.submitted then 1 else 0)
            && (Quiet(s) && id in s.submitted ==> DeliveredIds(s.delivered)[id] == 1)
            && (forall i | 0 <= i < |s.delivered| ::
                  s.delivered[i].id in s.submitted && OutcomeOf(s.submitted[s.delivered[i].id], s.delivered[i].outcome))
  {
    InitInv(credential, window, now);
    RunKeepsInv(Init(credential, window, now), labels);
    var s := Run(Init(credential, window, now), labels).value;
    assert Places(s)[id] == multiset(s.submitted.Keys)[id];
  }

  // ----- nobody is stuck

  /** Steps by which the interceptor, its queue, its callers or the authenticator go on. */
  predicate Internal(l: Label) {
    !l.Submit? && !l.SetCredential? && !l.Tick?
  }

  /** A call in progress can always go on. */
  function Onward(s: State, id: Id): (l: Label)
    requires KindInv(s) && id in s.running
    ensures Internal(l) && Next(s, l).Some?
  {
    match s.running[id]
    case Completing(_) => Complete(id)
    case HasCredential(_) => RetryStep(id, true, s.now, s.now)
    case Starting => if s.submitted[id].AdaptCall? then AdaptStep(id, true, s.now, s.now) else RetryRead(id, true)
  }

  /** An unanswered caller that nothing else moves is waiting for an outstanding refresh. */
  lemma {:induction false} WaitsForReply(s: State, id: Id)
    requires RefreshInv(s) && ConservedInv(s) && id in s.submitted && DeliveredIds(s.delivered)[id] == 0
    requires s.running == map[] && s.core.queue == []
    ensures s.awaiting == 1
  {
    assert Places(s)[id] == 1;
    assert id in Held(s.core);
  }

  /** As long as some caller has not been answered, some step is possible. */
  lemma {:induction false} NobodyStuck(s: State, id: Id) returns (l: Label)
    requires Inv(s) && id in s.submitted && DeliveredIds(s.delivered)[id] == 0
    ensures Internal(l) && Next(s, l).Some?
  {
    hide ConservedInv, KindInv, RateInv, RefreshInv, BlockStep, AfterAdapt, DeliveredIds;
    if r: Id :| r in s.running {
      l := Onward(s, r);
    } else if s.core.queue != [] {
      l := if s.core.queue[0].RefreshCall? then RunRefresh else NextInBlock;
    } else {
      WaitsForReply(s, id);
      l := ReplyFailure(0);
    }
  }
}
