/** How much work the interceptor can cause: without new callers and new refreshes it comes to rest. */
module AuthWork {
  import opened AuthInterceptor
  import opened AuthInvariants
  import opened Wrappers

  // ----- a bound on the steps that are still to come without another refresh

  function PcWeight(refreshing: bool, pc: Pc): nat {
    match pc
    case Starting => if refreshing then 8 else 4
    case HasCredential(_) => if refreshing then 7 else 3
    case Completing(_) => 1
  }

  /** The running callers with an id below n. */
  function RunWeight(refreshing: bool, running: map<Id, Pc>, n: nat): nat {
    if n == 0 then 0
    else RunWeight(refreshing, running, n - 1) + if n - 1 in running then PcWeight(refreshing, running[n - 1]) else 0
  }

  function BlockWeight(refreshing: bool, b: Block): nat {
    match b
    case RefreshCall(_) => 3
    case Resume(adapts, retries) => 1 + (if refreshing then 9 else 5) * |adapts| + |retries|
    case Reject(adapts, retries, _) => 1 + |adapts| + |retries|
  }

  function QueueWeight(refreshing: bool, q: seq<Block>): nat {
    if q == [] then 0 else BlockWeight(refreshing, q[0]) + QueueWeight(refreshing, q[1..])
  }

  function CoreWeight(c: Core): nat {
    6 * |c.adaptOperations| + 2 * |c.requestsToRetry| + QueueWeight(c.isRefreshing, c.queue)
  }

  function Weight(s: State, n: nat): nat {
    RunWeight(s.core.isRefreshing, s.running, n) + CoreWeight(s.core) + 2 * s.awaiting
  }

  // ----- sums

  lemma {:induction false} RunWithout(r: bool, m: map<Id, Pc>, n: nat, id: Id)
    requires id in m
    ensures RunWeight(r, m, n) == RunWeight(r, m - {id}, n) + if id < n then PcWeight(r, m[id]) else 0
  {
    if n > 0 {
      RunWithout(r, m, n - 1, id);
    }
  }

  lemma {:induction false} RunUpdated(r: bool, m: map<Id, Pc>, n: nat, id: Id, pc: Pc)
    ensures RunWeight(r, m[id := pc], n) + (if id in m && id < n then PcWeight(r, m[id]) else 0) ==
            RunWeight(r, m, n) + if id < n then PcWeight(r, pc) else 0
  {
    if n > 0 {
      RunUpdated(r, m, n - 1, id, pc);
    }
  }

  lemma {:induction false} QueueSnoc(r: bool, q: seq<Block>, b: Block)
    ensures QueueWeight(r, q + [b]) == QueueWeight(r, q) + BlockWeight(r, b)
  {
    hide BlockWeight;
    if q == [] {
      assert (q + [b])[1..] == [];
    } else {
      QueueSnoc(r, q[1..], b);
      assert (q + [b])[1..] == q[1..] + [b];
    }
  }

  lemma {:induction false} QueueCons(r: bool, b: Block, q: seq<Block>)
    ensures QueueWeight(r, [b] + q) == BlockWeight(r, b) + QueueWeight(r, q)
  {
    assert ([b] + q)[1..] == q;
  }

  /** Number of running callers with an id below n. */
  function RunCount(m: map<Id, Pc>, n: nat): nat {
    if n == 0 then 0 else RunCount(m, n - 1) + if n - 1 in m then 1 else 0
  }

  function QueueCount(q: seq<Block>): nat {
    if q == [] then 0 else (if q[0].RefreshCall? then 0 else |q[0].adapts|) + QueueCount(q[1..])
  }

  lemma {:induction false} RunRaised(m: map<Id, Pc>, n: nat)
    ensures RunWeight(false, m, n) <= RunWeight(true, m, n) <= RunWeight(false, m, n) + 4 * RunCount(m, n)
  {
    if n > 0 {
      RunRaised(m, n - 1);
    }
  }

  lemma {:induction false} QueueRaised(q: seq<Block>)
    ensures QueueWeight(false, q) <= QueueWeight(true, q) <= QueueWeight(false, q) + 4 * QueueCount(q)
  {
    if q != [] {
      QueueRaised(q[1..]);
    }
  }

  lemma {:induction false} RunCountIs(m: map<Id, Pc>, n: nat, low: set<Id>)
    requires forall id :: id in low <==> id in m && id < n
    ensures RunCount(m, n) == |low|
  {
    if n > 0 {
      RunCountIs(m, n - 1, low - {n - 1});
    } else {
      assert low == {};
    }
  }

  lemma {:induction false} RunCountAtMost(m: map<Id, Pc>, n: nat)
    requires forall id | id in m :: id < n
    ensures RunCount(m, n) == |m|
  {
    RunCountIs(m, n, m.Keys);
    assert |m.Keys| == |m|;
  }

  lemma {:induction false} QueueCountAtMost(q: seq<Block>)
    ensures QueueCount(q) <= |QueueIds(q)|
  {
    if q != [] {
      QueueCountAtMost(q[1..]);
    }
  }

  predicate IdsBelow(s: State, n: nat) {
    forall id | id in s.submitted :: id < n
  }

  lemma {:induction false} RunningSubmitted(s: State)
    requires ConservedInv(s)
    ensures forall id | id in s.running :: id in s.submitted
    ensures |s.running| + |QueueIds(s.core.queue)| <= |s.submitted|
  {
    assert |Places(s)| == |s.submitted|;
    forall id | id in s.running ensures id in s.submitted {
      assert id in Places(s);
    }
  }

  /** A refresh that starts makes every caller's way longer. */
  lemma {:induction false} Raised(s: State, n: nat)
    requires ConservedInv(s) && IdsBelow(s, n)
    ensures RunWeight(true, s.running, n) + QueueWeight(true, s.core.queue) <=
            RunWeight(false, s.running, n) + QueueWeight(false, s.core.queue) + 4 * |s.submitted|
  {
    RunningSubmitted(s);
    RunCountAtMost(s.running, n);
    QueueCountAtMost(s.core.queue);
    RunRaised(s.running, n);
    QueueRaised(s.core.queue);
  }

  // ----- one step

  function Starts(s: State): nat {
    |s.core.refreshTimestamps|
  }

  function Cost(s: State): nat {
    4 * |s.submitted| + 9
  }

  /** A step uses up weight, unless it starts a refresh. */
  predicate Works(s: State, t: State, n: nat) {
    || (Starts(t) == Starts(s) && Weight(t, n) < Weight(s, n))
    || (Starts(t) == Starts(s) + 1 && Weight(t, n) < Weight(s, n) + Cost(s))
  }

  /** What refresh adds and takes, with the caller that asked for it already queued. */
  lemma {:induction false} RefreshWork(c: Core, credential: Credential, t1: real, t2: real)
    requires !c.isRefreshing
    ensures var d := Refreshed(c, credential, t1, t2);
            if d.isRefreshing then
              && |d.refreshTimestamps| == |c.refreshTimestamps| + 1
              && CoreWeight(d) == 6 * |c.adaptOperations| + 2 * |c.requestsToRetry| + QueueWeight(true, c.queue) + 3
            else
              && d.refreshTimestamps == c.refreshTimestamps
              && CoreWeight(d) == QueueWeight(false, c.queue) + 1 + |c.adaptOperations| + |c.requestsToRetry|
  {
    QueueSnoc(true, c.queue, RefreshCall(credential));
    QueueSnoc(false, c.queue, Reject(c.adaptOperations, c.requestsToRetry, ExcessiveRefresh));
  }

  lemma {:induction false} AdaptWork(s: State, id: Id, needs: bool, t1: real, t2: real, n: nat)
    requires RefreshInv(s) && ConservedInv(s) && IdsBelow(s, n) && Runs(s, id, AdaptCall, Starting)
    ensures Works(s, AfterAdapt(s, id, needs, t1, t2), n)
  {
    hide CountFrom, QueueWeight, ConservedInv, Refreshed;
    RunWithout(s.core.isRefreshing, s.running, n, id);
    if !s.core.isRefreshing && s.core.credential.Some? && needs {
      var c := s.core.(adaptOperations := s.core.adaptOperations + [id]);
      RefreshWork(c, s.core.credential.value, t1, t2);
      Raised(s, n);
      RunWithout(true, s.running, n, id);
    } else {
      var (core, r) := AdaptLocked(s.core, id, needs, t1, t2);
      match r
      case Adapt(c) => RunUpdated(s.core.isRefreshing, s.running, n, id, Completing(Authenticated(c)));
      case DoNotAdapt(e) => RunUpdated(s.core.isRefreshing, s.running, n, id, Completing(AdaptFailed(e)));
      case AdaptDeferred =>
    }
  }

  lemma {:induction false} RetryWork(s: State, id: Id, credential: Credential, t1: real, t2: real, n: nat)
    requires RefreshInv(s) && ConservedInv(s) && IdsBelow(s, n) && Runs(s, id, RetryCall, HasCredential(credential))
    ensures Works(s, Leave(s.(core := RetryLocked(s.core, id, credential, t1, t2), now := t2), id), n)
  {
    hide CountFrom, QueueWeight, ConservedInv, Refreshed;
    RunWithout(s.core.isRefreshing, s.running, n, id);
    if !s.core.isRefreshing {
      RefreshWork(s.core.(requestsToRetry := s.core.requestsToRetry + [id]), credential, t1, t2);
      Raised(s, n);
      RunWithout(true, s.running, n, id);
    }
  }

  lemma {:induction false} GotoWork(s: State, id: Id, pc: Pc, n: nat)
    requires id in s.running && id < n
    requires PcWeight(s.core.isRefreshing, pc) < PcWeight(s.core.isRefreshing, s.running[id])
    ensures Works(s, Goto(s, id, pc), n)
  {
    RunUpdated(s.core.isRefreshing, s.running, n, id, pc);
  }

  lemma {:induction false} ReadWork(s: State, id: Id, pc: Pc, n: nat)
    requires id in s.running && id < n
    requires if s.running[id].Starting? then !pc.Starting? else s.running[id].HasCredential? && pc.Completing?
    ensures Works(s, Goto(s, id, pc), n)
  {
    GotoWork(s, id, pc, n);
  }

  lemma {:induction false} CompleteWork(s: State, id: Id, n: nat)
    requires id in s.running && id < n && s.running[id].Completing?
    ensures Works(s, Deliver(Leave(s, id), id, s.running[id].outcome), n)
  {
    RunWithout(s.core.isRefreshing, s.running, n, id);
  }

  lemma {:induction false} ReplyWork(s: State, credential: Credential, error: AuthError, n: nat)
    requires RefreshInv(s) && s.awaiting > 0
    ensures Works(s, s.(core := RefreshSucceeded(s.core, credential), awaiting := s.awaiting - 1), n)
    ensures Works(s, s.(core := RefreshFailed(s.core, error), awaiting := s.awaiting - 1), n)
  {
    hide RunWeight, QueueWeight;
    RunRaised(s.running, n);
    QueueRaised(s.core.queue);
    QueueSnoc(false, s.core.queue, Resume(s.core.adaptOperations, s.core.requestsToRetry));
    QueueSnoc(false, s.core.queue, Reject(s.core.adaptOperations, s.core.requestsToRetry, error));
  }

  lemma {:induction false} BlockWork(s: State, n: nat)
    requires |s.core.queue| > 0 && !s.core.queue[0].RefreshCall?
    ensures Works(s, BlockStep(s), n)
  {
    hide QueueWeight, RunWeight;
    var r, b, rest := s.core.isRefreshing, s.core.queue[0], s.core.queue[1..];
    assert s.core.queue == [b] + rest;
    QueueCons(r, b, rest);
    if b.adapts != [] {
      QueueCons(r, b.(adapts := b.adapts[1..]), rest);
      RunUpdated(r, s.running, n, b.adapts[0], Starting);
    } else if b.retries != [] {
      QueueCons(r, b.(retries := b.retries[1..]), rest);
    }
  }

  /**
   Every step that the interceptor, its callers or the authenticator takes uses up weight, unless it starts a refresh.
   */
  lemma {:induction false} StepWork(s: State, l: Label, n: nat)
    requires Inv(s) && IdsBelow(s, n) && Internal(l) && Next(s, l).Some?
    ensures Works(s, Next(s, l).value, n)
  {
    hide Works, PcWeight, AfterAdapt, BlockStep, RetryLocked, RefreshSucceeded, RefreshFailed, ConservedInv, KindInv,
        RateInv, RefreshInv;
    RunningSubmitted(s);
    match l
    case AdaptStep(id, needs, t1, t2) => AdaptWork(s, id, needs, t1, t2, n);
    case RetryRead(id, eligible) => ReadWork(s, id, Next(s, l).value.running[id], n);
    case RetryStep(id, authenticated, t1, t2) =>
      if authenticated {
        RetryWork(s, id, s.running[id].credential, t1, t2, n);
      } else {
        ReadWork(s, id, Completing(Retry), n);
      }
    case Complete(id) => CompleteWork(s, id, n);
    case RunRefresh => RunRefreshWork(s, n);
    case ReplySuccess(c) => ReplyWork(s, c, MissingCredential, n);
    case ReplyFailure(code) => ReplyWork(s, 0, RefreshError(code), n);
    case NextInBlock => BlockWork(s, n);
  }

  lemma {:induction false} RunRefreshWork(s: State, n: nat)
    requires |s.core.queue| > 0 && s.core.queue[0].RefreshCall?
    ensures Works(s, s.(core := s.core.(queue := s.core.queue[1..]), awaiting := s.awaiting + 1), n)
  {
  }

  /** A new caller adds weight; a new credential and the clock do not. */
  lemma {:induction false} OtherWork(s: State, l: Label, n: nat)
    requires Inv(s) && !Internal(l) && Next(s, l).Some?
    ensures var t := Next(s, l).value;
            Starts(t) == Starts(s) && Weight(t, n) <= Weight(s, n) + if l.Submit? then 8 else 0
  {
    if l.Submit? {
      RunUpdated(s.core.isRefreshing, s.running, n, l.id, Starting);
    }
  }

  // ----- whole runs

  function InternalSteps(labels: seq<Label>): nat {
    if labels == [] then 0 else (if Internal(labels[0]) then 1 else 0) + InternalSteps(labels[1..])
  }

  function Submits(labels: seq<Label>): nat {
    if labels == [] then 0 else (if labels[0].Submit? then 1 else 0) + Submits(labels[1..])
  }

  lemma {:induction false} StepSubmits(s: State, l: Label)
    requires Next(s, l).Some?
    ensures |Next(s, l).value.submitted| == |s.submitted| + if l.Submit? then 1 else 0
    ensures forall id | id in s.submitted :: id in Next(s, l).value.submitted
  {
  }

  lemma {:induction false} RunSubmits(s: State, labels: seq<Label>)
    requires Run(s, labels).Some?
    ensures |Run(s, labels).value.submitted| == |s.submitted| + Submits(labels)
    ensures forall id | id in s.submitted :: id in Run(s, labels).value.submitted
    decreases |labels|
  {
    if labels != [] {
      hide Next;
      StepSubmits(s, labels[0]);
      RunSubmits(Next(s, labels[0]).value, labels[1..]);
    }
  }

  lemma {:induction false} RunWork(s: State, labels: seq<Label>, k: nat, n: nat)
    requires Inv(s) && Run(s, labels).Some? && IdsBelow(Run(s, labels).value, n)
    requires k == Cost(Run(s, labels).value)
    ensures Starts(Run(s, labels).value) >= Starts(s)
    ensures InternalSteps(labels) + Weight(Run(s, labels).value, n) <=
            Weight(s, n) + 8 * Submits(labels) + k * (Starts(Run(s, labels).value) - Starts(s))
    decreases |labels|
  {
    hide Inv, Next, Weight;
    if labels != [] {
      var t, end := Next(s, labels[0]).value, Run(s, labels).value;
      StepKeepsInv(s, labels[0]);
      RunSubmits(s, labels);
      RunSubmits(t, labels[1..]);
      RunWork(t, labels[1..], k, n);
      if Internal(labels[0]) {
        StepWork(s, labels[0], n);
        OneStart(k, Starts(end) - Starts(t), Starts(t) - Starts(s));
      } else {
        OtherWork(s, labels[0], n);
      }
    }
  }

  lemma {:induction false} OneStart(k: nat, a: nat, b: int)
    requires b == 0 || b == 1
    ensures k * (a + b) == k * a + if b == 1 then k else 0
  {
  }

  /** A number above all ids. */
  lemma {:induction false} Above(ids: set<Id>) returns (n: nat)
    ensures forall id | id in ids :: id < n
    decreases |ids|
  {
    n := 0;
    if top: Id :| top in ids {
      var m := Above(ids - {top});
      n := if top < m then m else top + 1;
      forall id | id in ids ensures id < n {
        assert id != top ==> id in ids - {top};
      }
    }
  }

  /**
   In every run, with c callers and r refreshes started, at most 8c + r(4c + 9) steps are
   taken besides submissions, new credentials and ticks: callers cannot chase each other for
   ever without refreshing again and again.
   */
  lemma {:induction false} BoundedWork(
    credential: Option<Credential>, window: Option<RefreshWindow>, now: real, labels: seq<Label>)
    requires Run(Init(credential, window, now), labels).Some?
    ensures var r := Starts(Run(Init(credential, window, now), labels).value);
            InternalSteps(labels) <= 8 * Submits(labels) + (4 * Submits(labels) + 9) * r
  {
    var s := Init(credential, window, now);
    var end := Run(s, labels).value;
    var n := Above(end.submitted.Keys);
    InitInv(credential, window, now);
    RunSubmits(s, labels);
    RunWork(s, labels, Cost(end), n);
    Nothing(n);
  }

  lemma {:induction false} Nothing(n: nat)
    ensures RunWeight(false, map[], n) == 0
  {
    if n > 0 {
      Nothing(n - 1);
    }
  }
}
