/** The worker pool as a concurrent protocol: submitters check the closed flag and then send, workers take
    tasks in channel order, Stop raises the flag, closes the channel and cancels the context, and each task
    goes through its endpoint's semaphore. A task is named by its place in the order of acceptance. */
module WorkerPool {
  import opened Prelude

  type WorkerId = nat
  type SubmitterId = nat
  type Endpoint = nat

  /** A worker loops on the channel, drains it after cancellation, runs a task, or has returned. A running
      task first waits for its endpoint's semaphore and then holds it; a panic inside it still finishes it. */
  datatype Worker =
    | Looping
    | Draining
    | Waiting(task: nat, draining: bool)
    | Holding(task: nat, draining: bool)
    | Exited

  datatype Config = Config(workerCount: nat, queueCap: nat, maxPerEndpoint: nat)

  datatype State = State(
    closed: bool, channelClosed: bool, cancelled: bool,
    submitters: map<SubmitterId, Endpoint>,
    queue: seq<Endpoint>,
    workers: seq<Worker>, activeJobs: int,
    semaphore: map<Endpoint, int>,
    accepted: seq<Endpoint>, started: seq<Endpoint>, finished: set<nat>)

  datatype Event =
    | CheckFlag(who: SubmitterId, endpoint: Endpoint)
    | Send(who: SubmitterId)
    | RaiseFlag
    | CloseChannel
    | Cancel
    | SeeCancel(w: WorkerId)
    | Take(w: WorkerId)
    | Leave(w: WorkerId)
    | Acquire(w: WorkerId)
    | Finish(w: WorkerId)

  predicate Running(k: Worker) {
    k.Waiting? || k.Holding?
  }

  function Tokens(s: State, endpoint: Endpoint): int {
    if endpoint in s.semaphore then s.semaphore[endpoint] else 0
  }

  function EndpointOf(started: seq<Endpoint>, task: nat): Endpoint {
    if task < |started| then started[task] else 0
  }

  predicate Enabled(c: Config, s: State, e: Event) {
    match e
    case CheckFlag(who, _) => who !in s.submitters
    case Send(who) => who in s.submitters
    case RaiseFlag => !s.closed
    case CloseChannel => s.closed && !s.channelClosed
    case Cancel => s.channelClosed && !s.cancelled
    case SeeCancel(w) => w < |s.workers| && s.workers[w].Looping? && s.cancelled
    case Take(w) => w < |s.workers| && (s.workers[w].Looping? || s.workers[w].Draining?) && s.queue != []
    case Leave(w) => w < |s.workers| && s.queue == [] &&
      ((s.workers[w].Looping? && s.channelClosed) || s.workers[w].Draining?)
    case Acquire(w) => w < |s.workers| && s.workers[w].Waiting? &&
      Tokens(s, EndpointOf(s.started, s.workers[w].task)) < c.maxPerEndpoint
    case Finish(w) => w < |s.workers| && s.workers[w].Holding?
  }

  /** A full queue refuses, and so, in effect, does a closed channel: the send on it panics. */
  predicate SendAccepted(c: Config, s: State) {
    !s.channelClosed && |s.queue| < c.queueCap
  }

  function Apply(c: Config, s: State, e: Event): State
    requires Enabled(c, s, e)
  {
    match e
    case CheckFlag(who, endpoint) =>
      if s.closed then s else s.(submitters := s.submitters[who := endpoint])
    case Send(who) =>
      var s' := s.(submitters := s.submitters - {who});
      if SendAccepted(c, s)
      then s'.(queue := s.queue + [s.submitters[who]], accepted := s.accepted + [s.submitters[who]])
      else s'
    case RaiseFlag => s.(closed := true)
    case CloseChannel => s.(channelClosed := true)
    case Cancel => s.(cancelled := true)
    case SeeCancel(w) => s.(workers := s.workers[w := Draining])
    case Take(w) =>
      s.(queue := s.queue[1..], started := s.started + [s.queue[0]], activeJobs := s.activeJobs + 1,
         workers := s.workers[w := Waiting(|s.started|, s.workers[w].Draining?)])
    case Leave(w) => s.(workers := s.workers[w := Exited])
    case Acquire(w) =>
      var k, endpoint := s.workers[w], EndpointOf(s.started, s.workers[w].task);
      s.(workers := s.workers[w := Holding(k.task, k.draining)],
         semaphore := s.semaphore[endpoint := Tokens(s, endpoint) + 1])
    case Finish(w) =>
      var k, endpoint := s.workers[w], EndpointOf(s.started, s.workers[w].task);
      s.(workers := s.workers[w := if k.draining then Draining else Looping], activeJobs := s.activeJobs - 1,
         semaphore := s.semaphore[endpoint := Tokens(s, endpoint) - 1],
         finished := s.finished + {k.task})
  }

  function Initial(c: Config): State {
    State(false, false, false, map[], [], seq(c.workerCount, _ => Looping), 0, map[], [], [], {})
  }

  ghost predicate Run(c: Config, s: State, es: seq<Event>)
    decreases |es|
  {
    es == [] || (Enabled(c, s, es[0]) && Run(c, Apply(c, s, es[0]), es[1..]))
  }

  ghost function After(c: Config, s: State, es: seq<Event>): State
    requires Run(c, s, es)
    decreases |es|
  {
    if es == [] then s else After(c, Apply(c, s, es[0]), es[1..])
  }

  ghost predicate Reachable(c: Config, s: State) {
    exists es :: Run(c, Initial(c), es) && After(c, Initial(c), es) == s
  }

  // ----- invariant

  function Executing(ks: seq<Worker>): set<WorkerId> {
    set w | 0 <= w < |ks| && Running(ks[w])
  }

  predicate Holds(k: Worker, started: seq<Endpoint>, endpoint: Endpoint) {
    k.Holding? && EndpointOf(started, k.task) == endpoint
  }

  /** Who is past the semaphore of an endpoint. */
  function Holders(ks: seq<Worker>, started: seq<Endpoint>, endpoint: Endpoint): set<WorkerId> {
    set w | 0 <= w < |ks| && Holds(ks[w], started, endpoint)
  }

  predicate Carries(k: Worker, task: nat) {
    Running(k) && k.task == task
  }

  predicate InHand(ks: seq<Worker>, task: nat) {
    exists w :: 0 <= w < |ks| && Carries(ks[w], task)
  }

  predicate InOtherHand(ks: seq<Worker>, w: WorkerId, task: nat) {
    exists v :: 0 <= v < |ks| && v != w && Carries(ks[v], task)
  }

  /** The numbers below n. */
  function Upto(n: nat): (r: set<nat>)
    ensures forall t: nat :: t in r <==> t < n
    ensures |r| == n
  {
    if n == 0 then {} else Upto(n - 1) + {n - 1}
  }

  predicate PhasesOk(c: Config, s: State) {
    && (s.cancelled ==> s.channelClosed) && (s.channelClosed ==> s.closed)
    && |s.workers| == c.workerCount && |s.queue| <= c.queueCap
    && (forall k | k in s.workers :: k.Exited? ==> s.channelClosed && s.queue == [])
    && (forall k | k in s.workers :: k.Draining? || (Running(k) && k.draining) ==> s.cancelled)
  }

  predicate NoTaskTwice(ks: seq<Worker>) {
    forall v, w | 0 <= v < |ks| && 0 <= w < |ks| && v != w && Running(ks[v]) && Running(ks[w]) ::
      ks[v].task != ks[w].task
  }

  ghost predicate TasksOk(s: State) {
    && s.accepted == s.started + s.queue
    && NoTaskTwice(s.workers)
    && (forall t: nat :: t < |s.started| <==> t in s.finished || InHand(s.workers, t))
    && (forall t | t in s.finished :: !InHand(s.workers, t))
  }

  ghost predicate SemaphoreOk(c: Config, s: State) {
    && s.activeJobs == |Executing(s.workers)|
    && (forall e: Endpoint :: Tokens(s, e) == |Holders(s.workers, s.started, e)| <= c.maxPerEndpoint)
  }

  ghost predicate Good(c: Config, s: State) {
    PhasesOk(c, s) && TasksOk(s) && SemaphoreOk(c, s)
  }

  lemma InitialIsGood(c: Config)
    ensures Good(c, Initial(c))
  {
    assert Executing(Initial(c).workers) == {};
    forall e: Endpoint ensures Tokens(Initial(c), e) == |Holders(Initial(c).workers, [], e)| == 0 {
      assert Holders(Initial(c).workers, [], e) == {};
    }
  }

  /** One worker changing hands: what the others carry stays, what it carried goes, what it carries comes. */
  lemma HandsMove(ks: seq<Worker>, w: WorkerId, k: Worker, t: nat)
    requires w < |ks| && NoTaskTwice(ks)
    ensures InHand(ks, t) <==> Carries(ks[w], t) || InOtherHand(ks, w, t)
    ensures InHand(ks[w := k], t) <==> Carries(k, t) || InOtherHand(ks, w, t)
    ensures !(Carries(ks[w], t) && InOtherHand(ks, w, t))
  {
    var ks' := ks[w := k];
    if InHand(ks, t) {
      var v :| 0 <= v < |ks| && Carries(ks[v], t);
    }
    if InHand(ks', t) {
      var v :| 0 <= v < |ks'| && Carries(ks'[v], t);
      assert v != w ==> Carries(ks[v], t);
    }
    if InOtherHand(ks, w, t) {
      var v :| 0 <= v < |ks| && v != w && Carries(ks[v], t);
      assert Carries(ks'[v], t);
    }
    if Carries(k, t) { assert Carries(ks'[w], t); }
  }

  /** A worker that picks up a task nobody carries, or none, creates no double. */
  lemma StillNoTaskTwice(ks: seq<Worker>, w: WorkerId, k: Worker)
    requires w < |ks| && NoTaskTwice(ks)
    requires Running(k) ==> !InOtherHand(ks, w, k.task)
    ensures NoTaskTwice(ks[w := k])
  {
    forall v | 0 <= v < |ks| && v != w && Running(ks[v]) && Running(k) ensures ks[v].task != k.task {
      assert !Carries(ks[v], k.task);
    }
  }

  /** After a worker's step a task is still in one place. */
  lemma TaskPlace(c: Config, s: State, e: Event, t: nat)
    requires Good(c, s) && Enabled(c, s, e) && WorkerEvent(e)
    ensures var s' := Apply(c, s, e);
      && (t < |s'.started| <==> t in s'.finished || InHand(s'.workers, t))
      && !(t in s'.finished && InHand(s'.workers, t))
  {
    HandsMove(s.workers, e.w, Apply(c, s, e).workers[e.w], t);
    assert t < |s.started| <==> t in s.finished || InHand(s.workers, t);
  }

  lemma HandsStaySingle(c: Config, s: State, e: Event)
    requires Good(c, s) && Enabled(c, s, e) && WorkerEvent(e)
    ensures NoTaskTwice(Apply(c, s, e).workers)
  {
    var k' := Apply(c, s, e).workers[e.w];
    if Running(k') {
      HandsMove(s.workers, e.w, k', k'.task);
      assert k'.task < |s.started| <==> k'.task in s.finished || InHand(s.workers, k'.task);
    }
    StillNoTaskTwice(s.workers, e.w, k');
  }

  lemma TasksStayOk(c: Config, s: State, e: Event)
    requires Good(c, s) && Enabled(c, s, e)
    ensures TasksOk(Apply(c, s, e))
  {
    if WorkerEvent(e) {
      var s' := Apply(c, s, e);
      forall t: nat ensures t < |s'.started| <==> t in s'.finished || InHand(s'.workers, t) {
        TaskPlace(c, s, e, t);
      }
      forall t | t in s'.finished ensures !InHand(s'.workers, t) {
        TaskPlace(c, s, e, t);
      }
      HandsStaySingle(c, s, e);
    }
  }

  predicate WorkerEvent(e: Event) {
    e.SeeCancel? || e.Take? || e.Leave? || e.Acquire? || e.Finish?
  }

  lemma StartedTask(s: State, v: WorkerId)
    requires TasksOk(s) && v < |s.workers| && Running(s.workers[v])
    ensures s.workers[v].task < |s.started|
  {
    assert Carries(s.workers[v], s.workers[v].task);
    assert InHand(s.workers, s.workers[v].task);
  }

  lemma ExecutingMoves(ks: seq<Worker>, w: WorkerId, k: Worker)
    requires w < |ks|
    ensures |Executing(ks[w := k])|
         == |Executing(ks)| + (if Running(k) then 1 else 0) - (if Running(ks[w]) then 1 else 0)
  {
    var others := Executing(ks) - {w};
    assert Executing(ks) == if Running(ks[w]) then others + {w} else others;
    assert Executing(ks[w := k]) == if Running(k) then others + {w} else others;
  }

  lemma HoldersMove(ks: seq<Worker>, started: seq<Endpoint>, started': seq<Endpoint>, w: WorkerId, k: Worker,
                    at: Endpoint)
    requires w < |ks| && started <= started'
    requires forall v | 0 <= v < |ks| && Running(ks[v]) :: ks[v].task < |started|
    ensures |Holders(ks[w := k], started', at)|
         == |Holders(ks, started, at)| + (if Holds(k, started', at) then 1 else 0)
          - (if Holds(ks[w], started, at) then 1 else 0)
  {
    var others := Holders(ks, started, at) - {w};
    assert Holders(ks, started, at) == if Holds(ks[w], started, at) then others + {w} else others;
    assert Holders(ks[w := k], started', at) == if Holds(k, started', at) then others + {w} else others;
  }

  lemma TokensFollowHolders(c: Config, s: State, e: Event, at: Endpoint)
    requires Good(c, s) && Enabled(c, s, e)
    ensures var s' := Apply(c, s, e);
      Tokens(s', at) == |Holders(s'.workers, s'.started, at)| <= c.maxPerEndpoint
  {
    assert Tokens(s, at) == |Holders(s.workers, s.started, at)|;
    if WorkerEvent(e) {
      var s' := Apply(c, s, e);
      forall v | 0 <= v < |s.workers| && Running(s.workers[v]) ensures s.workers[v].task < |s.started| {
        StartedTask(s, v);
      }
      HoldersMove(s.workers, s.started, s'.started, e.w, s'.workers[e.w], at);
    }
  }

  lemma SemaphoreStaysOk(c: Config, s: State, e: Event)
    requires Good(c, s) && Enabled(c, s, e)
    ensures SemaphoreOk(c, Apply(c, s, e))
  {
    var s' := Apply(c, s, e);
    if WorkerEvent(e) {
      ExecutingMoves(s.workers, e.w, s'.workers[e.w]);
    }
    forall at: Endpoint ensures Tokens(s', at) == |Holders(s'.workers, s'.started, at)| <= c.maxPerEndpoint {
      TokensFollowHolders(c, s, e, at);
    }
  }

  lemma StepKeepsGood(c: Config, s: State, e: Event)
    requires Good(c, s) && Enabled(c, s, e)
    ensures Good(c, Apply(c, s, e))
  {
    TasksStayOk(c, s, e);
    SemaphoreStaysOk(c, s, e);
  }

  lemma {:induction false} RunKeepsGood(c: Config, s: State, es: seq<Event>)
    requires Good(c, s) && Run(c, s, es)
    ensures Good(c, After(c, s, es))
    decreases |es|
  {
    if es != [] {
      StepKeepsGood(c, s, es[0]);
      RunKeepsGood(c, Apply(c, s, es[0]), es[1..]);
    }
  }

  lemma ReachableIsGood(c: Config, s: State)
    requires Reachable(c, s)
    ensures Good(c, s)
  {
    InitialIsGood(c);
    var es :| Run(c, Initial(c), es) && After(c, Initial(c), es) == s;
    RunKeepsGood(c, Initial(c), es);
  }

  // ----- conservation

  lemma WorkersBound(s: State)
    ensures |Executing(s.workers)| <= |s.workers|
  {
    var all := Upto(|s.workers|);
    assert all == Executing(s.workers) + (all - Executing(s.workers));
  }

  /** The tasks some of the workers carry; as many as the workers, since none is carried twice. */
  lemma {:induction false} CountInHand(ks: seq<Worker>, ws: set<WorkerId>) returns (ts: set<nat>)
    requires NoTaskTwice(ks) && forall w | w in ws :: w < |ks| && Running(ks[w])
    ensures |ts| == |ws|
    ensures forall t: nat :: t in ts <==> exists w :: w in ws && Carries(ks[w], t)
    decreases |ws|
  {
    if ws == {} {
      ts := {};
    } else {
      var w :| w in ws;
      ts := CountInHand(ks, ws - {w});
      ts := ts + {ks[w].task};
    }
  }

  /** Over every interleaving: each accepted task is queued, executing or finished, exactly one of them;
      tasks start in the order they were accepted; and neither workers nor queue exceed their capacity. */
  lemma PoolConservation(c: Config, s: State)
    requires Reachable(c, s)
    ensures s.accepted == s.started + s.queue
    ensures |s.accepted| == |s.queue| + |Executing(s.workers)| + |s.finished|
    ensures s.activeJobs == |Executing(s.workers)| <= c.workerCount && |s.queue| <= c.queueCap
  {
    ReachableIsGood(c, s);
    WorkersBound(s);
    var hands := CountInHand(s.workers, Executing(s.workers));
    forall t: nat ensures t in hands <==> InHand(s.workers, t) {
      if t in hands {
        var w :| w in Executing(s.workers) && Carries(s.workers[w], t);
      }
    }
    assert Upto(|s.started|) == s.finished + hands;
    assert s.finished !! hands;
  }

  /** Cancellation only ever follows the closing of the channel, and nothing is accepted after it. */
  lemma NothingAcceptedAfterClose(c: Config, s: State, e: Event)
    requires Reachable(c, s) && Enabled(c, s, e)
    ensures s.cancelled ==> s.channelClosed
    ensures s.channelClosed ==> Apply(c, s, e).accepted == s.accepted && Apply(c, s, e).channelClosed
  {
    ReachableIsGood(c, s);
  }

  /** Once every worker has returned, every accepted task has been run, once. */
  lemma DrainedWhenAllExited(c: Config, s: State)
    requires Reachable(c, s) && c.workerCount > 0 && (forall k | k in s.workers :: k.Exited?)
    ensures s.channelClosed && s.queue == [] && s.started == s.accepted
    ensures s.finished == Upto(|s.accepted|)
  {
    ReachableIsGood(c, s);
    assert s.workers[0].Exited?;
    forall t: nat ensures t in s.finished <==> t < |s.accepted| {
      assert forall w | 0 <= w < |s.workers| :: s.workers[w] in s.workers;
      assert !InHand(s.workers, t);
    }
  }

  // ----- the endpoint semaphore

  /** At most maxPerEndpoint executions are past an endpoint's semaphore, a release always finds a token to
      take back, and whoever must wait waits for executions that hold all of them. */
  lemma SemaphoreIsFair(c: Config, s: State, w: WorkerId)
    requires Reachable(c, s) && w < |s.workers| && Running(s.workers[w])
    ensures var e := EndpointOf(s.started, s.workers[w].task);
      && |Holders(s.workers, s.started, e)| <= c.maxPerEndpoint
      && (s.workers[w].Holding? ==> Tokens(s, e) >= 1)
      && (s.workers[w].Waiting? ==>
            (!Enabled(c, s, Acquire(w)) <==> |Holders(s.workers, s.started, e)| == c.maxPerEndpoint))
  {
    ReachableIsGood(c, s);
    var e := EndpointOf(s.started, s.workers[w].task);
    assert Tokens(s, e) == |Holders(s.workers, s.started, e)|;
    if s.workers[w].Holding? { assert w in Holders(s.workers, s.started, e); }
  }

  // ----- shutdown

  function Weight(k: Worker): nat {
    match k
    case Exited => 0
    case Draining => 1
    case Looping => 2
    case Holding(_, _) => 3
    case Waiting(_, _) => 4
  }

  function TotalWeight(ks: seq<Worker>): nat {
    if ks == [] then 0 else Weight(ks[0]) + TotalWeight(ks[1..])
  }

  /** Work left before every worker has returned. */
  function Backlog(s: State): nat {
    4 * |s.queue| + TotalWeight(s.workers)
  }

  lemma {:induction false} WeightMoves(ks: seq<Worker>, w: nat, k: Worker)
    requires w < |ks|
    ensures TotalWeight(ks[w := k]) == TotalWeight(ks) - Weight(ks[w]) + Weight(k)
  {
    if w == 0 {
      assert ks[0 := k][1..] == ks[1..];
    } else {
      WeightMoves(ks[1..], w - 1, k);
      assert ks[w := k][1..] == ks[1..][w - 1 := k];
    }
  }

  /** After the channel is closed every worker step uses up backlog and nothing else adds to it ... */
  lemma ShutdownUsesUpBacklog(c: Config, s: State, e: Event)
    requires Reachable(c, s) && s.channelClosed && Enabled(c, s, e)
    ensures Backlog(Apply(c, s, e)) <= Backlog(s)
    ensures WorkerEvent(e) ==> Backlog(Apply(c, s, e)) < Backlog(s)
  {
    if WorkerEvent(e) {
      WeightMoves(s.workers, e.w, Apply(c, s, e).workers[e.w]);
    }
  }

  /** ... and as long as a worker has not returned, some worker step is possible: the pool drains. */
  lemma ShutdownProgresses(c: Config, s: State)
    requires Reachable(c, s) && s.channelClosed && c.maxPerEndpoint > 0
    requires exists k :: k in s.workers && !k.Exited?
    ensures exists e :: WorkerEvent(e) && Enabled(c, s, e)
  {
    ReachableIsGood(c, s);
    var k :| k in s.workers && !k.Exited?;
    var w :| 0 <= w < |s.workers| && s.workers[w] == k;
    if k.Looping? || k.Draining? {
      assert WorkerEvent(if s.queue == [] then Leave(w) else Take(w));
      assert Enabled(c, s, if s.queue == [] then Leave(w) else Take(w));
    } else if k.Holding? {
      assert WorkerEvent(Finish(w)) && Enabled(c, s, Finish(w));
    } else {
      SemaphoreIsFair(c, s, w);
      if Enabled(c, s, Acquire(w)) {
        assert WorkerEvent(Acquire(w));
      } else {
        var v :| v in Holders(s.workers, s.started, EndpointOf(s.started, k.task));
        assert WorkerEvent(Finish(v)) && Enabled(c, s, Finish(v));
      }
    }
  }

  // ----- the steps in plain terms

  /** A send that finds the channel open and room in it accepts its submitter's task, behind all others; any other send
      accepts nothing. */
  lemma SendAccepts(c: Config, s: State, who: SubmitterId)
    requires Enabled(c, s, Send(who))
    ensures var t := Apply(c, s, Send(who));
      && t.submitters == s.submitters - {who}
      && (if !s.channelClosed && |s.queue| < c.queueCap
          then t.accepted == s.accepted + [s.submitters[who]] && t.queue == s.queue + [s.submitters[who]]
          else t.accepted == s.accepted && t.queue == s.queue)
  {
  }

  /** A check lets a submitter on exactly when the flag is down. */
  lemma CheckAdmits(c: Config, s: State, who: SubmitterId, endpoint: Endpoint)
    requires Enabled(c, s, CheckFlag(who, endpoint))
    ensures Apply(c, s, CheckFlag(who, endpoint)).submitters
         == if s.closed then s.submitters else s.submitters[who := endpoint]
  {
  }

  /** A worker holds the semaphore of the endpoint whose task it has started. */
  lemma HoldersAre(c: Config, s: State, w: WorkerId, endpoint: Endpoint)
    requires Reachable(c, s) && w < |s.workers|
    ensures w in Holders(s.workers, s.started, endpoint)
       <==> s.workers[w].Holding? && s.workers[w].task < |s.started| && s.started[s.workers[w].task] == endpoint
    ensures Running(s.workers[w]) ==>
      s.workers[w].task < |s.started| && EndpointOf(s.started, s.workers[w].task) == s.started[s.workers[w].task]
  {
    ReachableIsGood(c, s);
    if Running(s.workers[w]) {
      StartedTask(s, w);
    }
  }

  // ----- a submit caught by the shutdown

  /** The send of a submitter that has passed the check panics. */
  predicate SendPanics(s: State, who: SubmitterId) {
    who in s.submitters && s.channelClosed
  }

  lemma {:induction false} ClosedSince(c: Config, s: State, es: seq<Event>)
    requires Run(c, s, es)
    ensures After(c, s, es).channelClosed <==> s.channelClosed || CloseChannel in es
    decreases |es|
  {
    if es != [] {
      ClosedSince(c, Apply(c, s, es[0]), es[1..]);
      assert CloseChannel in es <==> es[0] == CloseChannel || CloseChannel in es[1..];
    }
  }

  /** Once past the check, a submit panics exactly when the channel is closed between the check and its send. */
  lemma SubmitPanicsIff(c: Config, s: State, who: SubmitterId, endpoint: Endpoint, es: seq<Event>)
    requires Reachable(c, s) && !s.closed && Enabled(c, s, CheckFlag(who, endpoint))
    requires Run(c, Apply(c, s, CheckFlag(who, endpoint)), es)
    requires who in After(c, Apply(c, s, CheckFlag(who, endpoint)), es).submitters
    ensures SendPanics(After(c, Apply(c, s, CheckFlag(who, endpoint)), es), who) <==> CloseChannel in es
  {
    ReachableIsGood(c, s);
    ClosedSince(c, Apply(c, s, CheckFlag(who, endpoint)), es);
  }

  /** From every open state: check, flag, close, and the send panics; the flag was up, yet no error is returned. */
  lemma ShutdownPanicsSubmit(c: Config, s: State, who: SubmitterId, endpoint: Endpoint) returns (t: State)
    requires Reachable(c, s) && !s.closed && who !in s.submitters
    ensures var es := [CheckFlag(who, endpoint), RaiseFlag, CloseChannel];
      Run(c, s, es) && After(c, s, es) == t
    ensures t.closed && Enabled(c, t, Send(who)) && SendPanics(t, who)
    ensures Apply(c, t, Send(who)).accepted == t.accepted
  {
    ReachableIsGood(c, s);
    var es := [CheckFlag(who, endpoint), RaiseFlag, CloseChannel];
    var s1 := Apply(c, s, es[0]);
    var s2 := Apply(c, s1, es[1]);
    t := Apply(c, s2, es[2]);
    assert es[1..] == [RaiseFlag, CloseChannel] && es[1..][1..] == [CloseChannel] && es[1..][1..][1..] == [];
    assert Run(c, t, []) && After(c, t, []) == t;
    assert Run(c, s2, [CloseChannel]) && After(c, s2, [CloseChannel]) == t;
    assert Run(c, s1, [RaiseFlag, CloseChannel]) && After(c, s1, [RaiseFlag, CloseChannel]) == t;
  }
}
