/** The pool as an object: what each piece of its methods that runs without interruption does to the shared fields.
    Pieces of different goroutines interleave as in the protocol, whose steps they are. */
module Pool {
  import opened Prelude
  import opened WorkerPool

  datatype SubmitResult = Enqueued | PoolClosed | QueueFull | Panicked

  /** What NewPool makes of its arguments. */
  function Configured(workerCount: int, queueCap: int, maxPerEndpoint: nat): (c: Config)
    ensures c.workerCount > 0 && c.queueCap > 0 && c.maxPerEndpoint == maxPerEndpoint
    ensures c.workerCount == (if workerCount <= 0 then 10 else workerCount)
    ensures c.queueCap == (if queueCap <= 0 then 5000 else queueCap)
  {
    Config(if workerCount <= 0 then 10 else workerCount, if queueCap <= 0 then 5000 else queueCap, maxPerEndpoint)
  }

  /** The events lead from one state to the other. */
  ghost predicate Plays(c: Config, s: State, es: seq<Event>, t: State) {
    Run(c, s, es) && After(c, s, es) == t
  }

  lemma {:induction false} PlaysMore(c: Config, s: State, es: seq<Event>, t: State, e: Event)
    requires Plays(c, s, es, t) && Enabled(c, t, e)
    ensures Plays(c, s, es + [e], Apply(c, t, e))
    decreases |es|
  {
    if es == [] {
      assert es + [e] == [e] && [e][1..] == [];
      assert Run(c, Apply(c, t, e), []);
    } else {
      PlaysMore(c, Apply(c, s, es[0]), es[1..], t, e);
      assert (es + [e])[1..] == es[1..] + [e];
    }
  }

  /** No execution is past any semaphore as far as it allows. */
  ghost predicate SemaphoresFree(c: Config, s: State) {
    forall e: Endpoint :: Tokens(s, e) < c.maxPerEndpoint
  }

  /** One task of a draining worker, start to end. */
  lemma OneDrained(c: Config, s: State, w: WorkerId)
    requires w < |s.workers| && s.workers[w].Draining? && s.queue != [] && SemaphoresFree(c, s)
    ensures Enabled(c, s, Take(w)) && Enabled(c, Apply(c, s, Take(w)), Acquire(w))
    ensures Enabled(c, Apply(c, Apply(c, s, Take(w)), Acquire(w)), Finish(w))
    ensures var t := Apply(c, Apply(c, Apply(c, s, Take(w)), Acquire(w)), Finish(w));
      && SemaphoresFree(c, t) && |t.workers| == |s.workers| && t.workers[w].Draining?
      && t.queue == s.queue[1..] && t.started == s.started + [s.queue[0]]
      && t.finished == s.finished + {|s.started|} && t.activeJobs == s.activeJobs
  {
    var s1 := Apply(c, s, Take(w));
    assert forall e: Endpoint :: Tokens(s1, e) == Tokens(s, e);
    var endpoint := EndpointOf(s1.started, |s.started|);
    assert Tokens(s, endpoint) < c.maxPerEndpoint;
    var s2 := Apply(c, s1, Acquire(w));
    var t := Apply(c, s2, Finish(w));
    assert forall e: Endpoint :: Tokens(t, e) == Tokens(s, e);
  }

  lemma UptoGrows(from: nat, n: nat, finished: set<nat>)
    ensures finished + Between(from, from + n) + {from + n} == finished + Between(from, from + n + 1)
  {
  }

  /** The numbers from a up to b, b left out. */
  function Between(a: nat, b: nat): set<nat> {
    set t | t in Upto(b) && a <= t
  }

  /** A state in which a draining worker has run the first n tasks of the buffer it found. */
  ghost predicate Drains(c: Config, before: State, w: WorkerId, n: nat, s: State) {
    && n <= |before.queue| && s.queue == before.queue[n..]
    && w < |s.workers| && s.workers[w].Draining? && SemaphoresFree(c, s)
    && s.started == before.started + before.queue[..n] && s.activeJobs == before.activeJobs
    && s.finished == before.finished + Between(|before.started|, |before.started| + n)
  }

  function OneMoreTask(c: Config, s: State, w: WorkerId): State
    requires Enabled(c, s, Take(w)) && Enabled(c, Apply(c, s, Take(w)), Acquire(w))
    requires Enabled(c, Apply(c, Apply(c, s, Take(w)), Acquire(w)), Finish(w))
  {
    Apply(c, Apply(c, Apply(c, s, Take(w)), Acquire(w)), Finish(w))
  }

  lemma ProgressNext(before: State, n: nat, started: seq<Endpoint>, finished: set<nat>)
    requires n < |before.queue| && started == before.started + before.queue[..n]
    requires finished == before.finished + Between(|before.started|, |before.started| + n)
    ensures started + [before.queue[n]] == before.started + before.queue[..n + 1]
    ensures finished + {|started|} == before.finished + Between(|before.started|, |before.started| + (n + 1))
  {
    UptoGrows(|before.started|, n, before.finished);
    TakeOneMore(before.queue, n);
    ConcatAssociates(before.started, before.queue[..n], [before.queue[n]]);
  }

  lemma DrainsNext(c: Config, before: State, w: WorkerId, n: nat, s: State, t: State)
    requires Drains(c, before, w, n, s) && s.queue != []
    requires SemaphoresFree(c, t) && w < |t.workers| && t.workers[w].Draining? && t.activeJobs == s.activeJobs
    requires t.queue == s.queue[1..] && t.started == s.started + [s.queue[0]]
    requires t.finished == s.finished + {|s.started|}
    ensures Drains(c, before, w, n + 1, t)
  {
    ProgressNext(before, n, s.started, s.finished);
    assert s.queue[0] == before.queue[n] && s.queue[1..] == before.queue[n + 1..];
  }

  lemma DrainsOneMore(c: Config, before: State, w: WorkerId, n: nat, s: State)
    requires Drains(c, before, w, n, s) && s.queue != []
    ensures Enabled(c, s, Take(w)) && Enabled(c, Apply(c, s, Take(w)), Acquire(w))
    ensures Enabled(c, Apply(c, Apply(c, s, Take(w)), Acquire(w)), Finish(w))
    ensures Drains(c, before, w, n + 1, OneMoreTask(c, s, w))
  {
    OneDrained(c, s, w);
    DrainsNext(c, before, w, n, s, OneMoreTask(c, s, w));
  }

  class Pool {
    const config: Config
    var closed: bool
    var cancelled: bool
    /** The channel: its buffer, and whether it is closed. */
    var tasks: seq<Endpoint>
    var channelClosed: bool
    var activeJobs: int
    var endpointSem: map<Endpoint, int>
    /** Where the goroutines are. */
    var submitters: map<SubmitterId, Endpoint>
    var workers: seq<Worker>
    ghost var accepted: seq<Endpoint>
    ghost var finished: set<nat>
    var started: seq<Endpoint>

    ghost function Contents(): State
      reads this
    {
      State(closed, channelClosed, cancelled, submitters, tasks, workers, activeJobs, endpointSem,
            accepted, started, finished)
    }

    constructor (workerCount: int, queueCap: int, maxPerEndpoint: nat)
      ensures config == Configured(workerCount, queueCap, maxPerEndpoint) && Contents() == Initial(config)
    {
      var c := Configured(workerCount, queueCap, maxPerEndpoint);
      config := c;
      closed, cancelled, channelClosed := false, false, false;
      tasks, started, accepted, finished := [], [], [], {};
      activeJobs, endpointSem, submitters := 0, map[], map[];
      workers := seq(c.workerCount, _ => Looping);
    }

    /** Submit up to the check of the flag. */
    method BeginSubmit(who: SubmitterId, endpoint: Endpoint) returns (goesOn: bool)
      requires who !in submitters
      modifies this
      ensures Contents() == Apply(config, old(Contents()), CheckFlag(who, endpoint))
      ensures goesOn == !old(closed)
      ensures submitters == if goesOn then old(submitters)[who := endpoint] else old(submitters)
    {
      if closed {
        return false;
      }
      submitters := submitters[who := endpoint];
      return true;
    }

    /** The rest of Submit: a send that does not wait. */
    method TrySend(who: SubmitterId) returns (r: SubmitResult)
      requires who in submitters
      modifies this
      ensures Contents() == Apply(config, old(Contents()), Send(who))
      ensures r == if old(channelClosed) then Panicked
                   else if |old(tasks)| < config.queueCap then Enqueued else QueueFull
      ensures r.Panicked? <==> old(SendPanics(Contents(), who))
      ensures r.Enqueued? ==> tasks == old(tasks) + [old(submitters)[who]]
      ensures r.Enqueued? ==> accepted == old(accepted) + [old(submitters)[who]]
      ensures !r.Enqueued? ==> tasks == old(tasks) && accepted == old(accepted)
    {
      var task := submitters[who];
      submitters := submitters - {who};
      if channelClosed {
        return Panicked;
      }
      if |tasks| >= config.queueCap {
        return QueueFull;
      }
      tasks := tasks + [task];
      accepted := accepted + [task];
      return Enqueued;
    }

    /** Stop raises the flag, closes the channel and cancels, once; nobody runs in between here. */
    method Stop() returns (ghost es: seq<Event>)
      requires !closed ==> !channelClosed && !cancelled
      modifies this
      ensures old(closed) ==> es == [] && Contents() == old(Contents())
      ensures !old(closed) ==> es == [RaiseFlag, CloseChannel, Cancel] && closed && channelClosed && cancelled
      ensures Plays(config, old(Contents()), es, Contents())
    {
      es := [];
      ghost var before := Contents();
      if closed {
        return;
      }
      PlaysMore(config, before, es, Contents(), RaiseFlag);
      closed := true;
      es := es + [RaiseFlag];
      PlaysMore(config, before, es, Contents(), CloseChannel);
      channelClosed := true;
      es := es + [CloseChannel];
      PlaysMore(config, before, es, Contents(), Cancel);
      cancelled := true;
      es := es + [Cancel];
    }

    /** The next task from the channel's buffer goes into execution. */
    method Receive(w: WorkerId)
      requires w < |workers| && (workers[w].Looping? || workers[w].Draining?) && tasks != []
      modifies this
      ensures Contents() == Apply(config, old(Contents()), Take(w))
      ensures tasks == old(tasks)[1..] && started == old(started) + [old(tasks)[0]] && activeJobs == old(activeJobs) + 1
      ensures workers[w].Waiting? && workers[w].task == |old(started)|
    {
      activeJobs := activeJobs + 1;
      workers := workers[w := Waiting(|started|, workers[w].Draining?)];
      started := started + [tasks[0]];
      tasks := tasks[1..];
    }

    /** A send on the endpoint's semaphore channel, created when first needed, once there is room. */
    method AcquireEndpointSemaphore(w: WorkerId)
      requires w < |workers| && Enabled(config, Contents(), Acquire(w))
      modifies this
      ensures Contents() == Apply(config, old(Contents()), Acquire(w))
      ensures workers[w].Holding? && workers[w].task == old(workers)[w].task
      ensures old(workers)[w].task < |started| ==>
        var e := started[old(workers)[w].task];
        endpointSem == old(endpointSem)[e := (if e in old(endpointSem) then old(endpointSem)[e] else 0) + 1]
    {
      var k := workers[w];
      var endpoint := EndpointOf(started, k.task);
      if endpoint !in endpointSem {
        endpointSem := endpointSem[endpoint := 0];
      }
      endpointSem := endpointSem[endpoint := endpointSem[endpoint] + 1];
      workers := workers[w := Holding(k.task, k.draining)];
    }

    /** The end of a task, normal or by a panic: the deferred release and the deferred count. */
    method FinishTask(w: WorkerId)
      requires w < |workers| && workers[w].Holding?
      modifies this
      ensures Contents() == Apply(config, old(Contents()), Finish(w))
      ensures finished == old(finished) + {old(workers)[w].task} && activeJobs == old(activeJobs) - 1
    {
      var k := workers[w];
      var endpoint := EndpointOf(started, k.task);
      var tokens := if endpoint in endpointSem then endpointSem[endpoint] else 0;
      endpointSem := endpointSem[endpoint := tokens - 1];
      activeJobs := activeJobs - 1;
      finished := finished + {k.task};
      workers := workers[w := if k.draining then Draining else Looping];
    }

    /** The three steps of one task when nothing else runs in between. */
    method ExecuteTask(w: WorkerId, ghost before: State, ghost es: seq<Event>) returns (ghost all: seq<Event>)
      requires Plays(config, before, es, Contents()) && Enabled(config, Contents(), Take(w))
      requires Enabled(config, Apply(config, Contents(), Take(w)), Acquire(w))
      requires Enabled(config, Apply(config, Apply(config, Contents(), Take(w)), Acquire(w)), Finish(w))
      modifies this
      ensures Contents() == OneMoreTask(config, old(Contents()), w)
      ensures Plays(config, before, all, Contents())
    {
      all := es;
      PlaysMore(config, before, all, Contents(), Take(w));
      Receive(w);
      all := all + [Take(w)];
      PlaysMore(config, before, all, Contents(), Acquire(w));
      AcquireEndpointSemaphore(w);
      all := all + [Acquire(w)];
      PlaysMore(config, before, all, Contents(), Finish(w));
      FinishTask(w);
      all := all + [Finish(w)];
    }

    /** After cancellation one worker empties the channel; here nobody else runs meanwhile. */
    method DrainRemaining(w: WorkerId) returns (ghost es: seq<Event>)
      requires w < |workers| && workers[w].Draining? && SemaphoresFree(config, Contents())
      modifies this
      ensures Plays(config, old(Contents()), es, Contents())
      ensures tasks == [] && w < |workers| && workers[w].Exited?
      ensures started == old(started) + old(tasks) && activeJobs == old(activeJobs)
      ensures finished == old(finished) + Between(|old(started)|, |old(started)| + |old(tasks)|)
    {
      ghost var before := Contents();
      ghost var n: nat := 0;
      es := [];
      while tasks != []
        invariant Drains(config, before, w, n, Contents())
        invariant Plays(config, before, es, Contents())
        decreases |tasks|
      {
        DrainsOneMore(config, before, w, n, Contents());
        es := ExecuteTask(w, before, es);
        n := n + 1;
      }
      assert before.queue[..n] == before.queue;
      PlaysMore(config, before, es, Contents(), Leave(w));
      workers := workers[w := Exited];
      es := es + [Leave(w)];
    }
  }
}
