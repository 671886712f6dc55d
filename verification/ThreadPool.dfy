/** thread_pool as a state machine: callers post, workers take and handle, and the destructor posts one
    terminate message per worker and then joins them. Steps of different threads interleave freely; each
    queue operation is one step because it runs under the queue's mutex. */
module ThreadPool {
  import opened MachineWords
  import opened CircularQueue

  datatype AsyncMsg = Log(id: int) | Flush(id: int) | Terminate

  datatype Policy = Block | OverrunOldest

  datatype WorkerState = Waiting | Busy(msg: AsyncMsg) | Stopped

  /** handled: what the worker has passed on to its logger, in order. */
  datatype Worker = Worker(state: WorkerState, handled: seq<AsyncMsg>)

  /** Closing(k): the destructor has posted k terminate messages. */
  datatype Phase = Open | Closing(posted: nat) | Joined

  /** How a message left the queue: taken by a worker, dropped by an overrun, or never admitted because the
      queue is disabled. */
  datatype Removal = Taken(msg: AsyncMsg, worker: nat) | Dropped(msg: AsyncMsg) | Ignored(msg: AsyncMsg)

  /** enqueued and removed record the whole history of the queue. */
  datatype Pool = Pool(queue: Bounded<AsyncMsg>, workers: seq<Worker>, phase: Phase,
                       enqueued: seq<AsyncMsg>, removed: seq<Removal>)

  datatype Step =
    | Post(msg: AsyncMsg, policy: Policy)
    | Close
    | PostTerminate
    | Take(worker: nat)
    | TimeOut(worker: nat)
    | Finish(worker: nat)
    | Join

  datatype Creation = Created(pool: Pool) | InvalidThreads

  function NewPool(capacity: nat, threads: nat): Creation {
    if threads == 0 || threads > 1000 then InvalidThreads
    else Created(Pool(EmptyQueue(capacity), seq(threads, _ => Worker(Waiting, [])), Open, [], []))
  }

  predicate AllStopped(p: Pool) {
    forall i :: 0 <= i < |p.workers| ==> p.workers[i].state == Stopped
  }

  /** Nobody posts once the destructor has started, and terminate messages come from the destructor only. */
  predicate Enabled(p: Pool, s: Step) {
    match s
    case Post(m, policy) => p.phase == Open && m != Terminate && (policy == Block ==> !Overruns(p.queue))
    case Close => p.phase == Open
    case PostTerminate => p.phase.Closing? && p.phase.posted < |p.workers| && !Overruns(p.queue)
    case Take(i) => i < |p.workers| && p.workers[i].state == Waiting && p.queue.items != []
    case TimeOut(i) => i < |p.workers| && p.workers[i].state == Waiting && p.queue.items == []
    case Finish(i) => i < |p.workers| && p.workers[i].state.Busy?
    case Join => p.phase == Closing(|p.workers|) && AllStopped(p)
  }

  function Enter(p: Pool, m: AsyncMsg): Pool {
    var gone :=
      if !p.queue.enabled then [Ignored(m)]
      else if Overruns(p.queue) then [Dropped((p.queue.items + [m])[0])]
      else [];
    p.(queue := Push(p.queue, m), enqueued := p.enqueued + [m], removed := p.removed + gone)
  }

  function SetWorker(p: Pool, i: nat, w: Worker): Pool
    requires i < |p.workers|
  {
    p.(workers := p.workers[i := w])
  }

  function Next(p: Pool, s: Step): Pool
    requires Enabled(p, s)
  {
    match s
    case Post(m, policy) => Enter(p, m)
    case Close => p.(phase := Closing(0))
    case PostTerminate => Enter(p, Terminate).(phase := Closing(p.phase.posted + 1))
    case Take(i) =>
      var m := p.queue.items[0];
      SetWorker(p, i, p.workers[i].(state := if m == Terminate then Stopped else Busy(m)))
        .(queue := Pop(p.queue), removed := p.removed + [Taken(m, i)])
    case TimeOut(i) => p
    case Finish(i) => SetWorker(p, i, Worker(Waiting, p.workers[i].handled + [p.workers[i].state.msg]))
    case Join => p.(phase := Joined)
  }

  /** Every step of the run was enabled when it was made. */
  predicate Possible(p: Pool, ss: seq<Step>)
    decreases |ss|, 0
  {
    ss == [] || (Possible(p, ss[..|ss| - 1]) && Enabled(After(p, ss[..|ss| - 1]), ss[|ss| - 1]))
  }

  function After(p: Pool, ss: seq<Step>): Pool
    requires Possible(p, ss)
    decreases |ss|, 1
  {
    if ss == [] then p else Next(After(p, ss[..|ss| - 1]), ss[|ss| - 1])
  }

  // ---------- Where every message is ----------

  function Messages(rs: seq<Removal>): seq<AsyncMsg> {
    if rs == [] then [] else Messages(rs[..|rs| - 1]) + [rs[|rs| - 1].msg]
  }

  function DropCount(rs: seq<Removal>): nat {
    if rs == [] then 0 else DropCount(rs[..|rs| - 1]) + (if rs[|rs| - 1].Dropped? then 1 else 0)
  }

  function TakenBy(rs: seq<Removal>, i: nat): seq<AsyncMsg> {
    if rs == [] then []
    else
      var r := rs[|rs| - 1];
      TakenBy(rs[..|rs| - 1], i) + (if r.Taken? && r.worker == i then [r.msg] else [])
  }

  // What a worker should have taken: what it has handled, and what it has in hand or was stopped by.
  function Ledger(w: Worker): seq<AsyncMsg> {
    w.handled + match w.state case Waiting => [] case Busy(m) => [m] case Stopped => [Terminate]
  }

  function TerminateCount(ms: seq<AsyncMsg>): nat {
    if ms == [] then 0 else TerminateCount(ms[..|ms| - 1]) + (if ms[|ms| - 1] == Terminate then 1 else 0)
  }

  function StoppedCount(ws: seq<Worker>): nat {
    if ws == [] then 0 else StoppedCount(ws[..|ws| - 1]) + (if ws[|ws| - 1].state == Stopped then 1 else 0)
  }

  /** First in, first out: what has left the queue, followed by what is in it, is what entered it. */
  ghost predicate Fifo(p: Pool) {
    Messages(p.removed) + p.queue.items == p.enqueued
  }

  ghost predicate LedgersBalance(p: Pool) {
    forall i :: 0 <= i < |p.workers| ==>
      && TakenBy(p.removed, i) == Ledger(p.workers[i])
      && Terminate !in p.workers[i].handled && p.workers[i].state != Busy(Terminate)
  }

  predicate OnlyTerminates(ms: seq<AsyncMsg>) {
    forall i :: 0 <= i < |ms| ==> ms[i] == Terminate
  }

  predicate TerminatesLast(ms: seq<AsyncMsg>) {
    forall i, j :: 0 <= i < j < |ms| && ms[i] == Terminate ==> ms[j] == Terminate
  }

  // The terminate messages posted so far are queued, behind everything else, or have stopped a worker each.
  ghost predicate ShutdownState(p: Pool) {
    match p.phase
    case Open => Terminate !in p.queue.items && StoppedCount(p.workers) == 0
    case Closing(k) =>
      && k <= |p.workers| && TerminatesLast(p.queue.items)
      && (StoppedCount(p.workers) > 0 ==> p.queue.capacity > 0 && OnlyTerminates(p.queue.items))
      && TerminateCount(p.queue.items) + StoppedCount(p.workers) == if p.queue.enabled then k else 0
    case Joined => AllStopped(p) && p.queue.items == [] && p.queue.enabled && p.queue.capacity > 0
  }

  ghost predicate Inv(p: Pool) {
    && p.workers != [] && |p.queue.items| <= p.queue.capacity && (!p.queue.enabled ==> p.queue.items == [])
    && Fifo(p) && p.queue.drops == DropCount(p.removed) && LedgersBalance(p) && ShutdownState(p)
  }

  // ---------- Every step keeps the invariant ----------

  lemma MessagesPush(rs: seq<Removal>, r: Removal)
    ensures Messages(rs + [r]) == Messages(rs) + [r.msg]
    ensures DropCount(rs + [r]) == DropCount(rs) + (if r.Dropped? then 1 else 0)
    ensures forall i :: TakenBy(rs + [r], i) == TakenBy(rs, i) + (if r.Taken? && r.worker == i then [r.msg] else [])
  {
    assert (rs + [r])[..|rs|] == rs;
  }

  lemma TerminateCountPush(ms: seq<AsyncMsg>, m: AsyncMsg)
    ensures TerminateCount(ms + [m]) == TerminateCount(ms) + (if m == Terminate then 1 else 0)
  {
    assert (ms + [m])[..|ms|] == ms;
  }

  lemma {:induction false} TerminateCountFront(ms: seq<AsyncMsg>)
    requires ms != []
    ensures TerminateCount(ms) == (if ms[0] == Terminate then 1 else 0) + TerminateCount(ms[1..])
  {
    if |ms| > 1 {
      var n := |ms| - 1;
      TerminateCountFront(ms[..n]);
      assert ms[..n][1..] == ms[1..][..n - 1];
    }
  }

  lemma {:induction false} TerminateCountAll(ms: seq<AsyncMsg>)
    requires OnlyTerminates(ms)
    ensures TerminateCount(ms) == |ms|
  {
    if ms != [] {
      TerminateCountAll(ms[..|ms| - 1]);
    }
  }

  lemma {:induction false} TerminateCountNone(ms: seq<AsyncMsg>)
    requires Terminate !in ms
    ensures TerminateCount(ms) == 0
  {
    if ms != [] {
      TerminateCountNone(ms[..|ms| - 1]);
    }
  }

  lemma {:induction false} StoppedCountUpdate(ws: seq<Worker>, i: nat, w: Worker)
    requires i < |ws|
    ensures StoppedCount(ws[i := w]) + (if ws[i].state == Stopped then 1 else 0)
            == StoppedCount(ws) + (if w.state == Stopped then 1 else 0)
  {
    var n := |ws| - 1;
    if i < n {
      StoppedCountUpdate(ws[..n], i, w);
      assert ws[i := w][..n] == ws[..n][i := w];
    } else {
      assert ws[i := w][..n] == ws[..n];
    }
  }

  lemma {:induction false} StoppedCountBounds(ws: seq<Worker>)
    ensures StoppedCount(ws) <= |ws|
    ensures StoppedCount(ws) == |ws| <==> forall i :: 0 <= i < |ws| ==> ws[i].state == Stopped
    ensures StoppedCount(ws) == 0 <==> forall i :: 0 <= i < |ws| ==> ws[i].state != Stopped
  {
    if ws != [] {
      StoppedCountBounds(ws[..|ws| - 1]);
    }
  }

  /** A pool is created for 1 to 1000 threads, and has a waiting worker for each of them and an empty queue. */
  lemma NewPoolHasItsThreads(capacity: nat, threads: nat)
    ensures NewPool(capacity, threads).Created? <==> 1 <= threads <= 1000
    ensures NewPool(capacity, threads).Created? ==>
              var p := NewPool(capacity, threads).pool;
              && |p.workers| == threads && (forall i :: 0 <= i < threads ==> p.workers[i] == Worker(Waiting, []))
              && p.queue == EmptyQueue(capacity) && p.phase == Open && p.enqueued == [] && p.removed == []
  {
  }

  lemma NewPoolKeeps(capacity: nat, threads: nat)
    requires NewPool(capacity, threads).Created?
    ensures Inv(NewPool(capacity, threads).pool)
  {
    StoppedCountBounds(NewPool(capacity, threads).pool.workers);
  }

  lemma EnterKeepsHistory(p: Pool, m: AsyncMsg)
    requires Inv(p)
    ensures var q := Enter(p, m);
            && |q.queue.items| <= q.queue.capacity && (!q.queue.enabled ==> q.queue.items == [])
            && Fifo(q) && q.queue.drops == DropCount(q.removed) && LedgersBalance(q)
  {
    hide ShutdownState, Messages, DropCount, TakenBy;
    var xs := p.queue.items + [m];
    assert Messages(p.removed) + xs == p.enqueued + [m];
    if !p.queue.enabled {
      MessagesPush(p.removed, Ignored(m));
    } else if Overruns(p.queue) {
      MessagesPush(p.removed, Dropped(xs[0]));
      assert xs == [xs[0]] + xs[1..];
    } else {
      assert p.removed + [] == p.removed;
    }
  }

  lemma TakeKeepsHistory(p: Pool, i: nat)
    requires Inv(p) && Enabled(p, Take(i))
    ensures var q := Next(p, Take(i));
            && |q.queue.items| <= q.queue.capacity && (!q.queue.enabled ==> q.queue.items == [])
            && Fifo(q) && q.queue.drops == DropCount(q.removed) && LedgersBalance(q)
  {
    hide ShutdownState, Messages, DropCount, TakenBy;
    var m := p.queue.items[0];
    MessagesPush(p.removed, Taken(m, i));
    assert p.queue.items == [m] + p.queue.items[1..];
  }

  lemma EnterKeepsShutdown(p: Pool)
    requires Inv(p) && Enabled(p, PostTerminate)
    ensures ShutdownState(Next(p, PostTerminate))
  {
    hide Fifo, LedgersBalance, TerminateCount, StoppedCount;
    var q := Next(p, PostTerminate);
    assert q.workers == p.workers && q.phase == Closing(p.phase.posted + 1);
    assert q.queue.items == if p.queue.enabled then p.queue.items + [Terminate] else p.queue.items;
    TerminateCountPush(p.queue.items, Terminate);
  }

  lemma TakeKeepsShutdown(p: Pool, i: nat)
    requires Inv(p) && Enabled(p, Take(i))
    ensures ShutdownState(Next(p, Take(i)))
  {
    hide Fifo, LedgersBalance, TerminateCount, StoppedCount;
    var q, m := Next(p, Take(i)), p.queue.items[0];
    assert q.phase == p.phase && q.workers[i].state == (if m == Terminate then Stopped else Busy(m));
    assert q.queue.items == p.queue.items[1..] && q.workers == p.workers[i := q.workers[i]];
    TerminateCountFront(p.queue.items);
    StoppedCountUpdate(p.workers, i, q.workers[i]);
    StoppedCountBounds(p.workers);
  }

  lemma JoinKeepsShutdown(p: Pool)
    requires Inv(p) && Enabled(p, Join)
    ensures ShutdownState(Next(p, Join))
  {
    StoppedCountBounds(p.workers);
    TerminateCountAll(p.queue.items);
  }

  lemma PostKeepsInv(p: Pool, m: AsyncMsg, policy: Policy)
    requires Inv(p) && Enabled(p, Post(m, policy))
    ensures Inv(Next(p, Post(m, policy)))
  {
    hide Messages, DropCount, TakenBy, TerminateCount, StoppedCount;
    EnterKeepsHistory(p, m);
  }

  lemma CloseKeepsInv(p: Pool)
    requires Inv(p) && Enabled(p, Close)
    ensures Inv(Next(p, Close))
  {
    TerminateCountNone(p.queue.items);
  }

  lemma FinishKeepsInv(p: Pool, i: nat)
    requires Inv(p) && Enabled(p, Finish(i))
    ensures Inv(Next(p, Finish(i)))
  {
    hide Messages, DropCount, TakenBy, TerminateCount, StoppedCount;
    StoppedCountUpdate(p.workers, i, Next(p, Finish(i)).workers[i]);
  }

  lemma PostTerminateKeepsInv(p: Pool)
    requires Inv(p) && Enabled(p, PostTerminate)
    ensures Inv(Next(p, PostTerminate))
  {
    hide Messages, DropCount, TakenBy, ShutdownState;
    EnterKeepsHistory(p, Terminate);
    EnterKeepsShutdown(p);
  }

  lemma TakeKeepsInv(p: Pool, i: nat)
    requires Inv(p) && Enabled(p, Take(i))
    ensures Inv(Next(p, Take(i)))
  {
    hide Messages, DropCount, TakenBy, ShutdownState;
    TakeKeepsHistory(p, i);
    TakeKeepsShutdown(p, i);
  }

  lemma JoinKeepsInv(p: Pool)
    requires Inv(p) && Enabled(p, Join)
    ensures Inv(Next(p, Join))
  {
    hide Messages, DropCount, TakenBy, ShutdownState;
    JoinKeepsShutdown(p);
  }

  lemma TimeOutKeepsAll(p: Pool, i: nat)
    requires Enabled(p, TimeOut(i))
    ensures Next(p, TimeOut(i)) == p
  {
  }

  /** Each of the seven steps keeps the invariant. */
  lemma StepKeepsInv(p: Pool, s: Step)
    requires Inv(p) && Enabled(p, s)
    ensures Inv(Next(p, s))
  {
    hide Inv, Enabled, Next;
    match s
    case Post(m, policy) => PostKeepsInv(p, m, policy);
    case Close => CloseKeepsInv(p);
    case PostTerminate => PostTerminateKeepsInv(p);
    case Take(i) => TakeKeepsInv(p, i);
    case TimeOut(i) => TimeOutKeepsAll(p, i);
    case Finish(i) => FinishKeepsInv(p, i);
    case Join => JoinKeepsInv(p);
  }

  lemma {:induction false} RunKeepsInv(p: Pool, ss: seq<Step>)
    requires Inv(p) && Possible(p, ss)
    ensures Inv(After(p, ss))
  {
    hide Inv, Enabled, Next;
    if ss != [] {
      RunKeepsInv(p, ss[..|ss| - 1]);
      StepKeepsInv(After(p, ss[..|ss| - 1]), ss[|ss| - 1]);
    }
  }

  lemma RunPush(p: Pool, ss: seq<Step>, s: Step)
    requires Possible(p, ss) && Enabled(After(p, ss), s)
    ensures Possible(p, ss + [s]) && After(p, ss + [s]) == Next(After(p, ss), s)
  {
    hide Enabled, Next;
    assert (ss + [s])[..|ss|] == ss;
  }

  // ---------- Every message is accounted for ----------

  function Bag(rs: seq<Removal>, n: nat): multiset<AsyncMsg> {
    if n == 0 then multiset{} else Bag(rs, n - 1) + multiset(TakenBy(rs, n - 1))
  }

  // What was taken, and what was dropped or ignored, as multisets.
  function TakenBag(rs: seq<Removal>): multiset<AsyncMsg> {
    if rs == [] then multiset{}
    else TakenBag(rs[..|rs| - 1]) + (if rs[|rs| - 1].Taken? then multiset{rs[|rs| - 1].msg} else multiset{})
  }

  function LostBag(rs: seq<Removal>): multiset<AsyncMsg> {
    if rs == [] then multiset{}
    else LostBag(rs[..|rs| - 1]) + (if rs[|rs| - 1].Taken? then multiset{} else multiset{rs[|rs| - 1].msg})
  }

  function LedgerBag(ws: seq<Worker>): multiset<AsyncMsg> {
    if ws == [] then multiset{} else LedgerBag(ws[..|ws| - 1]) + multiset(Ledger(ws[|ws| - 1]))
  }

  predicate TakersBelow(rs: seq<Removal>, n: nat) {
    forall k :: 0 <= k < |rs| && rs[k].Taken? ==> rs[k].worker < n
  }

  lemma {:induction false} MessagesAreTakenOrLost(rs: seq<Removal>)
    ensures multiset(Messages(rs)) == TakenBag(rs) + LostBag(rs)
  {
    if rs != [] {
      MessagesAreTakenOrLost(rs[..|rs| - 1]);
    }
  }

  lemma {:induction false} BagPush(rs: seq<Removal>, r: Removal, n: nat)
    ensures Bag(rs + [r], n) == Bag(rs, n) + (if r.Taken? && r.worker < n then multiset{r.msg} else multiset{})
  {
    hide TakenBy;
    if n > 0 {
      BagPush(rs, r, n - 1);
      MessagesPush(rs, r);
    }
  }

  lemma {:induction false} BagEmpty(n: nat)
    ensures Bag([], n) == multiset{}
  {
    if n > 0 {
      BagEmpty(n - 1);
    }
  }

  lemma {:induction false} BagIsTakenBag(rs: seq<Removal>, n: nat)
    requires TakersBelow(rs, n)
    ensures Bag(rs, n) == TakenBag(rs)
  {
    if rs == [] {
      BagEmpty(n);
    } else {
      var k := |rs| - 1;
      BagIsTakenBag(rs[..k], n);
      BagPush(rs[..k], rs[k], n);
      assert rs[..k] + [rs[k]] == rs;
    }
  }

  lemma {:induction false} BagIsLedgerBag(rs: seq<Removal>, ws: seq<Worker>)
    requires forall i :: 0 <= i < |ws| ==> TakenBy(rs, i) == Ledger(ws[i])
    ensures Bag(rs, |ws|) == LedgerBag(ws)
  {
    hide TakenBy, Ledger;
    if ws != [] {
      var n := |ws| - 1;
      BagIsLedgerBag(rs, ws[..n]);
      assert TakenBy(rs, n) == Ledger(ws[n]);
    }
  }

  lemma {:induction false} TakersAreWorkers(p: Pool, ss: seq<Step>)
    requires p.removed == [] && Possible(p, ss)
    ensures var q := After(p, ss); TakersBelow(q.removed, |q.workers|)
  {
    hide Enabled;
    if ss != [] {
      TakersAreWorkers(p, ss[..|ss| - 1]);
      StepTakers(After(p, ss[..|ss| - 1]), ss[|ss| - 1]);
    }
  }

  lemma StepTakers(p: Pool, s: Step)
    requires Enabled(p, s) && TakersBelow(p.removed, |p.workers|)
    ensures TakersBelow(Next(p, s).removed, |Next(p, s).workers|)
  {
  }

  /** At every moment of every run, what has been posted is, message for message, what the workers have
      handled, have in hand or were stopped by, what was lost, and what is queued; the queue is first in first
      out; each worker has handled what it took, in order; and the overrun counter counts the dropped ones. */
  lemma EveryMessageIsAccountedFor(capacity: nat, threads: nat, ss: seq<Step>)
    requires NewPool(capacity, threads).Created? && Possible(NewPool(capacity, threads).pool, ss)
    ensures var q := After(NewPool(capacity, threads).pool, ss);
            && multiset(q.enqueued) == LedgerBag(q.workers) + LostBag(q.removed) + multiset(q.queue.items)
            && Messages(q.removed) + q.queue.items == q.enqueued
            && (forall i :: 0 <= i < |q.workers| ==> TakenBy(q.removed, i) == Ledger(q.workers[i]))
            && q.queue.drops == DropCount(q.removed)
  {
    hide Possible, After, Messages, TakenBy, Ledger, ShutdownState;
    var p := NewPool(capacity, threads).pool;
    NewPoolKeeps(capacity, threads);
    RunKeepsInv(p, ss);
    var q := After(p, ss);
    TakersAreWorkers(p, ss);
    BagIsTakenBag(q.removed, |q.workers|);
    BagIsLedgerBag(q.removed, q.workers);
    MessagesAreTakenOrLost(q.removed);
    assert multiset(q.enqueued) == multiset(Messages(q.removed)) + multiset(q.queue.items);
  }

  // ---------- The overflow policy ----------

  predicate IsFull(q: Bounded<AsyncMsg>) {
    q.enabled && |q.items| == q.capacity
  }

  /** While the pool is open a post that overruns never has to wait, and one that blocks waits exactly for a
      full queue. */
  lemma WhoWaits(p: Pool, m: AsyncMsg)
    requires p.phase == Open && m != Terminate
    ensures Enabled(p, Post(m, OverrunOldest))
    ensures Enabled(p, Post(m, Block)) <==> !IsFull(p.queue)
  {
  }

  /** A post drops a message exactly if it overruns a full queue: the oldest one, or itself if nothing fits. */
  lemma PostDropsIffItOverruns(p: Pool, m: AsyncMsg, policy: Policy)
    requires Inv(p) && Enabled(p, Post(m, policy))
    ensures var q := Next(p, Post(m, policy));
            if policy == OverrunOldest && IsFull(p.queue)
            then q.removed == p.removed + [Dropped(if p.queue.items == [] then m else p.queue.items[0])]
            else q.removed == p.removed + (if p.queue.enabled then [] else [Ignored(m)])
                 && q.queue.items == p.queue.items + (if p.queue.enabled then [m] else [])
    ensures DropCount(Next(p, Post(m, policy)).removed) ==
            DropCount(p.removed) + (if policy == OverrunOldest && IsFull(p.queue) then 1 else 0)
  {
    hide DropCount, LedgersBalance, ShutdownState, Fifo;
    MessagesPush(p.removed, Ignored(m));
    MessagesPush(p.removed, Dropped(if p.queue.items == [] then m else p.queue.items[0]));
    assert p.removed + [] == p.removed && p.queue.items + [] == p.queue.items;
  }

  predicate AllBlock(ss: seq<Step>) {
    forall k :: 0 <= k < |ss| && ss[k].Post? ==> ss[k].policy == Block
  }

  predicate AllTaken(rs: seq<Removal>) {
    forall k :: 0 <= k < |rs| ==> rs[k].Taken?
  }

  lemma BlockingStep(p: Pool, s: Step)
    requires Enabled(p, s) && (s.Post? ==> s.policy == Block) && p.queue.enabled && AllTaken(p.removed)
    ensures AllTaken(Next(p, s).removed)
  {
  }

  lemma {:induction false} BlockingRun(p: Pool, ss: seq<Step>)
    requires Possible(p, ss) && AllBlock(ss) && p.queue.enabled && AllTaken(p.removed)
    ensures AllTaken(After(p, ss).removed)
  {
    hide Enabled, Next;
    if ss != [] {
      BlockingRun(p, ss[..|ss| - 1]);
      RunKeepsQueue(p, ss[..|ss| - 1]);
      BlockingStep(After(p, ss[..|ss| - 1]), ss[|ss| - 1]);
    }
  }

  lemma {:induction false} NothingLost(rs: seq<Removal>)
    requires AllTaken(rs)
    ensures LostBag(rs) == multiset{} && DropCount(rs) == 0
  {
    if rs != [] {
      NothingLost(rs[..|rs| - 1]);
    }
  }

  /** If everyone posts with block, nothing is ever dropped or ignored: at every moment what has been posted is
      what the workers have taken and what is queued. */
  lemma BlockingLosesNothing(capacity: nat, threads: nat, ss: seq<Step>)
    requires 1 <= threads <= 1000 && capacity < TWO64 - 1
    requires Possible(NewPool(capacity, threads).pool, ss) && AllBlock(ss)
    ensures var q := After(NewPool(capacity, threads).pool, ss);
            && AllTaken(q.removed) && q.queue.drops == 0
            && q.enqueued == Messages(q.removed) + q.queue.items
            && multiset(q.enqueued) == LedgerBag(q.workers) + multiset(q.queue.items)
  {
    hide Possible, After, Messages, Inv;
    var p := NewPool(capacity, threads).pool;
    BlockingRun(p, ss);
    EveryMessageIsAccountedFor(capacity, threads, ss);
    NothingLost(After(p, ss).removed);
  }

  /** An open pool is served and can be closed at any time: while a message is queued or in hand some worker can
      go on. */
  lemma OpenPoolIsServed(p: Pool) returns (s: Step)
    requires Inv(p) && p.phase == Open
    requires p.queue.items != [] || exists i :: 0 <= i < |p.workers| && p.workers[i].state.Busy?
    ensures Enabled(p, s) && (s.Take? || s.Finish?) && Enabled(p, Close)
  {
    hide Fifo, LedgersBalance, TerminateCount, StoppedCount;
    StoppedCountBounds(p.workers);
    if i :| 0 <= i < |p.workers| && p.workers[i].state.Busy? {
      s := Finish(i);
    } else {
      s := Take(0);
    }
  }

  // ---------- Shutting down ----------

  function PostedCount(p: Pool): nat {
    match p.phase case Open => 0 case Closing(k) => k case Joined => |p.workers|
  }

  function Terminates(n: nat): seq<AsyncMsg> {
    seq(n, _ => Terminate)
  }

  /** Since p only messages have been taken, none lost, and only the destructor has posted. */
  ghost predicate OnlyTakenSince(p: Pool, q: Pool) {
    && p.removed <= q.removed && (forall i :: |p.removed| <= i < |q.removed| ==> q.removed[i].Taken?)
    && PostedCount(p) <= PostedCount(q)
    && q.enqueued == p.enqueued + Terminates(PostedCount(q) - PostedCount(p))
    && q.queue.enabled == p.queue.enabled && q.queue.capacity == p.queue.capacity && |q.workers| == |p.workers|
  }

  lemma ClosingStep(p: Pool, q: Pool, s: Step)
    requires q.phase != Open && Enabled(q, s) && q.queue.enabled && OnlyTakenSince(p, q)
    ensures OnlyTakenSince(p, Next(q, s)) && Next(q, s).phase != Open
  {
    if s == PostTerminate {
      assert q.removed + [] == q.removed;
      assert Terminates(PostedCount(q) - PostedCount(p)) + [Terminate] ==
              Terminates(PostedCount(q) + 1 - PostedCount(p));
    }
  }

  lemma {:induction false} ClosingRun(p: Pool, ss: seq<Step>)
    requires p.phase != Open && p.queue.enabled && Possible(p, ss)
    ensures After(p, ss).phase != Open && OnlyTakenSince(p, After(p, ss))
  {
    hide Enabled, Next;
    if ss == [] {
      assert p.enqueued + Terminates(0) == p.enqueued;
    } else {
      ClosingRun(p, ss[..|ss| - 1]);
      ClosingStep(p, After(p, ss[..|ss| - 1]), ss[|ss| - 1]);
    }
  }

  lemma {:induction false} MessagesConcat(rs: seq<Removal>, ts: seq<Removal>)
    ensures Messages(rs + ts) == Messages(rs) + Messages(ts)
  {
    if ts == [] {
      assert rs + ts == rs;
    } else {
      MessagesConcat(rs, ts[..|ts| - 1]);
      assert (rs + ts)[..|rs + ts| - 1] == rs + ts[..|ts| - 1];
    }
  }

  /** When the destructor has joined the workers, everything that was queued when it started has been taken,
      in order, followed by exactly one terminate message per worker; nothing was lost on the way; and every
      worker has handled all it took and consumed exactly one terminate message, its last. */
  lemma ShutdownHandlesEverything(p: Pool, ss: seq<Step>)
    requires Inv(p) && p.phase == Closing(0) && Possible(p, ss) && After(p, ss).phase == Joined
    ensures var q := After(p, ss);
            && q.queue.items == [] && p.removed <= q.removed
            && (forall i :: |p.removed| <= i < |q.removed| ==> q.removed[i].Taken?)
            && Messages(q.removed[|p.removed|..]) == p.queue.items + Terminates(|p.workers|)
            && |q.workers| == |p.workers|
            && (forall i :: 0 <= i < |q.workers| ==>
                  TakenBy(q.removed, i) == q.workers[i].handled + [Terminate] && Terminate !in q.workers[i].handled)
  {
    hide Possible, After, Messages, TakenBy, Terminates;
    RunKeepsInv(p, ss);
    var q := After(p, ss);
    RunKeepsQueue(p, ss);
    ClosingRun(p, ss);
    var rest := q.removed[|p.removed|..];
    assert q.removed == p.removed + rest;
    MessagesConcat(p.removed, rest);
    assert Messages(p.removed) + Messages(rest) + [] == Messages(p.removed) + (p.queue.items + Terminates(|p.workers|));
    SameRest(Messages(p.removed), Messages(rest), p.queue.items + Terminates(|p.workers|));
  }

  lemma SameRest<T>(a: seq<T>, x: seq<T>, y: seq<T>)
    requires a + x == a + y
    ensures x == y
  {
    assert x == (a + x)[|a|..] && y == (a + y)[|a|..];
  }

  lemma {:induction false} RunKeepsQueue(p: Pool, ss: seq<Step>)
    requires Possible(p, ss)
    ensures var q := After(p, ss).queue; q.enabled == p.queue.enabled && q.capacity == p.queue.capacity
  {
    if ss != [] {
      RunKeepsQueue(p, ss[..|ss| - 1]);
    }
  }

  // ---------- Whether the destructor returns ----------

  function BusyCount(ws: seq<Worker>): nat {
    if ws == [] then 0 else BusyCount(ws[..|ws| - 1]) + (if ws[|ws| - 1].state.Busy? then 1 else 0)
  }

  lemma {:induction false} BusyCountUpdate(ws: seq<Worker>, i: nat, w: Worker)
    requires i < |ws|
    ensures BusyCount(ws[i := w]) + (if ws[i].state.Busy? then 1 else 0)
            == BusyCount(ws) + (if w.state.Busy? then 1 else 0)
  {
    var n := |ws| - 1;
    if i < n {
      BusyCountUpdate(ws[..n], i, w);
      assert ws[i := w][..n] == ws[..n][i := w];
    } else {
      assert ws[i := w][..n] == ws[..n];
    }
  }

  /** What is left to do once the destructor has started. */
  function Rank(p: Pool): int {
    3 * (|p.workers| - PostedCount(p)) + 2 * |p.queue.items| + BusyCount(p.workers)
    + (if p.phase == Joined then 0 else 1)
  }

  lemma RankDrops(p: Pool, s: Step)
    requires Inv(p) && p.phase != Open && Enabled(p, s)
    ensures Rank(Next(p, s)) + (if s.TimeOut? then 0 else 1) <= Rank(p) && Rank(p) >= 0
  {
    hide Fifo, LedgersBalance, BusyCount;
    match s
    case Take(i) =>
      BusyCountUpdate(p.workers, i, Next(p, s).workers[i]);
    case Finish(i) =>
      BusyCountUpdate(p.workers, i, Next(p, s).workers[i]);
    case _ =>
  }

  function ProgressCount(ss: seq<Step>): nat {
    if ss == [] then 0 else ProgressCount(ss[..|ss| - 1]) + (if ss[|ss| - 1].TimeOut? then 0 else 1)
  }

  /** Once the destructor has started, only so many steps other than timeouts can follow. */
  lemma {:induction false} ShutdownIsBounded(p: Pool, ss: seq<Step>)
    requires Inv(p) && p.phase == Closing(0) && Possible(p, ss)
    ensures ProgressCount(ss) + Rank(After(p, ss)) <= Rank(p) && Inv(After(p, ss)) && After(p, ss).phase != Open
  {
    hide Inv, Enabled, Next, Rank;
    if ss != [] {
      var r, s := After(p, ss[..|ss| - 1]), ss[|ss| - 1];
      ShutdownIsBounded(p, ss[..|ss| - 1]);
      RankDrops(r, s);
      StepKeepsInv(r, s);
      NeverReopens(r, s);
    }
  }

  lemma NeverReopens(p: Pool, s: Step)
    requires p.phase != Open && Enabled(p, s)
    ensures Next(p, s).phase != Open
  {
  }

  /** With room in the queue nobody waits for ever: until the workers are joined some thread can move. */
  lemma SomeoneCanMove(p: Pool) returns (s: Step)
    requires Inv(p) && p.phase.Closing? && p.queue.enabled && p.queue.capacity > 0
    ensures Enabled(p, s) && !s.TimeOut?
  {
    hide Fifo, LedgersBalance, TerminateCount, StoppedCount;
    StoppedCountBounds(p.workers);
    TerminateCountNone([]);
    if p.phase.posted < |p.workers| && !Overruns(p.queue) {
      s := PostTerminate;
    } else if i :| 0 <= i < |p.workers| && p.workers[i].state.Busy? {
      s := Finish(i);
    } else if AllStopped(p) {
      s := Join;
    } else {
      var i :| 0 <= i < |p.workers| && p.workers[i].state != Stopped;
      s := Take(i);
    }
  }

  lemma Completes(p: Pool, ss: seq<Step>) returns (tt: seq<Step>)
    requires Inv(p) && p.queue.enabled && p.queue.capacity > 0 && Possible(p, ss)
    requires Inv(After(p, ss)) && After(p, ss).phase != Open
    ensures ss <= tt && Possible(p, tt) && After(p, tt).phase == Joined
    decreases Rank(After(p, ss))
  {
    hide Inv, Possible, After, Rank, Enabled;
    var q := After(p, ss);
    RunKeepsQueue(p, ss);
    if q.phase == Joined {
      tt := ss;
    } else {
      var s := SomeoneCanMove(q);
      RankDrops(q, s);
      StepKeepsInv(q, s);
      NeverReopens(q, s);
      RunPush(p, ss, s);
      tt := Completes(p, ss + [s]);
    }
  }

  /** The destructor can return from a run that has reached it if and only if the queue has room for a
      message: a capacity of zero is always full, and one of 2^64 - 1 wraps to a disabled queue. */
  lemma DestructorReturnsIffRoom(capacity: nat, threads: nat, ss: seq<Step>)
    requires NewPool(capacity, threads).Created? && Possible(NewPool(capacity, threads).pool, ss)
    requires After(NewPool(capacity, threads).pool, ss).phase.Closing?
    ensures var p := NewPool(capacity, threads).pool;
            (exists tt :: ss <= tt && Possible(p, tt) && After(p, tt).phase == Joined) <==> capacity !in {0, TWO64 - 1}
  {
    hide Possible, After, Inv, Next, Enabled;
    var p := NewPool(capacity, threads).pool;
    NewPoolKeeps(capacity, threads);
    RunKeepsInv(p, ss);
    if capacity !in {0, TWO64 - 1} {
      var tt := Completes(p, ss);
    }
    if tt :| ss <= tt && Possible(p, tt) && After(p, tt).phase == Joined {
      RunKeepsInv(p, tt);
      RunKeepsQueue(p, tt);
      JoinedNeedsRoom(After(p, tt));
    }
  }

  lemma JoinedNeedsRoom(p: Pool)
    requires Inv(p) && p.phase == Joined
    ensures p.queue.enabled && p.queue.capacity > 0
  {
  }
}
