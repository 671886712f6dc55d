/** The loops of thread_pool on a real queue, each run by a thread that is alone with it for the moment. */
module WorkerLoops {
  import opened CircularQueue
  import opened BlockingQueue
  import opened ThreadPool

  method PostAsyncMsg(q: MpmcBlockingQueue<AsyncMsg>, msg: AsyncMsg, policy: Policy) returns (entered: bool)
    requires q.Valid()
    modifies q.q, q.q.v
    ensures q.Valid() && q.q.v == old(q.q.v)
    ensures entered <==> policy == OverrunOldest || !Overruns(old(q.View()))
    ensures q.View() == if entered then Push(old(q.View()), msg) else old(q.View())
  {
    if policy == Block {
      entered := q.Enqueue(msg);
    } else {
      q.EnqueueNowait(msg);
      entered := true;
    }
  }

  /** Takes one message, if there is one, and passes it on to its logger; returns false for a terminate
      message only. */
  method ProcessNextMsg(q: MpmcBlockingQueue<AsyncMsg>) returns (active: bool, handled: seq<AsyncMsg>)
    requires q.Valid()
    modifies q.q
    ensures q.Valid() && q.q.v == old(q.q.v)
    ensures var was := old(q.View()).items;
            if was == [] then active && handled == [] && q.View().items == []
            else active == (was[0] != Terminate) && handled == (if active then [was[0]] else [])
                 && q.View().items == was[1..]
  {
    var incoming := q.DequeueFor();
    match incoming
    case None =>
      active, handled := true, [];
    case Some(m) =>
      match m
      case Log(_) => active, handled := true, [m];
      case Flush(_) => active, handled := true, [m];
      case Terminate => active, handled := false, [];
  }

  // handled, then the terminate message if there was one, then what is left.
  predicate Worked(active: bool, handled: seq<AsyncMsg>, left: seq<AsyncMsg>, all: seq<AsyncMsg>) {
    && Terminate !in handled
    && if active then handled + left == all && Terminate in left else handled + [Terminate] + left == all
  }

  lemma WorkedStep(handled: seq<AsyncMsg>, left: seq<AsyncMsg>, all: seq<AsyncMsg>)
    requires Worked(true, handled, left, all)
    ensures left != []
    ensures left[0] == Terminate ==> Worked(false, handled + [], left[1..], all)
    ensures left[0] != Terminate ==> Worked(true, handled + [left[0]], left[1..], all)
  {
    assert left == [left[0]] + left[1..];
    if left[0] != Terminate {
      assert handled + [left[0]] + left[1..] == handled + left;
    } else {
      assert handled + [] == handled && handled + [Terminate] + left[1..] == handled + left;
    }
  }

  /** Handles everything in front of the first terminate message, in order, and consumes that one. */
  method WorkerLoop(q: MpmcBlockingQueue<AsyncMsg>) returns (handled: seq<AsyncMsg>)
    requires q.Valid() && Terminate in q.View().items
    modifies q.q
    ensures q.Valid() && q.q.v == old(q.q.v)
    ensures Terminate !in handled && handled + [Terminate] + q.View().items == old(q.View()).items
  {
    hide Worked;
    handled := [];
    var active := true;
    WorkedStart(q.View().items);
    while active
      invariant q.Valid() && q.q.v == old(q.q.v)
      invariant Worked(active, handled, q.View().items, old(q.View()).items)
      decreases active, |q.View().items|
    {
      WorkedStep(handled, q.View().items, old(q.View()).items);
      var passedOn;
      active, passedOn := ProcessNextMsg(q);
      handled := handled + passedOn;
    }
    WorkedEnd(handled, q.View().items, old(q.View()).items);
  }

  lemma WorkedStart(all: seq<AsyncMsg>)
    requires Terminate in all
    ensures Worked(true, [], all, all)
  {
    assert [] + all == all;
  }

  lemma WorkedEnd(handled: seq<AsyncMsg>, left: seq<AsyncMsg>, all: seq<AsyncMsg>)
    requires Worked(false, handled, left, all)
    ensures Terminate !in handled && handled + [Terminate] + left == all
  {
  }

  /** The destructor's posting loop, up to the message it has to wait with. */
  method PostTerminates(q: MpmcBlockingQueue<AsyncMsg>, threads: nat) returns (posted: nat)
    requires q.Valid()
    modifies q.q, q.q.v
    ensures q.Valid() && q.q.v == old(q.q.v) && posted <= threads && (posted < threads ==> Overruns(q.View()))
    ensures q.View().drops == old(q.View()).drops
    ensures old(q.View()).enabled ==> q.View().items == old(q.View()).items + Terminates(posted)
  {
    posted := 0;
    while posted < threads
      invariant q.Valid() && q.q.v == old(q.q.v) && 0 <= posted <= threads
      invariant q.View().drops == old(q.View()).drops && q.View().enabled == old(q.View()).enabled
      invariant q.View().enabled ==> q.View().items == old(q.View()).items + Terminates(posted)
    {
      var entered := PostAsyncMsg(q, Terminate, Block);
      if !entered {
        return;
      }
      assert Terminates(posted) + [Terminate] == Terminates(posted + 1);
      posted := posted + 1;
    }
  }
}
