/** mpmc_blocking_queue: each operation is one step under the queue's mutex. A step that has to wait for its
    condition leaves the queue alone and says so. */
module BlockingQueue {
  import opened MachineWords
  import opened CircularQueue

  datatype Option<T> = None | Some(value: T)

  class MpmcBlockingQueue<T(0)> {
    const q: CircularQ<T>

    ghost predicate Valid()
      reads this, q
    {
      q.Valid()
    }

    ghost function View(): Bounded<T>
      requires Valid()
      reads this, q, q.v
    {
      q.View()
    }

    constructor (maxItems: nat)
      requires maxItems < TWO64
      ensures Valid() && fresh(q) && fresh(q.v) && View() == EmptyQueue(maxItems)
    {
      q := new CircularQ(maxItems);
    }

    /** Blocks while the queue is full, so it never drops anything. */
    method Enqueue(item: T) returns (entered: bool)
      requires Valid()
      modifies q, q.v
      ensures Valid() && q.v == old(q.v) && (entered <==> !Overruns(old(View())))
      ensures View() == if entered then Push(old(View()), item) else old(View())
      ensures View().drops == old(View()).drops
    {
      var full := q.Full();
      entered := !full;
      if entered {
        q.PushBack(item);
      }
    }

    /** Enters at once, dropping the oldest item if there is no room. */
    method EnqueueNowait(item: T)
      requires Valid()
      modifies q, q.v
      ensures Valid() && q.v == old(q.v) && View() == Push(old(View()), item)
      ensures View().drops == old(View()).drops + (if Overruns(old(View())) then 1 else 0)
    {
      q.PushBack(item);
    }

    /** Waits for an item; gives up, with nothing taken, if the time is over and the queue still empty. */
    method DequeueFor() returns (item: Option<T>)
      requires Valid()
      modifies q
      ensures Valid() && q.v == old(q.v)
      ensures if old(View()).items == [] then item == None && View() == old(View())
              else item == Some(old(View()).items[0]) && View() == Pop(old(View()))
    {
      var empty := q.Empty();
      if empty {
        return None;
      }
      var x := q.Front();
      q.PopFront();
      item := Some(x);
    }

    method OverrunCounter() returns (n: nat)
      requires Valid()
      ensures n == View().drops % TWO64
    {
      n := q.OverrunCounter();
    }

    method Size() returns (n: nat)
      requires Valid()
      ensures n == |View().items|
    {
      n := q.Size();
    }
  }
}
