/** circular_q: a ring buffer that overruns its oldest element, proved equal to a plain bounded sequence. */
module CircularQueue {
  import opened MachineWords

  // ---------- The bounded sequence ----------

  /** The elements, oldest first, how many fit, and how many have been dropped. A disabled queue (default
      constructed, moved from, or of capacity 2^64 - 1) ignores every push. */
  datatype Bounded<T> = Bounded(items: seq<T>, capacity: nat, enabled: bool, drops: nat)

  // One item is reserved as a marker for a full queue, and the sum is a size_t: it can wrap to nothing.
  function EmptyQueue<T>(capacity: nat): Bounded<T> {
    if capacity == TWO64 - 1 then Bounded([], 0, false, 0) else Bounded([], capacity, true, 0)
  }

  predicate Overruns<T>(q: Bounded<T>) {
    q.enabled && |q.items| == q.capacity
  }

  function Push<T>(q: Bounded<T>, x: T): Bounded<T> {
    if !q.enabled then q
    else if Overruns(q) then q.(items := (q.items + [x])[1..], drops := q.drops + 1)
    else q.(items := q.items + [x])
  }

  function Pop<T>(q: Bounded<T>): Bounded<T>
    requires q.items != []
  {
    q.(items := q.items[1..])
  }

  datatype Op<T> = PushBack(x: T) | PopFront

  /** The queue after a run of operations, if no pop met an empty queue. */
  datatype Run<T> = Run(queue: Bounded<T>, legal: bool)

  function Operate<T>(q: Bounded<T>, ops: seq<Op<T>>): Run<T> {
    if ops == [] then Run(q, true)
    else
      var r := Operate(q, ops[..|ops| - 1]);
      match ops[|ops| - 1]
      case PushBack(x) => r.(queue := Push(r.queue, x))
      case PopFront => if r.queue.items == [] then r.(legal := false) else r.(queue := Pop(r.queue))
  }

  function PushesOf<T>(ops: seq<Op<T>>): seq<T> {
    if ops == [] then []
    else PushesOf(ops[..|ops| - 1]) + (match ops[|ops| - 1] case PushBack(x) => [x] case PopFront => [])
  }

  function PopsOf<T>(ops: seq<Op<T>>): nat {
    if ops == [] then 0 else PopsOf(ops[..|ops| - 1]) + (if ops[|ops| - 1].PopFront? then 1 else 0)
  }

  /** How many elements there are after a run on a queue for `capacity` of them: a push adds one while there is
      room. */
  function Held<T>(ops: seq<Op<T>>, capacity: nat): int {
    if ops == [] then 0
    else
      var n := Held(ops[..|ops| - 1], capacity);
      if ops[|ops| - 1].PopFront? then n - 1 else if n < capacity then n + 1 else capacity
  }

  /** First in, first out, with losses only at the old end and only when `capacity` elements are there: whatever
      the run of a newly constructed queue, it holds the last elements pushed, as many as there was room for,
      and every element pushed was popped, dropped or is still there. */
  lemma {:induction false} QueueIsSuffixOfPushes<T>(capacity: nat, ops: seq<Op<T>>)
    requires capacity < TWO64 - 1 && Operate(EmptyQueue(capacity), ops).legal
    ensures var q := Operate(EmptyQueue(capacity), ops).queue;
            && q.enabled && q.capacity == capacity && |q.items| == Held(ops, capacity) <= capacity
            && PopsOf(ops) + q.drops + |q.items| == |PushesOf(ops)|
            && q.items == PushesOf(ops)[PopsOf(ops) + q.drops..]
  {
    if ops != [] {
      QueueIsSuffixOfPushes(capacity, ops[..|ops| - 1]);
    }
  }

  function Pushing<T>(xs: seq<T>): seq<Op<T>> {
    seq(|xs|, i requires 0 <= i < |xs| => PushBack(xs[i]))
  }

  lemma {:induction false} PushingRuns<T>(q: Bounded<T>, xs: seq<T>, capacity: nat)
    ensures Operate(q, Pushing(xs)).legal && PushesOf(Pushing(xs)) == xs && PopsOf(Pushing(xs)) == 0
    ensures Held(Pushing(xs), capacity) == if |xs| <= capacity then |xs| else capacity
  {
    if xs != [] {
      var n := |xs| - 1;
      PushingRuns(q, xs[..n], capacity);
      assert Pushing(xs)[..n] == Pushing(xs[..n]) && xs[..n] + [xs[n]] == xs;
    }
  }

  /** A new queue for c elements keeps the last c of those pushed, and drops the others. */
  lemma PushesOntoNewQueue<T>(capacity: nat, xs: seq<T>)
    requires capacity < TWO64 - 1
    ensures var q := Operate(EmptyQueue(capacity), Pushing(xs)).queue;
            var lost := if |xs| <= capacity then 0 else |xs| - capacity;
            q.items == xs[lost..] && q.drops == lost
  {
    hide Operate, Held, Pushing, EmptyQueue, PushesOf, PopsOf;
    PushingRuns(EmptyQueue(capacity), xs, capacity);
    QueueIsSuffixOfPushes(capacity, Pushing(xs));
  }

  /** One for 2^64 - 1 elements keeps none and counts nothing: the size_t has wrapped. */
  lemma {:induction false} NothingEntersWrappedQueue<T>(ops: seq<Op<T>>)
    requires Operate(EmptyQueue(TWO64 - 1), ops).legal
    ensures var q := Operate(EmptyQueue(TWO64 - 1), ops).queue; q.items == [] && q.drops == 0 && !q.enabled
  {
    if ops != [] {
      NothingEntersWrappedQueue(ops[..|ops| - 1]);
    }
  }

  // ---------- The ring ----------

  // The elements from position head round to just before tail.
  function Window<T>(s: seq<T>, head: nat, tail: nat): seq<T>
    requires head <= |s| && tail <= |s|
  {
    if head <= tail then s[head..tail] else s[head..] + s[..tail]
  }

  // A position on a ring of n places.
  function Around(i: nat, n: nat): nat
    requires n > 0
  {
    i % n
  }

  lemma AroundOnce(i: nat, n: nat)
    requires i < 2 * n
    ensures Around(i, n) == if i < n then i else i - n
  {
  }

  lemma WindowPush<T>(s: seq<T>, head: nat, tail: nat, x: T)
    requires head < |s| && tail < |s| && Around(tail + 1, |s|) != head
    ensures Window(s[tail := x], head, Around(tail + 1, |s|)) == Window(s, head, tail) + [x]
    ensures |Window(s, head, tail)| < |s| - 1
  {
    hide Around;
    AroundOnce(tail + 1, |s|);
    var t := s[tail := x];
    if head <= tail {
      if tail + 1 < |s| {
        assert t[head..tail + 1] == s[head..tail] + [x];
      } else {
        assert t[head..] + t[..0] == s[head..tail] + [x];
      }
    } else {
      assert t[head..] + t[..tail + 1] == (s[head..] + s[..tail]) + [x];
    }
  }

  lemma WindowOverrun<T>(s: seq<T>, head: nat, tail: nat, x: T)
    requires head < |s| && tail < |s| && Around(tail + 1, |s|) == head
    ensures Window(s[tail := x], Around(head + 1, |s|), head) == (Window(s, head, tail) + [x])[1..]
    ensures |Window(s, head, tail)| == |s| - 1
  {
    hide Around;
    AroundOnce(tail + 1, |s|);
    AroundOnce(head + 1, |s|);
    var t := s[tail := x];
    if head == 0 {
      if |s| > 1 {
        assert t[1..] + t[..0] == (s[0..tail] + [x])[1..];
      }
    } else if head + 1 < |s| {
      assert t[head + 1..] + t[..head] == ((s[head..] + s[..tail]) + [x])[1..];
    } else {
      assert t[0..head] == ((s[head..] + s[..tail]) + [x])[1..];
    }
  }

  lemma WindowPop<T>(s: seq<T>, head: nat, tail: nat)
    requires head < |s| && tail < |s| && head != tail
    ensures Window(s, head, tail) != [] && Around(head + 1, |s|) < |s|
    ensures Window(s, Around(head + 1, |s|), tail) == Window(s, head, tail)[1..]
  {
    hide Around;
    AroundOnce(head + 1, |s|);
    if head > tail {
      assert (s[head..] + s[..tail])[1..] == s[head + 1..] + s[..tail];
    }
  }

  class CircularQ<T(0)> {
    var maxItems: nat
    var head: nat
    var tail: nat
    var overrunCounter: nat
    var v: array<T>
    ghost var drops: nat

    ghost predicate Valid()
      reads this
    {
      && v.Length == maxItems < TWO64 && overrunCounter == drops % TWO64
      && (if maxItems == 0 then head == tail == 0 else head < maxItems && tail < maxItems)
    }

    ghost function View(): (q: Bounded<T>)
      requires Valid()
      reads this, v
    {
      Bounded(Window(v[..], head, tail), if maxItems == 0 then 0 else maxItems - 1, maxItems > 0, drops)
    }

    constructor Disabled()
      ensures Valid() && fresh(v) && View() == Bounded([], 0, false, 0)
    {
      maxItems, head, tail, overrunCounter, drops := 0, 0, 0, 0, 0;
      v := new T[0];
    }

    constructor (capacity: nat)
      requires capacity < TWO64
      ensures Valid() && fresh(v) && View() == EmptyQueue(capacity)
    {
      maxItems, head, tail, overrunCounter, drops := (capacity + 1) % TWO64, 0, 0, 0, 0;
      v := new T[(capacity + 1) % TWO64];
    }

    /** The move constructor and move assignment: the other queue is left disabled, and so is a queue that is
        moved onto itself. */
    method MoveFrom(other: CircularQ<T>)
      requires other.Valid()
      modifies this, other
      ensures Valid() && (this != other ==> View() == old(other.View()) && v == old(other.v))
      ensures other.Valid() && other.View() == Bounded([], 0, false, 0) && fresh(other.v)
    {
      maxItems := other.maxItems;
      head := other.head;
      tail := other.tail;
      overrunCounter, drops := other.overrunCounter, other.drops;
      v := other.v;
      other.maxItems := 0;
      other.head, other.tail := 0, 0;
      other.overrunCounter, other.drops := 0, 0;
      other.v := new T[0];
    }

    method PushBack(item: T)
      requires Valid()
      modifies this, v
      ensures Valid() && v == old(v) && View() == Push(old(View()), item)
    {
      hide Around, Window;
      if maxItems > 0 {
        ghost var was := v[..];
        v[tail] := item;
        assert v[..] == was[tail := item];
        AroundOnce(tail + 1, maxItems);
        AroundOnce(head + 1, maxItems);
        if Around(tail + 1, maxItems) == head {
          WindowOverrun(was, head, tail, item);
        } else {
          WindowPush(was, head, tail, item);
        }
        tail := Around(tail + 1, maxItems);
        // overrun last item if full
        if tail == head {
          head := Around(head + 1, maxItems);
          overrunCounter := (overrunCounter + 1) % TWO64;
          drops := drops + 1;
        }
      }
    }

    method Front() returns (x: T)
      requires Valid() && View().items != []
      ensures x == View().items[0]
    {
      x := v[head];
    }

    method Size() returns (n: nat)
      requires Valid()
      ensures n == |View().items|
    {
      if tail >= head {
        n := tail - head;
      } else {
        n := maxItems - (head - tail);
      }
    }

    method At(i: nat) returns (x: T)
      requires Valid() && i < |View().items|
      ensures x == View().items[i]
    {
      hide Around;
      AroundOnce(head + i, maxItems);
      x := v[Around(head + i, maxItems)];
    }

    method PopFront()
      requires Valid() && View().items != []
      modifies this`head
      ensures Valid() && View() == Pop(old(View()))
    {
      hide Around;
      WindowPop(v[..], head, tail);
      head := Around(head + 1, maxItems);
    }

    method Empty() returns (b: bool)
      requires Valid()
      ensures b <==> View().items == []
    {
      b := tail == head;
    }

    /** A queue of capacity 0 is empty and full at once; a disabled queue is never full. */
    method Full() returns (b: bool)
      requires Valid()
      ensures b <==> Overruns(View())
    {
      hide Around;
      if maxItems > 0 {
        AroundOnce(tail + 1, maxItems);
        b := Around(tail + 1, maxItems) == head;
      } else {
        b := false;
      }
    }

    method OverrunCounter() returns (n: nat)
      requires Valid()
      ensures n == View().drops % TWO64
    {
      n := overrunCounter;
    }
  }
}
