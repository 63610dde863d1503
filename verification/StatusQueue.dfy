/** The bounded queue of status messages: a linked list, a counter and a semaphore, with the
    oldest message dropped on overflow. */
module StatusQueue {
  import opened Bytes

  const MAX_STATUS_MESSAGE_QUEUED := 10

  datatype Status = Success | QueueFull | QueueEmpty | StatusTimeout

  // ---------------------------------------------------------------------------
  // The two sections under the queue's mutex
  // ---------------------------------------------------------------------------

  /** The queue after an enqueue. */
  function Push<M>(q: seq<M>, m: M): seq<M> {
    if |q| >= MAX_STATUS_MESSAGE_QUEUED then (q + [m])[1..] else q + [m]
  }

  /** Whether an enqueue posts the semaphore. */
  predicate Posts<M>(q: seq<M>) {
    |q| < MAX_STATUS_MESSAGE_QUEUED
  }

  // ---------------------------------------------------------------------------
  // The list
  // ---------------------------------------------------------------------------

  class Element<M> {
    const msg: M
    var next: Element?<M>

    constructor (m: M)
      ensures msg == m && next == null
    {
      msg, next := m, null;
    }
  }

  class Queue<M> {
    var head: Element?<M>
    var count: int
    var sem: nat

    ghost var spine: seq<Element<M>>

    /** The list from head to its end is the spine. */
    ghost predicate Linked()
      reads `head, `spine, spine
    {
      && (head == null <==> spine == [])
      && (head != null ==> head == spine[0])
      && (forall i, j | 0 <= i < j < |spine| :: spine[i] != spine[j])
      && (forall i | 0 <= i < |spine| - 1 :: spine[i].next == spine[i + 1])
      && (spine != [] ==> spine[|spine| - 1].next == null)
    }

    ghost predicate Valid()
      reads this, spine
    {
      Linked() && count == |spine| <= MAX_STATUS_MESSAGE_QUEUED
    }

    ghost function Contents(): (s: seq<M>)
      reads this
      ensures |s| == |spine|
    {
      seq(|spine|, i requires 0 <= i < |spine| reads this => spine[i].msg)
    }

    constructor ()
      ensures Valid() && Contents() == [] && sem == 0
    {
      head, count, sem, spine := null, 0, 0, [];
    }

    /** Link an element behind the last one. */
    method Append(elmt: Element<M>)
      requires Linked() && elmt.next == null && elmt !in spine
      modifies this`head, this`spine, spine
      ensures Linked() && head != null && spine == old(spine) + [elmt]
    {
      if head == null {
        head := elmt;
      } else {
        var tail := head;
        ghost var i := 0;
        while tail.next != null
          invariant i < |spine| && tail == spine[i]
          invariant tail.next == if i < |spine| - 1 then spine[i + 1] else null
          decreases |spine| - i
        {
          tail := tail.next;
          i := i + 1;
        }
        tail.next := elmt;
      }
      spine := spine + [elmt];
    }

    /** Unlink the first element. */
    method RemoveHead()
      requires Linked() && head != null
      modifies this`head, this`spine
      ensures Linked() && spine == old(spine)[1..]
    {
      assert |spine| > 1 ==> spine[0].next == spine[1];
      head := head.next;
      spine := spine[1..];
    }

    /** enqueue_status_msg. */
    method Enqueue(m: M) returns (retval: Status)
      requires Valid()
      modifies this, spine
      ensures Valid() && Contents() == Push(old(Contents()), m)
      ensures retval == (if Posts(old(Contents())) then Success else QueueFull)
      ensures sem == old(sem) + if Posts(old(Contents())) then 1 else 0
      ensures forall e | e in spine :: e in old(spine) || fresh(e)
    {
      hide Linked;
      var elmt := new Element(m);
      Append(elmt);
      if count >= MAX_STATUS_MESSAGE_QUEUED {
        RemoveHead();
        retval := QueueFull;
      } else {
        count := count + 1;
        sem := sem + 1;
        retval := Success;
      }
    }

    /** dequeue_status_msg: the pend, which times out if nothing is posted, and the pop. */
    method Dequeue() returns (retval: Status, m: Option<M>)
      requires Valid()
      modifies this
      ensures Valid()
      ensures old(sem) == 0 ==> retval == StatusTimeout && Contents() == old(Contents()) && sem == 0
      ensures old(sem) > 0 ==> sem == old(sem) - 1
      ensures old(sem) > 0 && old(Contents()) == [] ==> retval == QueueEmpty && Contents() == []
      ensures old(sem) > 0 && old(Contents()) != [] ==>
                retval == Success && m == Some(old(Contents())[0]) && Contents() == old(Contents())[1..]
    {
      if sem == 0 {
        return StatusTimeout, None;
      }
      sem := sem - 1;
      if head != null {
        m := Some(head.msg);
        RemoveHead();
        count := count - 1;
        retval := Success;
      } else {
        retval, m := QueueEmpty, None;
      }
    }
  }

  // ---------------------------------------------------------------------------
  // Any number of producers and consumers
  // ---------------------------------------------------------------------------

  /** How a message left the queue; `at` is the number of messages enqueued by then. */
  datatype Fate = Delivered | Lost(at: nat)

  datatype Left<M> = Left(msg: M, fate: Fate)

  /** The queue, the consumers between pend and pop, and the history. */
  datatype System<M> = System(
    queue: seq<M>, count: int, sem: nat, pended: nat,
    enqueued: seq<M>, left: seq<Left<M>>, sawEmpty: bool)

  datatype Step<M> = Enqueue(m: M) | Pend | Pop

  function Initial<M>(): System<M> {
    System([], 0, 0, 0, [], [], false)
  }

  predicate Enabled<M>(s: System<M>, step: Step<M>) {
    match step
    case Enqueue(_) => true
    case Pend => s.sem > 0
    case Pop => s.pended > 0
  }

  function Apply<M>(s: System<M>, step: Step<M>): System<M>
    requires Enabled(s, step)
  {
    match step
    case Enqueue(m) =>
      var t := s.(enqueued := s.enqueued + [m]);
      if s.count >= MAX_STATUS_MESSAGE_QUEUED then
        var all := s.queue + [m];
        t.(queue := all[1..], left := s.left + [Left(all[0], Lost(|t.enqueued|))])
      else
        t.(queue := s.queue + [m], count := s.count + 1, sem := s.sem + 1)
    case Pend => s.(sem := s.sem - 1, pended := s.pended + 1)
    case Pop =>
      if s.queue == [] then s.(pended := s.pended - 1, sawEmpty := true)
      else s.(pended := s.pended - 1, queue := s.queue[1..], count := s.count - 1,
              left := s.left + [Left(s.queue[0], Delivered)])
  }

  function Run<M>(steps: seq<Step<M>>): Option<System<M>> {
    if steps == [] then Some(Initial())
    else
      var s := Run(steps[..|steps| - 1]);
      if s.Some? && Enabled(s.value, steps[|steps| - 1]) then Some(Apply(s.value, steps[|steps| - 1])) else None
  }

  function Messages<M>(left: seq<Left<M>>): (ms: seq<M>)
    ensures |ms| == |left|
  {
    seq(|left|, i requires 0 <= i < |left| => left[i].msg)
  }

  /** List, counter and semaphore agree; every message left in the order it came, or is still
      queued; it was lost only as the oldest of eleven; no consumer found the queue empty. */
  ghost predicate Inv<M>(s: System<M>) {
    && |s.queue| == s.count <= 10
    && s.count == s.sem + s.pended
    && s.enqueued == Messages(s.left) + s.queue
    && (forall k | 0 <= k < |s.left| && s.left[k].fate.Lost? :: s.left[k].fate.at == k + 11)
    && !s.sawEmpty
  }

  /** Main result, in every interleaving. */
  lemma {:induction false} RunKeepsInv<M>(steps: seq<Step<M>>)
    ensures Run(steps).Some? ==> Inv(Run(steps).value)
  {
    if steps != [] {
      var s, step := Run(steps[..|steps| - 1]), steps[|steps| - 1];
      RunKeepsInv(steps[..|steps| - 1]);
      if s.Some? && Enabled(s.value, step) {
        var t := Apply(s.value, step);
        if |t.left| > |s.value.left| {
          assert Messages(t.left) == Messages(s.value.left) + [t.left[|s.value.left|].msg];
        }
        assert t.enqueued == Messages(t.left) + t.queue;
      }
    }
  }

  lemma RunSnoc<M>(steps: seq<Step<M>>, step: Step<M>)
    requires Run(steps).Some? && Enabled(Run(steps).value, step)
    ensures Run(steps + [step]) == Some(Apply(Run(steps).value, step))
  {
    assert (steps + [step])[..|steps|] == steps;
  }

  /** A consumer behind its pend takes the oldest message; with none there it can pend as long as a message is
      queued. */
  lemma NextDelivers<M>(s: System<M>) returns (step: Step<M>)
    requires Inv(s) && s.queue != []
    ensures Enabled(s, step)
    ensures var t := Apply(s, step);
            && 2 * |t.queue| + t.sem < 2 * |s.queue| + s.sem && t.enqueued == s.enqueued
            && (if s.pended == 0 then t == s.(sem := s.sem - 1, pended := 1)
                else t.queue == s.queue[1..] && t.left == s.left + [Left(s.queue[0], Delivered)])
  {
    step := if s.pended > 0 then Pop else Pend;
  }

  /** Main result: from every reachable state the consumers alone can take every queued message, in order. */
  lemma {:induction false} CanDrain<M>(steps: seq<Step<M>>) returns (all: seq<Step<M>>)
    requires Run(steps).Some?
    ensures steps <= all && Run(all).Some?
    ensures var s, t := Run(steps).value, Run(all).value;
            && t.queue == [] && t.sem == 0 && t.pended == 0
            && t.left == s.left + seq(|s.queue|, i requires 0 <= i < |s.queue| => Left(s.queue[i], Delivered))
    decreases 2 * |Run(steps).value.queue| + Run(steps).value.sem
  {
    hide Apply, Enabled;
    RunKeepsInv(steps);
    var s := Run(steps).value;
    all := steps;
    if s.queue != [] {
      var step := NextDelivers(s);
      RunSnoc(steps, step);
      all := CanDrain(steps + [step]);
    }
  }

  /** The machine's enqueue is that of the list. */
  lemma EnqueueIsPush<M>(s: System<M>, m: M)
    requires Inv(s)
    ensures Apply(s, Enqueue(m)).queue == Push(s.queue, m)
    ensures Apply(s, Enqueue(m)).sem == s.sem + if Posts(s.queue) then 1 else 0
  {
  }
}
