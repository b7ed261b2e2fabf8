/** SafeQueue: the bounded producer/consumer queue.

    A call runs as a series of sections.  One section is what the calling thread does from
    taking the mutex to giving it up, which is either a return or a wait.  QueueModel says
    what each section does to the shared state, the class SafeQueue performs it in place,
    and QueueProtocol lets any number of threads interleave their sections. */
module QueueModel {
  import opened Monitor

  datatype Queue<T> = Queue(items: seq<T>, maxSize: nat, running: bool,
                            notEmpty: CondVar, notFull: CondVar)
  {
    predicate Full() {
      maxSize > 0 && |items| >= maxSize
    }
  }

  /** What a section ended with.  Only Blocked leaves the call unfinished. */
  datatype Outcome<T> = Blocked | Accepted | Refused | Got(item: T) | Nothing | Threw | Done

  function Admit<T>(q: Queue<T>, item: T, pick: Thread): Queue<T> {
    q.(items := q.items + [item], notEmpty := q.notEmpty.NotifyOne(pick))
  }

  function TakeFront<T>(q: Queue<T>, pick: Thread): (Queue<T>, Outcome<T>)
    requires q.items != []
  {
    (q.(items := q.items[1..], notFull := q.notFull.NotifyOne(pick)), Got(q.items[0]))
  }

  function Push<T>(q0: Queue<T>, t: Thread, item: T, pick: Thread): (Queue<T>, Outcome<T>) {
    var q := q0.(notFull := q0.notFull.Leave(t));
    if q.running && q.Full() then (q.(notFull := q.notFull.Park(t)), Blocked)
    else if !q.running then (q, Refused)
    else (Admit(q, item, pick), Accepted)
  }

  function TryPush<T>(q: Queue<T>, item: T, pick: Thread): (Queue<T>, Outcome<T>) {
    if !q.running || q.Full() then (q, Refused) else (Admit(q, item, pick), Accepted)
  }

  function Pop<T>(q0: Queue<T>, t: Thread, pick: Thread): (Queue<T>, Outcome<T>) {
    var q := q0.(notEmpty := q0.notEmpty.Leave(t));
    if q.items != [] then TakeFront(q, pick)
    else if q.running then (q.(notEmpty := q.notEmpty.Park(t)), Blocked)
    else (q, Threw)
  }

  function TryPop<T>(q: Queue<T>, pick: Thread): (Queue<T>, Outcome<T>) {
    if !q.running || q.items == [] then (q, Nothing) else TakeFront(q, pick)
  }

  function PopFor<T>(q0: Queue<T>, t: Thread, timedOut: bool, pick: Thread): (Queue<T>, Outcome<T>) {
    var q := q0.(notEmpty := q0.notEmpty.Leave(t));
    if !q.running then (q, Nothing)
    else if q.items != [] then TakeFront(q, pick)
    else if timedOut then (q, Nothing)
    else (q.(notEmpty := q.notEmpty.Park(t)), Blocked)
  }

  function Clear<T>(q: Queue<T>): Queue<T> {
    q.(items := [], notFull := q.notFull.NotifyAll())
  }

  function SetMaxSize<T>(q: Queue<T>, n: nat): Queue<T> {
    if n > 0 && |q.items| < n then q.(maxSize := n, notFull := q.notFull.NotifyAll()) else q.(maxSize := n)
  }

  function Stop<T>(q: Queue<T>): Queue<T> {
    q.(running := false, notEmpty := q.notEmpty.NotifyAll(), notFull := q.notFull.NotifyAll())
  }

  function Start<T>(q: Queue<T>): Queue<T> {
    q.(running := true)
  }
}

/** The queue object itself, section by section.  `t` is the calling thread and `pick` the
    waiter that notify_one happens to reach. */
module SafeQueueObject {
  import opened Monitor
  import M = QueueModel

  class SafeQueue<T> {
    var items: seq<T>
    var maxSize: nat
    var running: bool
    var notEmpty: CondVar
    var notFull: CondVar

    function Snapshot(): M.Queue<T>
      reads this
    {
      M.Queue(items, maxSize, running, notEmpty, notFull)
    }

    constructor (maxSize: nat)
      ensures Snapshot() == M.Queue([], maxSize, true, NOBODY, NOBODY)
    {
      this.items, this.maxSize, this.running := [], maxSize, true;
      this.notEmpty, this.notFull := NOBODY, NOBODY;
    }

    method Push(t: Thread, item: T, pick: Thread) returns (outcome: M.Outcome<T>)
      modifies this
      ensures (Snapshot(), outcome) == M.Push(old(Snapshot()), t, item, pick)
    {
      notFull := notFull.Leave(t);
      if running && maxSize > 0 && |items| >= maxSize {
        notFull := notFull.Park(t);
        return M.Blocked;
      }
      if !running {
        return M.Refused;
      }
      items := items + [item];
      notEmpty := notEmpty.NotifyOne(pick);
      return M.Accepted;
    }

    method TryPush(item: T, pick: Thread) returns (outcome: M.Outcome<T>)
      modifies this
      ensures (Snapshot(), outcome) == M.TryPush(old(Snapshot()), item, pick)
    {
      if !running || (maxSize > 0 && |items| >= maxSize) {
        return M.Refused;
      }
      items := items + [item];
      notEmpty := notEmpty.NotifyOne(pick);
      return M.Accepted;
    }

    method Pop(t: Thread, pick: Thread) returns (outcome: M.Outcome<T>)
      modifies this
      ensures (Snapshot(), outcome) == M.Pop(old(Snapshot()), t, pick)
    {
      notEmpty := notEmpty.Leave(t);
      if running && items == [] {
        notEmpty := notEmpty.Park(t);
        return M.Blocked;
      }
      if !running && items == [] {
        return M.Threw;
      }
      var item := items[0];
      items := items[1..];
      notFull := notFull.NotifyOne(pick);
      return M.Got(item);
    }

    method TryPop(pick: Thread) returns (outcome: M.Outcome<T>)
      modifies this
      ensures (Snapshot(), outcome) == M.TryPop(old(Snapshot()), pick)
    {
      if !running || items == [] {
        return M.Nothing;
      }
      var item := items[0];
      items := items[1..];
      notFull := notFull.NotifyOne(pick);
      return M.Got(item);
    }

    /** `timedOut` says that the deadline had passed when this thread last woke. */
    method PopFor(t: Thread, timedOut: bool, pick: Thread) returns (outcome: M.Outcome<T>)
      modifies this
      ensures (Snapshot(), outcome) == M.PopFor(old(Snapshot()), t, timedOut, pick)
    {
      notEmpty := notEmpty.Leave(t);
      var ready := !running || items != [];
      if !ready && !timedOut {
        notEmpty := notEmpty.Park(t);
        return M.Blocked;
      }
      if !ready || !running || items == [] {
        return M.Nothing;
      }
      var item := items[0];
      items := items[1..];
      notFull := notFull.NotifyOne(pick);
      return M.Got(item);
    }

    method Clear()
      modifies this
      ensures Snapshot() == M.Clear(old(Snapshot()))
    {
      while items != []
        invariant unchanged(`maxSize, `running, `notEmpty, `notFull)
        decreases |items|
      {
        items := items[1..];
      }
      notFull := notFull.NotifyAll();
    }

    method SetMaxSize(n: nat)
      modifies this
      ensures Snapshot() == M.SetMaxSize(old(Snapshot()), n)
    {
      maxSize := n;
      if maxSize > 0 && |items| < maxSize {
        notFull := notFull.NotifyAll();
      }
    }

    method Stop()
      modifies this
      ensures Snapshot() == M.Stop(old(Snapshot()))
    {
      running := false;
      notEmpty := notEmpty.NotifyAll();
      notFull := notFull.NotifyAll();
    }

    method Start()
      modifies this
      ensures Snapshot() == M.Start(old(Snapshot()))
    {
      running := true;
    }
  }
}

/** Any number of threads calling one queue, in every order the mutex allows. */
module QueueProtocol {
  import opened Basics
  import opened Monitor
  import opened QueueModel

  datatype Call<T> = InPush(item: T) | InTryPush(item: T) | InPop | InTryPop | InPopFor(timedOut: bool)
                   | InClear | InSetMaxSize(n: nat) | InStop | InStart

  /** `accepted` logs who pushed what, in order; `removed` logs every item that left the queue,
      in order, with the consumer that got it or None for Clear. */
  datatype System<T> = System(queue: Queue<T>, calls: map<Thread, Call<T>>,
                              accepted: seq<Sent<T>>, removed: seq<Taken<T>>)
  datatype Sent<T> = Sent(producer: Thread, item: T)
  datatype Taken<T> = Delivered(consumer: Thread, item: T) | Cleared(item: T)

  datatype Event<T> = Begin(t: Thread, call: Call<T>) | Section(t: Thread, pick: Thread)
                    | SpuriousWake(t: Thread) | Timeout(t: Thread)

  function Initial<T>(maxSize: nat): System<T> {
    System(Queue([], maxSize, true, NOBODY, NOBODY), map[], [], [])
  }

  predicate Enabled<T>(s: System<T>, e: Event<T>) {
    match e
    case Begin(t, call) => t !in s.calls && (call.InPopFor? ==> !call.timedOut)
    case Section(t, pick) =>
      && t in s.calls && t !in s.queue.notEmpty.waiting && t !in s.queue.notFull.waiting
      && (s.calls[t].InPush? || s.calls[t].InTryPush? ==> s.queue.notEmpty.CanWake(pick))
      && (s.calls[t].InPop? || s.calls[t].InTryPop? || s.calls[t].InPopFor? ==> s.queue.notFull.CanWake(pick))
    case SpuriousWake(t) => t in s.queue.notEmpty.waiting || t in s.queue.notFull.waiting
    case Timeout(t) =>
      && t in s.calls && s.calls[t].InPopFor?
      && (t in s.queue.notEmpty.waiting || t in s.queue.notEmpty.signalled)
  }

  function RunSection<T>(q: Queue<T>, t: Thread, call: Call<T>, pick: Thread): (Queue<T>, Outcome<T>) {
    match call
    case InPush(item) => Push(q, t, item, pick)
    case InTryPush(item) => TryPush(q, item, pick)
    case InPop => Pop(q, t, pick)
    case InTryPop => TryPop(q, pick)
    case InPopFor(timedOut) => PopFor(q, t, timedOut, pick)
    case InClear => (Clear(q), Done)
    case InSetMaxSize(n) => (SetMaxSize(q, n), Done)
    case InStop => (Stop(q), Done)
    case InStart => (Start(q), Done)
  }

  function ClearedAll<T>(items: seq<T>): (r: seq<Taken<T>>)
    ensures |r| == |items| && forall k :: 0 <= k < |r| ==> r[k] == Cleared(items[k])
  {
    seq(|items|, i requires 0 <= i < |items| => Cleared(items[i]))
  }

  function Step<T>(s: System<T>, e: Event<T>): System<T>
    requires Enabled(s, e)
  {
    match e
    case Begin(t, call) => s.(calls := s.calls[t := call])
    case Section(t, pick) =>
      var call := s.calls[t];
      var (q, outcome) := RunSection(s.queue, t, call, pick);
      System(q,
             if outcome.Blocked? then s.calls else s.calls - {t},
             if outcome.Accepted? then s.accepted + [Sent(t, call.item)] else s.accepted,
             if outcome.Got? then s.removed + [Delivered(t, outcome.item)]
             else if call.InClear? then s.removed + ClearedAll(s.queue.items)
             else s.removed)
    case SpuriousWake(t) =>
      s.(queue := s.queue.(notEmpty := Released(s.queue.notEmpty, t), notFull := Released(s.queue.notFull, t)))
    case Timeout(t) =>
      s.(queue := s.queue.(notEmpty := Released(s.queue.notEmpty, t)), calls := s.calls[t := InPopFor(true)])
  }

  /** A waiting thread stops waiting without a notification; a notified one keeps its signal. */
  function Released(cv: CondVar, t: Thread): CondVar {
    cv.(waiting := cv.waiting - {t})
  }

  /** The state after the events `es`, or None when one of them cannot happen. */
  function Run<T>(s: System<T>, es: seq<Event<T>>): Option<System<T>>
    decreases |es|
  {
    if es == [] then Some(s)
    else if !Enabled(s, es[0]) then None
    else Run(Step(s, es[0]), es[1..])
  }

  // ---- What every reachable state satisfies ----

  /** Which calls may be blocked on, or notified through, which condition variable. */
  ghost predicate Placed<T>(s: System<T>) {
    && s.queue.notEmpty.Valid() && s.queue.notFull.Valid()
    && (forall t <- s.queue.notEmpty.waiting + s.queue.notEmpty.signalled ::
          t in s.calls && (s.calls[t].InPop? || s.calls[t].InPopFor?))
    && (forall t <- s.queue.notEmpty.waiting :: s.calls[t] != InPopFor(true))
    && (forall t <- s.queue.notFull.waiting + s.queue.notFull.signalled :: t in s.calls && s.calls[t].InPush?)
  }

  /** No consumer wake-up is lost: while consumers wait un-notified, the queue is running and
      every item in it is already promised to a notified consumer. */
  ghost predicate ConsumersServed<T>(q: Queue<T>) {
    q.notEmpty.waiting != {} ==> q.running && |q.items| <= |q.notEmpty.signalled|
  }

  /** No producer wake-up is lost: while producers wait un-notified, the queue is running and
      bounded and every free slot is already promised to a notified producer. */
  ghost predicate ProducersServed<T>(q: Queue<T>) {
    q.notFull.waiting != {} ==> q.running && q.maxSize > 0 && q.maxSize - |q.items| <= |q.notFull.signalled|
  }

  /** What remains of ProducersServed in runs that use SetMaxSize(0) freely. */
  ghost predicate BoundedProducersServed<T>(q: Queue<T>) {
    q.notFull.waiting != {} ==> q.running && (q.maxSize > 0 ==> q.maxSize - |q.items| <= |q.notFull.signalled|)
  }

  /** A waiting producer always has an item in front of it or a notified producer beside it. */
  ghost predicate ProducersNotAbandoned<T>(q: Queue<T>) {
    q.notFull.waiting != {} ==> |q.items| + |q.notFull.signalled| > 0
  }

  /** Everything accepted has left in order or is still queued, in order. */
  ghost predicate Conserved<T>(s: System<T>) {
    && |s.accepted| == |s.removed| + |s.queue.items|
    && (forall k :: 0 <= k < |s.removed| ==> s.removed[k].item == s.accepted[k].item)
    && (forall k :: 0 <= k < |s.queue.items| ==> s.queue.items[k] == s.accepted[|s.removed| + k].item)
  }

  ghost predicate Inv<T>(s: System<T>) {
    Placed(s) && Served(s.queue) && Conserved(s)
  }

  /** The one event that strands producers: lifting the bound while they wait. */
  predicate LiftsBoundUnderWaiters<T>(s: System<T>, e: Event<T>)
    requires Enabled(s, e)
  {
    e.Section? && s.calls[e.t] == InSetMaxSize(0) && s.queue.notFull.waiting != {}
  }

  lemma StepKeepsPlaced<T>(s: System<T>, e: Event<T>)
    requires Placed(s) && Enabled(s, e)
    ensures Placed(Step(s, e))
  {
  }

  ghost predicate Served<T>(q: Queue<T>) {
    && q.notEmpty.Valid() && q.notFull.Valid()
    && ConsumersServed(q) && BoundedProducersServed(q) && ProducersNotAbandoned(q)
  }

  lemma PushServes<T>(q: Queue<T>, t: Thread, item: T, pick: Thread)
    requires Served(q) && t !in q.notFull.waiting && q.notEmpty.CanWake(pick)
    ensures Served(Push(q, t, item, pick).0)
    ensures ProducersServed(q) ==> ProducersServed(Push(q, t, item, pick).0)
  {
  }

  lemma TakeFrontServes<T>(q: Queue<T>, pick: Thread)
    requires q.items != [] && q.notEmpty.Valid() && q.notFull.Valid() && q.notFull.CanWake(pick)
    requires q.notEmpty.waiting != {} ==> q.running && |q.items| <= |q.notEmpty.signalled| + 1
    requires BoundedProducersServed(q) && ProducersNotAbandoned(q)
    ensures Served(TakeFront(q, pick).0)
    ensures ProducersServed(q) ==> ProducersServed(TakeFront(q, pick).0)
  {
  }

  /** A consumer that leaves the condition variable takes at most one promise with it. */
  lemma LeavingServes<T>(q: Queue<T>, t: Thread)
    requires Served(q) && t !in q.notEmpty.waiting
    ensures var left := q.(notEmpty := q.notEmpty.Leave(t));
      && left.notEmpty.Valid() && BoundedProducersServed(left) && ProducersNotAbandoned(left)
      && (left.notEmpty.waiting != {} ==> left.running && |left.items| <= |left.notEmpty.signalled| + 1)
      && (left.items == [] ==> Served(left))
      && (ProducersServed(q) ==> ProducersServed(left))
  {
  }

  lemma ParkingServes<T>(q: Queue<T>, t: Thread)
    requires Served(q) && q.items == [] && q.running
    ensures Served(q.(notEmpty := q.notEmpty.Park(t)))
    ensures ProducersServed(q) ==> ProducersServed(q.(notEmpty := q.notEmpty.Park(t)))
  {
  }

  lemma ConsumerServes<T>(q: Queue<T>, t: Thread, call: Call<T>, pick: Thread)
    requires call.InPop? || call.InTryPop? || call.InPopFor?
    requires Served(q) && t !in q.notEmpty.waiting && q.notFull.CanWake(pick)
    ensures Served(RunSection(q, t, call, pick).0)
    ensures ProducersServed(q) ==> ProducersServed(RunSection(q, t, call, pick).0)
  {
    var left := if call.InTryPop? then q else q.(notEmpty := q.notEmpty.Leave(t));
    LeavingServes(q, t);
    if q.items != [] {
      TakeFrontServes(left, pick);
    } else if q.running {
      ParkingServes(left, t);
    }
  }

  lemma AdminServes<T>(q: Queue<T>, t: Thread, call: Call<T>, pick: Thread)
    requires call.InClear? || call.InSetMaxSize? || call.InStop? || call.InStart?
    requires Served(q)
    ensures Served(RunSection(q, t, call, pick).0)
    ensures ProducersServed(q) ==>
      (ProducersServed(RunSection(q, t, call, pick).0) <==> !(call == InSetMaxSize(0) && q.notFull.waiting != {}))
  {
  }

  lemma SectionServes<T>(q: Queue<T>, t: Thread, call: Call<T>, pick: Thread)
    requires Served(q) && t !in q.notEmpty.waiting && t !in q.notFull.waiting
    requires call.InPush? || call.InTryPush? ==> q.notEmpty.CanWake(pick)
    requires call.InPop? || call.InTryPop? || call.InPopFor? ==> q.notFull.CanWake(pick)
    ensures Served(RunSection(q, t, call, pick).0)
    ensures ProducersServed(q) ==>
      (ProducersServed(RunSection(q, t, call, pick).0) <==> !(call == InSetMaxSize(0) && q.notFull.waiting != {}))
  {
    match call
    case InPush(item) => PushServes(q, t, item, pick);
    case InTryPush(item) =>
    case InPop => ConsumerServes(q, t, call, pick);
    case InTryPop => ConsumerServes(q, t, call, pick);
    case InPopFor(_) => ConsumerServes(q, t, call, pick);
    case _ => AdminServes(q, t, call, pick);
  }

  lemma StepKeepsServed<T>(s: System<T>, e: Event<T>)
    requires Inv(s) && Enabled(s, e)
    ensures Served(Step(s, e).queue)
    ensures ProducersServed(s.queue) ==> (ProducersServed(Step(s, e).queue) <==> !LiftsBoundUnderWaiters(s, e))
  {
    if e.Section? {
      SectionServes(s.queue, e.t, s.calls[e.t], e.pick);
    }
  }

  ghost predicate KeepsItems<T>(s: System<T>, r: System<T>) {
    r.queue.items == s.queue.items && r.accepted == s.accepted && r.removed == s.removed
  }

  ghost predicate AcceptsItem<T(!new)>(s: System<T>, r: System<T>) {
    r.removed == s.removed &&
    exists sent :: r.accepted == s.accepted + [sent] && r.queue.items == s.queue.items + [sent.item]
  }

  ghost predicate DeliversFront<T>(s: System<T>, r: System<T>) {
    && s.queue.items != [] && r.queue.items == s.queue.items[1..] && r.accepted == s.accepted
    && exists c :: r.removed == s.removed + [Delivered(c, s.queue.items[0])]
  }

  ghost predicate ClearsItems<T>(s: System<T>, r: System<T>) {
    r.queue.items == [] && r.accepted == s.accepted && r.removed == s.removed + ClearedAll(s.queue.items)
  }

  /** All a step can do to the items. */
  ghost predicate MovesItems<T(!new)>(s: System<T>, r: System<T>) {
    KeepsItems(s, r) || AcceptsItem(s, r) || DeliversFront(s, r) || ClearsItems(s, r)
  }

  lemma SectionMovesItems<T(!new)>(s: System<T>, t: Thread, pick: Thread)
    requires Enabled(s, Section(t, pick))
    ensures MovesItems(s, Step(s, Section(t, pick)))
  {
    var call := s.calls[t];
    var r := Step(s, Section(t, pick));
    if call.InPush? || call.InTryPush? {
      assert r.accepted == s.accepted || r.accepted == s.accepted + [Sent(t, call.item)];
    } else if call.InPop? || call.InTryPop? || call.InPopFor? {
      assert r.removed == s.removed || r.removed == s.removed + [Delivered(t, s.queue.items[0])];
    }
  }

  lemma StepKeepsConserved<T(!new)>(s: System<T>, e: Event<T>)
    requires Conserved(s) && Enabled(s, e)
    ensures Conserved(Step(s, e))
  {
    if e.Section? {
      SectionMovesItems(s, e.t, e.pick);
      MovingKeepsConserved(s, Step(s, e));
    }
  }

  lemma AcceptKeepsConserved<T(!new)>(s: System<T>, r: System<T>)
    requires Conserved(s) && AcceptsItem(s, r)
    ensures Conserved(r)
  {
  }

  lemma DeliverKeepsConserved<T>(s: System<T>, r: System<T>)
    requires Conserved(s) && DeliversFront(s, r)
    ensures Conserved(r)
  {
  }

  lemma ClearKeepsConserved<T>(s: System<T>, r: System<T>)
    requires Conserved(s) && ClearsItems(s, r)
    ensures Conserved(r)
  {
  }

  lemma MovingKeepsConserved<T(!new)>(s: System<T>, r: System<T>)
    requires Conserved(s) && MovesItems(s, r)
    ensures Conserved(r)
  {
    if AcceptsItem(s, r) {
      AcceptKeepsConserved(s, r);
    } else if DeliversFront(s, r) {
      DeliverKeepsConserved(s, r);
    } else if ClearsItems(s, r) {
      ClearKeepsConserved(s, r);
    }
  }

  // ---- Whole runs ----

  /** Safety over every run: nothing below depends on how many threads there are, on the order
      they run in, on who a notification reaches, or on when waits end early. */
  lemma {:induction false} RunKeepsInv<T(!new)>(s: System<T>, es: seq<Event<T>>)
    requires Inv(s) && Run(s, es).Some?
    ensures Inv(Run(s, es).value)
    decreases |es|
  {
    if es != [] {
      StepKeepsPlaced(s, es[0]);
      StepKeepsServed(s, es[0]);
      StepKeepsConserved(s, es[0]);
      RunKeepsInv(Step(s, es[0]), es[1..]);
    }
  }

  ghost predicate Reachable<T(!new)>(s: System<T>) {
    exists maxSize: nat, es :: Run(Initial<T>(maxSize), es) == Some(s)
  }

  lemma ReachableIsInv<T(!new)>(s: System<T>)
    requires Reachable(s)
    ensures Inv(s)
  {
    var maxSize: nat, es :| Run(Initial<T>(maxSize), es) == Some(s);
    RunKeepsInv(Initial<T>(maxSize), es);
  }

  /** Delivery is first in, first out: the k-th item to leave is the k-th item accepted, so
      each producer's items leave in the order it pushed them, and nothing is lost or made up. */
  lemma FifoConservation<T(!new)>(s: System<T>)
    requires Reachable(s)
    ensures |s.accepted| == |s.removed| + |s.queue.items|
    ensures forall k :: 0 <= k < |s.removed| ==> s.removed[k].item == s.accepted[k].item
    ensures forall k :: 0 <= k < |s.queue.items| ==> s.queue.items[k] == s.accepted[|s.removed| + k].item
  {
    ReachableIsInv(s);
  }

  /** If a consumer waits while items are queued, some notified consumer is free to run, and
      whenever it does it takes the front item. */
  lemma WaitingConsumerHasServer<T(!new)>(s: System<T>) returns (c: Thread)
    requires Reachable(s) && s.queue.notEmpty.waiting != {} && s.queue.items != []
    ensures c in s.queue.notEmpty.signalled
    ensures forall pick :: s.queue.notFull.CanWake(pick) ==>
      && Enabled(s, Section(c, pick))
      && Step(s, Section(c, pick)).removed == s.removed + [Delivered(c, s.queue.items[0])]
  {
    ReachableIsInv(s);
    c :| c in s.queue.notEmpty.signalled;
  }

  /** If a producer waits while there is room, and no wake-up was lost, some notified producer is
      free to run, and whenever it does its item is accepted, or the push given up when stopped. */
  lemma WaitingProducerHasServer<T(!new)>(s: System<T>) returns (p: Thread)
    requires Reachable(s) && ProducersServed(s.queue) && s.queue.notFull.waiting != {} && !s.queue.Full()
    ensures p in s.queue.notFull.signalled && p in s.calls && s.calls[p].InPush?
    ensures forall pick :: s.queue.notEmpty.CanWake(pick) ==>
      && Enabled(s, Section(p, pick))
      && Step(s, Section(p, pick)).accepted ==
           if s.queue.running then s.accepted + [Sent(p, s.calls[p].item)] else s.accepted
  {
    ReachableIsInv(s);
    p :| p in s.queue.notFull.signalled;
  }

  /** Producers and consumers are never all asleep together: if both kinds wait, some notified
      thread can run. */
  lemma NeverAllAsleep<T(!new)>(s: System<T>)
    requires Reachable(s) && s.queue.notEmpty.waiting != {} && s.queue.notFull.waiting != {}
    ensures s.queue.notEmpty.signalled + s.queue.notFull.signalled != {}
    ensures forall t <- s.queue.notEmpty.signalled + s.queue.notFull.signalled ::
      exists pick :: Enabled(s, Section(t, pick))
  {
    ReachableIsInv(s);
    var c :| c in s.queue.notEmpty.waiting;
    var p :| p in s.queue.notFull.waiting;
    forall t <- s.queue.notEmpty.signalled + s.queue.notFull.signalled
      ensures exists pick :: Enabled(s, Section(t, pick))
    {
      assert Enabled(s, Section(t, if s.calls[t].InPush? then c else p));
    }
  }

  predicate NeverLiftsBoundUnderWaiters<T>(s: System<T>, es: seq<Event<T>>)
    requires Run(s, es).Some?
    decreases |es|
  {
    es == [] || (!LiftsBoundUnderWaiters(s, es[0]) && NeverLiftsBoundUnderWaiters(Step(s, es[0]), es[1..]))
  }

  ghost predicate ProducersServedThroughout<T>(s: System<T>, es: seq<Event<T>>)
    requires Run(s, es).Some?
    decreases |es|
  {
    ProducersServed(s.queue) && (es == [] || ProducersServedThroughout(Step(s, es[0]), es[1..]))
  }

  /** Producer wake-ups are lost in exactly the runs that call SetMaxSize(0) while a producer
      waits un-notified. */
  lemma {:induction false} ProducersServedIff<T(!new)>(s: System<T>, es: seq<Event<T>>)
    requires Inv(s) && ProducersServed(s.queue) && Run(s, es).Some?
    ensures ProducersServedThroughout(s, es) <==> NeverLiftsBoundUnderWaiters(s, es)
    decreases |es|
  {
    if es != [] {
      var next := Step(s, es[0]);
      StepKeepsServed(s, es[0]);
      if ProducersServed(next.queue) {
        StepKeepsPlaced(s, es[0]);
        StepKeepsConserved(s, es[0]);
        ProducersServedIff(next, es[1..]);
      }
    }
  }

  /** A run that strands a producer: thread 2 sleeps in Push although the queue no longer has
      a bound, and no thread is left that could wake it. */
  lemma StrandedProducer() returns (es: seq<Event<int>>)
    ensures Run(Initial(1), es).Some?
    ensures var s := Run(Initial(1), es).value;
      && s.calls == map[2 := InPush(20)] && 2 in s.queue.notFull.waiting
      && !s.queue.Full() && s.queue.running && s.queue.notFull.signalled == {}
  {
    var s0 := Initial<int>(1);
    var s1 := Step(s0, Begin(1, InPush(10)));
    var s2 := Step(s1, Section(1, 0));
    var s3 := Step(s2, Begin(2, InPush(20)));
    var s4 := Step(s3, Section(2, 0));
    var s5 := Step(s4, Begin(3, InSetMaxSize(0)));
    var s6 := Step(s5, Section(3, 0));
    assert s6.calls == map[2 := InPush(20)];
    es := [];
    es := [Section(3, 0)] + es;
    assert Run(s5, es) == Some(s6);
    es := [Begin(3, InSetMaxSize(0))] + es;
    assert Run(s4, es) == Some(s6);
    es := [Section(2, 0)] + es;
    assert Run(s3, es) == Some(s6);
    es := [Begin(2, InPush(20))] + es;
    assert Run(s2, es) == Some(s6);
    es := [Section(1, 0)] + es;
    assert Run(s1, es) == Some(s6);
    es := [Begin(1, InPush(10))] + es;
    assert Run(s0, es) == Some(s6);
  }

  /** No step grows the queue past a bound in force. */
  lemma GrowthRespectsBound<T>(s: System<T>, e: Event<T>)
    requires Enabled(s, e) && |Step(s, e).queue.items| > |s.queue.items|
    ensures s.queue.running && Step(s, e).queue.maxSize == s.queue.maxSize
    ensures s.queue.maxSize == 0 || |Step(s, e).queue.items| <= s.queue.maxSize
    ensures |Step(s, e).accepted| == |s.accepted| + 1
  {
  }

  /** After Stop only Pop still delivers and only Clear still discards: the timed and the
      non-blocking pop give nothing although items are left. */
  lemma StoppedQueueDeliversToPop<T>(s: System<T>, t: Thread, pick: Thread)
    requires Enabled(s, Section(t, pick)) && !s.queue.running && s.queue.items != []
    ensures Step(s, Section(t, pick)).removed != s.removed <==> s.calls[t].InPop? || s.calls[t].InClear?
  {
    if s.calls[t].InClear? {
      assert |ClearedAll(s.queue.items)| > 0;
    }
  }

  predicate NeverStarts<T>(s: System<T>, es: seq<Event<T>>)
    requires Run(s, es).Some?
    decreases |es|
  {
    es == [] || (!(es[0].Section? && s.calls[es[0].t].InStart?) && NeverStarts(Step(s, es[0]), es[1..]))
  }

  ghost predicate Drained<T>(s: System<T>, r: System<T>) {
    && !r.queue.running && r.accepted == s.accepted && s.removed <= r.removed
    && |r.removed| - |s.removed| <= |s.queue.items|
    && r.queue.items == s.queue.items[|r.removed| - |s.removed|..]
  }

  lemma StoppedStepDrains<T(!new)>(s: System<T>, e: Event<T>)
    requires !s.queue.running && Enabled(s, e) && !(e.Section? && s.calls[e.t].InStart?)
    ensures Drained(s, Step(s, e))
  {
    if e.Section? {
      SectionMovesItems(s, e.t, e.pick);
      StaysStopped(s, e.t, e.pick);
      MovingDrains(s, Step(s, e));
    }
  }

  lemma MovingDrains<T(!new)>(s: System<T>, r: System<T>)
    requires MovesItems(s, r) && r.accepted == s.accepted && !r.queue.running
    ensures Drained(s, r)
  {
    if DeliversFront(s, r) {
      DeliveryDrains(s, r);
    } else if ClearsItems(s, r) {
      ClearingDrains(s, r);
    }
  }

  lemma DeliveryDrains<T>(s: System<T>, r: System<T>)
    requires DeliversFront(s, r) && !r.queue.running
    ensures Drained(s, r)
  {
  }

  lemma ClearingDrains<T>(s: System<T>, r: System<T>)
    requires ClearsItems(s, r) && !r.queue.running
    ensures Drained(s, r)
  {
  }

  lemma StaysStopped<T>(s: System<T>, t: Thread, pick: Thread)
    requires !s.queue.running && Enabled(s, Section(t, pick)) && !s.calls[t].InStart?
    ensures !Step(s, Section(t, pick)).queue.running && Step(s, Section(t, pick)).accepted == s.accepted
  {
  }

  lemma DrainedTransitive<T>(s: System<T>, m: System<T>, r: System<T>)
    requires Drained(s, m) && Drained(m, r)
    ensures Drained(s, r)
  {
    var i, j := |m.removed| - |s.removed|, |r.removed| - |m.removed|;
    assert s.queue.items[i..][j..] == s.queue.items[i + j..];
  }

  /** A stopped queue takes nothing in and only drains from the front, so what is left when it
      is started again is the tail of what was there at Stop. */
  lemma {:induction false} StoppedQueueOnlyDrains<T(!new)>(s: System<T>, es: seq<Event<T>>)
    requires !s.queue.running && Run(s, es).Some? && NeverStarts(s, es)
    ensures Drained(s, Run(s, es).value)
    decreases |es|
  {
    if es != [] {
      var next := Step(s, es[0]);
      StoppedStepDrains(s, es[0]);
      StoppedQueueOnlyDrains(next, es[1..]);
      DrainedTransitive(s, next, Run(next, es[1..]).value);
    }
  }

  // ---- What the calls made so far decide ----

  /** The queue is open after a run exactly if Start, and not Stop, was the last of the two to take
      its section; a new queue is open. */
  function OpenAfter<T>(s: System<T>, es: seq<Event<T>>, open: bool): bool
    requires Run(s, es).Some?
    decreases |es|
  {
    if es == [] then open
    else OpenAfter(Step(s, es[0]), es[1..], if Toggles(s, es[0]) then s.calls[es[0].t].InStart? else open)
  }

  predicate Toggles<T>(s: System<T>, e: Event<T>)
    requires Enabled(s, e)
  {
    e.Section? && (s.calls[e.t].InStop? || s.calls[e.t].InStart?)
  }

  /** The bound in force: that of the last SetMaxSize to take its section. */
  function BoundAfter<T>(s: System<T>, es: seq<Event<T>>, bound: nat): nat
    requires Run(s, es).Some?
    decreases |es|
  {
    if es == [] then bound
    else
      var e := es[0];
      var next := if e.Section? && s.calls[e.t].InSetMaxSize? then s.calls[e.t].n else bound;
      BoundAfter(Step(s, e), es[1..], next)
  }

  lemma SectionKeepsControls<T>(s: System<T>, t: Thread, pick: Thread)
    requires Enabled(s, Section(t, pick))
    ensures var q, call := Step(s, Section(t, pick)).queue, s.calls[t];
      && q.running == (if call.InStop? then false else if call.InStart? then true else s.queue.running)
      && q.maxSize == (if call.InSetMaxSize? then call.n else s.queue.maxSize)
  {
  }

  lemma {:induction false} HistoryIsState<T>(s: System<T>, es: seq<Event<T>>)
    requires Run(s, es).Some?
    ensures Run(s, es).value.queue.running == OpenAfter(s, es, s.queue.running)
    ensures Run(s, es).value.queue.maxSize == BoundAfter(s, es, s.queue.maxSize)
    decreases |es|
  {
    if es != [] {
      if es[0].Section? {
        SectionKeepsControls(s, es[0].t, es[0].pick);
      }
      HistoryIsState(Step(s, es[0]), es[1..]);
    }
  }

  /** `r` has one more item accepted than `s` exactly if `accepts`. */
  ghost predicate Takes<T>(s: System<T>, r: System<T>, t: Thread, item: T, accepts: bool) {
    r.removed == s.removed && r.accepted == if accepts then s.accepted + [Sent(t, item)] else s.accepted
  }

  /** `r` has the item accepted next after those that left delivered to `t`, exactly if `delivers`. */
  ghost predicate Gives<T>(s: System<T>, r: System<T>, t: Thread, delivers: bool)
    requires delivers ==> |s.removed| < |s.accepted|
  {
    && r.accepted == s.accepted
    && r.removed == if delivers then s.removed + [Delivered(t, s.accepted[|s.removed|].item)] else s.removed
  }

  lemma PushEnds<T(!new)>(s: System<T>, t: Thread, pick: Thread)
    requires Inv(s) && Enabled(s, Section(t, pick)) && (s.calls[t].InPush? || s.calls[t].InTryPush?)
    ensures var q, r := s.queue, Step(s, Section(t, pick));
      var room := q.maxSize == 0 || |s.accepted| - |s.removed| < q.maxSize;
      && (t in r.calls <==> s.calls[t].InPush? && q.running && !room)
      && Takes(s, r, t, s.calls[t].item, q.running && room)
  {
  }

  lemma PopEnds<T(!new)>(s: System<T>, t: Thread, pick: Thread)
    requires Inv(s) && Enabled(s, Section(t, pick))
    requires s.calls[t].InPop? || s.calls[t].InTryPop? || s.calls[t].InPopFor?
    ensures var q, call, r := s.queue, s.calls[t], Step(s, Section(t, pick));
      var pending := |s.accepted| > |s.removed|;
      && (t in r.calls <==> q.running && !pending && (call.InPop? || call == InPopFor(false)))
      && Gives(s, r, t, pending && (q.running || call.InPop?))
  {
  }

  lemma OtherEnds<T(!new)>(s: System<T>, t: Thread, pick: Thread)
    requires Inv(s) && Enabled(s, Section(t, pick))
    requires s.calls[t].InClear? || s.calls[t].InSetMaxSize? || s.calls[t].InStop? || s.calls[t].InStart?
    ensures var r := Step(s, Section(t, pick));
      && t !in r.calls && r.accepted == s.accepted
      && (if s.calls[t].InClear? then |r.removed| == |r.accepted| else r.removed == s.removed)
  {
  }

  /** SetMaxSize wakes the waiting producers exactly if the new bound is positive and leaves room. */
  lemma SetMaxSizeWakesIff<T(!new)>(s: System<T>, t: Thread, pick: Thread)
    requires Inv(s) && Enabled(s, Section(t, pick)) && s.calls[t].InSetMaxSize? && s.queue.notFull.waiting != {}
    ensures var n, q, r := s.calls[t].n, s.queue, Step(s, Section(t, pick)).queue;
      && (r.notFull.waiting != q.notFull.waiting <==> n > 0 && |s.accepted| - |s.removed| < n)
      && (r.notFull.waiting == q.notFull.waiting || r.notFull.waiting == {})
  {
  }

  /** How every section of every run ends is decided by the calls made before it: by whether Start
      or Stop came last, by the last bound set, and by what was accepted and has not left.  A push
      is accepted if the queue is open and has room, and only Push waits for room.  A pop gets the
      item accepted next if there is one and the queue is open, Pop even if it is not; Pop and an
      unexpired PopFor wait while the queue is open and empty, and Pop throws when it is neither. */
  lemma HistoryDecides<T(!new)>(maxSize: nat, es: seq<Event<T>>, t: Thread, pick: Thread)
    requires var start := Initial<T>(maxSize);
      Run(start, es).Some? && Enabled(Run(start, es).value, Section(t, pick))
    ensures var start := Initial<T>(maxSize);
      var s := Run(start, es).value;
      var r, call := Step(s, Section(t, pick)), s.calls[t];
      var open, bound := OpenAfter(start, es, true), BoundAfter(start, es, maxSize);
      var pending := |s.accepted| - |s.removed|;
      var room := bound == 0 || pending < bound;
      && pending >= 0
      && match call {
           case InPush(item) => (t in r.calls <==> open && !room) && Takes(s, r, t, item, open && room)
           case InTryPush(item) => t !in r.calls && Takes(s, r, t, item, open && room)
           case InPop =>
             && (t in r.calls <==> open && pending == 0) && Gives(s, r, t, pending > 0)
             && (RunSection(s.queue, t, call, pick).1.Threw? <==> !open && pending == 0)
           case InTryPop => t !in r.calls && Gives(s, r, t, open && pending > 0)
           case InPopFor(timedOut) =>
             (t in r.calls <==> open && pending == 0 && !timedOut) && Gives(s, r, t, open && pending > 0)
           case InClear => t !in r.calls && r.accepted == s.accepted && |r.removed| == |r.accepted|
           case _ => t !in r.calls && r.accepted == s.accepted && r.removed == s.removed
         }
  {
    var start := Initial<T>(maxSize);
    var s := Run(start, es).value;
    RunKeepsInv(start, es);
    HistoryIsState(start, es);
    match s.calls[t]
    case InPush(_) => PushEnds(s, t, pick);
    case InTryPush(_) => PushEnds(s, t, pick);
    case InPop => PopEnds(s, t, pick);
    case InTryPop => PopEnds(s, t, pick);
    case InPopFor(_) => PopEnds(s, t, pick);
    case _ => OtherEnds(s, t, pick);
  }

  lemma StoppedEnds<T(!new)>(s: System<T>, t: Thread, pick: Thread)
    requires Inv(s) && !s.queue.running && Enabled(s, Section(t, pick))
    ensures var r := Step(s, Section(t, pick));
      && r.accepted == s.accepted && t !in r.calls
      && (s.calls[t].InPop? ==> (RunSection(s.queue, t, InPop, pick).1.Threw? <==> s.queue.items == []))
  {
    if s.calls[t].InPush? || s.calls[t].InTryPush? {
      PushEnds(s, t, pick);
    } else if s.calls[t].InPop? || s.calls[t].InTryPop? || s.calls[t].InPopFor? {
      PopEnds(s, t, pick);
    } else {
      OtherEnds(s, t, pick);
    }
  }

  lemma StopStops<T(!new)>(s: System<T>, t: Thread, pick: Thread)
    requires Inv(s) && Enabled(s, Section(t, pick)) && s.calls[t].InStop?
    ensures var r := Step(s, Section(t, pick)); Inv(r) && !r.queue.running && r.accepted == s.accepted
  {
    SectionKeepsControls(s, t, pick);
    StepKeepsPlaced(s, Section(t, pick));
    StepKeepsServed(s, Section(t, pick));
    StepKeepsConserved(s, Section(t, pick));
    OtherEnds(s, t, pick);
  }

  /** From the section of a Stop to that of the next Start nothing is accepted, what is left is a
      tail of what was there, and no section ends in a wait: Pop gets an item or throws. */
  lemma StopHolds<T(!new)>(s: System<T>, t: Thread, pick: Thread, es: seq<Event<T>>)
    requires Reachable(s) && Enabled(s, Section(t, pick)) && s.calls[t].InStop?
    requires var s1 := Step(s, Section(t, pick)); Run(s1, es).Some? && NeverStarts(s1, es)
    ensures var s1 := Step(s, Section(t, pick));
      var m := Run(s1, es).value;
      && m.accepted == s.accepted && Drained(s1, m)
      && forall u, next :: Enabled(m, Section(u, next)) ==>
           && u !in Step(m, Section(u, next)).calls
           && (m.calls[u].InPop? ==> (RunSection(m.queue, u, InPop, next).1.Threw? <==> m.queue.items == []))
  {
    var s1 := Step(s, Section(t, pick));
    ReachableIsInv(s);
    StopStops(s, t, pick);
    StoppedQueueOnlyDrains(s1, es);
    RunKeepsInv(s1, es);
    var m := Run(s1, es).value;
    forall u, next | Enabled(m, Section(u, next))
      ensures u !in Step(m, Section(u, next)).calls
      ensures m.calls[u].InPop? ==> (RunSection(m.queue, u, InPop, next).1.Threw? <==> m.queue.items == [])
    {
      StoppedEnds(m, u, next);
    }
  }
}
