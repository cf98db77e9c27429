/**
 The channel itself: a ring buffer and two queues of waiting tasks linked through
 the tasks.  Every operation is proved to be a step of the channel protocol.
 */
module Channel {
  import opened Arith
  import opened Basics
  import opened ChannelProtocol
  import opened TaskQueues

  /** The fields of a task that channels use. */
  datatype TaskRecord<V> = TaskRecord(waiting: bool, pending: V, waitingValue: V, sendFailed: bool,
                                      nextChannelWaiter: Ref)

  type Tasks<V> = map<Ref, TaskRecord<V>>

  ghost function TasksOf<V>(ws: List<Waiting<V>>): List<Ref> {
    if ws.Cons? then Cons(ws.head.task, TasksOf(ws.tail)) else End
  }

  function Links<V>(m: Tasks<V>): Ref -> Ref {
    (x: Ref) => if x in m then m[x].nextChannelWaiter else NULL
  }

  /** `l` is the queue from `first` on along nextChannelWaiter. */
  ghost predicate QueueOk<V>(first: Ref, l: List<Ref>, m: Tasks<V>) {
    Chain(first, l, Links(m)) && Members(l) <= m.Keys
  }

  /** Each waiting sender holds its value. */
  ghost predicate Holds<V>(ws: List<Waiting<V>>, m: Tasks<V>) {
    ws.Cons? ==> ws.head.task in m && m[ws.head.task].waitingValue == ws.head.value && Holds(ws.tail, m)
  }

  lemma QueueAgree<V>(first: Ref, l: List<Ref>, m: Tasks<V>, m': Tasks<V>)
    requires QueueOk(first, l, m)
    requires forall x :: x in Members(l) && x in m ==> x in m' && m'[x].nextChannelWaiter == m[x].nextChannelWaiter
    ensures QueueOk(first, l, m')
  {
    ChainAgree(first, l, Links(m), Links(m'));
  }

  /** The first of a queue, and the queue behind it. */
  lemma QueueFirst<V>(first: Ref, l: List<Ref>, m: Tasks<V>)
    requires QueueOk(first, l, m)
    ensures first == NULL <==> l.End?
    ensures l.Cons? ==>
              first == l.head && first in m && QueueOk(m[first].nextChannelWaiter, l.tail, m) &&
              first !in Members(l.tail)
  {
  }

  lemma {:induction false} HoldsAgree<V>(ws: List<Waiting<V>>, m: Tasks<V>, m': Tasks<V>)
    requires Holds(ws, m)
    requires forall x :: x in Members(TasksOf(ws)) && x in m ==> x in m' && m'[x].waitingValue == m[x].waitingValue
    ensures Holds(ws, m')
  {
    if ws.Cons? {
      HoldsAgree(ws.tail, m, m');
    }
  }

  lemma {:induction false} TasksOfSnoc<V>(ws: List<Waiting<V>>, w: Waiting<V>)
    ensures TasksOf(Snoc(ws, w)) == Snoc(TasksOf(ws), w.task)
  {
    if ws.Cons? {
      TasksOfSnoc(ws.tail, w);
    }
  }

  lemma {:induction false} HoldsSnoc<V>(ws: List<Waiting<V>>, w: Waiting<V>, m: Tasks<V>)
    requires Holds(ws, m) && w.task in m && m[w.task].waitingValue == w.value
    ensures Holds(Snoc(ws, w), m)
  {
    if ws.Cons? {
      HoldsSnoc(ws.tail, w, m);
    }
  }

  /** Linking a task behind the last one. */
  lemma QueueAppend<V>(first: Ref, l: List<Ref>, m: Tasks<V>, t: Ref, m': Tasks<V>)
    requires QueueOk(first, l, m) && l.Cons? && t != NULL && t !in Members(l) && t in m' &&
             m'[t].nextChannelWaiter == NULL
    requires LastOf(l) in m' && m'[LastOf(l)].nextChannelWaiter == t
    requires forall x ::
               x in Members(l) && x in m && x != LastOf(l) ==>
                 x in m' && m'[x].nextChannelWaiter == m[x].nextChannelWaiter
    ensures QueueOk(first, Snoc(l, t), m')
  {
    LastIsMember(l);
    ChainAppend(first, l, Links(m), t, Links(m'));
    MembersSnoc(l, t);
  }

  /** tya_channel_waiter_push: walk to the last waiting task and link the new one behind it. */
  method WaiterPush<V>(first0: Ref, t: Ref, m: Tasks<V>, ghost l: List<Ref>) returns (first: Ref, m': Tasks<V>)
    requires QueueOk(first0, l, m) && t != NULL && t in m && t !in Members(l)
    ensures QueueOk(first, Snoc(l, t), m') && Appended(m, m', l, t) && OnlyLinks(m, m', Members(l) + {t})
  {
    QueueFirst(first0, l, m);
    m' := m[t := m[t].(nextChannelWaiter := NULL)];
    if first0 == NULL {
      return t, m';
    }
    first := first0;
    QueueAgree(first, l, m, m');
    var tail := TailOf(first, l, m');
    PushLinks(m, l, t, tail);
    QueueAppend(first, l, m', t, m'[tail := m'[tail].(nextChannelWaiter := t)]);
    m' := m'[tail := m'[tail].(nextChannelWaiter := t)];
  }

  /** Only the links of the tasks in `s` may differ. */
  ghost predicate OnlyLinks<V>(m: Tasks<V>, m': Tasks<V>, s: set<Ref>) {
    m'.Keys == m.Keys &&
    forall x :: x in m ==> m'[x] == m[x].(nextChannelWaiter := m'[x].nextChannelWaiter) && (x !in s ==> m'[x] == m[x])
  }

  /** The last task of `l` links to `t`, and `t` to nothing; no other task changes. */
  ghost predicate Appended<V>(m: Tasks<V>, m': Tasks<V>, l: List<Ref>, t: Ref) {
    t in m && (l.Cons? ==> LastOf(l) in m) &&
    m' == (if l.End? then m else m[LastOf(l) := m[LastOf(l)].(nextChannelWaiter := t)])
          [t := m[t].(nextChannelWaiter := NULL)]
  }

  lemma PushLinks<V>(m: Tasks<V>, l: List<Ref>, t: Ref, tail: Ref)
    requires t in m && tail in m && tail in Members(l) && tail != t
    ensures var m1 := m[t := m[t].(nextChannelWaiter := NULL)];
            OnlyLinks(m, m1[tail := m1[tail].(nextChannelWaiter := t)], Members(l) + {t})
  {
  }

  lemma QueueElsewhere<V>(first: Ref, l: List<Ref>, m: Tasks<V>, m': Tasks<V>, s: set<Ref>)
    requires QueueOk(first, l, m) && OnlyLinks(m, m', s) && Members(l) !! s
    ensures QueueOk(first, l, m')
  {
    QueueAgree(first, l, m, m');
  }

  lemma HoldsKept<V>(ws: List<Waiting<V>>, m: Tasks<V>, m': Tasks<V>, s: set<Ref>)
    requires Holds(ws, m) && OnlyLinks(m, m', s)
    ensures Holds(ws, m')
  {
    HoldsAgree(ws, m, m');
  }

  /** The walk to the last task of a queue. */
  method TailOf<V>(first: Ref, ghost l: List<Ref>, m: Tasks<V>) returns (tail: Ref)
    requires QueueOk(first, l, m) && l.Cons?
    ensures tail == LastOf(l) && tail in m && tail in Members(l)
  {
    tail := first;
    ghost var rest := l;
    QueueFirst(tail, rest, m);
    while m[tail].nextChannelWaiter != NULL
      invariant rest.Cons? && QueueOk(tail, rest, m) && LastOf(rest) == LastOf(l) && tail in m
      decreases rest
    {
      QueueFirst(m[tail].nextChannelWaiter, rest.tail, m);
      rest := rest.tail;
      tail := m[tail].nextChannelWaiter;
    }
    QueueFirst(tail, rest, m);
    QueueFirst(m[tail].nextChannelWaiter, rest.tail, m);
    LastIsMember(l);
  }

  // ----- the ring buffer -----

  function Slot(first: nat, i: nat, cap: nat): nat {
    if first + i < cap then first + i else first + i - cap
  }

  /** The occupied places of the ring, oldest first. */
  ghost function Window<V>(b: seq<V>, first: nat, len: nat): seq<V>
    requires first < |b| && len <= |b|
  {
    seq(len, i requires 0 <= i < len => b[Slot(first, i, |b|)])
  }

  /** The ring index (first + i) % cap. */
  method RingIndex(first: nat, i: nat, cap: nat) returns (j: nat)
    requires first < cap && i <= cap
    ensures j < cap && j == Slot(first, i, cap)
  {
    if i == cap {
      DivUnique(first + i, 1, first, cap);
    } else {
      DivUnique(first, 0, first, cap);
      ModAdd(first, i, cap);
    }
    j := (first + i) % cap;
  }

  lemma WindowPush<V>(b: seq<V>, first: nat, len: nat, v: V)
    requires first < |b| && len < |b|
    ensures Window(b[Slot(first, len, |b|) := v], first, len + 1) == Window(b, first, len) + [v]
  {
  }

  lemma WindowPop<V>(b: seq<V>, first: nat, len: nat, nil: V)
    requires first < |b| && 0 < len <= |b|
    ensures Window(b, first, len)[0] == b[first]
    ensures Window(b[first := nil], Slot(first, 1, |b|), len - 1) == Window(b, first, len)[1..]
  {
  }

  // ----- operations -----

  /** The fields of the channel beside its buffer, and the tasks and ready queue of the runtime. */
  datatype Fields<V> = Fields(len: nat, first: nat, closed: bool, recvWaiters: Ref, sendWaiters: Ref,
                              tasks: Tasks<V>, ready: seq<Ref>)

  /** The fields and the buffer represent the protocol state `c`. */
  ghost predicate Represents<V>(f: Fields<V>, b: seq<V>, c: Chan<V>) {
    f.first < |b| && f.len <= |b| && c.cap == |b| && c.closed == f.closed && c.buf == Window(b, f.first, f.len) &&
    QueueOk(f.recvWaiters, c.receivers, f.tasks) &&
    QueueOk(f.sendWaiters, TasksOf(c.senders), f.tasks) && Holds(c.senders, f.tasks) &&
    Members(c.receivers) !! Members(TasksOf(c.senders)) && NULL !in f.tasks
  }

  /** A task that is on neither queue. */
  ghost predicate Runs<V>(t: Ref, f: Fields<V>, c: Chan<V>) {
    t in f.tasks && t !in Members(c.receivers) && t !in Members(TasksOf(c.senders))
  }

  /** Taking the first waiting sender off its queue and rewriting its record. */
  lemma DropSender<V>(f: Fields<V>, b: seq<V>, c: Chan<V>, rec: TaskRecord<V>)
    requires Represents(f, b, c) && c.senders.Cons?
    ensures f.sendWaiters in f.tasks && f.sendWaiters == c.senders.head.task
    ensures f.tasks[f.sendWaiters].waitingValue == c.senders.head.value
    ensures var first, m := f.tasks[f.sendWaiters].nextChannelWaiter, f.tasks[f.sendWaiters := rec];
            Represents(f.(sendWaiters := first, tasks := m), b, c.(senders := c.senders.tail))
  {
    var m' := f.tasks[f.sendWaiters := rec];
    QueueAgree(f.recvWaiters, c.receivers, f.tasks, m');
    QueueAgree(f.tasks[f.sendWaiters].nextChannelWaiter, TasksOf(c.senders.tail), f.tasks, m');
    HoldsAgree(c.senders.tail, f.tasks, m');
  }

  /** The same for the first waiting receiver. */
  lemma DropReceiver<V>(f: Fields<V>, b: seq<V>, c: Chan<V>, rec: TaskRecord<V>)
    requires Represents(f, b, c) && c.receivers.Cons?
    ensures f.recvWaiters in f.tasks && f.recvWaiters == c.receivers.head
    ensures var first, m := f.tasks[f.recvWaiters].nextChannelWaiter, f.tasks[f.recvWaiters := rec];
            Represents(f.(recvWaiters := first, tasks := m), b, c.(receivers := c.receivers.tail))
  {
    var m' := f.tasks[f.recvWaiters := rec];
    QueueAgree(f.tasks[f.recvWaiters].nextChannelWaiter, c.receivers.tail, f.tasks, m');
    QueueAgree(f.sendWaiters, TasksOf(c.senders), f.tasks, m');
    HoldsAgree(c.senders, f.tasks, m');
  }

  /** The tasks that a wake-up moves to the ready queue. */
  ghost function Woken<V>(c: Chan<V>): List<Ref>
    decreases c.senders
  {
    if c.senders.Cons? && |c.buf| < c.cap && !c.closed then
      Cons(c.senders.head.task, Woken(c.(buf := c.buf + [c.senders.head.value], senders := c.senders.tail)))
    else End
  }

  // ----- what an operation does to the tasks -----

  /** A waiting sender leaves its queue. */
  ghost function ReleaseSender<V>(m: Tasks<V>, t: Ref, failed: bool): Tasks<V> {
    if t in m then m[t := m[t].(nextChannelWaiter := NULL, waiting := false, sendFailed := failed)] else m
  }

  /** A waiting receiver leaves its queue with a value. */
  ghost function ReleaseReceiver<V>(m: Tasks<V>, t: Ref, v: V): Tasks<V> {
    if t in m then m[t := m[t].(nextChannelWaiter := NULL, waiting := false, pending := v)] else m
  }

  ghost function ReleaseSenders<V>(m: Tasks<V>, l: List<Ref>, failed: bool): Tasks<V>
    decreases l
  {
    if l.End? then m else ReleaseSenders(ReleaseSender(m, l.head, failed), l.tail, failed)
  }

  ghost function ReleaseReceivers<V>(m: Tasks<V>, l: List<Ref>, v: V): Tasks<V>
    decreases l
  {
    if l.End? then m else ReleaseReceivers(ReleaseReceiver(m, l.head, v), l.tail, v)
  }

  /** `t` waits with the record `rec` at the end of the queue `l`; no other task changes but the one before it. */
  ghost predicate Parked<V>(m: Tasks<V>, m': Tasks<V>, l: List<Ref>, t: Ref, rec: TaskRecord<V>) {
    t in m && Appended(m[t := rec], m', l, t)
  }

  /** So a queue of other tasks, as of a second channel, stays as it is. */
  lemma ParkedElsewhere<V>(m: Tasks<V>, m': Tasks<V>, l: List<Ref>, t: Ref, rec: TaskRecord<V>,
                           first: Ref, q: List<Ref>)
    requires Parked(m, m', l, t, rec) && QueueOk(first, q, m) && Members(q) !! Members(l) + {t}
    ensures QueueOk(first, q, m') && forall x :: x in Members(q) ==> m'[x] == m[x]
  {
    if l.Cons? {
      LastIsMember(l);
    }
    QueueAgree(first, q, m, m');
  }

  /** Released senders are exactly those that no longer wait, with the outcome given; values stay. */
  lemma {:induction false} SendersReleased<V>(m: Tasks<V>, l: List<Ref>, failed: bool, t: Ref)
    requires t in m
    ensures var m' := ReleaseSenders(m, l, failed);
            t in m' && m'[t].sendFailed == (if t in Members(l) then failed else m[t].sendFailed) &&
            m'[t].waiting == (t !in Members(l) && m[t].waiting) &&
            m'[t].waitingValue == m[t].waitingValue && m'[t].pending == m[t].pending &&
            m'[t].nextChannelWaiter == (if t in Members(l) then NULL else m[t].nextChannelWaiter)
    decreases l
  {
    if l.Cons? {
      SendersReleased(ReleaseSender(m, l.head, failed), l.tail, failed, t);
    }
  }

  lemma {:induction false} ReceiversReleased<V>(m: Tasks<V>, l: List<Ref>, v: V, t: Ref)
    requires t in m
    ensures var m' := ReleaseReceivers(m, l, v);
            t in m' && m'[t].pending == (if t in Members(l) then v else m[t].pending) &&
            m'[t].waiting == (t !in Members(l) && m[t].waiting) &&
            m'[t].waitingValue == m[t].waitingValue && m'[t].sendFailed == m[t].sendFailed &&
            m'[t].nextChannelWaiter == (if t in Members(l) then NULL else m[t].nextChannelWaiter)
    decreases l
  {
    if l.Cons? {
      ReceiversReleased(ReleaseReceiver(m, l.head, v), l.tail, v, t);
    }
  }

  lemma {:induction false} MembersOfSeq<T>(l: List<T>, x: T)
    ensures x in ToSeq(l) <==> x in Members(l)
  {
    if l.Cons? {
      MembersOfSeq(l.tail, x);
    }
  }

  /** Those woken were the first in line, and the others are still in line. */
  lemma {:induction false} WokenWereFirst<V>(c: Chan<V>)
    ensures ToSeq(TasksOf(c.senders)) == ToSeq(Woken(c)) + ToSeq(TasksOf(WakeSenders(c).senders))
    decreases c.senders
  {
    if c.senders.Cons? && |c.buf| < c.cap && !c.closed {
      WokenWereFirst(c.(buf := c.buf + [c.senders.head.value], senders := c.senders.tail));
    }
  }

  /**
   From the queue `q` to `q'`: whoever left it has joined the ready tasks, in order, and neither
   waits nor has failed; the records of all others are as they were.
   */
  ghost predicate FirstBecomeReady<V>(f: Fields<V>, f': Fields<V>, q: List<Ref>, q': List<Ref>) {
    f.ready <= f'.ready && f'.tasks.Keys == f.tasks.Keys &&
    var woken := f'.ready[|f.ready|..];
    ToSeq(q) == woken + ToSeq(q') &&
    (forall t :: t in woken ==> t in f'.tasks && !f'.tasks[t].waiting && !f'.tasks[t].sendFailed) &&
    (forall t :: t in f.tasks && t !in woken ==> f'.tasks[t] == f.tasks[t])
  }

  lemma {:induction false} ReleaseOthers<V>(m: Tasks<V>, l: List<Ref>, failed: bool)
    ensures ReleaseSenders(m, l, failed).Keys == m.Keys
    ensures forall t :: t in m && t !in Members(l) ==> ReleaseSenders(m, l, failed)[t] == m[t]
    decreases l
  {
    if l.Cons? {
      ReleaseOthers(ReleaseSender(m, l.head, failed), l.tail, failed);
    }
  }

  lemma WokenBecomeReady<V>(f: Fields<V>, b: seq<V>, c: Chan<V>, c0: Chan<V>, f': Fields<V>)
    requires Represents(f, b, c) && c0.senders == c.senders
    requires f'.ready == f.ready + ToSeq(Woken(c0)) && f'.tasks == ReleaseSenders(f.tasks, Woken(c0), false)
    ensures FirstBecomeReady(f, f', TasksOf(c.senders), TasksOf(WakeSenders(c0).senders))
  {
    var woken := ToSeq(Woken(c0));
    assert f'.ready[|f.ready|..] == woken;
    WokenWereFirst(c0);
    ReleaseOthers(f.tasks, Woken(c0), false);
    forall t | t in woken ensures t in Members(Woken(c0)) && t in f.tasks {
      MembersOfSeq(Woken(c0), t);
      MembersOfSeq(TasksOf(c.senders), t);
    }
    forall t | t in woken ensures !f'.tasks[t].waiting && !f'.tasks[t].sendFailed {
      SendersReleased(f.tasks, Woken(c0), false, t);
    }
    forall t | t in f.tasks && t !in woken ensures t !in Members(Woken(c0)) {
      MembersOfSeq(Woken(c0), t);
    }
  }

  /** The values that some tasks hold. */
  ghost function ValuesOf<V>(l: List<Ref>, m: Tasks<V>, nil: V): seq<V> {
    if l.End? then [] else [if l.head in m then m[l.head].waitingValue else nil] + ValuesOf(l.tail, m, nil)
  }

  lemma {:induction false} HoldsValues<V>(ws: List<Waiting<V>>, m: Tasks<V>, nil: V)
    requires Holds(ws, m)
    ensures ValuesOf(TasksOf(ws), m, nil) == Held(ws)
  {
    if ws.Cons? {
      HoldsValues(ws.tail, m, nil);
    }
  }

  /** A receiver gets the value and becomes ready. */
  ghost predicate HandedOver<V>(f: Fields<V>, f': Fields<V>, t: Ref, v: V) {
    t in f.tasks && f'.ready == f.ready + [t] &&
    f'.tasks == f.tasks[t := f.tasks[t].(nextChannelWaiter := NULL, waiting := false, pending := v)]
  }

  /** The senders that find a place once the oldest value is gone become ready, without failure. */
  ghost predicate SendersWoken<V>(f: Fields<V>, f': Fields<V>, c: Chan<V>)
    requires c.buf != []
  {
    var ts := Woken(c.(buf := c.buf[1..]));
    f'.ready == f.ready + ToSeq(ts) && f'.tasks == ReleaseSenders(f.tasks, ts, false)
  }

  /** What is left to do from `f` on leads where the whole of `all` led from `f0` on. */
  ghost predicate ReceiversFailed<V>(f0: Fields<V>, all: List<Ref>, f: Fields<V>, rest: List<Ref>, nil: V) {
    f.ready + ToSeq(rest) == f0.ready + ToSeq(all) &&
    ReleaseReceivers(f.tasks, rest, nil) == ReleaseReceivers(f0.tasks, all, nil)
  }

  ghost predicate SendersFailed<V>(f0: Fields<V>, all: List<Ref>, f: Fields<V>, rest: List<Ref>) {
    f.ready + ToSeq(rest) == f0.ready + ToSeq(all) &&
    ReleaseSenders(f.tasks, rest, true) == ReleaseSenders(f0.tasks, all, true)
  }

  lemma NextReady(ready: seq<Ref>, l: List<Ref>)
    requires l.Cons?
    ensures ready + [l.head] + ToSeq(l.tail) == ready + ToSeq(l)
  {
  }

  lemma ReceiverFails<V>(f0: Fields<V>, all: List<Ref>, f: Fields<V>, l: List<Ref>, f': Fields<V>, nil: V)
    requires ReceiversFailed(f0, all, f, l, nil) && l.Cons?
    requires f'.ready == f.ready + [l.head] && f'.tasks == ReleaseReceiver(f.tasks, l.head, nil)
    ensures ReceiversFailed(f0, all, f', l.tail, nil)
  {
    NextReady(f.ready, l);
  }

  lemma SenderFails<V>(f0: Fields<V>, all: List<Ref>, f: Fields<V>, l: List<Ref>, f': Fields<V>)
    requires SendersFailed(f0, all, f, l) && l.Cons?
    requires f'.ready == f.ready + [l.head] && f'.tasks == ReleaseSender(f.tasks, l.head, true)
    ensures SendersFailed(f0, all, f', l.tail)
  {
    NextReady(f.ready, l);
  }

  ghost predicate Untouched<V>(f: Fields<V>, f': Fields<V>) {
    f'.ready == f.ready && f'.tasks == f.tasks
  }

  /** The record of a task that starts to wait with a value to send. */
  ghost function Offering<V>(rec: TaskRecord<V>, v: V): TaskRecord<V> {
    rec.(waiting := true, waitingValue := v, sendFailed := false)
  }

  datatype Outcome<V> = Done(value: V) | Blocked | Failed | NotReady

  /** Rewriting the record of a task on neither queue. */
  lemma Rewritten<V>(f: Fields<V>, b: seq<V>, c: Chan<V>, t: Ref, rec: TaskRecord<V>)
    requires Represents(f, b, c) && Runs(t, f, c)
    ensures Represents(f.(tasks := f.tasks[t := rec]), b, c)
  {
    var m := f.tasks[t := rec];
    QueueAgree(f.sendWaiters, TasksOf(c.senders), f.tasks, m);
    QueueAgree(f.recvWaiters, c.receivers, f.tasks, m);
    HoldsAgree(c.senders, f.tasks, m);
  }

  lemma JoinedReceivers<V>(f: Fields<V>, b: seq<V>, c: Chan<V>, t: Ref, first: Ref, m: Tasks<V>)
    requires Represents(f, b, c) && Runs(t, f, c)
    requires QueueOk(first, Snoc(c.receivers, t), m) && OnlyLinks(f.tasks, m, Members(c.receivers) + {t})
    ensures Represents(f.(recvWaiters := first, tasks := m), b, c.(receivers := Snoc(c.receivers, t)))
  {
    MembersSnoc(c.receivers, t);
    QueueElsewhere(f.sendWaiters, TasksOf(c.senders), f.tasks, m, Members(c.receivers) + {t});
    HoldsKept(c.senders, f.tasks, m, Members(c.receivers) + {t});
  }

  lemma JoinedSenders<V>(f: Fields<V>, b: seq<V>, c: Chan<V>, t: Ref, v: V, first: Ref, m: Tasks<V>)
    requires Represents(f, b, c) && Runs(t, f, c) && f.tasks[t].waitingValue == v
    requires QueueOk(first, Snoc(TasksOf(c.senders), t), m) && OnlyLinks(f.tasks, m, Members(TasksOf(c.senders)) + {t})
    ensures Represents(f.(sendWaiters := first, tasks := m), b, c.(senders := Snoc(c.senders, Waiting(t, v))))
  {
    TasksOfSnoc(c.senders, Waiting(t, v));
    MembersSnoc(TasksOf(c.senders), t);
    QueueElsewhere(f.recvWaiters, c.receivers, f.tasks, m, Members(TasksOf(c.senders)) + {t});
    HoldsKept(c.senders, f.tasks, m, Members(TasksOf(c.senders)) + {t});
    HoldsSnoc(c.senders, Waiting(t, v), m);
  }

  /** A task starts to wait at the end of the sender queue. */
  method ParkSender<V>(f: Fields<V>, ghost b: seq<V>, ghost c: Chan<V>, current: Ref, v: V) returns (f': Fields<V>)
    requires Represents(f, b, c) && Runs(current, f, c)
    ensures Represents(f', b, c.(senders := Snoc(c.senders, Waiting(current, v)))) && f'.ready == f.ready
    ensures Parked(f.tasks, f'.tasks, TasksOf(c.senders), current, Offering(f.tasks[current], v))
  {
    var rec := f.tasks[current].(waiting := true, waitingValue := v, sendFailed := false);
    var m := f.tasks[current := rec];
    Rewritten(f, b, c, current, rec);
    var first, m' := WaiterPush(f.sendWaiters, current, m, TasksOf(c.senders));
    JoinedSenders(f.(tasks := m), b, c, current, v, first, m');
    f' := f.(sendWaiters := first, tasks := m');
  }

  /** The same at the end of the receiver queue. */
  method ParkReceiver<V>(f: Fields<V>, ghost b: seq<V>, ghost c: Chan<V>, current: Ref) returns (f': Fields<V>)
    requires Represents(f, b, c) && Runs(current, f, c)
    ensures Represents(f', b, c.(receivers := Snoc(c.receivers, current))) && f'.ready == f.ready
    ensures Parked(f.tasks, f'.tasks, c.receivers, current, f.tasks[current].(waiting := true))
  {
    var rec := f.tasks[current].(waiting := true);
    var m := f.tasks[current := rec];
    Rewritten(f, b, c, current, rec);
    var first, m' := WaiterPush(f.recvWaiters, current, m, c.receivers);
    JoinedReceivers(f.(tasks := m), b, c, current, first, m');
    f' := f.(recvWaiters := first, tasks := m');
  }

  class RingChannel<V(0)> {
    const nil: V
    const buffer: array<V>
    var f: Fields<V>
    ghost var c: Chan<V>

    ghost predicate Valid()
      reads this, buffer
    {
      Represents(f, buffer[..], c)
    }

    /** tya_channel_new; a capacity of 0 becomes 1. */
    constructor (capacity: nat, nil: V, tasks: Tasks<V>, ready: seq<Ref>)
      requires NULL !in tasks
      ensures Valid() && fresh(buffer) && this.nil == nil
      ensures c == Start<V>(if capacity == 0 then 1 else capacity).chan && f.tasks == tasks && f.ready == ready
    {
      var cap := if capacity == 0 then 1 else capacity;
      this.nil := nil;
      buffer := new V[cap](_ => nil);
      f := Fields(0, 0, false, NULL, NULL, tasks, ready);
      c := Chan(cap, [], false, End, End);
    }

    /** Append a value to the ring. */
    method PushBack(v: V)
      requires Valid() && f.len < buffer.Length
      modifies this, buffer
      ensures Valid() && c == old(c).(buf := old(c).buf + [v]) && f == old(f).(len := old(f).len + 1)
    {
      WindowPush(buffer[..], f.first, f.len, v);
      ghost var b := buffer[..];
      var tail := RingIndex(f.first, f.len, buffer.Length);
      buffer[tail] := v;
      assert buffer[..] == b[tail := v];
      f := f.(len := f.len + 1);
      c := c.(buf := c.buf + [v]);
    }

    /** Take the oldest value out of the ring. */
    method PopFront() returns (v: V)
      requires Valid() && f.len > 0
      modifies this, buffer
      ensures Valid() && c == old(c).(buf := old(c).buf[1..]) && v == old(c).buf[0]
      ensures f == old(f).(len := old(f).len - 1, first := f.first)
    {
      WindowPop(buffer[..], f.first, f.len, nil);
      ghost var b := buffer[..];
      v := buffer[f.first];
      buffer[f.first] := nil;
      assert buffer[..] == b[f.first := nil];
      var first := RingIndex(f.first, 1, buffer.Length);
      f := f.(first := first, len := f.len - 1);
      c := c.(buf := c.buf[1..]);
    }

    /** tya_channel_waiter_pop on the sender queue, and tya_task_enqueue. */
    method PopSender(failed: bool) returns (v: V)
      requires Valid() && f.sendWaiters != NULL
      modifies this
      ensures old(c).senders.Cons? && v == old(c).senders.head.value
      ensures Valid() && c == old(c).(senders := old(c).senders.tail)
      ensures f.ready == old(f).ready + [old(c).senders.head.task] && f.len == old(f).len && f.closed == old(f).closed
      ensures f.tasks == ReleaseSender(old(f).tasks, old(c).senders.head.task, failed)
    {
      var t := f.sendWaiters;
      var rec := f.tasks[t].(nextChannelWaiter := NULL, waiting := false, sendFailed := failed);
      DropSender(f, buffer[..], c, rec);
      v := f.tasks[t].waitingValue;
      f := f.(sendWaiters := f.tasks[t].nextChannelWaiter, tasks := f.tasks[t := rec], ready := f.ready + [t]);
      c := c.(senders := c.senders.tail);
    }

    /** tya_channel_waiter_pop on the receiver queue, the hand-over, and tya_task_enqueue. */
    method PopReceiver(v: V)
      requires Valid() && f.recvWaiters != NULL
      modifies this
      ensures old(c).receivers.Cons?
      ensures Valid() && c == old(c).(receivers := old(c).receivers.tail)
      ensures f.ready == old(f).ready + [old(c).receivers.head] && f.len == old(f).len && f.closed == old(f).closed
      ensures f.tasks == ReleaseReceiver(old(f).tasks, old(c).receivers.head, v)
    {
      var t := f.recvWaiters;
      var rec := f.tasks[t].(nextChannelWaiter := NULL, waiting := false, pending := v);
      DropReceiver(f, buffer[..], c, rec);
      f := f.(recvWaiters := f.tasks[t].nextChannelWaiter, tasks := f.tasks[t := rec], ready := f.ready + [t]);
      c := c.(receivers := c.receivers.tail);
    }

    /** tya_channel_wake_one_sender. */
    method WakeOneSender()
      requires Valid()
      modifies this, buffer
      ensures Valid() && c == WakeSenders(old(c)) && f.ready == old(f).ready + ToSeq(Woken(old(c)))
      ensures f.tasks == ReleaseSenders(old(f).tasks, Woken(old(c)), false)
      ensures FirstBecomeReady(old(f), f, TasksOf(old(c).senders), TasksOf(c.senders))
    {
      ghost var f0, b0, c0 := f, buffer[..], c;
      while f.sendWaiters != NULL && f.len < buffer.Length && !f.closed
        invariant Valid() && WakeSenders(c) == WakeSenders(old(c))
        invariant f.ready + ToSeq(Woken(c)) == old(f).ready + ToSeq(Woken(old(c)))
        invariant ReleaseSenders(f.tasks, Woken(c), false) == ReleaseSenders(old(f).tasks, Woken(old(c)), false)
        decreases c.senders
      {
        NextReady(f.ready, Woken(c));
        var v := PopSender(false);
        PushBack(v);
      }
      WokenBecomeReady(f0, b0, c0, c0, f);
    }

    /** The part of channel.send before the task may have to wait. */
    method TaskSend(current: Ref, v: V) returns (out: Outcome<V>)
      requires Valid() && Runs(current, f, c)
      modifies this, buffer
      ensures Valid() && c == Next(old(c), Send(current, v))
      ensures out == if old(c).closed then Failed
                     else if !CanHandOff(old(c)) && |old(c).buf| == old(c).cap then Blocked else Done(nil)
      ensures if CanHandOff(old(c)) then HandedOver(old(f), f, old(c).receivers.head, v) else f.ready == old(f).ready
      ensures out.Blocked? ==>
        Parked(old(f).tasks, f.tasks, TasksOf(old(c).senders), current, Offering(old(f).tasks[current], v)) &&
        f.tasks[current].waiting && f.tasks[current].waitingValue == v && !f.tasks[current].sendFailed
      ensures !CanHandOff(old(c)) && !out.Blocked? ==> f.tasks == old(f).tasks
    {
      if f.recvWaiters != NULL && f.len == 0 && !f.closed {
        PopReceiver(v);
        return Done(nil);
      }
      if f.len == buffer.Length && !f.closed {
        BlockSender(current, v);
        return Blocked;
      }
      if f.closed {
        return Failed;
      }
      PushBack(v);
      return Done(nil);
    }

    method BlockSender(current: Ref, v: V)
      requires Valid() && Runs(current, f, c)
      modifies this
      ensures Valid() && c == old(c).(senders := Snoc(old(c).senders, Waiting(current, v))) && f.ready == old(f).ready
      ensures Parked(old(f).tasks, f.tasks, TasksOf(old(c).senders), current, Offering(old(f).tasks[current], v))
    {
      f := ParkSender(f, buffer[..], c, current, v);
      c := c.(senders := Snoc(c.senders, Waiting(current, v)));
    }

    method BlockReceiver(current: Ref)
      requires Valid() && Runs(current, f, c)
      modifies this
      ensures Valid() && c == old(c).(receivers := Snoc(old(c).receivers, current)) && f.ready == old(f).ready
      ensures Parked(old(f).tasks, f.tasks, old(c).receivers, current, old(f).tasks[current].(waiting := true))
    {
      f := ParkReceiver(f, buffer[..], c, current);
      c := c.(receivers := Snoc(c.receivers, current));
    }

    /** The part of channel.receive before the task may have to wait. */
    method TaskReceive(current: Ref) returns (out: Outcome<V>)
      requires Valid() && Runs(current, f, c)
      modifies this, buffer
      ensures Valid() && c == Next(old(c), Receive(current))
      ensures out == if old(c).buf != [] then Done(old(c).buf[0]) else if old(c).closed then Done(nil) else Blocked
      ensures old(c).buf != [] ==>
        SendersWoken(old(f), f, old(c)) &&
        FirstBecomeReady(old(f), f, TasksOf(old(c).senders), TasksOf(c.senders))
      ensures old(c).buf == [] ==> f.ready == old(f).ready
      ensures out.Blocked? ==>
        Parked(old(f).tasks, f.tasks, old(c).receivers, current, old(f).tasks[current].(waiting := true)) &&
        f.tasks[current].waiting
      ensures old(c).buf == [] && !out.Blocked? ==> f.tasks == old(f).tasks
    {
      if f.len == 0 && !f.closed {
        BlockReceiver(current);
        return Blocked;
      }
      if f.len == 0 && f.closed {
        return Done(nil);
      }
      var v := PopFront();
      WakeOneSender();
      return Done(v);
    }

    /** One polling round of channel.select for a send operation. */
    method TrySend(v: V) returns (out: Outcome<V>)
      requires Valid()
      modifies this, buffer
      ensures Valid() && c == Next(old(c), SelectSend(v))
      ensures out == if old(c).closed then Failed
                     else if CanHandOff(old(c)) || |old(c).buf| < old(c).cap then Done(nil) else NotReady
      ensures if CanHandOff(old(c)) then HandedOver(old(f), f, old(c).receivers.head, v) else Untouched(old(f), f)
    {
      if f.closed {
        return Failed;
      }
      if f.recvWaiters != NULL && f.len == 0 {
        PopReceiver(v);
        return Done(nil);
      }
      if f.len < buffer.Length {
        PushBack(v);
        return Done(nil);
      }
      return NotReady;
    }

    /** One polling round of channel.select for a receive operation. */
    method TryReceive() returns (out: Outcome<V>)
      requires Valid()
      modifies this, buffer
      ensures Valid() && c == Next(old(c), SelectReceive)
      ensures out == if old(c).buf != [] then Done(old(c).buf[0]) else if old(c).closed then Done(nil) else NotReady
      ensures if old(c).buf != [] then SendersWoken(old(f), f, old(c)) else Untouched(old(f), f)
      ensures FirstBecomeReady(old(f), f, TasksOf(old(c).senders), TasksOf(c.senders))
    {
      if f.len > 0 {
        var v := PopFront();
        WakeOneSender();
        return Done(v);
      }
      if f.closed {
        return Done(nil);
      }
      return NotReady;
    }

    /** The end of channel.receive_timeout: no sender is woken. */
    method TimedReceive() returns (out: Outcome<V>)
      requires Valid()
      modifies this, buffer
      ensures Valid() && c == Next(old(c), TimeoutReceive)
      ensures out == if old(c).buf != [] then Done(old(c).buf[0]) else if old(c).closed then Done(nil) else NotReady
      ensures Untouched(old(f), f)
    {
      if f.len == 0 && !f.closed {
        return NotReady;
      }
      if f.len == 0 && f.closed {
        return Done(nil);
      }
      var v := PopFront();
      return Done(v);
    }

    /** The end of channel.send by the main thread, after its wait: no receiver is looked for. */
    method MainSendResumed(v: V) returns (out: Outcome<V>)
      requires Valid() && (f.len < buffer.Length || f.closed)
      modifies this, buffer
      ensures Valid() && c == Next(old(c), ResumedSend(v))
      ensures out == if old(c).closed then Failed else Done(nil)
      ensures Untouched(old(f), f)
    {
      if f.closed {
        return Failed;
      }
      PushBack(v);
      return Done(nil);
    }

    /** tya_channel_close: the waiting receivers get nil, the waiting senders fail, all become ready. */
    method CloseChannel()
      requires Valid()
      modifies this, buffer
      ensures Valid() && c == Next(old(c), Close)
      ensures f.ready == old(f).ready + ToSeq(old(c).receivers) + ToSeq(TasksOf(old(c).senders))
      ensures f.tasks == ReleaseSenders(ReleaseReceivers(old(f).tasks, old(c).receivers, nil),
                                        TasksOf(old(c).senders), true)
    {
      f := f.(closed := true);
      c := c.(closed := true);
      FailReceivers();
      FailSenders();
    }

    method FailReceivers()
      requires Valid()
      modifies this
      ensures Valid() && c == old(c).(receivers := End) && f.ready == old(f).ready + ToSeq(old(c).receivers)
      ensures f.tasks == ReleaseReceivers(old(f).tasks, old(c).receivers, nil)
    {
      while f.recvWaiters != NULL
        invariant Valid() && c == old(c).(receivers := c.receivers)
        invariant ReceiversFailed(old(f), old(c).receivers, f, c.receivers, nil)
        decreases c.receivers
      {
        ghost var f1, l := f, c.receivers;
        PopReceiver(nil);
        ReceiverFails(old(f), old(c).receivers, f1, l, f, nil);
      }
    }

    method FailSenders()
      requires Valid()
      modifies this
      ensures Valid() && c == old(c).(senders := End) && f.ready == old(f).ready + ToSeq(TasksOf(old(c).senders))
      ensures f.tasks == ReleaseSenders(old(f).tasks, TasksOf(old(c).senders), true)
    {
      while f.sendWaiters != NULL
        invariant Valid() && c == old(c).(senders := c.senders)
        invariant SendersFailed(old(f), TasksOf(old(c).senders), f, TasksOf(c.senders))
        decreases c.senders
      {
        ghost var f1, l := f, TasksOf(c.senders);
        var v := PopSender(true);
        SenderFails(old(f), TasksOf(old(c).senders), f1, l, f);
      }
    }
  }

  /** The tasks whose send a close fails are exactly those that hold the values it drops. */
  lemma CloseFailsHolders<V>(f: Fields<V>, b: seq<V>, c: Chan<V>, t: Ref, nil: V)
    requires Represents(f, b, c) && t in f.tasks
    ensures ValuesOf(TasksOf(c.senders), f.tasks, nil) == Drops(c, Close)
    ensures var m := ReleaseSenders(ReleaseReceivers(f.tasks, c.receivers, nil), TasksOf(c.senders), true);
            t in m && (m[t].sendFailed <==> f.tasks[t].sendFailed || t in Members(TasksOf(c.senders))) &&
            m[t].waitingValue == f.tasks[t].waitingValue &&
            (m[t].waiting <==>
               f.tasks[t].waiting && t !in Members(c.receivers) && t !in Members(TasksOf(c.senders))) &&
            (m[t].pending == if t in Members(c.receivers) then nil else f.tasks[t].pending)
  {
    HoldsValues(c.senders, f.tasks, nil);
    ReceiversReleased(f.tasks, c.receivers, nil, t);
    SendersReleased(ReleaseReceivers(f.tasks, c.receivers, nil), TasksOf(c.senders), true, t);
  }
}
