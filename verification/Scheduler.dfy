/**
 The cooperative scheduler's ready queue and sleep list.  The ready queue is
 linked with a tail pointer; the sleep list is kept sorted by wake time.
 */
module Scheduler {
  import opened Basics
  import opened TaskQueues

  datatype TaskRecord = TaskRecord(done: bool, queued: bool, sleeping: bool, wakeTime: real,
                                   nextReady: Ref, nextSleep: Ref)

  type Tasks = map<Ref, TaskRecord>

  function NextReady(m: Tasks): Ref -> Ref {
    (x: Ref) => if x in m then m[x].nextReady else NULL
  }

  function NextSleep(m: Tasks): Ref -> Ref {
    (x: Ref) => if x in m then m[x].nextSleep else NULL
  }

  datatype Sched = Sched(readyHead: Ref, readyTail: Ref, sleepHead: Ref, tasks: Tasks)

  ghost function WakeTime(t: Ref, m: Tasks): real {
    if t in m then m[t].wakeTime else 0.0
  }

  /** Wake times do not decrease along the list. */
  ghost predicate Sorted(l: List<Ref>, m: Tasks) {
    l.Cons? && l.tail.Cons? ==> WakeTime(l.head, m) <= WakeTime(l.tail.head, m) && Sorted(l.tail, m)
  }

  ghost predicate ReadyOk(head: Ref, tail: Ref, ready: List<Ref>, m: Tasks) {
    Chain(head, ready, NextReady(m)) && tail == LastOf(ready) && Members(ready) <= m.Keys &&
    forall t {:trigger m[t]} :: t in m ==> (m[t].queued <==> t in Members(ready))
  }

  ghost predicate SleepOk(head: Ref, sleep: List<Ref>, m: Tasks) {
    Chain(head, sleep, NextSleep(m)) && Sorted(sleep, m) && Members(sleep) <= m.Keys &&
    forall t {:trigger m[t]} :: t in m ==> (m[t].sleeping <==> t in Members(sleep))
  }

  /** No sleeping task is queued or finished. */
  ghost predicate Apart(m: Tasks) {
    forall t {:trigger m[t]} :: t in m && m[t].sleeping ==> !m[t].queued && !m[t].done
  }

  /** The lists are linked and sorted, their members are the flagged tasks, and no task is on both. */
  ghost predicate Inv(s: Sched, ready: List<Ref>, sleep: List<Ref>) {
    ReadyOk(s.readyHead, s.readyTail, ready, s.tasks) && SleepOk(s.sleepHead, sleep, s.tasks) && NULL !in s.tasks &&
    Apart(s.tasks)
  }

  // ----- what the operations do to the lists -----

  /** Behind everyone who wakes no later. */
  ghost function InsertSleep(l: List<Ref>, t: Ref, w: real, m: Tasks): List<Ref> {
    if l.End? || w < WakeTime(l.head, m) then Cons(t, l) else Cons(l.head, InsertSleep(l.tail, t, w, m))
  }

  /** The tasks that are due, and the others, both in list order. */
  ghost function Due(l: List<Ref>, now: real, m: Tasks): List<Ref> {
    if l.End? then End
    else if WakeTime(l.head, m) <= now then Cons(l.head, Due(l.tail, now, m)) else Due(l.tail, now, m)
  }

  ghost function NotDue(l: List<Ref>, now: real, m: Tasks): List<Ref> {
    if l.End? then End
    else if WakeTime(l.head, m) <= now then NotDue(l.tail, now, m) else Cons(l.head, NotDue(l.tail, now, m))
  }

  lemma {:induction false} SortedAgree(l: List<Ref>, m: Tasks, m': Tasks)
    requires Sorted(l, m) && forall x :: x in Members(l) ==> WakeTime(x, m') == WakeTime(x, m)
    ensures Sorted(l, m')
  {
    if l.Cons? {
      SortedAgree(l.tail, m, m');
    }
  }

  /** On a sorted list nobody behind a task that is not due is due. */
  lemma {:induction false} NobodyDue(l: List<Ref>, now: real, m: Tasks)
    requires Sorted(l, m) && (l.Cons? ==> now < WakeTime(l.head, m))
    ensures Due(l, now, m) == End && NotDue(l, now, m) == l
  {
    if l.Cons? {
      NobodyDue(l.tail, now, m);
    }
  }

  ghost predicate AllBy(l: List<Ref>, now: real, m: Tasks) {
    forall t :: t in Members(l) ==> WakeTime(t, m) <= now
  }

  ghost predicate AllLater(l: List<Ref>, now: real, m: Tasks) {
    forall t :: t in Members(l) ==> now < WakeTime(t, m)
  }

  /** `woken` has moved from the front of the sleep list to the end of the ready queue: exactly who is due. */
  ghost predicate MovedAre(woken: List<Ref>, ready: List<Ref>, sleep: List<Ref>,
                           ready': List<Ref>, sleep': List<Ref>, now: real, m: Tasks) {
    ready' == Append(ready, woken) && sleep == Append(woken, sleep') && AllBy(woken, now, m) && AllLater(sleep', now, m)
  }

  ghost predicate DueMoved(ready: List<Ref>, sleep: List<Ref>, ready': List<Ref>, sleep': List<Ref>,
                           now: real, m: Tasks) {
    exists woken :: MovedAre(woken, ready, sleep, ready', sleep', now, m)
  }

  lemma {:induction false} LaterBehind(l: List<Ref>, now: real, m: Tasks)
    requires Sorted(l, m) && (l.Cons? ==> now < WakeTime(l.head, m))
    ensures AllLater(l, now, m)
  {
    if l.Cons? {
      LaterBehind(l.tail, now, m);
    }
  }

  /** The due tasks of a sorted list are its front, up to the first one that wakes later. */
  lemma {:induction false} DueIsFront(l: List<Ref>, now: real, m: Tasks)
    requires Sorted(l, m)
    ensures Append(Due(l, now, m), NotDue(l, now, m)) == l
    ensures AllBy(Due(l, now, m), now, m) && AllLater(NotDue(l, now, m), now, m)
  {
    if l.Cons? {
      if now < WakeTime(l.head, m) {
        NobodyDue(l, now, m);
        LaterBehind(l, now, m);
      } else {
        DueIsFront(l.tail, now, m);
      }
    }
  }

  lemma DueMove(ready: List<Ref>, sleep: List<Ref>, now: real, m: Tasks)
    requires Sorted(sleep, m)
    ensures DueMoved(ready, sleep, Append(ready, Due(sleep, now, m)), NotDue(sleep, now, m), now, m)
  {
    DueIsFront(sleep, now, m);
    assert MovedAre(Due(sleep, now, m), ready, sleep, Append(ready, Due(sleep, now, m)), NotDue(sleep, now, m), now, m);
  }

  lemma {:induction false} MembersAppend(l: List<Ref>, r: List<Ref>)
    ensures Members(Append(l, r)) == Members(l) + Members(r)
  {
    if l.Cons? {
      MembersAppend(l.tail, r);
    }
  }

  /** Nobody is lost. */
  lemma DueMovedKeeps(ready: List<Ref>, sleep: List<Ref>, ready': List<Ref>, sleep': List<Ref>, now: real, m: Tasks)
    requires DueMoved(ready, sleep, ready', sleep', now, m)
    ensures Members(ready') + Members(sleep') == Members(ready) + Members(sleep)
  {
    var woken :| MovedAre(woken, ready, sleep, ready', sleep', now, m);
    MembersAppend(ready, woken);
    MembersAppend(woken, sleep');
  }

  /** The place of an insertion: everyone in front wakes no later, everyone behind later. */
  lemma {:induction false} InsertPlace(l: List<Ref>, t: Ref, w: real, m: Tasks) returns (a: List<Ref>, b: List<Ref>)
    requires Sorted(l, m)
    ensures l == Append(a, b) && InsertSleep(l, t, w, m) == Append(a, Cons(t, b))
    ensures AllBy(a, w, m) && AllLater(b, w, m)
  {
    if l.End? || w < WakeTime(l.head, m) {
      a, b := End, l;
      LaterBehind(l, w, m);
    } else {
      a, b := InsertPlace(l.tail, t, w, m);
      a := Cons(l.head, a);
    }
  }

  lemma {:induction false} InsertSorted(l: List<Ref>, t: Ref, w: real, m: Tasks, m': Tasks)
    requires Sorted(l, m) && t !in Members(l) && WakeTime(t, m') == w
    requires forall x :: x in Members(l) ==> WakeTime(x, m') == WakeTime(x, m)
    ensures Sorted(InsertSleep(l, t, w, m), m') && Members(InsertSleep(l, t, w, m)) == Members(l) + {t}
  {
    if l.Cons? {
      SortedAgree(l, m, m');
      InsertSorted(l.tail, t, w, m, m');
    }
  }

  /** Linking `t` behind `cur`, the last one that wakes no later, gives the insertion. */
  lemma {:induction false} InsertLinks(first: Ref, l: List<Ref>, t: Ref, w: real, m: Tasks, cur: Ref, m': Tasks)
    requires Chain(first, l, NextSleep(m)) && Sorted(l, m) && Members(l) <= m.Keys && t !in Members(l) && t != NULL
    requires l.Cons? && WakeTime(l.head, m) <= w
    requires cur in Members(l) && WakeTime(cur, m) <= w
    requires m[cur].nextSleep in m ==> w < WakeTime(m[cur].nextSleep, m)
    requires t in m' && m'[t].nextSleep == m[cur].nextSleep && cur in m' && m'[cur].nextSleep == t
    requires forall x :: x in Members(l) && x != cur ==> x in m' && m'[x].nextSleep == m[x].nextSleep
    ensures Chain(first, InsertSleep(l, t, w, m), NextSleep(m'))
    decreases l
  {
    var rest := l.tail;
    if l.head == cur {
      ChainAgree(NextSleep(m)(cur), rest, NextSleep(m), NextSleep(m'));
      assert InsertSleep(rest, t, w, m) == Cons(t, rest);
    } else {
      HeadEarliest(rest, m, cur);
      InsertLinks(NextSleep(m)(first), rest, t, w, m, cur, m');
      InsertSorted(rest, t, w, m, m[t := m'[t].(wakeTime := w)]);
    }
  }

  lemma {:induction false} HeadEarliest(l: List<Ref>, m: Tasks, x: Ref)
    requires Sorted(l, m) && x in Members(l)
    ensures WakeTime(l.head, m) <= WakeTime(x, m)
  {
    if x != l.head {
      HeadEarliest(l.tail, m, x);
    }
  }

  class Scheduler {
    var s: Sched
    ghost var ready: List<Ref>
    ghost var sleep: List<Ref>

    ghost predicate Valid()
      reads this
    {
      Inv(s, ready, sleep)
    }

    constructor (tasks: Tasks)
      requires NULL !in tasks && forall t :: t in tasks ==> !tasks[t].queued && !tasks[t].sleeping
      ensures Valid() && ready == End && sleep == End && s.tasks == tasks
    {
      s, ready, sleep := Sched(NULL, NULL, NULL, tasks), End, End;
    }

    /** tya_task_enqueue: NULL, finished and already queued tasks are left alone. */
    method Enqueue(t: Ref)
      requires Valid() && (t != NULL ==> t in s.tasks && !s.tasks[t].sleeping)
      modifies this
      ensures Valid() && sleep == old(sleep) && s.tasks.Keys == old(s).tasks.Keys
      ensures ready == if t == NULL || old(s).tasks[t].done || old(s).tasks[t].queued then old(ready)
                       else Snoc(old(ready), t)
      ensures SameButQueue(old(s).tasks, s.tasks)
    {
      if t == NULL || s.tasks[t].done || s.tasks[t].queued {
        return;
      }
      var r := LinkReady(s, t, ready, sleep);
      s, ready := r, Snoc(ready, t);
    }

    /** tya_task_wake_sleepers: the due tasks move behind the ready ones, in list order. */
    method WakeSleepers(now: real)
      requires Valid()
      modifies this
      ensures Valid() && SameTimes(old(s).tasks, s.tasks)
      ensures ready == Append(old(ready), Due(old(sleep), now, old(s).tasks))
      ensures sleep == NotDue(old(sleep), now, old(s).tasks)
      ensures DueMoved(old(ready), old(sleep), ready, sleep, now, old(s).tasks)
    {
      var r, q, z := WakeAll(s, now, ready, sleep);
      s, ready, sleep := r, q, z;
    }

    /** tya_task_dequeue: wakes the due tasks, which makes the ready queue `all`, then takes its head. */
    method Dequeue(now: real) returns (t: Ref, ghost all: List<Ref>)
      requires Valid()
      modifies this
      ensures Valid() && SameTimes(old(s).tasks, s.tasks)
      ensures sleep == NotDue(old(sleep), now, old(s).tasks)
      ensures all == Append(old(ready), Due(old(sleep), now, old(s).tasks)) && TakesHead(t, all, ready)
      ensures DueMoved(old(ready), old(sleep), all, sleep, now, old(s).tasks)
    {
      var r, q, z := WakeAll(s, now, ready, sleep);
      all := q;
      t := r.readyHead;
      if t != NULL {
        r := UnlinkReady(r, q, z);
        q := q.tail;
      }
      s, ready, sleep := r, q, z;
    }

    /** tya_task_sleep_until, for a running task: neither queued nor asleep. */
    method SleepUntil(t: Ref, wake: real)
      requires Valid() && (t != NULL ==> t in s.tasks && !s.tasks[t].queued && !s.tasks[t].sleeping)
      modifies this
      ensures Valid() && ready == old(ready)
      ensures sleep == if t == NULL || old(s).tasks[t].done then old(sleep)
                       else InsertSleep(old(sleep), t, wake, old(s).tasks)
      ensures t != NULL && !old(s).tasks[t].done ==> SameBut(t, old(s).tasks, s.tasks) && s.tasks[t].wakeTime == wake
      ensures t == NULL || old(s).tasks[t].done ==> s == old(s)
    {
      if t == NULL || s.tasks[t].done {
        return;
      }
      var r := LinkSleep(s, t, wake, ready, sleep);
      s, sleep := r, InsertSleep(sleep, t, wake, s.tasks);
    }

    /**
     One round of tya_scheduler_run_until_task_done: leave the loop, run the next
     task, go round again, or nap until the earliest sleeper is due.
     */
    method JoinRound(t: Ref, now: real, later: real) returns (v: Verdict)
      requires Valid() && (t != NULL ==> t in s.tasks)
      modifies this
      ensures Valid() && SameTimes(old(s).tasks, s.tasks)
      ensures t == NULL || s.tasks[t].done ==> v == Leave && s == old(s)
      ensures t != NULL && !s.tasks[t].done ==>
                Decides(v, s, later, ready, sleep) && DueMoved(old(ready), old(sleep), ready, sleep, now, old(s).tasks)
    {
      if t == NULL || s.tasks[t].done {
        return Leave;
      }
      var r, q, z := WakeAll(s, now, ready, sleep);
      s, ready, sleep := r, q, z;
      v := NextMove(s, later, ready, sleep);
    }
  }

  datatype Verdict = Leave | RunOne | Again | Nap(delay: real)

  /** The loop is left only with both lists empty; a nap ends exactly when the first sleeper is due. */
  ghost predicate Decides(v: Verdict, s: Sched, later: real, ready: List<Ref>, sleep: List<Ref>) {
    (v == Leave <==> ready == End && sleep == End) && (v == RunOne <==> ready.Cons?) &&
    (v.Again? ==> sleep.Cons? && WakeTime(sleep.head, s.tasks) <= later) &&
    (v.Nap? ==> v.delay > 0.0 && sleep.Cons? && later + v.delay == WakeTime(sleep.head, s.tasks))
  }

  method NextMove(s: Sched, later: real, ghost ready: List<Ref>, ghost sleep: List<Ref>) returns (v: Verdict)
    requires Inv(s, ready, sleep)
    ensures Decides(v, s, later, ready, sleep)
  {
    ListsMatch(s, ready, sleep);
    if s.readyHead != NULL {
      return RunOne;
    }
    if s.sleepHead == NULL {
      return Leave;
    }
    var delay := s.tasks[s.sleepHead].wakeTime - later;
    if delay <= 0.0 {
      return Again;
    }
    return Nap(delay);
  }

  ghost predicate TakesHead(t: Ref, q: List<Ref>, rest: List<Ref>) {
    if q.End? then t == NULL && rest == End else t == q.head && rest == q.tail
  }

  /** Nobody's wake time or completion changed. */
  ghost predicate SameTimes(m: Tasks, m': Tasks) {
    m'.Keys == m.Keys && forall x {:trigger m'[x]} ::
      x in m ==> m'[x].wakeTime == m[x].wakeTime && m'[x].done == m[x].done
  }

  /** Besides `t` itself, only sleep links differ. */
  ghost predicate SameBut(t: Ref, m: Tasks, m': Tasks) {
    m'.Keys == m.Keys && forall x {:trigger m'[x]} :: x in m && x != t ==> m'[x] == m[x].(nextSleep := m'[x].nextSleep)
  }

  lemma ListsMatch(s: Sched, ready: List<Ref>, sleep: List<Ref>)
    requires Inv(s, ready, sleep)
    ensures s.readyHead == NULL <==> ready == End
    ensures s.sleepHead == NULL <==> sleep == End
    ensures ready.Cons? ==> ready.head == s.readyHead && s.readyHead in s.tasks
    ensures sleep.Cons? ==> sleep.head == s.sleepHead && s.sleepHead in s.tasks && s.tasks[s.sleepHead].sleeping
  {
  }

  // ----- queueing -----

  /** The tasks after `t` is linked behind the last ready one. */
  function LinkedReady(s: Sched, t: Ref): Tasks
    requires t in s.tasks && (s.readyTail != NULL ==> s.readyTail in s.tasks)
  {
    var m := s.tasks[t := s.tasks[t].(nextReady := NULL)];
    var m1 := if s.readyTail == NULL then m else m[s.readyTail := m[s.readyTail].(nextReady := t)];
    m1[t := m1[t].(queued := true)]
  }

  /** Put a task behind the last ready one. */
  method LinkReady(s: Sched, t: Ref, ghost ready: List<Ref>, ghost sleep: List<Ref>) returns (r: Sched)
    requires Inv(s, ready, sleep) && t in s.tasks && !s.tasks[t].queued && !s.tasks[t].sleeping
    ensures Inv(r, Snoc(ready, t), sleep) && SameButQueue(s.tasks, r.tasks) && r.sleepHead == s.sleepHead
  {
    EnqueueInv(s, ready, sleep, t);
    r := s.(tasks := s.tasks[t := s.tasks[t].(nextReady := NULL)]);
    if s.readyTail == NULL {
      r := r.(readyHead := t, readyTail := t);
    } else {
      r := r.(tasks := r.tasks[s.readyTail := r.tasks[s.readyTail].(nextReady := t)], readyTail := t);
    }
    r := r.(tasks := r.tasks[t := r.tasks[t].(queued := true)]);
  }

  /** Only the ready links and flags may differ. */
  ghost predicate SameButQueue(m: Tasks, m': Tasks) {
    m'.Keys == m.Keys &&
    forall x {:trigger m'[x]} :: x in m ==> m'[x] == m[x].(nextReady := m'[x].nextReady, queued := m'[x].queued)
  }

  lemma TailListed(head: Ref, tail: Ref, ready: List<Ref>, m: Tasks)
    requires ReadyOk(head, tail, ready, m) && NULL !in m
    ensures tail == NULL <==> ready.End?
    ensures tail != NULL ==> tail in m && m[tail].queued
  {
    if ready.Cons? {
      LastIsMember(ready);
    }
  }

  lemma LinkedSame(s: Sched, t: Ref)
    requires t in s.tasks && (s.readyTail != NULL ==> s.readyTail in s.tasks)
    ensures SameButQueue(s.tasks, LinkedReady(s, t))
    ensures forall x {:trigger LinkedReady(s, t)[x]} ::
              x in s.tasks ==> (LinkedReady(s, t)[x].queued <==> s.tasks[x].queued || x == t)
  {
  }

  lemma EnqueueReady(s: Sched, ready: List<Ref>, t: Ref)
    requires ReadyOk(s.readyHead, s.readyTail, ready, s.tasks) && NULL !in s.tasks
    requires t in s.tasks && !s.tasks[t].queued && (s.readyTail != NULL ==> s.readyTail in s.tasks)
    ensures ReadyOk(if s.readyTail == NULL then t else s.readyHead, t, Snoc(ready, t), LinkedReady(s, t))
  {
    TailListed(s.readyHead, s.readyTail, ready, s.tasks);
    MembersSnoc(ready, t);
    LastOfSnoc(ready, t);
    LinkedSame(s, t);
    EnqueueChain(s, ready, t);
  }

  lemma EnqueueChain(s: Sched, ready: List<Ref>, t: Ref)
    requires Chain(s.readyHead, ready, NextReady(s.tasks)) && s.readyTail == LastOf(ready) &&
             Members(ready) <= s.tasks.Keys
    requires t in s.tasks && t != NULL && t !in Members(ready) && (s.readyTail == NULL <==> ready.End?)
    requires s.readyTail != NULL ==> s.readyTail in s.tasks
    ensures Chain(if s.readyTail == NULL then t else s.readyHead, Snoc(ready, t), NextReady(LinkedReady(s, t)))
  {
    if ready.Cons? {
      LastIsMember(ready);
      ChainAppend(s.readyHead, ready, NextReady(s.tasks), t, NextReady(LinkedReady(s, t)));
    }
  }

  /** Only the sleep links, times and flags may differ. */
  ghost predicate SameButSleep(m: Tasks, m': Tasks) {
    m'.Keys == m.Keys &&
    forall x {:trigger m'[x]} ::
      x in m ==> m'[x] == m[x].(nextSleep := m'[x].nextSleep, wakeTime := m'[x].wakeTime, sleeping := m'[x].sleeping)
  }

  lemma ReadyUnaffected(head: Ref, tail: Ref, ready: List<Ref>, m: Tasks, m': Tasks)
    requires ReadyOk(head, tail, ready, m) && SameButSleep(m, m')
    ensures ReadyOk(head, tail, ready, m')
  {
    ChainAgree(head, ready, NextReady(m), NextReady(m'));
  }

  lemma SleepUnaffected(head: Ref, sleep: List<Ref>, m: Tasks, m': Tasks)
    requires SleepOk(head, sleep, m) && SameButQueue(m, m')
    ensures SleepOk(head, sleep, m')
  {
    ChainAgree(head, sleep, NextSleep(m), NextSleep(m'));
    SortedAgree(sleep, m, m');
  }

  lemma EnqueueInv(s: Sched, ready: List<Ref>, sleep: List<Ref>, t: Ref)
    requires Inv(s, ready, sleep) && t in s.tasks && !s.tasks[t].queued && !s.tasks[t].sleeping
    ensures s.readyTail != NULL ==> s.readyTail in s.tasks
    ensures SameButQueue(s.tasks, LinkedReady(s, t))
    ensures var head := if s.readyTail == NULL then t else s.readyHead;
            Inv(s.(readyHead := head, readyTail := t, tasks := LinkedReady(s, t)), Snoc(ready, t), sleep)
  {
    TailListed(s.readyHead, s.readyTail, ready, s.tasks);
    LinkedSame(s, t);
    EnqueueReady(s, ready, t);
    SleepUnaffected(s.sleepHead, sleep, s.tasks, LinkedReady(s, t));
    SleepersFree(s.tasks, LinkedReady(s, t), t);
  }

  lemma SleepersFree(m: Tasks, m': Tasks, t: Ref)
    requires Apart(m) && SameButQueue(m, m') && t in m && !m[t].sleeping
    requires forall x {:trigger m'[x]} :: x in m ==> (m'[x].queued <==> m[x].queued || x == t)
    ensures Apart(m')
  {
  }

  // ----- waking -----

  method WakeAll(s: Sched, now: real, ghost ready: List<Ref>, ghost sleep: List<Ref>)
    returns (r: Sched, ghost ready': List<Ref>, ghost sleep': List<Ref>)
    requires Inv(s, ready, sleep)
    ensures Inv(r, ready', sleep') && SameTimes(s.tasks, r.tasks)
    ensures ready' == Append(ready, Due(sleep, now, s.tasks)) && sleep' == NotDue(sleep, now, s.tasks)
    ensures DueMoved(ready, sleep, ready', sleep', now, s.tasks)
    ensures r.readyHead != NULL <==> ready'.Cons?
    ensures ready'.Cons? ==> r.readyHead == ready'.head
  {
    DueMove(ready, sleep, now, s.tasks);
    r, ready', sleep' := s, ready, sleep;
    ListsMatch(r, ready', sleep');
    while r.sleepHead != NULL && r.tasks[r.sleepHead].wakeTime <= now
      invariant Inv(r, ready', sleep') && SameTimes(s.tasks, r.tasks)
      invariant r.sleepHead != NULL ==> r.sleepHead in r.tasks
      invariant Append(ready', Due(sleep', now, s.tasks)) == Append(ready, Due(sleep, now, s.tasks))
      invariant NotDue(sleep', now, s.tasks) == NotDue(sleep, now, s.tasks)
      decreases sleep'
    {
      ListsMatch(r, ready', sleep');
      AppendSnoc(ready', r.sleepHead, Due(sleep'.tail, now, s.tasks));
      ghost var t := r.sleepHead;
      r := WakeOne(r, ready', sleep');
      ready', sleep' := Snoc(ready', t), sleep'.tail;
      ListsMatch(r, ready', sleep');
    }
    ListsMatch(r, ready', sleep');
    SortedSame(r, ready', sleep', s.tasks);
    NobodyDue(sleep', now, s.tasks);
    AppendEnd(ready');
  }

  lemma SortedSame(r: Sched, ready: List<Ref>, sleep: List<Ref>, m: Tasks)
    requires Inv(r, ready, sleep) && SameTimes(m, r.tasks)
    ensures Sorted(sleep, m)
  {
    SortedAgree(sleep, r.tasks, m);
  }

  /** The first sleeper moves behind the ready tasks. */
  method WakeOne(s: Sched, ghost ready: List<Ref>, ghost sleep: List<Ref>) returns (r: Sched)
    requires Inv(s, ready, sleep) && s.sleepHead in s.tasks
    ensures Inv(r, Snoc(ready, s.sleepHead), sleep.tail) && SameTimes(s.tasks, r.tasks)
  {
    ListsMatch(s, ready, sleep);
    var t := s.sleepHead;
    UnlinkSleepInv(s, ready, sleep);
    r := s.(sleepHead := s.tasks[t].nextSleep, tasks := Awake(s.tasks, t));
    ghost var m := r.tasks;
    r := LinkReady(r, t, ready, sleep.tail);
    AwakeSame(s.tasks, t, m, r.tasks);
  }

  lemma AwakeSame(m: Tasks, t: Ref, m1: Tasks, m2: Tasks)
    requires t in m && m1 == Awake(m, t) && SameButQueue(m1, m2)
    ensures SameTimes(m, m2)
  {
  }

  function Awake(m: Tasks, t: Ref): Tasks
    requires t in m
  {
    m[t := m[t].(nextSleep := NULL, sleeping := false)]
  }

  lemma UnlinkSleepInv(s: Sched, ready: List<Ref>, sleep: List<Ref>)
    requires Inv(s, ready, sleep) && s.sleepHead in s.tasks
    ensures sleep.Cons? && sleep.head == s.sleepHead
    ensures Inv(s.(sleepHead := s.tasks[s.sleepHead].nextSleep, tasks := Awake(s.tasks, s.sleepHead)), ready,
            sleep.tail)
  {
    var m' := Awake(s.tasks, s.sleepHead);
    ReadyUnaffected(s.readyHead, s.readyTail, ready, s.tasks, m');
    UnlinkSleepOk(s.sleepHead, sleep, s.tasks);
  }

  lemma UnlinkSleepOk(t: Ref, sleep: List<Ref>, m: Tasks)
    requires SleepOk(t, sleep, m) && t in m && t != NULL
    ensures SleepOk(m[t].nextSleep, sleep.tail, Awake(m, t))
  {
    ChainAgree(NextSleep(m)(t), sleep.tail, NextSleep(m), NextSleep(Awake(m, t)));
    SortedAgree(sleep.tail, m, Awake(m, t));
  }

  /** The head of the ready queue leaves it. */
  method UnlinkReady(s: Sched, ghost ready: List<Ref>, ghost sleep: List<Ref>) returns (r: Sched)
    requires Inv(s, ready, sleep) && s.readyHead != NULL
    ensures ready.Cons? && Inv(r, ready.tail, sleep) && SameTimes(s.tasks, r.tasks)
  {
    ListsMatch(s, ready, sleep);
    var t := s.readyHead;
    UnlinkReadyInv(s, ready, sleep);
    r := s.(readyHead := s.tasks[t].nextReady);
    if r.readyHead == NULL {
      r := r.(readyTail := NULL);
    }
    r := r.(tasks := Unqueued(s.tasks, t));
  }

  function Unqueued(m: Tasks, t: Ref): Tasks
    requires t in m
  {
    m[t := m[t].(nextReady := NULL, queued := false)]
  }

  lemma UnlinkReadyInv(s: Sched, ready: List<Ref>, sleep: List<Ref>)
    requires Inv(s, ready, sleep) && s.readyHead in s.tasks
    ensures var next := s.tasks[s.readyHead].nextReady;
            var tail := if next == NULL then NULL else s.readyTail;
            Inv(s.(readyHead := next, readyTail := tail, tasks := Unqueued(s.tasks, s.readyHead)), ready.tail, sleep)
  {
    var m' := Unqueued(s.tasks, s.readyHead);
    ChainAgree(NextReady(s.tasks)(s.readyHead), ready.tail, NextReady(s.tasks), NextReady(m'));
    SleepUnaffected(s.sleepHead, sleep, s.tasks, m');
  }

  // ----- going to sleep -----

  /** The tasks when `t` sleeps until `wake` in front of everyone, or behind `cur`. */
  function AsleepFirst(m: Tasks, t: Ref, wake: real, head: Ref): Tasks
    requires t in m
  {
    m[t := m[t].(sleeping := true, wakeTime := wake, nextSleep := head)]
  }

  function AsleepBehind(m: Tasks, t: Ref, wake: real, cur: Ref): Tasks
    requires t in m && cur in m
  {
    m[t := m[t].(sleeping := true, wakeTime := wake, nextSleep := m[cur].nextSleep)][cur := m[cur].(nextSleep := t)]
  }

  method LinkSleep(s: Sched, t: Ref, wake: real, ghost ready: List<Ref>, ghost sleep: List<Ref>) returns (r: Sched)
    requires Inv(s, ready, sleep) && t in s.tasks && !s.tasks[t].queued && !s.tasks[t].sleeping && !s.tasks[t].done
    ensures Inv(r, ready, InsertSleep(sleep, t, wake, s.tasks))
    ensures SameBut(t, s.tasks, r.tasks) && r.tasks[t].wakeTime == wake
  {
    ListsMatch(s, ready, sleep);
    var m := s.tasks[t := s.tasks[t].(sleeping := true, wakeTime := wake, nextSleep := NULL)];
    if s.sleepHead == NULL || wake < m[s.sleepHead].wakeTime {
      m := m[t := m[t].(nextSleep := s.sleepHead)];
      r := s.(sleepHead := t, tasks := m);
      assert m == AsleepFirst(s.tasks, t, wake, s.sleepHead);
      SleepFirstInv(s, ready, sleep, t, wake);
    } else {
      var cur := FindPlace(s.sleepHead, sleep, s.tasks, t, m, wake);
      m := m[t := m[t].(nextSleep := m[cur].nextSleep)];
      r := s.(tasks := m[cur := m[cur].(nextSleep := t)]);
      assert r.tasks == AsleepBehind(s.tasks, t, wake, cur);
      SleepBehindInv(s, ready, sleep, t, wake, cur);
    }
  }

  /** The last task that wakes no later than `wake`; `m` is `m0` but for the sleeper's own entry. */
  method FindPlace(head: Ref, ghost sleep: List<Ref>, ghost m0: Tasks, ghost t: Ref, m: Tasks, wake: real)
    returns (cur: Ref)
    requires SleepOk(head, sleep, m0) && sleep.Cons? && t in m0 && !m0[t].sleeping
    requires t in m && m == m0[t := m[t]] && NULL !in m0 && WakeTime(head, m0) <= wake
    ensures cur in Members(sleep) && cur in m0 && cur != t && WakeTime(cur, m0) <= wake
    ensures m0[cur].nextSleep in m0 ==> wake < WakeTime(m0[cur].nextSleep, m0)
  {
    cur := head;
    ghost var rest := sleep;
    while m[cur].nextSleep != NULL && m[m[cur].nextSleep].wakeTime <= wake
      invariant rest.Cons? && Chain(cur, rest, NextSleep(m0)) && Members(rest) <= Members(sleep)
      invariant m[cur].wakeTime <= wake
      decreases rest
    {
      cur := m[cur].nextSleep;
      rest := rest.tail;
    }
  }

  lemma SleepFirstInv(s: Sched, ready: List<Ref>, sleep: List<Ref>, t: Ref, wake: real)
    requires Inv(s, ready, sleep) && t in s.tasks && !s.tasks[t].queued && !s.tasks[t].sleeping && !s.tasks[t].done
    requires sleep.Cons? ==> wake < WakeTime(sleep.head, s.tasks)
    ensures Inv(s.(sleepHead := t, tasks := AsleepFirst(s.tasks, t, wake, s.sleepHead)), ready,
            InsertSleep(sleep, t, wake, s.tasks))
    ensures SameBut(t, s.tasks, AsleepFirst(s.tasks, t, wake, s.sleepHead))
  {
    ReadyUnaffected(s.readyHead, s.readyTail, ready, s.tasks, AsleepFirst(s.tasks, t, wake, s.sleepHead));
    SleepFirstOk(s.sleepHead, sleep, s.tasks, t, wake);
  }

  lemma SleepFirstOk(head: Ref, sleep: List<Ref>, m: Tasks, t: Ref, wake: real)
    requires SleepOk(head, sleep, m) && t in m && t != NULL && !m[t].sleeping
    requires sleep.Cons? ==> wake < WakeTime(sleep.head, m)
    ensures SleepOk(t, InsertSleep(sleep, t, wake, m), AsleepFirst(m, t, wake, head))
  {
    var m' := AsleepFirst(m, t, wake, head);
    ChainAgree(head, sleep, NextSleep(m), NextSleep(m'));
    InsertSorted(sleep, t, wake, m, m');
  }

  lemma SleepBehindInv(s: Sched, ready: List<Ref>, sleep: List<Ref>, t: Ref, wake: real, cur: Ref)
    requires Inv(s, ready, sleep) && t in s.tasks && !s.tasks[t].queued && !s.tasks[t].sleeping && !s.tasks[t].done
    requires sleep.Cons? && WakeTime(sleep.head, s.tasks) <= wake
    requires cur in Members(sleep) && cur in s.tasks && WakeTime(cur, s.tasks) <= wake
    requires s.tasks[cur].nextSleep in s.tasks ==> wake < WakeTime(s.tasks[cur].nextSleep, s.tasks)
    ensures Inv(s.(tasks := AsleepBehind(s.tasks, t, wake, cur)), ready, InsertSleep(sleep, t, wake, s.tasks))
    ensures SameBut(t, s.tasks, AsleepBehind(s.tasks, t, wake, cur))
  {
    BehindSame(s.tasks, t, wake, cur);
    ReadyUnaffected(s.readyHead, s.readyTail, ready, s.tasks, AsleepBehind(s.tasks, t, wake, cur));
    SleepBehindOk(s.sleepHead, sleep, s.tasks, t, wake, cur);
  }

  lemma BehindSame(m: Tasks, t: Ref, wake: real, cur: Ref)
    requires Apart(m) && t in m && cur in m && t != cur && !m[t].queued && !m[t].done
    ensures SameBut(t, m, AsleepBehind(m, t, wake, cur)) && SameButSleep(m, AsleepBehind(m, t, wake, cur))
    ensures Apart(AsleepBehind(m, t, wake, cur))
    ensures forall x {:trigger AsleepBehind(m, t, wake, cur)[x]} ::
              x in m && x != t ==> AsleepBehind(m, t, wake, cur)[x].sleeping == m[x].sleeping
  {
  }

  lemma SleepBehindOk(head: Ref, sleep: List<Ref>, m: Tasks, t: Ref, wake: real, cur: Ref)
    requires SleepOk(head, sleep, m) && t in m && t != NULL && !m[t].sleeping && !m[t].queued && !m[t].done && Apart(m)
    requires sleep.Cons? && WakeTime(sleep.head, m) <= wake
    requires cur in Members(sleep) && WakeTime(cur, m) <= wake
    requires m[cur].nextSleep in m ==> wake < WakeTime(m[cur].nextSleep, m)
    ensures SleepOk(head, InsertSleep(sleep, t, wake, m), AsleepBehind(m, t, wake, cur))
  {
    var m' := AsleepBehind(m, t, wake, cur);
    BehindSame(m, t, wake, cur);
    InsertLinks(head, sleep, t, wake, m, cur, m');
    forall x | x in Members(sleep) ensures WakeTime(x, m') == WakeTime(x, m) {
    }
    InsertSorted(sleep, t, wake, m, m');
  }

  // ----- every ready task gets its turn -----

  /** What enqueue and dequeue do to the ready queue: a task joins; or due sleepers join and the head is taken. */
  datatype Event = Joins(task: Ref) | Takes(due: List<Ref>)

  ghost function NextQueue(q: List<Ref>, e: Event): List<Ref> {
    match e
    case Joins(t) => Snoc(q, t)
    case Takes(due) => var all := Append(q, due); if all.End? then End else all.tail
  }

  /** The tasks taken in the course of some events. */
  ghost function Taken(q: List<Ref>, events: List<Event>): List<Ref>
    decreases events
  {
    if events.End? then End
    else
      var rest := Taken(NextQueue(q, events.head), events.tail);
      if events.head.Takes? && Append(q, events.head.due).Cons? then Cons(Append(q, events.head.due).head, rest)
      else rest
  }

  ghost function CountTakes(events: List<Event>): nat {
    if events.End? then 0 else (if events.head.Takes? then 1 else 0) + CountTakes(events.tail)
  }

  /** How many tasks are in front of `t`. */
  ghost function Ahead(q: List<Ref>, t: Ref): nat
    requires t in Members(q)
  {
    if q.head == t then 0 else 1 + Ahead(q.tail, t)
  }

  lemma {:induction false} AheadAppend(q: List<Ref>, t: Ref, more: List<Ref>)
    requires t in Members(q)
    ensures t in Members(Append(q, more)) && Ahead(Append(q, more), t) == Ahead(q, t)
  {
    if q.head != t {
      AheadAppend(q.tail, t, more);
    }
  }

  /** Whatever joins and wakes in between, a ready task is taken after as many dequeues as stand in front of it,
      and one. */
  lemma {:induction false} TurnComes(q: List<Ref>, t: Ref, events: List<Event>)
    requires t in Members(q) && CountTakes(events) > Ahead(q, t)
    ensures t in Members(Taken(q, events))
    decreases events
  {
    var e := events.head;
    match e
    case Joins(x) =>
      AppendSnoc(q, x, End);
      AppendEnd(Snoc(q, x));
      AheadAppend(q, t, Cons(x, End));
      TurnComes(NextQueue(q, e), t, events.tail);
    case Takes(due) =>
      AheadAppend(q, t, due);
      if q.head != t {
        TurnComes(NextQueue(q, e), t, events.tail);
      }
  }
}
