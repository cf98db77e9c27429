/**
 Awaiting a task.  One link field, nextWaiter, is both the head of the list of
 tasks that await a task and that task's own place in another task's list, so
 the lists are right only as long as no task is in both positions at once.
 */
module Await {
  import opened Basics
  import opened TaskQueues

  /** `awaiting` is for awaits only: a task that a channel blocks is linked through another field. */
  datatype TaskRecord = TaskRecord(awaiting: bool, done: bool, nextWaiter: Ref)

  type Tasks = map<Ref, TaskRecord>

  /** Who awaits each task, the latest first: what the lists are meant to hold. */
  type Awaiters = map<Ref, List<Ref>>

  function Links(m: Tasks): Ref -> Ref {
    (x: Ref) => if x in m then m[x].nextWaiter else NULL
  }

  /** A known task that neither awaits another nor has finished. */
  predicate Active(m: Tasks, t: Ref) {
    t in m && !m[t].awaiting && !m[t].done
  }

  /** Finishing `t` wakes exactly the tasks in `l`, in that order. */
  ghost predicate Wakes(m: Tasks, t: Ref, l: List<Ref>) {
    t in m && Chain(m[t].nextWaiter, l, Links(m))
  }

  // ----- the two operations -----

  /** tya_task_await by a active task `c` on `t`. */
  function AwaitStep(m: Tasks, c: Ref, t: Ref): Tasks
    requires c in m && t in m
  {
    if m[t].done then m else
      var m1 := m[c := m[c].(awaiting := true, nextWaiter := m[t].nextWaiter)];
      m1[t := m1[t].(nextWaiter := c)]
  }

  /** The tasks after `t` finishes and everyone in `l` is woken. */
  ghost function Finished(m: Tasks, t: Ref, l: List<Ref>): Tasks {
    map x | x in m ::
      if x == t then m[x].(done := true, nextWaiter := NULL)
      else if x in Members(l) then m[x].(awaiting := false, nextWaiter := NULL)
      else m[x]
  }

  lemma FinishedStep(m: Tasks, t: Ref, gone: List<Ref>, w: Ref)
    requires w in m && w != t && w !in Members(gone)
    ensures var f := Finished(m, t, gone);
            f[w] == m[w] && f[w := f[w].(awaiting := false, nextWaiter := NULL)] == Finished(m, t, Cons(w, gone))
  {
  }

  lemma FinishedNone(m: Tasks, t: Ref)
    requires t in m
    ensures m[t := m[t].(done := true, nextWaiter := NULL)] == Finished(m, t, End)
  {
  }

  lemma NextWoken(woken: seq<Ref>, l: List<Ref>)
    requires l.Cons?
    ensures woken + [l.head] + ToSeq(l.tail) == woken + ToSeq(l)
  {
  }

  /** tya_task_finish: walk the list from `t`'s link and wake everyone on it. */
  method Finish(m: Tasks, t: Ref, ghost l: List<Ref>) returns (m': Tasks, woken: seq<Ref>)
    requires Wakes(m, t, l) && t !in Members(l) && Members(l) <= m.Keys && NULL !in m
    ensures m' == Finished(m, t, l) && woken == ToSeq(l)
    ensures m'.Keys == m.Keys && forall x {:trigger m'[x]} :: x in m ==>
              (m'[x].done <==> m[x].done || x == t) &&
              (x != t ==> (m'[x].awaiting <==> m[x].awaiting && x !in Members(l)))
  {
    var w := m[t].nextWaiter;
    m' := m[t := m[t].(done := true, nextWaiter := NULL)];
    FinishedNone(m, t);
    woken := [];
    ghost var rest, gone := l, End;
    while w != NULL
      invariant Chain(w, rest, Links(m)) && woken + ToSeq(rest) == ToSeq(l)
      invariant Partition(l, gone, rest)
      invariant m' == Finished(m, t, gone)
      decreases rest
    {
      NextWoken(woken, rest);
      PartitionStep(l, gone, rest);
      FinishedStep(m, t, gone, w);
      var next := m'[w].nextWaiter;
      m' := m'[w := m'[w].(awaiting := false, nextWaiter := NULL)];
      woken := woken + [w];
      gone, rest := Cons(w, gone), rest.tail;
      w := next;
    }
    SameMembers(m, t, l, gone);
  }

  ghost predicate Partition(l: List<Ref>, gone: List<Ref>, rest: List<Ref>) {
    Members(gone) + Members(rest) == Members(l) && Members(gone) !! Members(rest)
  }

  lemma PartitionStep(l: List<Ref>, gone: List<Ref>, rest: List<Ref>)
    requires Partition(l, gone, rest) && rest.Cons? && rest.head !in Members(rest.tail)
    ensures Partition(l, Cons(rest.head, gone), rest.tail) && rest.head in Members(l)
  {
  }

  lemma SameMembers(m: Tasks, t: Ref, l: List<Ref>, gone: List<Ref>)
    requires Partition(l, gone, End)
    ensures Finished(m, t, gone) == Finished(m, t, l)
  {
    assert Members(gone) == Members(l);
  }

  // ----- the invariant -----

  ghost predicate Listed(m: Tasks, l: List<Ref>, t: Ref) {
    t in m && Members(l) <= m.Keys &&
    if m[t].awaiting || m[t].done then l == End else Chain(m[t].nextWaiter, l, Links(m))
  }

  ghost predicate AllListed(m: Tasks, W: Awaiters) {
    W.Keys == m.Keys && forall t {:trigger W[t]} :: t in m ==> Listed(m, W[t], t)
  }

  /** Awaiting tasks are blocked, and await one task only. */
  ghost predicate Blocked(m: Tasks, W: Awaiters) {
    (forall t, x {:trigger x in Members(W[t])} ::
      t in W && x in Members(W[t]) ==> x in m && m[x].awaiting && !m[x].done) &&
    (forall t, u {:trigger W[t], W[u]} :: t in W && u in W && t != u ==> Members(W[t]) !! Members(W[u]))
  }

  ghost predicate AwaitsSome(W: Awaiters, x: Ref) {
    exists t :: t in W && x in Members(W[t])
  }

  ghost predicate Good(m: Tasks, W: Awaiters) {
    NULL !in m && AllListed(m, W) && Blocked(m, W) &&
    forall x {:trigger m[x]} :: x in m && m[x].awaiting ==> AwaitsSome(W, x)
  }

  lemma AwaitListed(m: Tasks, W: Awaiters, c: Ref, t: Ref, u: Ref)
    requires Good(m, W) && Active(m, c) && Active(m, t) && c != t && u in m && u != t && u != c
    ensures Listed(AwaitStep(m, c, t), W[u], u)
  {
    assert Listed(m, W[u], u);
    if !m[u].awaiting && !m[u].done {
      assert c !in Members(W[u]) && t !in Members(W[u]);
      ChainAgree(m[u].nextWaiter, W[u], Links(m), Links(AwaitStep(m, c, t)));
    }
  }

  lemma AwaitHead(m: Tasks, W: Awaiters, c: Ref, t: Ref)
    requires Good(m, W) && Active(m, c) && Active(m, t) && c != t
    ensures Listed(AwaitStep(m, c, t), Cons(c, W[t]), t) && c !in Members(W[t])
  {
    assert Listed(m, W[t], t);
    assert c !in Members(W[t]) && t !in Members(W[t]);
    ChainAgree(m[t].nextWaiter, W[t], Links(m), Links(AwaitStep(m, c, t)));
  }

  lemma AwaitBlocked(m: Tasks, W: Awaiters, c: Ref, t: Ref, m': Tasks)
    requires Blocked(m, W) && Active(m, c) && t in W && c in m' && m'[c].awaiting && !m'[c].done
    requires forall x {:trigger m[x]} ::
               x in m && m[x].awaiting ==> x in m' && m'[x].awaiting && m'[x].done == m[x].done
    ensures Blocked(m', W[t := Cons(c, W[t])])
  {
    var W' := W[t := Cons(c, W[t])];
    assert forall u {:trigger W'[u]} :: u in W ==> c !in Members(W[u]);
  }

  lemma AwaitsSomeKept(W: Awaiters, W': Awaiters, x: Ref)
    requires AwaitsSome(W, x)
    requires forall u {:trigger W[u]} :: u in W && x in Members(W[u]) ==> u in W' && x in Members(W'[u])
    ensures AwaitsSome(W', x)
  {
    var u :| u in W && x in Members(W[u]);
    assert x in Members(W'[u]);
  }

  lemma AwaitAllListed(m: Tasks, W: Awaiters, c: Ref, t: Ref)
    requires Good(m, W) && Active(m, c) && Active(m, t) && c != t && W[c] == End
    ensures AllListed(AwaitStep(m, c, t), W[t := Cons(c, W[t])])
  {
    var W' := W[t := Cons(c, W[t])];
    forall u {:trigger W'[u]} | u in m ensures Listed(AwaitStep(m, c, t), W'[u], u) {
      if u == t {
        AwaitHead(m, W, c, t);
      } else if u != c {
        AwaitListed(m, W, c, t, u);
      }
    }
  }

  /** An await keeps the invariant when neither task is on both sides of an await. */
  lemma AwaitKeeps(m: Tasks, W: Awaiters, c: Ref, t: Ref)
    requires Good(m, W) && Active(m, c) && Active(m, t) && c != t && W[c] == End
    ensures Good(AwaitStep(m, c, t), W[t := Cons(c, W[t])])
  {
    var m' := AwaitStep(m, c, t);
    var W' := W[t := Cons(c, W[t])];
    AwaitAllListed(m, W, c, t);
    AwaitBlocked(m, W, c, t, m');
    forall x {:trigger m'[x]} | x in m' && m'[x].awaiting ensures AwaitsSome(W', x) {
      if x == c {
        assert x in Members(W'[t]);
      } else {
        AwaitsSomeKept(W, W', x);
      }
    }
  }

  lemma FinishListed(m: Tasks, W: Awaiters, t: Ref, u: Ref)
    requires Good(m, W) && Active(m, t) && u in m && u != t
    ensures Listed(Finished(m, t, W[t]), W[u], u)
  {
    assert Listed(m, W[u], u) && Listed(m, W[t], t);
    if u in Members(W[t]) {
      assert m[u].awaiting;
      assert W[u] == End;
    } else if !m[u].awaiting && !m[u].done {
      assert t !in Members(W[u]);
      ChainAgree(m[u].nextWaiter, W[u], Links(m), Links(Finished(m, t, W[t])));
    }
  }

  lemma FinishBlocked(m: Tasks, W: Awaiters, t: Ref)
    requires Blocked(m, W) && t in W && Active(m, t)
    ensures Blocked(Finished(m, t, W[t]), W[t := End])
  {
    var W' := W[t := End];
    forall u, x {:trigger x in Members(W'[u])} | u in W' && x in Members(W'[u])
      ensures x in m && Finished(m, t, W[t])[x] == m[x] && m[x].awaiting && !m[x].done
    {
      assert x in Members(W[u]) && x !in Members(W[t]);
    }
  }

  /** In a good state the end of a active task wakes those who await it and nobody else. */
  lemma FinishKeeps(m: Tasks, W: Awaiters, t: Ref)
    requires Good(m, W) && Active(m, t)
    ensures Wakes(m, t, W[t]) && t !in Members(W[t])
    ensures Good(Finished(m, t, W[t]), W[t := End])
  {
    assert Listed(m, W[t], t);
    var m' := Finished(m, t, W[t]);
    var W' := W[t := End];
    forall u {:trigger W'[u]} | u in m ensures Listed(m', W'[u], u) {
      if u != t {
        FinishListed(m, W, t, u);
      }
    }
    FinishBlocked(m, W, t);
    forall x {:trigger m'[x]} | x in m' && m'[x].awaiting ensures AwaitsSome(W', x) {
      AwaitsSomeKept(W, W', x);
    }
  }

  // ----- exactly when awaiting is right -----

  /** As the tasks in `ends` finish one after the other, each wakes exactly those who await it. */
  ghost predicate Honest(m: Tasks, W: Awaiters, ends: List<Ref>)
    requires W.Keys == m.Keys
    decreases ends
  {
    ends.Cons? && Active(m, ends.head) ==>
      Wakes(m, ends.head, W[ends.head]) &&
      Honest(Finished(m, ends.head, W[ends.head]), W[ends.head := End], ends.tail)
  }

  /** Whatever the order in which tasks finish from here. */
  ghost predicate AlwaysHonest(m: Tasks, W: Awaiters)
    requires W.Keys == m.Keys
  {
    forall ends :: Honest(m, W, ends)
  }

  lemma {:induction false} GoodIsHonest(m: Tasks, W: Awaiters, ends: List<Ref>)
    requires Good(m, W)
    ensures Honest(m, W, ends)
    decreases ends
  {
    if ends.Cons? && Active(m, ends.head) {
      FinishKeeps(m, W, ends.head);
      GoodIsHonest(Finished(m, ends.head, W[ends.head]), W[ends.head := End], ends.tail);
    }
  }

  /** The list with `c` right behind `t`. */
  ghost function Spliced(l: List<Ref>, t: Ref, c: Ref): List<Ref> {
    if l.End? then End else if l.head == t then Cons(t, Cons(c, l.tail)) else Cons(l.head, Spliced(l.tail, t, c))
  }

  lemma {:induction false} SplicedMembers(l: List<Ref>, t: Ref, c: Ref)
    requires t in Members(l)
    ensures Members(Spliced(l, t, c)) == Members(l) + {c}
  {
    if l.head != t {
      SplicedMembers(l.tail, t, c);
    }
  }

  /**
   Awaiting a task that is itself in some list of awaiters puts the awaiting task
   into that list as well.
   */
  lemma {:induction false} AwaitSplices(m: Tasks, first: Ref, l: List<Ref>, c: Ref, t: Ref)
    requires c in m && t in m && c != NULL && c != t && !m[t].done
    requires Chain(first, l, Links(m)) && t in Members(l) && c !in Members(l)
    ensures Chain(first, Spliced(l, t, c), Links(AwaitStep(m, c, t)))
    decreases l
  {
    var m' := AwaitStep(m, c, t);
    if l.head == t {
      ChainAgree(Links(m)(t), l.tail, Links(m), Links(m'));
    } else {
      AwaitSplices(m, Links(m)(first), l.tail, c, t);
      SplicedMembers(l.tail, t, c);
    }
  }

  lemma {:induction false} ChainUnique(first: Ref, l: List<Ref>, l': List<Ref>, next: Ref -> Ref)
    requires Chain(first, l, next) && Chain(first, l', next)
    ensures l == l'
    decreases l
  {
    if l.Cons? {
      ChainUnique(next(first), l.tail, l'.tail, next);
    }
  }

  /** The awaited task itself awaits `x`: the end of `x` wakes `c`, which awaits an unfinished task. */
  lemma EarlyWakeup(m: Tasks, W: Awaiters, c: Ref, t: Ref, x: Ref)
    requires Good(m, W) && Active(m, c) && c != t && x != c && x in m && t in Members(W[x])
    ensures Active(AwaitStep(m, c, t), x)
    ensures Wakes(AwaitStep(m, c, t), x, Spliced(W[x], t, c)) && c in Members(Spliced(W[x], t, c)) &&
            c !in Members(W[x])
    ensures !Honest(AwaitStep(m, c, t), W[t := Cons(c, W[t])], Cons(x, End))
  {
    assert Listed(m, W[x], x) && Listed(m, W[t], t);
    var m' := AwaitStep(m, c, t);
    AwaitSplices(m, m[x].nextWaiter, W[x], c, t);
    SplicedMembers(W[x], t, c);
    if Chain(m'[x].nextWaiter, W[x], Links(m')) {
      ChainUnique(m'[x].nextWaiter, W[x], Spliced(W[x], t, c), Links(m'));
    }
  }

  /** The awaiting task has awaiters: once woken and finished itself, it wakes none of them. */
  lemma LostWakeup(m: Tasks, W: Awaiters, c: Ref, t: Ref)
    requires Good(m, W) && Active(m, c) && Active(m, t) && c != t && W[c] != End
    ensures var l := Cons(c, W[t]);
            var m' := AwaitStep(m, c, t);
            Wakes(m', t, l) && Active(Finished(m', t, l), c) && Wakes(Finished(m', t, l), c, End)
    ensures !Honest(AwaitStep(m, c, t), W[t := Cons(c, W[t])], Cons(t, Cons(c, End)))
  {
    AwaitHead(m, W, c, t);
  }

  // ----- both happen -----

  /** Task 2 awaits task 1; task 3 then awaits task 2, and the end of task 1 wakes both. */
  lemma EarlyWakeupHappens()
    ensures var m := map[Task(1) := TaskRecord(false, false, Task(2)), Task(2) := TaskRecord(true, false, NULL),
                         Task(3) := TaskRecord(false, false, NULL)];
            var W := map[Task(1) := Cons(Task(2), End), Task(2) := End, Task(3) := End];
            Good(m, W) && Wakes(AwaitStep(m, Task(3), Task(2)), Task(1), Cons(Task(2), Cons(Task(3), End)))
  {
    var m := map[Task(1) := TaskRecord(false, false, Task(2)), Task(2) := TaskRecord(true, false, NULL),
                 Task(3) := TaskRecord(false, false, NULL)];
    var W := map[Task(1) := Cons(Task(2), End), Task(2) := End, Task(3) := End];
    WitnessIsGood(m, W);
    EarlyWakeup(m, W, Task(3), Task(2), Task(1));
    assert Spliced(W[Task(1)], Task(2), Task(3)) == Cons(Task(2), Cons(Task(3), End));
  }

  /** Task 2 awaits task 1, which then awaits task 3: once task 3 and task 1 are done, nobody has woken task 2. */
  lemma LostWakeupHappens()
    ensures var m := map[Task(1) := TaskRecord(false, false, Task(2)), Task(2) := TaskRecord(true, false, NULL),
                         Task(3) := TaskRecord(false, false, NULL)];
            var W := map[Task(1) := Cons(Task(2), End), Task(2) := End, Task(3) := End];
            var m' := AwaitStep(m, Task(1), Task(3));
            Good(m, W) && Wakes(m', Task(3), Cons(Task(1), End)) &&
            Wakes(Finished(m', Task(3), Cons(Task(1), End)), Task(1), End)
  {
    var m := map[Task(1) := TaskRecord(false, false, Task(2)), Task(2) := TaskRecord(true, false, NULL),
                 Task(3) := TaskRecord(false, false, NULL)];
    var W := map[Task(1) := Cons(Task(2), End), Task(2) := End, Task(3) := End];
    WitnessIsGood(m, W);
    LostWakeup(m, W, Task(1), Task(3));
  }

  lemma WitnessIsGood(m: Tasks, W: Awaiters)
    requires m == map[Task(1) := TaskRecord(false, false, Task(2)), Task(2) := TaskRecord(true, false, NULL),
                      Task(3) := TaskRecord(false, false, NULL)]
    requires W == map[Task(1) := Cons(Task(2), End), Task(2) := End, Task(3) := End]
    ensures Good(m, W)
  {
    assert Chain(Task(2), Cons(Task(2), End), Links(m));
    assert Task(2) in Members(W[Task(1)]);
    assert Members(W[Task(1)]) == {Task(2)} && Members(W[Task(2)]) == {} && Members(W[Task(3)]) == {};
  }

  // ----- awaits that close a cycle -----

  /** `m2` is `m` with the tasks in `dead`, which can never run again, counted as finished. */
  ghost predicate Masks(m: Tasks, W: Awaiters, m2: Tasks, W2: Awaiters, dead: set<Ref>) {
    W.Keys == m.Keys && m2.Keys == m.Keys && W2.Keys == m.Keys &&
    forall x {:trigger m2[x]} ::
      x in m ==> if x in dead then m[x].awaiting && m2[x].done else m2[x] == m[x] && W2[x] == W[x]
  }

  lemma MaskedFinish(m: Tasks, W: Awaiters, m2: Tasks, W2: Awaiters, dead: set<Ref>, t: Ref)
    requires Masks(m, W, m2, W2, dead) && Good(m2, W2) && Active(m, t)
    ensures Active(m2, t) && W2[t] == W[t] && Wakes(m, t, W[t])
    ensures Masks(Finished(m, t, W[t]), W[t := End], Finished(m2, t, W[t]), W2[t := End], dead)
  {
    assert m2[t] == m[t];
    FinishKeeps(m2, W2, t);
    assert forall x :: x in Members(W2[t]) ==> x in m2 && !m2[x].done;
    ChainAgree(m[t].nextWaiter, W[t], Links(m2), Links(m));
  }

  lemma {:induction false} MaskedHonest(m: Tasks, W: Awaiters, m2: Tasks, W2: Awaiters, dead: set<Ref>, ends: List<Ref>)
    requires Masks(m, W, m2, W2, dead) && Good(m2, W2)
    ensures Honest(m, W, ends)
    decreases ends
  {
    if ends.Cons? && Active(m, ends.head) {
      var t := ends.head;
      MaskedFinish(m, W, m2, W2, dead, t);
      FinishKeeps(m2, W2, t);
      MaskedHonest(Finished(m, t, W[t]), W[t := End], Finished(m2, t, W[t]), W2[t := End], dead, ends.tail);
    }
  }

  ghost function Buried(m: Tasks, dead: set<Ref>): Tasks {
    map x | x in m :: if x in dead then m[x].(awaiting := false, done := true) else m[x]
  }

  /** The dead are out of the way and nobody else has changed. */
  ghost predicate Others(m: Tasks, m2: Tasks, dead: set<Ref>) {
    m2.Keys == m.Keys &&
    forall x {:trigger m2[x]} :: x in m ==> if x in dead then m2[x].done && !m2[x].awaiting else m2[x] == m[x]
  }

  lemma CycleListed(m: Tasks, W: Awaiters, c: Ref, m2: Tasks, dead: set<Ref>, u: Ref)
    requires Good(m, W) && c in m && dead == {c} + Members(W[c]) && Others(m, m2, dead) && u in m && u !in dead &&
             !m[c].awaiting
    ensures Listed(m2, W[u], u)
  {
    assert Listed(m, W[u], u);
    if !m[u].awaiting && !m[u].done {
      assert Members(W[u]) !! Members(W[c]);
      assert c !in Members(W[u]);
      ChainAgree(m[u].nextWaiter, W[u], Links(m), Links(m2));
    }
  }

  lemma CycleAllListed(m: Tasks, W: Awaiters, c: Ref, m2: Tasks, dead: set<Ref>)
    requires Good(m, W) && c in m && dead == {c} + Members(W[c]) && Others(m, m2, dead) && !m[c].awaiting
    ensures AllListed(m2, W[c := End])
  {
    forall u {:trigger W[c := End][u]} | u in m ensures Listed(m2, W[c := End][u], u) {
      if u !in dead {
        CycleListed(m, W, c, m2, dead, u);
      } else if u != c {
        assert m[u].awaiting;
        assert Listed(m, W[u], u);
      }
    }
  }

  lemma CycleBlocked(m: Tasks, W: Awaiters, c: Ref, m2: Tasks, dead: set<Ref>)
    requires Blocked(m, W) && c in W && dead == {c} + Members(W[c]) && Others(m, m2, dead) && c in m && !m[c].awaiting
    ensures Blocked(m2, W[c := End])
  {
    var W2 := W[c := End];
    forall u, x {:trigger x in Members(W2[u])} | u in W2 && x in Members(W2[u])
      ensures x in m2 && m2[x].awaiting && !m2[x].done
    {
      assert x in Members(W[u]) && x !in Members(W[c]);
    }
  }

  /** A task that awaits itself or one of its awaiters is stuck with all its awaiters; the others are in order. */
  lemma CycleIsGood(m: Tasks, W: Awaiters, c: Ref, m2: Tasks, dead: set<Ref>)
    requires Good(m, W) && c in m && dead == {c} + Members(W[c]) && Others(m, m2, dead) && !m[c].awaiting
    ensures Good(m2, W[c := End])
  {
    CycleAllListed(m, W, c, m2, dead);
    CycleBlocked(m, W, c, m2, dead);
    forall x {:trigger m2[x]} | x in m2 && m2[x].awaiting ensures AwaitsSome(W[c := End], x) {
      assert m[x].awaiting && x !in Members(W[c]);
      AwaitsSomeKept(W, W[c := End], x);
    }
  }

  lemma CycleOthers(m: Tasks, c: Ref, t: Ref, dead: set<Ref>)
    requires c in m && t in m && !m[t].done && c in dead && t in dead
    ensures Others(m, Buried(AwaitStep(m, c, t), dead), dead)
  {
  }

  lemma CycleMasks(m: Tasks, W: Awaiters, c: Ref, t: Ref, dead: set<Ref>)
    requires Good(m, W) && Active(m, c) && t in m && !m[t].done && c in dead && t in dead
    requires dead == {c} + Members(W[c])
    ensures Masks(AwaitStep(m, c, t), W[t := Cons(c, W[t])], Buried(AwaitStep(m, c, t), dead), W[c := End], dead)
  {
    assert forall x :: x in Members(W[c]) ==> x in m && m[x].awaiting && !m[x].done;
  }

  /**
   From a good state, awaiting is right over every later order of completions exactly
   when the awaiting task has no awaiters and the awaited one does not itself await, or
   when the await closes a cycle, so that nobody in it is ever woken.
   */
  lemma AwaitExact(m: Tasks, W: Awaiters, c: Ref, t: Ref)
    requires Good(m, W) && Active(m, c) && t in m && !m[t].done
    ensures AlwaysHonest(AwaitStep(m, c, t), W[t := Cons(c, W[t])]) <==>
            (W[c] == End && !m[t].awaiting) || t == c || t in Members(W[c])
  {
    var m' := AwaitStep(m, c, t);
    var W' := W[t := Cons(c, W[t])];
    if t == c || t in Members(W[c]) {
      var dead := {c} + Members(W[c]);
      CycleOthers(m, c, t, dead);
      CycleMasks(m, W, c, t, dead);
      CycleIsGood(m, W, c, Buried(m', dead), dead);
      forall ends ensures Honest(m', W', ends) {
        MaskedHonest(m', W', Buried(m', dead), W[c := End], dead, ends);
      }
    } else if m[t].awaiting {
      var x :| x in m && t in Members(W[x]);
      EarlyWakeup(m, W, c, t, x);
    } else if W[c] != End {
      LostWakeup(m, W, c, t);
    } else {
      AwaitKeeps(m, W, c, t);
      forall ends ensures Honest(m', W', ends) {
        GoodIsHonest(m', W', ends);
      }
    }
  }
}
