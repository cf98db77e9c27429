/**
 Root frames and raise frames.  Every running function registers a frame of root
 variables; the frame is linked into one global doubly linked list, which the
 collector walks, and into the stack of the task that runs it.  A raise unwinds
 the current task's stack to where its innermost handler was installed.
 */
module RootFrames {
  import opened Basics
  import opened Heap

  /** A root frame lives in its function's activation; its links are addresses. */
  datatype Frame = Frame(roots: seq<Addr>, protectedValues: seq<Value>,
                         threadPrev: Addr, globalPrev: Addr, globalNext: Addr)

  datatype RaiseFrame = RaiseFrame(value: Value, prev: Addr, gcRoots: Addr)

  /** What the scheduler saves of a task, or of the main thread, that is not running. */
  datatype Fiber = Fiber(gcRoots: Addr, raiseFrame: Addr)

  type FiberId = int

  // ----- the global list -----

  ghost function First(l: List<Addr>): Addr {
    if l.Cons? then l.head else NULL
  }

  /** `l` is doubly linked in `m`, without repetition; `prev` is what its first frame points back to. */
  ghost predicate ListOk(l: List<Addr>, prev: Addr, m: map<Addr, Frame>) {
    l.Cons? ==>
      l.head != NULL && l.head in m && m[l.head].globalPrev == prev && m[l.head].globalNext == First(l.tail) &&
      l.head !in Members(l.tail) && ListOk(l.tail, l.head, m)
  }

  /** `l` without `x`, the other frames in their order. */
  ghost function Remove(l: List<Addr>, x: Addr): List<Addr> {
    if l.End? then End else if l.head == x then l.tail else Cons(l.head, Remove(l.tail, x))
  }

  ghost predicate Neighboured(m: map<Addr, Frame>, x: Addr) {
    x in m && (m[x].globalPrev != NULL ==> m[x].globalPrev in m) && (m[x].globalNext != NULL ==> m[x].globalNext in m)
  }

  /** The memory after the neighbours of `x` are linked to each other. */
  ghost function Bypass(m: map<Addr, Frame>, x: Addr): map<Addr, Frame>
    requires Neighboured(m, x)
  {
    var p, n := m[x].globalPrev, m[x].globalNext;
    var m1 := if p == NULL then m else m[p := m[p].(globalNext := n)];
    if n == NULL then m1 else m1[n := m1[n].(globalPrev := p)]
  }

  /** Every frame of `m'` is in `m`, with the same roots and protected values. */
  ghost predicate Kept(m: map<Addr, Frame>, m': map<Addr, Frame>) {
    forall x :: x in m' ==> x in m && m'[x].roots == m[x].roots && m'[x].protectedValues == m[x].protectedValues
  }

  lemma BypassKeeps(m: map<Addr, Frame>, x: Addr)
    requires Neighboured(m, x)
    ensures Kept(m, Bypass(m, x) - {x})
  {
  }

  /** `l` without the frames in `s`, the others in their order. */
  ghost function Without(l: List<Addr>, s: set<Addr>): List<Addr> {
    if l.End? then End else if l.head in s then Without(l.tail, s) else Cons(l.head, Without(l.tail, s))
  }

  lemma {:induction false} WithoutNone(l: List<Addr>, s: set<Addr>)
    requires Members(l) !! s
    ensures Without(l, s) == l
  {
    if l.Cons? {
      WithoutNone(l.tail, s);
    }
  }

  lemma {:induction false} WithoutTwice(l: List<Addr>, a: set<Addr>, b: set<Addr>)
    ensures Without(Without(l, a), b) == Without(l, a + b)
  {
    if l.Cons? {
      WithoutTwice(l.tail, a, b);
    }
  }

  lemma {:induction false} RemoveIsWithout(l: List<Addr>, prev: Addr, m: map<Addr, Frame>, x: Addr)
    requires ListOk(l, prev, m)
    ensures Remove(l, x) == Without(l, {x})
  {
    if l.Cons? {
      if l.head == x {
        WithoutNone(l.tail, {x});
      } else {
        RemoveIsWithout(l.tail, l.head, m, x);
      }
    }
  }

  lemma {:induction false} ListAgree(l: List<Addr>, prev: Addr, m: map<Addr, Frame>, m': map<Addr, Frame>)
    requires ListOk(l, prev, m)
    requires forall x :: x in Members(l) && x in m ==> x in m' && m'[x].globalPrev == m[x].globalPrev
    requires forall x :: x in Members(l) && x in m ==> x in m' && m'[x].globalNext == m[x].globalNext
    ensures ListOk(l, prev, m')
  {
    if l.Cons? {
      ListAgree(l.tail, l.head, m, m');
    }
  }

  /** The neighbours of a listed frame are listed, distinct from it and from each other. */
  lemma {:induction false} ListNeighbours(l: List<Addr>, prev: Addr, m: map<Addr, Frame>, x: Addr)
    requires ListOk(l, prev, m) && x in Members(l) && prev !in Members(l)
    ensures Members(l) <= m.Keys && NULL !in Members(l)
    ensures m[x].globalPrev != x && m[x].globalNext != x
    ensures m[x].globalNext != NULL ==> m[x].globalNext in Members(l) && m[x].globalNext != m[x].globalPrev
    ensures if x == l.head then m[x].globalPrev == prev else m[x].globalPrev in Members(l)
  {
    if l.tail.Cons? {
      ListNeighbours(l.tail, l.head, m, if x == l.head then l.tail.head else x);
    }
  }

  /** `l` is the doubly linked list from `root`, and the memory holds nothing else. */
  ghost predicate ListInv(root: Addr, l: List<Addr>, m: map<Addr, Frame>) {
    root == First(l) && ListOk(l, NULL, m) && Members(l) == m.Keys && NULL !in m
  }

  /** Putting a new frame in front. */
  lemma EnterList(root: Addr, l: List<Addr>, m: map<Addr, Frame>, x: Addr, m': map<Addr, Frame>)
    requires ListInv(root, l, m) && x != NULL && x !in m && m'.Keys == m.Keys + {x}
    requires m'[x].globalPrev == NULL && m'[x].globalNext == root
    requires forall y :: y in m ==> m'[y].globalPrev == (if y == root then x else m[y].globalPrev)
    requires forall y :: y in m ==> m'[y].globalNext == m[y].globalNext
    ensures ListInv(x, Cons(x, l), m')
  {
    if l.Cons? {
      ListAgree(l.tail, l.head, m, m');
      assert ListOk(l, x, m');
    }
  }

  lemma RemoveFirst(l: List<Addr>, prev: Addr, m: map<Addr, Frame>)
    requires l.Cons? && ListOk(l, prev, m) && prev !in Members(l) && (prev != NULL ==> prev in m)
    requires m[l.head].globalNext != NULL ==> m[l.head].globalNext in m
    ensures ListOk(l.tail, prev, Bypass(m, l.head))
  {
    var t := l.tail;
    if t.Cons? {
      ListAgree(t.tail, t.head, m, Bypass(m, l.head));
    }
  }

  lemma {:induction false} ListRemove(l: List<Addr>, prev: Addr, m: map<Addr, Frame>, x: Addr)
    requires ListOk(l, prev, m) && x in Members(l) && prev !in Members(l) && (prev != NULL ==> prev in m)
    ensures Neighboured(m, x)
    ensures Members(Remove(l, x)) == Members(l) - {x}
    ensures ListOk(Remove(l, x), prev, Bypass(m, x))
  {
    ListNeighbours(l, prev, m, x);
    var t := l.tail;
    if l.head == x {
      RemoveFirst(l, prev, m);
    } else {
      ListNeighbours(t, l.head, m, x);
      ListRemove(t, l.head, m, x);
    }
  }

  /** Taking a frame out and dropping its memory. */
  lemma LeaveList(root: Addr, l: List<Addr>, m: map<Addr, Frame>, x: Addr)
    requires ListInv(root, l, m) && x in m
    ensures Neighboured(m, x)
    ensures Bypass(m, x).Keys == m.Keys
    ensures forall y :: y in m ==> Bypass(m, x)[y].threadPrev == m[y].threadPrev
    ensures ListInv(if m[x].globalPrev != NULL then root else m[x].globalNext, Remove(l, x), Bypass(m, x) - {x})
  {
    ListNeighbours(l, NULL, m, x);
    ListRemove(l, NULL, m, x);
    ListAgree(Remove(l, x), NULL, Bypass(m, x), Bypass(m, x) - {x});
  }

  // ----- the stacks of one task -----

  /** The frames of one task, innermost first. */
  datatype Stack = Empty | Push(frame: Addr, below: Stack)

  /** The handlers of one task, innermost first, each with the frame stack at its push. */
  datatype Handlers = NoHandler | Handler(r: Addr, saved: Stack, outer: Handlers)

  datatype Contents = Contents(stack: Stack, handlers: Handlers)

  type Tasks = map<FiberId, Contents>

  ghost function WithStack(c: Tasks, f: FiberId, st: Stack): Tasks
    requires f in c
  {
    c[f := c[f].(stack := st)]
  }

  lemma WithStackTwice(c: Tasks, f: FiberId, a: Stack, b: Stack)
    requires f in c
    ensures WithStack(WithStack(c, f, a), f, b) == WithStack(c, f, b)
  {
  }

  ghost function WithHandlers(c: Tasks, f: FiberId, hs: Handlers): Tasks
    requires f in c
  {
    c[f := c[f].(handlers := hs)]
  }

  ghost function Frames(st: Stack): set<Addr> {
    if st.Push? then {st.frame} + Frames(st.below) else {}
  }

  ghost function HandlerSet(hs: Handlers): set<Addr> {
    if hs.Handler? then {hs.r} + HandlerSet(hs.outer) else {}
  }

  ghost function TopFrame(st: Stack): Addr {
    if st.Push? then st.frame else NULL
  }

  ghost function TopHandler(hs: Handlers): Addr {
    if hs.Handler? then hs.r else NULL
  }

  /** `a` is what is left of `b` after popping some frames. */
  ghost predicate Suffix(a: Stack, b: Stack) {
    a == b || (b.Push? && Suffix(a, b.below))
  }

  /** `st` is linked by threadPrev, without repetition, and all its frames belong to fiber `f`. */
  ghost predicate StackOk(st: Stack, f: FiberId, owner: map<Addr, FiberId>, m: map<Addr, Frame>) {
    st.Push? ==>
      st.frame != NULL && st.frame in m && m[st.frame].threadPrev == TopFrame(st.below) &&
      st.frame in owner && owner[st.frame] == f &&
      st.frame !in Frames(st.below) && StackOk(st.below, f, owner, m)
  }

  /** `hs` is linked by prev; each handler has the top of the stack at its push. */
  ghost predicate HandlersOk(hs: Handlers, m: map<Addr, RaiseFrame>) {
    hs.Handler? ==>
      hs.r != NULL && hs.r in m && m[hs.r].prev == TopHandler(hs.outer) && m[hs.r].gcRoots == TopFrame(hs.saved) &&
      HandlersOk(hs.outer, m)
  }

  /** Every handler's function is still active: the stack of its push is a part of the stack. */
  ghost predicate Nested(hs: Handlers, st: Stack) {
    hs.Handler? ==> Suffix(hs.saved, st) && Nested(hs.outer, hs.saved)
  }

  ghost predicate Orderly(c: Tasks) {
    forall f :: f in c ==> Nested(c[f].handlers, c[f].stack)
  }

  lemma {:induction false} StackOwned(st: Stack, f: FiberId, owner: map<Addr, FiberId>, m: map<Addr, Frame>)
    requires StackOk(st, f, owner, m)
    ensures forall x :: x in Frames(st) ==> x != NULL && x in m && x in owner && owner[x] == f
  {
    if st.Push? {
      StackOwned(st.below, f, owner, m);
    }
  }

  lemma {:induction false} StackAgree(st: Stack, f: FiberId, owner: map<Addr, FiberId>, m: map<Addr, Frame>,
                                      owner': map<Addr, FiberId>, m': map<Addr, Frame>)
    requires StackOk(st, f, owner, m)
    requires forall x :: x in Frames(st) ==> x in owner' && owner'[x] == f
    requires forall x :: x in Frames(st) && x in m ==> x in m' && m'[x].threadPrev == m[x].threadPrev
    ensures StackOk(st, f, owner', m')
  {
    if st.Push? {
      StackAgree(st.below, f, owner, m, owner', m');
    }
  }

  lemma {:induction false} HandlersAgree(hs: Handlers, m: map<Addr, RaiseFrame>, m': map<Addr, RaiseFrame>)
    requires HandlersOk(hs, m)
    requires forall r ::
               r in HandlerSet(hs) && r in m ==> r in m' && m'[r].prev == m[r].prev && m'[r].gcRoots == m[r].gcRoots
    ensures HandlersOk(hs, m')
  {
    if hs.Handler? {
      HandlersAgree(hs.outer, m, m');
    }
  }

  lemma {:induction false} SuffixFrames(a: Stack, b: Stack)
    requires Suffix(a, b)
    ensures Frames(a) <= Frames(b)
  {
    if a != b {
      SuffixFrames(a, b.below);
    }
  }

  /** On a stack without repetition the top frame identifies the suffix. */
  lemma SuffixByTop(a: Stack, b: Stack, f: FiberId, owner: map<Addr, FiberId>, m: map<Addr, Frame>)
    requires Suffix(a, b) && StackOk(b, f, owner, m) && TopFrame(a) == TopFrame(b)
    ensures a == b
  {
    if a != b {
      SuffixFrames(a, b.below);
      StackOwned(b, f, owner, m);
    }
  }

  /** Every task's stack and handlers are linked, and the owned frames are exactly those on the stacks. */
  ghost predicate StacksOk(c: Tasks, owner: map<Addr, FiberId>, m: map<Addr, Frame>, hm: map<Addr, RaiseFrame>) {
    (forall f {:trigger c[f]} ::
      f in c ==> StackOk(c[f].stack, f, owner, m) && HandlersOk(c[f].handlers, hm)) &&
    (forall x {:trigger owner[x]} :: x in owner ==> owner[x] in c && x in Frames(c[owner[x]].stack))
  }

  /** Entering a frame keeps all stacks linked. */
  lemma EnterStacks(c: Tasks, owner: map<Addr, FiberId>, m: map<Addr, Frame>, hm: map<Addr, RaiseFrame>,
                    f: FiberId, x: Addr, m': map<Addr, Frame>)
    requires StacksOk(c, owner, m, hm) && owner.Keys == m.Keys && f in c && x != NULL && x !in m
    requires x in m' && m'[x].threadPrev == TopFrame(c[f].stack)
    requires forall y :: y in m ==> y in m' && m'[y].threadPrev == m[y].threadPrev
    ensures StacksOk(WithStack(c, f, Push(x, c[f].stack)), owner[x := f], m', hm)
  {
    var c' := WithStack(c, f, Push(x, c[f].stack));
    forall g | g in c'
      ensures StackOk(c'[g].stack, g, owner[x := f], m') && HandlersOk(c'[g].handlers, hm)
    {
      StackOwned(c[g].stack, g, owner, m);
      StackAgree(c[g].stack, g, owner, m, owner[x := f], m');
    }
  }

  /** A new task has nothing on its stacks. */
  lemma AddStacks(c: Tasks, owner: map<Addr, FiberId>, m: map<Addr, Frame>, hm: map<Addr, RaiseFrame>, f: FiberId)
    requires StacksOk(c, owner, m, hm) && f !in c
    ensures StacksOk(c[f := Contents(Empty, NoHandler)], owner, m, hm)
  {
  }

  /** Leaving the top frame of `f` keeps all stacks linked. */
  lemma LeaveStacks(c: Tasks, owner: map<Addr, FiberId>, m: map<Addr, Frame>, hm: map<Addr, RaiseFrame>,
                    f: FiberId, m': map<Addr, Frame>)
    requires StacksOk(c, owner, m, hm) && f in c && c[f].stack.Push?
    requires forall y :: y in m && y != c[f].stack.frame ==> y in m' && m'[y].threadPrev == m[y].threadPrev
    ensures StacksOk(WithStack(c, f, c[f].stack.below), owner - {c[f].stack.frame}, m', hm)
  {
    var st := c[f].stack;
    var c', owner' := WithStack(c, f, st.below), owner - {st.frame};
    forall g | g in c'
      ensures StackOk(c'[g].stack, g, owner', m') && HandlersOk(c'[g].handlers, hm)
    {
      StackOwned(c[g].stack, g, owner, m);
      StackAgree(c'[g].stack, g, owner, m, owner', m');
    }
  }

  /** Changing the links of one handler that is in nobody's list. */
  lemma HandlerStacks(c: Tasks, owner: map<Addr, FiberId>, m: map<Addr, Frame>, hm: map<Addr, RaiseFrame>,
                      f: FiberId, r: Addr, h: RaiseFrame)
    requires StacksOk(c, owner, m, hm) && f in c && r != NULL
    requires forall g :: g in c ==> r !in HandlerSet(c[g].handlers)
    requires h.prev == TopHandler(c[f].handlers) && h.gcRoots == TopFrame(c[f].stack)
    ensures StacksOk(WithHandlers(c, f, Handler(r, c[f].stack, c[f].handlers)), owner, m, hm[r := h])
  {
    var c' := WithHandlers(c, f, Handler(r, c[f].stack, c[f].handlers));
    forall g | g in c'
      ensures StackOk(c'[g].stack, g, owner, m) && HandlersOk(c'[g].handlers, hm[r := h])
    {
      HandlersAgree(c[g].handlers, hm, hm[r := h]);
    }
  }

  /** Dropping the innermost handler of `f`. */
  lemma PopStacks(c: Tasks, owner: map<Addr, FiberId>, m: map<Addr, Frame>, hm: map<Addr, RaiseFrame>, f: FiberId)
    requires StacksOk(c, owner, m, hm) && f in c && c[f].handlers.Handler?
    ensures StacksOk(WithHandlers(c, f, c[f].handlers.outer), owner, m, hm)
  {
  }

  lemma {:induction false} SuffixTrans(a: Stack, b: Stack, c: Stack)
    requires Suffix(a, b) && Suffix(b, c)
    ensures Suffix(a, c)
  {
    if b != c {
      SuffixTrans(a, b, c.below);
    }
  }

  // ----- unwinding, and handlers of functions that have returned -----

  /** The loop of tya_gc_unwind_roots: what it leaves of the stack, or None if it never ends. */
  ghost function UnwindTo(st: Stack, target: Addr): Option<Stack> {
    if TopFrame(st) == target then Some(st) else if st.Empty? then None else UnwindTo(st.below, target)
  }

  lemma {:induction false} UnwindToSuffix(st: Stack, target: Addr)
    ensures UnwindTo(st, target).Some? ==> Suffix(UnwindTo(st, target).value, st)
  {
    if st.Push? {
      UnwindToSuffix(st.below, target);
    }
  }

  /** Unwinding towards a handler's frame gives the stack of its push exactly when that is a part of the stack. */
  lemma {:induction false} UnwindExact(st: Stack, saved: Stack, f: FiberId, owner: map<Addr, FiberId>,
                                       m: map<Addr, Frame>)
    requires StackOk(st, f, owner, m)
    ensures UnwindTo(st, TopFrame(saved)) == Some(saved) <==> Suffix(saved, st)
    decreases st
  {
    UnwindToSuffix(st, TopFrame(saved));
    if TopFrame(st) == TopFrame(saved) {
      if Suffix(saved, st) {
        SuffixByTop(saved, st, f, owner, m);
      }
    } else if st.Push? {
      UnwindExact(st.below, saved, f, owner, m);
    }
  }

  /** It never ends exactly when the frame is gone. */
  lemma {:induction false} UnwindEnds(st: Stack, target: Addr, f: FiberId, owner: map<Addr, FiberId>,
                                      m: map<Addr, Frame>)
    requires StackOk(st, f, owner, m)
    ensures UnwindTo(st, target).None? <==> target != NULL && target !in Frames(st)
    decreases st
  {
    if st.Push? {
      UnwindEnds(st.below, target, f, owner, m);
    }
  }

  lemma OrderlyEnters(c: Tasks, f: FiberId, x: Addr)
    requires Orderly(c) && f in c
    ensures Orderly(WithStack(c, f, Push(x, c[f].stack)))
  {
    NestedWider(c[f].handlers, c[f].stack, Push(x, c[f].stack));
  }

  lemma NestedWider(hs: Handlers, st: Stack, st': Stack)
    requires Nested(hs, st) && Suffix(st, st')
    ensures Nested(hs, st')
  {
    if hs.Handler? {
      SuffixTrans(hs.saved, st, st');
    }
  }

  /** Leaving the top frame is orderly exactly when no handler pushed in its function is left. */
  lemma OrderlyLeaves(c: Tasks, f: FiberId)
    requires Orderly(c) && f in c && c[f].stack.Push?
    ensures Orderly(WithStack(c, f, c[f].stack.below)) <==>
              c[f].handlers.NoHandler? || c[f].handlers.saved != c[f].stack
  {
    var c' := WithStack(c, f, c[f].stack.below);
    assert f in c' && c'[f] == Contents(c[f].stack.below, c[f].handlers);
    assert forall h :: h in c && h != f ==> c'[h] == c[h];
    StackNotBelow(c[f].stack);
  }

  lemma StackNotBelow(st: Stack)
    requires st.Push?
    ensures !Suffix(st, st.below)
  {
    if Suffix(st, st.below) {
      SuffixSmaller(st, st.below);
    }
  }

  lemma {:induction false} SuffixSmaller(a: Stack, b: Stack)
    requires Suffix(a, b)
    ensures Depth(a) <= Depth(b)
  {
    if a != b {
      SuffixSmaller(a, b.below);
    }
  }

  ghost function Depth(st: Stack): nat {
    if st.Empty? then 0 else 1 + Depth(st.below)
  }

  lemma OrderlyPushes(c: Tasks, f: FiberId, r: Addr)
    requires Orderly(c) && f in c
    ensures Orderly(WithHandlers(c, f, Handler(r, c[f].stack, c[f].handlers)))
  {
  }

  lemma OrderlyPops(c: Tasks, f: FiberId)
    requires Orderly(c) && f in c && c[f].handlers.Handler?
    ensures Orderly(WithHandlers(c, f, c[f].handlers.outer))
  {
    NestedWider(c[f].handlers.outer, c[f].handlers.saved, c[f].stack);
  }

  /** After a raise the handler is still there, on the stack of its push. */
  lemma OrderlyRaises(c: Tasks, f: FiberId)
    requires Orderly(c) && f in c && c[f].handlers.Handler?
    ensures Orderly(WithStack(c, f, c[f].handlers.saved))
  {
  }

  // ----- a handler pushed while it is still in the chain -----

  /** Following prev from `r` reaches the end. */
  ghost predicate ChainEnds(r: Addr, m: map<Addr, RaiseFrame>, left: set<Addr>)
    decreases left
  {
    r == NULL || (r in left && r in m && ChainEnds(m[r].prev, m, left - {r}))
  }

  lemma {:induction false} LinkedEnds(hs: Handlers, m: map<Addr, RaiseFrame>, left: set<Addr>)
    requires HandlersOk(hs, m) && HandlerSet(hs) <= left && Distinct(hs)
    ensures ChainEnds(TopHandler(hs), m, left)
    decreases hs
  {
    if hs.Handler? {
      LinkedEnds(hs.outer, m, left - {hs.r});
    }
  }

  ghost predicate Distinct(hs: Handlers) {
    hs.Handler? ==> hs.r !in HandlerSet(hs.outer) && Distinct(hs.outer)
  }

  lemma {:induction false} CycleNeverEnds(r: Addr, m: map<Addr, RaiseFrame>, cycle: set<Addr>, left: set<Addr>)
    requires r in cycle && NULL !in cycle && forall x :: x in cycle ==> x in m && m[x].prev in cycle
    ensures !ChainEnds(r, m, left)
    decreases left
  {
    if r in left {
      CycleNeverEnds(m[r].prev, m, cycle, left - {r});
    }
  }

  /** The handlers from the innermost one out to `r`. */
  ghost function UpTo(hs: Handlers, r: Addr): set<Addr> {
    if hs.NoHandler? then {} else if hs.r == r then {r} else {hs.r} + UpTo(hs.outer, r)
  }

  lemma {:induction false} UpToLinked(hs: Handlers, r: Addr, m: map<Addr, RaiseFrame>)
    requires HandlersOk(hs, m) && r in HandlerSet(hs)
    ensures TopHandler(hs) in UpTo(hs, r) && r in UpTo(hs, r) && NULL !in UpTo(hs, r)
    ensures forall x :: x in UpTo(hs, r) ==> x in m && (x != r ==> m[x].prev in UpTo(hs, r))
  {
    if hs.r != r {
      UpToLinked(hs.outer, r, m);
    }
  }

  /** Pushing a handler leaves a chain that ends exactly when the handler is not in it yet. */
  lemma PushExact(hs: Handlers, m: map<Addr, RaiseFrame>, r: Addr, h: RaiseFrame)
    requires HandlersOk(hs, m) && r != NULL && h.prev == TopHandler(hs)
    ensures ChainEnds(r, m[r := h], m.Keys + {r}) <==> r !in HandlerSet(hs)
  {
    var m' := m[r := h];
    if r in HandlerSet(hs) {
      UpToLinked(hs, r, m);
      assert forall x :: x in UpTo(hs, r) && x != r ==> m'[x] == m[x];
      CycleNeverEnds(r, m', UpTo(hs, r), m.Keys + {r});
    } else {
      HandlersAgree(hs, m, m');
      HandlersDistinct(hs, m);
      HandlersKnown(hs, m);
      LinkedEnds(hs, m', m.Keys - {r});
      assert m.Keys + {r} - {r} == m.Keys - {r};
    }
  }

  lemma {:induction false} HandlersKnown(hs: Handlers, m: map<Addr, RaiseFrame>)
    requires HandlersOk(hs, m)
    ensures HandlerSet(hs) <= m.Keys
  {
    if hs.Handler? {
      HandlersKnown(hs.outer, m);
    }
  }

  /** The links of a chain that ends determine it, so no handler is in it twice. */
  lemma {:induction false} HandlersDistinct(hs: Handlers, m: map<Addr, RaiseFrame>)
    requires HandlersOk(hs, m)
    ensures Distinct(hs)
  {
    if hs.Handler? {
      HandlersDistinct(hs.outer, m);
      if hs.r in HandlerSet(hs.outer) {
        NotTwice(hs.outer, hs.r, m, hs);
      }
    }
  }

  /** A part of a chain that begins with the handler on top of the whole would be as long as the whole. */
  lemma {:induction false} NotTwice(inner: Handlers, r: Addr, m: map<Addr, RaiseFrame>, hs: Handlers)
    requires HandlersOk(inner, m) && HandlersOk(hs, m) && r in HandlerSet(inner) && TopHandler(hs) == r && r != NULL
    ensures Count(hs) <= Count(inner)
  {
    if inner.r == r {
      SameLength(inner, hs, m);
    } else {
      NotTwice(inner.outer, r, m, hs);
    }
  }

  ghost function Count(hs: Handlers): nat {
    if hs.NoHandler? then 0 else 1 + Count(hs.outer)
  }

  lemma {:induction false} SameLength(a: Handlers, b: Handlers, m: map<Addr, RaiseFrame>)
    requires HandlersOk(a, m) && HandlersOk(b, m) && TopHandler(a) == TopHandler(b)
    ensures Count(a) == Count(b)
  {
    if a.Handler? && b.Handler? {
      SameLength(a.outer, b.outer, m);
    }
  }

  // ----- the runtime's tables -----

  /** With Hang the loop that unwinds never ends. */
  datatype RaiseOutcome = Exit | Jump(handler: Addr) | Hang

  /** The globals of the runtime, and the memory of the activations they point into. */
  datatype Tables = Tables(
    rootFrames: Addr,   // tya_gc_root_frames
    threadRoots: Addr,  // tya_gc_thread_roots
    raiseFrame: Addr,   // tya_raise_frame
    current: FiberId,
    frames: map<Addr, Frame>,
    handlers: map<Addr, RaiseFrame>,
    variables: map<Addr, Value>,
    fibers: map<FiberId, Fiber>)

  /** What the pointers mean: the global list in order, every task's stacks, every frame's task. */
  datatype Shape = Shape(order: List<Addr>, tasks: Tasks, owner: map<Addr, FiberId>)

  /** The global list is doubly linked and holds exactly the frames of all the stacks; the
      running task's stacks start at the globals, the others' at the saved pointers. */
  ghost predicate Inv(t: Tables, g: Shape) {
    ListInv(t.rootFrames, g.order, t.frames) && t.frames.Keys == g.owner.Keys &&
    StacksOk(g.tasks, g.owner, t.frames, t.handlers) && PointersOk(t, g.tasks)
  }

  /** The globals and the saved pointers are the tops of the tasks' stacks. */
  ghost predicate PointersOk(t: Tables, tasks: Tasks) {
    t.current in tasks && tasks.Keys == t.fibers.Keys &&
    t.threadRoots == TopFrame(tasks[t.current].stack) && t.raiseFrame == TopHandler(tasks[t.current].handlers) &&
    (forall f {:trigger t.fibers[f]} :: f in tasks && f != t.current ==>
      t.fibers[f] == Fiber(TopFrame(tasks[f].stack), TopHandler(tasks[f].handlers)))
  }

  lemma PointersMoved(t: Tables, tasks: Tasks, st: Stack, s: Tables)
    requires PointersOk(t, tasks) && SameBesidesFrames(t, s) && s.threadRoots == TopFrame(st)
    ensures PointersOk(s, WithStack(tasks, t.current, st))
  {
  }

  /** Linking the neighbours of a frame to each other. */
  method Unlink(t: Tables, frame: Addr) returns (s: Tables)
    requires Neighboured(t.frames, frame)
    ensures s == t.(frames := Bypass(t.frames, frame),
                    rootFrames := if t.frames[frame].globalPrev != NULL then t.rootFrames
                                  else t.frames[frame].globalNext)
  {
    s := t;
    var f := t.frames[frame];
    if f.globalPrev != NULL {
      s := s.(frames := s.frames[f.globalPrev := s.frames[f.globalPrev].(globalNext := f.globalNext)]);
    } else {
      s := s.(rootFrames := f.globalNext);
    }
    if f.globalNext != NULL {
      s := s.(frames := s.frames[f.globalNext := s.frames[f.globalNext].(globalPrev := f.globalPrev)]);
    }
  }

  /** A frame on some task's stack belongs to that task. */
  lemma FramesOwned(t: Tables, g: Shape)
    requires Inv(t, g)
    ensures forall f, x {:trigger x in Frames(g.tasks[f].stack)} ::
      f in g.tasks && x in Frames(g.tasks[f].stack) ==> x in g.owner && g.owner[x] == f
  {
    forall f | f in g.tasks
      ensures forall x :: x in Frames(g.tasks[f].stack) ==> x in g.owner && g.owner[x] == f
    {
      assert StackOk(g.tasks[f].stack, f, g.owner, t.frames);
      StackOwned(g.tasks[f].stack, f, g.owner, t.frames);
    }
  }

  /** The global list is the union of all the tasks' stacks, which are disjoint, without repetition. */
  lemma ListIsUnionOfStacks(t: Tables, g: Shape)
    requires Inv(t, g)
    ensures forall x :: x in Members(g.order) <==> exists f :: f in g.tasks && x in Frames(g.tasks[f].stack)
    ensures forall f, h ::
              f in g.tasks && h in g.tasks && f != h ==> Frames(g.tasks[f].stack) !! Frames(g.tasks[h].stack)
    ensures Length(g.order) == |Members(g.order)|
  {
    ListDistinct(g.order, NULL, t.frames);
    FramesOwned(t, g);
    forall x | x in Members(g.order) ensures exists f :: f in g.tasks && x in Frames(g.tasks[f].stack) {
      var f := g.owner[x];
      assert f in g.tasks && x in Frames(g.tasks[f].stack);
    }
  }

  lemma {:induction false} ListDistinct(l: List<Addr>, prev: Addr, m: map<Addr, Frame>)
    requires ListOk(l, prev, m)
    ensures Length(l) == |Members(l)|
  {
    if l.Cons? {
      ListDistinct(l.tail, l.head, m);
    }
  }

  ghost function LeftShape(t: Tables, g: Shape, frame: Addr): Shape
    requires t.current in g.tasks && g.tasks[t.current].stack.Push?
  {
    Shape(Remove(g.order, frame), WithStack(g.tasks, t.current, g.tasks[t.current].stack.below), g.owner - {frame})
  }

  ghost function EnteredFrames(m: map<Addr, Frame>, root: Addr, top: Addr, frame: Addr,
                               roots: seq<Addr>): map<Addr, Frame> {
    var m1 := m[frame := Frame(roots, [], top, NULL, root)];
    if root in m then m1[root := m1[root].(globalPrev := frame)] else m1
  }

  lemma EnteredFacts(m: map<Addr, Frame>, root: Addr, top: Addr, frame: Addr, roots: seq<Addr>)
    requires frame !in m && NULL !in m
    ensures var m' := EnteredFrames(m, root, top, frame, roots);
            m'.Keys == m.Keys + {frame} && m'[frame] == Frame(roots, [], top, NULL, root) && Kept(m', m) &&
            (forall y :: y in m ==> m'[y].globalPrev == (if y == root then frame else m[y].globalPrev)) &&
            (forall y :: y in m ==> m'[y].globalNext == m[y].globalNext && m'[y].threadPrev == m[y].threadPrev)
  {
  }

  lemma EnterListed(t: Tables, g: Shape, frame: Addr, roots: seq<Addr>)
    requires Inv(t, g) && frame != NULL && frame !in t.frames
    ensures ListInv(frame, Cons(frame, g.order), EnteredFrames(t.frames, t.rootFrames, t.threadRoots, frame, roots))
  {
    EnteredFacts(t.frames, t.rootFrames, t.threadRoots, frame, roots);
    EnterList(t.rootFrames, g.order, t.frames, frame,
              EnteredFrames(t.frames, t.rootFrames, t.threadRoots, frame, roots));
  }

  lemma EnterInv(t: Tables, g: Shape, frame: Addr, roots: seq<Addr>)
    requires Inv(t, g) && frame != NULL && frame !in t.frames
    ensures var m' := EnteredFrames(t.frames, t.rootFrames, t.threadRoots, frame, roots);
            Inv(t.(frames := m', rootFrames := frame, threadRoots := frame), EnteredShape(t, g, frame))
  {
    var m' := EnteredFrames(t.frames, t.rootFrames, t.threadRoots, frame, roots);
    EnteredFacts(t.frames, t.rootFrames, t.threadRoots, frame, roots);
    EnterListed(t, g, frame, roots);
    PointersMoved(t, g.tasks, Push(frame, g.tasks[t.current].stack),
                  t.(frames := m', rootFrames := frame, threadRoots := frame));
    EnterStacks(g.tasks, g.owner, t.frames, t.handlers, t.current, frame, m');
  }

  ghost function EnteredShape(t: Tables, g: Shape, frame: Addr): Shape
    requires t.current in g.tasks
  {
    Shape(Cons(frame, g.order), WithStack(g.tasks, t.current, Push(frame, g.tasks[t.current].stack)),
          g.owner[frame := t.current])
  }

  lemma TopIsListed(t: Tables, g: Shape)
    requires Inv(t, g) && t.threadRoots != NULL
    ensures g.tasks[t.current].stack.Push? && t.threadRoots in t.frames
    ensures Neighboured(t.frames, t.threadRoots)
  {
    assert StackOk(g.tasks[t.current].stack, t.current, g.owner, t.frames);
    LeaveList(t.rootFrames, g.order, t.frames, t.threadRoots);
  }

  /** The tables after the top frame is unlinked, popped and gone. */
  ghost function LeftTables(t: Tables): Tables
    requires Neighboured(t.frames, t.threadRoots)
  {
    var frame := t.frames[t.threadRoots];
    t.(frames := Bypass(t.frames, t.threadRoots) - {t.threadRoots},
       rootFrames := if frame.globalPrev != NULL then t.rootFrames else frame.globalNext,
       threadRoots := frame.threadPrev)
  }

  lemma LeaveInv(t: Tables, g: Shape)
    requires Inv(t, g) && g.tasks[t.current].stack.Push? && Neighboured(t.frames, t.threadRoots)
    ensures Inv(LeftTables(t), LeftShape(t, g, t.threadRoots))
    ensures Kept(t.frames, LeftTables(t).frames)
  {
    BypassKeeps(t.frames, t.threadRoots);
    LeaveList(t.rootFrames, g.order, t.frames, t.threadRoots);
    LeaveStacks(g.tasks, g.owner, t.frames, t.handlers, t.current, LeftTables(t).frames);
  }

  lemma RootListed(t: Tables, g: Shape)
    requires Inv(t, g)
    ensures NULL !in t.frames && (t.rootFrames != NULL <==> t.rootFrames in t.frames)
  {
  }

  /** Link a new frame in front of the global list and on top of the running task's stack. */
  method LinkFront(t: Tables, ghost g: Shape, frame: Addr, roots: seq<Addr>) returns (s: Tables)
    requires Inv(t, g) && frame != NULL && frame !in t.frames
    ensures Inv(s, EnteredShape(t, g, frame)) && SameBesidesFrames(t, s)
    ensures s.frames.Keys == t.frames.Keys + {frame} && Kept(s.frames, t.frames)
    ensures s.frames[frame].roots == roots && s.frames[frame].protectedValues == []
  {
    s := t;
    RootListed(t, g);
    s := s.(frames := s.frames[frame := Frame(roots, [], s.threadRoots, NULL, s.rootFrames)]);
    if s.rootFrames != NULL {
      s := s.(frames := s.frames[s.rootFrames := s.frames[s.rootFrames].(globalPrev := frame)]);
    }
    s := s.(rootFrames := frame, threadRoots := frame);
    EnteredFacts(t.frames, t.rootFrames, t.threadRoots, frame, roots);
    EnterInv(t, g, frame, roots);
  }

  ghost predicate SameBesidesFrames(t: Tables, t': Tables) {
    t' == t.(frames := t'.frames, rootFrames := t'.rootFrames, threadRoots := t'.threadRoots)
  }

  /** The list after the frames between two states of one stack have left it. */
  ghost predicate Unwound(order: List<Addr>, from: Stack, order': List<Addr>, to: Stack) {
    Suffix(to, from) && order' == Without(order, Frames(from) - Frames(to))
  }

  lemma UnwoundNone(order: List<Addr>, st: Stack)
    ensures Unwound(order, st, order, st)
  {
    assert Frames(st) - Frames(st) == {};
    WithoutNone(order, {});
  }

  /** Popping one more frame. */
  lemma UnwoundMore(order: List<Addr>, from: Stack, t: Tables, g: Shape)
    requires Inv(t, g) && g.tasks[t.current].stack.Push? && Unwound(order, from, g.order, g.tasks[t.current].stack)
    ensures Unwound(order, from, Remove(g.order, g.tasks[t.current].stack.frame), g.tasks[t.current].stack.below)
  {
    var st := g.tasks[t.current].stack;
    assert StackOk(st, t.current, g.owner, t.frames);
    RemoveIsWithout(g.order, NULL, t.frames, st.frame);
    WithoutTwice(order, Frames(from) - Frames(st), {st.frame});
    SuffixFrames(st, from);
    SuffixTrans(st.below, st, from);
    assert Frames(from) - Frames(st) + {st.frame} == Frames(from) - Frames(st.below);
  }

  lemma {:induction false} KeptTrans(a: map<Addr, Frame>, b: map<Addr, Frame>, c: map<Addr, Frame>)
    requires Kept(a, b) && Kept(b, c)
    ensures Kept(a, c)
  {
  }

  ghost function PushedShape(t: Tables, g: Shape, r: Addr): Shape
    requires t.current in g.tasks
  {
    var own := g.tasks[t.current];
    g.(tasks := WithHandlers(g.tasks, t.current, Handler(r, own.stack, own.handlers)))
  }

  lemma PushedInv(t: Tables, g: Shape, r: Addr, s: Tables)
    requires Inv(t, g) && r != NULL
    requires forall f :: f in g.tasks && f != t.current ==> r !in HandlerSet(g.tasks[f].handlers)
    requires s == t.(handlers := t.handlers[r := RaiseFrame(Nil, t.raiseFrame, t.threadRoots)], raiseFrame := r)
    ensures ChainEnds(r, s.handlers, s.handlers.Keys) <==> r !in HandlerSet(g.tasks[t.current].handlers)
    ensures r !in HandlerSet(g.tasks[t.current].handlers) ==>
              Inv(s, PushedShape(t, g, r)) && (Orderly(g.tasks) ==> Orderly(PushedShape(t, g, r).tasks))
  {
    var h, own := s.handlers[r], g.tasks[t.current];
    assert HandlersOk(own.handlers, t.handlers);
    PushExact(own.handlers, t.handlers, r, h);
    assert s.handlers.Keys == t.handlers.Keys + {r};
    if r !in HandlerSet(own.handlers) {
      HandlerStacks(g.tasks, g.owner, t.frames, t.handlers, t.current, r, h);
      if Orderly(g.tasks) {
        OrderlyPushes(g.tasks, t.current, r);
      }
    }
  }

  class RootTable {
    var t: Tables
    ghost var g: Shape

    ghost predicate Valid()
      reads this
    {
      Inv(t, g)
    }

    ghost function Own(): Contents
      requires Valid()
      reads this
    {
      g.tasks[t.current]
    }

    constructor ()
      ensures Valid() && t.current == 0 && g == Shape(End, map[0 := Contents(Empty, NoHandler)], map[])
    {
      t := Tables(NULL, NULL, NULL, 0, map[], map[], map[], map[0 := Fiber(NULL, NULL)]);
      g := Shape(End, map[0 := Contents(Empty, NoHandler)], map[]);
    }

    /** tya_task_new: a new task starts with no frames and no handlers. */
    method AddFiber(f: FiberId)
      requires Valid() && f !in t.fibers
      modifies this
      ensures Valid() && g == old(g.(tasks := g.tasks[f := Contents(Empty, NoHandler)]))
      ensures t == old(t).(fibers := t.fibers)
      ensures old(Orderly(g.tasks)) ==> Orderly(g.tasks)
    {
      AddStacks(g.tasks, g.owner, t.frames, t.handlers, f);
      t := t.(fibers := t.fibers[f := Fiber(NULL, NULL)]);
      g := g.(tasks := g.tasks[f := Contents(Empty, NoHandler)]);
    }

    /** tya_gc_enter_frame. */
    method Enter(frame: Addr, roots: seq<Addr>)
      requires Valid() && frame != NULL && frame !in t.frames
      modifies this
      ensures Valid()
      ensures g.order == Cons(frame, old(g.order))
      ensures g.tasks == old(WithStack(g.tasks, t.current, Push(frame, Own().stack)))
      ensures frame in t.frames && t.frames[frame].roots == roots && t.frames[frame].protectedValues == []
      ensures t.frames.Keys == old(t.frames.Keys) + {frame} && Kept(t.frames, old(t.frames))
      ensures SameBesidesFrames(old(t), t)
      ensures old(Orderly(g.tasks)) ==> Orderly(g.tasks)
    {
      if Orderly(g.tasks) {
        OrderlyEnters(g.tasks, t.current, frame);
      }
      var s := LinkFront(t, g, frame, roots);
      t, g := s, EnteredShape(t, g, frame);
    }

    /** tya_gc_leave_frame, on NULL or on the frame of the function that returns, the top of the current stack. */
    method Leave(frame: Addr)
      requires Valid() && (frame != NULL ==> frame == t.threadRoots)
      modifies this
      ensures Valid()
      ensures frame == NULL ==> t == old(t) && g == old(g)
      ensures frame != NULL ==>
        old(Own()).stack.Push? && g.order == Remove(old(g.order), frame) &&
        t.frames.Keys == old(t.frames.Keys) - {frame} &&
        g.tasks == old(WithStack(g.tasks, t.current, Own().stack.below))
      ensures Kept(old(t.frames), t.frames) && SameBesidesFrames(old(t), t)
      ensures frame != NULL && old(Orderly(g.tasks)) ==>
        (Orderly(g.tasks) <==> old(Own()).handlers.NoHandler? || old(Own()).handlers.saved != old(Own()).stack)
    {
      if frame != NULL {
        TopIsListed(t, g);
        LeaveInv(t, g);
        if Orderly(g.tasks) {
          OrderlyLeaves(g.tasks, t.current);
        }
        var s := Unlink(t, frame);
        s := s.(threadRoots := t.frames[frame].threadPrev, frames := s.frames - {frame});
        t, g := s, LeftShape(t, g, frame);
      }
    }

    /** tya_push_raise_frame, on a handler in an activation of the current task: one that is still
        in its chain closes the chain into a cycle. */
    method PushRaise(r: Addr)
      requires Valid() && r != NULL
      requires forall f :: f in g.tasks && f != t.current ==> r !in HandlerSet(g.tasks[f].handlers)
      modifies this
      ensures t == old(t.(handlers := t.handlers[r := RaiseFrame(Nil, t.raiseFrame, t.threadRoots)], raiseFrame := r))
      ensures ChainEnds(t.raiseFrame, t.handlers, t.handlers.Keys) <==> r !in HandlerSet(old(Own()).handlers)
      ensures r !in HandlerSet(old(Own()).handlers) ==>
        Valid() && g == old(PushedShape(t, g, r)) && (old(Orderly(g.tasks)) ==> Orderly(g.tasks))
    {
      var h := RaiseFrame(Nil, t.raiseFrame, t.threadRoots);
      var s := t.(handlers := t.handlers[r := h], raiseFrame := r);
      PushedInv(t, g, r, s);
      t, g := s, PushedShape(t, g, r);
    }

    /** tya_pop_raise_frame; without a handler it does nothing. */
    method PopRaise()
      requires Valid()
      modifies this
      ensures Valid() && t == old(t).(raiseFrame := t.raiseFrame)
      ensures if old(Own()).handlers.NoHandler? then t == old(t) && g == old(g) else
                g == old(g.(tasks := WithHandlers(g.tasks, t.current, Own().handlers.outer)))
      ensures old(Orderly(g.tasks)) ==> Orderly(g.tasks)
    {
      if t.raiseFrame != NULL {
        PopStacks(g.tasks, g.owner, t.frames, t.handlers, t.current);
        if Orderly(g.tasks) {
          OrderlyPops(g.tasks, t.current);
        }
        t, g := t.(raiseFrame := t.handlers[t.raiseFrame].prev),
                g.(tasks := WithHandlers(g.tasks, t.current, Own().handlers.outer));
      }
    }

    /** tya_gc_unwind_roots; leaving NULL changes nothing, so without the target the loop never ends. */
    method Unwind(target: Addr) returns (ends: bool)
      requires Valid()
      modifies this
      ensures Valid() && (ends <==> UnwindTo(old(Own()).stack, target).Some?)
      ensures g.tasks == old(WithStack(g.tasks, t.current, if UnwindTo(Own().stack, target).Some?
                                                           then UnwindTo(Own().stack, target).value else Empty))
      ensures Unwound(old(g.order), old(Own()).stack, g.order, Own().stack)
      ensures Kept(old(t.frames), t.frames) && SameBesidesFrames(old(t), t)
    {
      ghost var tasks, cur := g.tasks, t.current;
      UnwoundNone(g.order, Own().stack);
      while t.threadRoots != target
        invariant Valid() && SameBesidesFrames(old(t), t) && Kept(old(t.frames), t.frames)
        invariant g.tasks == WithStack(tasks, cur, Own().stack)
        invariant UnwindTo(Own().stack, target) == UnwindTo(old(Own()).stack, target)
        invariant Unwound(old(g.order), old(Own()).stack, g.order, Own().stack)
        decreases Own().stack
      {
        TopOrNone(t, g);
        if t.threadRoots == NULL {
          return false;
        }
        WithStackTwice(tasks, cur, Own().stack, Own().stack.below);
        UnwoundMore(old(g.order), old(Own()).stack, t, g);
        ghost var before := t.frames;
        Leave(t.threadRoots);
        KeptTrans(old(t.frames), before, t.frames);
      }
      return true;
    }

    /** tya_raise: nil, or no handler, ends the program; otherwise the value is stored in the innermost
        handler and the stack unwound towards its frame. */
    method Raise(value: Value) returns (out: RaiseOutcome)
      requires Valid()
      modifies this
      ensures Valid()
      ensures out.Exit? <==> value.Nil? || old(Own()).handlers.NoHandler?
      ensures out.Exit? ==> t == old(t) && g == old(g)
      ensures !out.Exit? ==>
        t.handlers == old(t.handlers[t.raiseFrame := t.handlers[t.raiseFrame].(value := value)]) &&
        g.tasks == old(WithStack(g.tasks, t.current, Caught(Own()))) &&
        Unwound(old(g.order), old(Own()).stack, g.order, Own().stack)
      ensures out.Jump? ==> out.handler == old(Own()).handlers.r == t.raiseFrame
      ensures !out.Exit? ==>
        (out.Jump? && Own().stack == old(Own()).handlers.saved <==> Suffix(old(Own()).handlers.saved, old(Own()).stack))
      ensures out.Hang? <==> !out.Exit? && UnwindTo(old(Own()).stack, TopFrame(old(Own()).handlers.saved)).None?
      ensures Kept(old(t.frames), t.frames) && t == old(t).(frames := t.frames, rootFrames := t.rootFrames,
                                                            threadRoots := t.threadRoots, handlers := t.handlers)
      ensures old(Orderly(g.tasks)) && !out.Exit? ==>
        out.Jump? && Orderly(g.tasks) && g.tasks == old(WithStack(g.tasks, t.current, Own().handlers.saved))
    {
      if value.Nil? || t.raiseFrame == NULL {
        return Exit;
      }
      var r := t.raiseFrame;
      ghost var own, c, cur := Own(), g.tasks, t.current;
      ValueStacks(g.tasks, g.owner, t.frames, t.handlers, r, value);
      UnwindExact(own.stack, own.handlers.saved, cur, g.owner, t.frames);
      UnwindEnds(own.stack, TopFrame(own.handlers.saved), cur, g.owner, t.frames);
      t := t.(handlers := t.handlers[r := t.handlers[r].(value := value)]);
      var ends := Unwind(t.handlers[r].gcRoots);
      if Orderly(c) {
        OrderlyRaises(c, cur);
      }
      return if ends then Jump(r) else Hang;
    }

    /** A context switch: the scheduler saves the stacks of one task and installs another's. */
    method SwitchTo(f: FiberId)
      requires Valid() && f in t.fibers
      modifies this
      ensures Valid() && g == old(g) && t.current == f
      ensures t.frames == old(t.frames) && t.handlers == old(t.handlers) && t.variables == old(t.variables)
    {
      var saved := t.fibers[t.current := Fiber(t.threadRoots, t.raiseFrame)];
      t := t.(fibers := saved, current := f, threadRoots := saved[f].gcRoots, raiseFrame := saved[f].raiseFrame);
    }
  }

  /** What a raise leaves of the stack. */
  ghost function Caught(own: Contents): Stack
    requires own.handlers.Handler?
  {
    var rest := UnwindTo(own.stack, TopFrame(own.handlers.saved));
    if rest.Some? then rest.value else Empty
  }

  lemma TopOrNone(t: Tables, g: Shape)
    requires Inv(t, g)
    ensures t.threadRoots == NULL <==> g.tasks[t.current].stack.Empty?
  {
    assert StackOk(g.tasks[t.current].stack, t.current, g.owner, t.frames);
  }

  /** Storing a value in a handler changes no link. */
  lemma ValueStacks(c: Tasks, owner: map<Addr, FiberId>, m: map<Addr, Frame>, hm: map<Addr, RaiseFrame>,
                    r: Addr, value: Value)
    requires StacksOk(c, owner, m, hm) && r in hm
    ensures StacksOk(c, owner, m, hm[r := hm[r].(value := value)])
  {
    forall f | f in c ensures HandlersOk(c[f].handlers, hm[r := hm[r].(value := value)]) {
      HandlersAgree(c[f].handlers, hm, hm[r := hm[r].(value := value)]);
    }
  }

  // ----- leaving a try without popping its handler -----

  lemma FrameIsGone(frame: Addr)
    requires frame != NULL
    ensures UnwindTo(Empty, frame).None? && TopFrame(Push(frame, Empty)) == frame
  {
  }

  /** A break out of a try, then a return: the next raise never ends. */
  method BreakOutOfTry(frame: Addr, r: Addr, value: Value) returns (out: RaiseOutcome)
    requires frame != NULL && r != NULL && !value.Nil?
    ensures out == Hang
  {
    var table := new RootTable();
    table.Enter(frame, []);
    table.PushRaise(r);
    table.Leave(frame);
    FrameIsGone(frame);
    assert table.Own() == Contents(Empty, Handler(r, Push(frame, Empty), NoHandler));
    out := table.Raise(value);
  }

  /** A continue in a try: the same handler is pushed again, and the chain of handlers has no end. */
  method ContinueInTry(frame: Addr, r: Addr) returns (t: Tables)
    requires frame != NULL && r != NULL
    ensures t.raiseFrame == r && !ChainEnds(t.raiseFrame, t.handlers, t.handlers.Keys)
  {
    var table := new RootTable();
    table.Enter(frame, []);
    table.PushRaise(r);
    table.PushRaise(r);
    t := table.t;
  }
}
