/**
 What the program itself can get at: the places of an object that hold a value, one
 access for each, and what the roots hold.  The collector is held against this.
 */
module Loads {
  import opened Basics
  import opened Graph
  import opened Heap
  import opened RootFrames
  import opened RootSet

  // ----- values -----

  /** The address in a value, whatever its kind. */
  function Address(v: Value): Addr {
    match v
    case Nil => NULL
    case Missing => NULL
    case Boolean(_) => NULL
    case Number(_) => NULL
    case String(a) => a
    case Array(a) => a
    case Dict(a) => a
    case Object(a) => a
    case Function(a) => a
    case Bytes(a) => a
    case Task(a) => a
    case Channel(a) => a
    case Resource(a) => a
    case Error(a, _) => a
  }

  /** The error `n` causes behind a value. */
  function CauseAt(v: Value, n: nat): Option<Value> {
    if n == 0 then Some(v) else if v.Error? && v.cause.Some? then CauseAt(v.cause.value, n - 1) else None
  }

  /** The value, or an error that caused it, refers to `x`. */
  ghost predicate Gives(v: Value, x: Addr) {
    x != NULL && exists n: nat :: CauseAt(v, n).Some? && Address(CauseAt(v, n).value) == x
  }

  // ----- objects -----

  datatype Access =
    | Item(i: nat)              // of an array
    | EntryValue(i: nat)        // of a dictionary or an object, where the entry has a key
    | Receiver
    | Parent
    | MemberTable               // of a function
    | Callee
    | Argument(i: nat)
    | Result
    | RaiseValue                // of a task
    | Buffered(i: nat)          // of a channel, the i-th value from the oldest on
    | WaitingReceiver(n: nat)
    | WaitingSender(n: nat)
    | WaitingValue(n: nat)      // what the n-th waiting sender holds

  /** The `n`-th task of a queue. */
  function QueuedAt(t: Addr, m: map<Addr, Body>, n: nat): Addr
    decreases n
  {
    if n == 0 then t
    else if t != NULL && t in m && m[t].TaskBody? then QueuedAt(m[t].nextChannelWaiter, m, n - 1)
    else NULL
  }

  function Load(b: Body, m: map<Addr, Body>, a: Access): Option<Value> {
    match a
    case Item(i) => if b.ArrayBody? && i < |b.items| then Some(b.items[i]) else None
    case EntryValue(i) =>
      if b.DictBody? && i < |b.entries| && b.entries[i].key.Some? then Some(b.entries[i].value) else None
    case Receiver => if b.FunctionBody? then Some(b.receiver) else None
    case Parent => if b.FunctionBody? then Some(b.parent) else None
    case MemberTable => if b.FunctionBody? then Some(Dict(b.members)) else None
    case Callee => if b.TaskBody? then Some(b.callee) else None
    case Argument(i) => if b.TaskBody? && i < b.argc && i < |b.argv| then Some(b.argv[i]) else None
    case Result => if b.TaskBody? then Some(b.result) else None
    case RaiseValue => if b.TaskBody? then Some(b.raiseValue) else None
    case Buffered(i) =>
      if b.ChannelBody? && i < b.len && |b.buffer| > 0 then Some(b.buffer[(b.first + i) % |b.buffer|]) else None
    case WaitingReceiver(n) => if b.ChannelBody? then Some(Task(QueuedAt(b.recvWaiters, m, n))) else None
    case WaitingSender(n) => if b.ChannelBody? then Some(Task(QueuedAt(b.sendWaiters, m, n))) else None
    case WaitingValue(n) =>
      if b.ChannelBody? then
        var t := QueuedAt(b.sendWaiters, m, n);
        if t in m && m[t].TaskBody? then Some(m[t].waitingValue) else None
      else None
  }

  /** Some access to the object leads to `x`. */
  ghost predicate CanLoad(b: Body, m: map<Addr, Body>, x: Addr) {
    exists a :: Load(b, m, a).Some? && Gives(Load(b, m, a).value, x)
  }

  // ----- roots -----

  /** The `n`-th handler of a chain. */
  function HandlerAt(r: Addr, m: map<Addr, RaiseFrame>, n: nat): Addr
    decreases n
  {
    if n == 0 then r else if r != NULL && r in m then HandlerAt(m[r].prev, m, n - 1) else NULL
  }

  ghost predicate CellGives(cells: seq<Addr>, vars: map<Addr, Value>, x: Addr) {
    exists i :: 0 <= i < |cells| && cells[i] in vars && Gives(vars[cells[i]], x)
  }

  ghost predicate FrameGives(f: Frame, vars: map<Addr, Value>, x: Addr) {
    CellGives(f.roots, vars, x) || exists i :: 0 <= i < |f.protectedValues| && Gives(f.protectedValues[i], x)
  }

  ghost predicate HandlerGives(r: Addr, m: map<Addr, RaiseFrame>, x: Addr) {
    exists n: nat :: HandlerAt(r, m, n) != NULL && HandlerAt(r, m, n) in m && Gives(m[HandlerAt(r, m, n)].value, x)
  }

  /** A registered global, a frame of any task, a handler of the current task or the list of live tasks leads to `x`. */
  ghost predicate RootGives(globals: seq<Addr>, t: Tables, live: seq<Addr>, x: Addr) {
    CellGives(globals, t.variables, x) ||
    (exists f :: f in t.frames && FrameGives(t.frames[f], t.variables, x)) ||
    HandlerGives(t.raiseFrame, t.handlers, x) ||
    x in live
  }

  /** Each object of `p` can be loaded from the one before it. */
  ghost predicate LoadPath(m: map<Addr, Body>, p: seq<Addr>) {
    p != [] && forall i :: 0 <= i < |p| - 1 ==> p[i] in m && CanLoad(m[p[i]], m, p[i+1])
  }

  /** The program can get at `x`: by a number of loads that begins at a root. */
  ghost predicate Held(m: map<Addr, Body>, globals: seq<Addr>, t: Tables, live: seq<Addr>, x: Addr) {
    exists p :: LoadPath(m, p) && RootGives(globals, t, live, p[0]) && p[|p|-1] == x
  }

  // ----- the marker's references are the loads -----

  lemma {:induction false} RefsAreGiven(v: Value, x: Addr)
    ensures x in ValueRefs(v) <==> Gives(v, x)
  {
    assert CauseAt(v, 0) == Some(v);
    if v.Error? && v.cause.Some? {
      RefsAreGiven(v.cause.value, x);
      GivenByCause(v, x);
    }
  }

  lemma GivenByCause(v: Value, x: Addr)
    requires v.Error? && v.cause.Some?
    ensures Gives(v, x) <==> (x != NULL && v.data == x) || Gives(v.cause.value, x)
  {
    assert CauseAt(v, 0) == Some(v);
    if Gives(v, x) {
      var n: nat :| CauseAt(v, n).Some? && Address(CauseAt(v, n).value) == x;
      assert n > 0 ==> CauseAt(v, n) == CauseAt(v.cause.value, n - 1);
    }
    if Gives(v.cause.value, x) {
      var n: nat :| CauseAt(v.cause.value, n).Some? && Address(CauseAt(v.cause.value, n).value) == x;
      assert CauseAt(v, n + 1) == CauseAt(v.cause.value, n);
    }
  }

  lemma SeqRefsAreGiven(vs: seq<Value>, x: Addr)
    ensures x in SeqRefs(vs) <==> exists i :: 0 <= i < |vs| && Gives(vs[i], x)
  {
    forall i | 0 <= i < |vs| ensures x in ValueRefs(vs[i]) <==> Gives(vs[i], x) {
      RefsAreGiven(vs[i], x);
    }
  }

  lemma EntryRefsAreGiven(es: seq<DictEntry>, x: Addr)
    ensures x in EntryRefs(es) <==> exists i :: 0 <= i < |es| && es[i].key.Some? && Gives(es[i].value, x)
  {
    forall i | 0 <= i < |es| ensures x in EntryRef(es[i]) <==> es[i].key.Some? && Gives(es[i].value, x) {
      RefsAreGiven(es[i].value, x);
    }
  }

  /** Following a queue link by link meets exactly its tasks. */
  lemma {:induction false} QueuedIsWaiter(t: Addr, m: map<Addr, Body>, unseen: set<Addr>, n: nat)
    requires QueueOk(t, m, unseen) && QueuedAt(t, m, n) != NULL
    ensures QueuedAt(t, m, n) in Waiters(t, m, unseen)
    decreases n
  {
    if n > 0 {
      QueuedIsWaiter(m[t].nextChannelWaiter, m, unseen - {t}, n - 1);
    }
  }

  lemma {:induction false} WaiterIsQueued(t: Addr, m: map<Addr, Body>, unseen: set<Addr>, x: Addr) returns (n: nat)
    requires x in Waiters(t, m, unseen)
    ensures x != NULL && x in m && m[x].TaskBody? && QueuedAt(t, m, n) == x
    decreases unseen
  {
    n := 0;
    if x != t {
      n := WaiterIsQueued(m[t].nextChannelWaiter, m, unseen - {t}, x);
      n := n + 1;
    }
  }

  lemma SingleRef(t: Addr, x: Addr)
    ensures Gives(Task(t), x) <==> x != NULL && x == t
    ensures Gives(Dict(t), x) <==> x != NULL && x == t
  {
    assert CauseAt(Task(t), 0) == Some(Task(t)) && CauseAt(Dict(t), 0) == Some(Dict(t));
  }

  lemma LoadIs(b: Body, m: map<Addr, Body>, a: Access, x: Addr)
    requires Load(b, m, a).Some? && Gives(Load(b, m, a).value, x)
    ensures CanLoad(b, m, x)
  {
  }

  lemma ArgumentIsEdge(vs: seq<Value>, argc: nat, i: nat, x: Addr)
    requires i < argc <= |vs| && Gives(vs[i], x)
    ensures x in SeqRefs(vs[..argc])
  {
    SeqRefsAreGiven(vs[..argc], x);
    assert vs[..argc][i] == vs[i];
  }

  lemma BufferedIsEdge(buffer: seq<Value>, len: nat, first: nat, i: nat, x: Addr)
    requires i < len && |buffer| > 0 && Gives(buffer[(first + i) % |buffer|], x)
    ensures x in SeqRefs(Window(buffer, len, first))
  {
    SeqRefsAreGiven(Window(buffer, len, first), x);
    assert Window(buffer, len, first)[i] == buffer[(first + i) % |buffer|];
  }

  lemma QueueLoadIsEdge(b: Body, m: map<Addr, Body>, a: Access, x: Addr)
    requires BodyOk(b, m) && b.ChannelBody? && (a.WaitingReceiver? || a.WaitingSender? || a.WaitingValue?)
    requires Load(b, m, a).Some? && Gives(Load(b, m, a).value, x) && NULL !in m
    ensures x in Edges(b, m)
  {
    match a
    case WaitingReceiver(n) =>
      SingleRef(QueuedAt(b.recvWaiters, m, n), x);
      QueuedIsWaiter(b.recvWaiters, m, m.Keys, n);
    case WaitingSender(n) =>
      SingleRef(QueuedAt(b.sendWaiters, m, n), x);
      QueuedIsWaiter(b.sendWaiters, m, m.Keys, n);
    case WaitingValue(n) =>
      QueuedIsWaiter(b.sendWaiters, m, m.Keys, n);
      RefsAreGiven(m[QueuedAt(b.sendWaiters, m, n)].waitingValue, x);
  }

  /** The marker follows every load. */
  lemma LoadIsEdge(b: Body, m: map<Addr, Body>, a: Access, x: Addr)
    requires BodyOk(b, m) && NULL !in m && Load(b, m, a).Some? && Gives(Load(b, m, a).value, x)
    ensures x in Edges(b, m)
  {
    match a
    case Item(i) => SeqRefsAreGiven(b.items, x);
    case EntryValue(i) => EntryRefsAreGiven(b.entries, x);
    case MemberTable => SingleRef(b.members, x);
    case Argument(i) => ArgumentIsEdge(b.argv, b.argc, i, x);
    case Buffered(i) => BufferedIsEdge(b.buffer, b.len, b.first, i, x);
    case WaitingReceiver(n) => QueueLoadIsEdge(b, m, a, x);
    case WaitingSender(n) => QueueLoadIsEdge(b, m, a, x);
    case WaitingValue(n) => QueueLoadIsEdge(b, m, a, x);
    case _ => RefsAreGiven(Load(b, m, a).value, x);
  }

  lemma TaskEdgeIsLoad(b: Body, m: map<Addr, Body>, x: Addr)
    requires BodyOk(b, m) && b.TaskBody? && x in Edges(b, m)
    ensures CanLoad(b, m, x)
  {
    RefsAreGiven(b.callee, x);
    RefsAreGiven(b.result, x);
    RefsAreGiven(b.raiseValue, x);
    SeqRefsAreGiven(b.argv[..b.argc], x);
    if x in ValueRefs(b.callee) {
      LoadIs(b, m, Callee, x);
    } else if x in ValueRefs(b.result) {
      LoadIs(b, m, Result, x);
    } else if x in ValueRefs(b.raiseValue) {
      LoadIs(b, m, RaiseValue, x);
    } else {
      var i :| 0 <= i < b.argc && Gives(b.argv[..b.argc][i], x);
      LoadIs(b, m, Argument(i), x);
    }
  }

  lemma WaiterIsLoad(b: Body, m: map<Addr, Body>, x: Addr)
    requires b.ChannelBody? && (x in Waiters(b.recvWaiters, m, m.Keys) || x in Waiters(b.sendWaiters, m, m.Keys))
    ensures CanLoad(b, m, x)
  {
    SingleRef(x, x);
    if x in Waiters(b.recvWaiters, m, m.Keys) {
      var n := WaiterIsQueued(b.recvWaiters, m, m.Keys, x);
      LoadIs(b, m, WaitingReceiver(n), x);
    } else {
      var n := WaiterIsQueued(b.sendWaiters, m, m.Keys, x);
      LoadIs(b, m, WaitingSender(n), x);
    }
  }

  lemma WaitingValueIsLoad(b: Body, m: map<Addr, Body>, t: Addr, x: Addr)
    requires b.ChannelBody? && t in Waiters(b.sendWaiters, m, m.Keys) && t in m && m[t].TaskBody?
    requires x in ValueRefs(m[t].waitingValue)
    ensures CanLoad(b, m, x)
  {
    var n := WaiterIsQueued(b.sendWaiters, m, m.Keys, t);
    RefsAreGiven(m[t].waitingValue, x);
    LoadIs(b, m, WaitingValue(n), x);
  }

  lemma BufferedIsLoad(b: Body, m: map<Addr, Body>, x: Addr)
    requires b.ChannelBody? && |b.buffer| > 0 && x in SeqRefs(Window(b.buffer, b.len, b.first))
    ensures CanLoad(b, m, x)
  {
    var w := Window(b.buffer, b.len, b.first);
    SeqRefsAreGiven(w, x);
    var i :| 0 <= i < |w| && Gives(w[i], x);
    LoadIs(b, m, Buffered(i), x);
  }

  lemma ChannelEdgeIsLoad(b: Body, m: map<Addr, Body>, x: Addr)
    requires BodyOk(b, m) && b.ChannelBody? && x in Edges(b, m)
    ensures CanLoad(b, m, x)
  {
    var q := Waiters(b.sendWaiters, m, m.Keys);
    if x in SeqRefs(Window(b.buffer, b.len, b.first)) {
      BufferedIsLoad(b, m, x);
    } else if x in WaitingRefs(q, m) {
      var t :| t in q && t in m && m[t].TaskBody? && x in ValueRefs(m[t].waitingValue);
      WaitingValueIsLoad(b, m, t, x);
    } else {
      WaiterIsLoad(b, m, x);
    }
  }

  /** It follows nothing else. */
  lemma EdgeIsLoad(b: Body, m: map<Addr, Body>, x: Addr)
    requires BodyOk(b, m) && x in Edges(b, m)
    ensures CanLoad(b, m, x)
  {
    match b
    case ArrayBody(items) =>
      SeqRefsAreGiven(items, x);
      var i :| 0 <= i < |items| && Gives(items[i], x);
      LoadIs(b, m, Item(i), x);
    case DictBody(es) =>
      EntryRefsAreGiven(es, x);
      var i :| 0 <= i < |es| && es[i].key.Some? && Gives(es[i].value, x);
      LoadIs(b, m, EntryValue(i), x);
    case FunctionBody(receiver, parent, members) =>
      RefsAreGiven(receiver, x);
      RefsAreGiven(parent, x);
      SingleRef(members, x);
      var a := if x in ValueRefs(receiver) then Receiver else if x in ValueRefs(parent) then Parent else MemberTable;
      LoadIs(b, m, a, x);
    case TaskBody(_, _, _, _, _, _, _, _) => TaskEdgeIsLoad(b, m, x);
    case ChannelBody(_, _, _, _, _) => ChannelEdgeIsLoad(b, m, x);
    case _ =>
  }

  /** What the marker follows from an object is what the program can load from it. */
  lemma EdgesAreLoads(b: Body, m: map<Addr, Body>)
    requires BodyOk(b, m) && NULL !in m
    ensures forall x :: x in Edges(b, m) <==> CanLoad(b, m, x)
  {
    forall x ensures x in Edges(b, m) <==> CanLoad(b, m, x) {
      if x in Edges(b, m) {
        EdgeIsLoad(b, m, x);
      }
      if a :| Load(b, m, a).Some? && Gives(Load(b, m, a).value, x) {
        LoadIsEdge(b, m, a, x);
      }
    }
  }

  /** The memory is in order exactly when its objects are and no load leads to freed memory. */
  lemma NothingDangles(m: map<Addr, Body>)
    ensures HeapOk(m) <==>
            NULL !in m && forall a :: a in m ==> BodyOk(m[a], m) && forall x :: CanLoad(m[a], m, x) ==> x in m
  {
    if NULL !in m && forall a :: a in m ==> BodyOk(m[a], m) {
      forall a | a in m ensures forall x :: x in Edges(m[a], m) <==> CanLoad(m[a], m, x) {
        EdgesAreLoads(m[a], m);
      }
    }
  }

  // ----- the marker's roots are the roots -----

  lemma {:induction false} RaiseRefsAreGiven(hs: Handlers, m: map<Addr, RaiseFrame>, x: Addr)
    requires HandlersOk(hs, m)
    ensures x in RaiseRefs(hs, m) <==> HandlerGives(TopHandler(hs), m, x)
  {
    if hs.Handler? {
      RefsAreGiven(m[hs.r].value, x);
      RaiseRefsAreGiven(hs.outer, m, x);
      NextHandler(hs.r, m, x);
    } else {
      NoHandlerGives(m, x);
    }
  }

  lemma {:induction false} HandlerOfNull(m: map<Addr, RaiseFrame>, n: nat)
    ensures HandlerAt(NULL, m, n) == NULL
    decreases n
  {
  }

  lemma NoHandlerGives(m: map<Addr, RaiseFrame>, x: Addr)
    ensures !HandlerGives(NULL, m, x)
  {
    forall n: nat ensures HandlerAt(NULL, m, n) == NULL {
      HandlerOfNull(m, n);
    }
  }

  lemma NextHandler(r: Addr, m: map<Addr, RaiseFrame>, x: Addr)
    requires r != NULL && r in m
    ensures HandlerGives(r, m, x) <==> Gives(m[r].value, x) || HandlerGives(m[r].prev, m, x)
  {
    assert HandlerAt(r, m, 0) == r;
    if HandlerGives(r, m, x) {
      var n: nat :| HandlerAt(r, m, n) != NULL && HandlerAt(r, m, n) in m && Gives(m[HandlerAt(r, m, n)].value, x);
      assert n > 0 ==> HandlerAt(r, m, n) == HandlerAt(m[r].prev, m, n - 1);
    }
    if HandlerGives(m[r].prev, m, x) {
      var n: nat :| HandlerAt(m[r].prev, m, n) != NULL && HandlerAt(m[r].prev, m, n) in m &&
                    Gives(m[HandlerAt(m[r].prev, m, n)].value, x);
      assert HandlerAt(r, m, n + 1) == HandlerAt(m[r].prev, m, n);
    }
  }

  lemma CellRefsAreGiven(cells: seq<Addr>, vars: map<Addr, Value>, x: Addr)
    ensures x in CellRefs(cells, vars) <==> CellGives(cells, vars, x)
  {
    forall c | c in vars ensures x in ValueRefs(vars[c]) <==> Gives(vars[c], x) {
      RefsAreGiven(vars[c], x);
    }
  }

  lemma FrameRefsAreGiven(f: Frame, vars: map<Addr, Value>, x: Addr)
    ensures x in FrameRefs(f, vars) <==> FrameGives(f, vars, x)
  {
    CellRefsAreGiven(f.roots, vars, x);
    SeqRefsAreGiven(f.protectedValues, x);
  }

  lemma {:induction false} FrameListIsGiven(l: List<Addr>, t: Tables, x: Addr)
    ensures x in FrameListRefs(l, t) <==>
            exists f :: f in Members(l) && f in t.frames && FrameGives(t.frames[f], t.variables, x)
  {
    if l.Cons? {
      FrameListIsGiven(l.tail, t, x);
      if l.head in t.frames {
        FrameRefsAreGiven(t.frames[l.head], t.variables, x);
      }
    }
  }

  lemma RootsAreGiven(globals: seq<Addr>, t: Tables, g: Shape, live: seq<Addr>, x: Addr)
    requires RootsOk(globals, t, g, live)
    ensures x in Roots(globals, t, g, live) <==> RootGives(globals, t, live, x)
  {
    CellRefsAreGiven(globals, t.variables, x);
    FrameListIsGiven(g.order, t, x);
    var own := g.tasks[t.current];
    assert HandlersOk(own.handlers, t.handlers);
    RaiseRefsAreGiven(own.handlers, t.handlers, x);
  }

  // ----- survivors -----

  lemma StepIsLoad(m: map<Addr, Body>, a: Addr, x: Addr)
    requires HeapOk(m)
    ensures x in Succ(RefGraph(m), a) <==> a in m && CanLoad(m[a], m, x)
  {
    if a in m {
      assert BodyOk(m[a], m);
      EdgesAreLoads(m[a], m);
    }
  }

  lemma PathsAreLoads(m: map<Addr, Body>, p: seq<Addr>)
    requires HeapOk(m)
    ensures IsPath(RefGraph(m), p) <==> LoadPath(m, p)
  {
    if p != [] {
      forall i | 0 <= i < |p| - 1
        ensures p[i+1] in Succ(RefGraph(m), p[i]) <==> p[i] in m && CanLoad(m[p[i]], m, p[i+1])
      {
        StepIsLoad(m, p[i], p[i+1]);
      }
      if IsPath(RefGraph(m), p) {
        forall i | 0 <= i < |p| - 1 ensures p[i] in m && CanLoad(m[p[i]], m, p[i+1]) {
          assert p[i+1] in Succ(RefGraph(m), p[i]);
        }
      }
    }
  }

  /** What is kept is exactly what the program can get at. */
  lemma SurvivorsAreHeld(m: map<Addr, Body>, globals: seq<Addr>, t: Tables, g: Shape, live: seq<Addr>)
    requires HeapOk(m) && RootsOk(globals, t, g, live)
    ensures forall x :: x in Survivors(m, Roots(globals, t, g, live)) <==> Held(m, globals, t, live, x)
  {
    var roots := Roots(globals, t, g, live);
    forall x ensures x in Survivors(m, roots) <==> Held(m, globals, t, live, x) {
      if x in Survivors(m, roots) {
        var p := PathFromSet(RefGraph(m), roots, x);
        PathsAreLoads(m, p);
        RootsAreGiven(globals, t, g, live, p[0]);
      }
      if p :| LoadPath(m, p) && RootGives(globals, t, live, p[0]) && p[|p|-1] == x {
        PathsAreLoads(m, p);
        RootsAreGiven(globals, t, g, live, p[0]);
        PathInReach(RefGraph(m), p);
        ReachContains(RefGraph(m), roots);
        ReachMonotone(RefGraph(m), {p[0]}, roots);
      }
    }
  }
}
