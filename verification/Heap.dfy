/**
 The memory of the garbage-collected runtime.  An address maps to the object
 stored there, and to nothing once the object is freed, so that a dangling
 reference is an address without an object.
 */
module Heap {
  import opened Basics
  import opened Graph

  datatype Addr = NULL | At(address: nat)

  /** A runtime value; the reference of a reference kind may be NULL. */
  datatype Value =
    | Nil
    | Missing
    | Boolean(b: bool)
    | Number(n: real)
    | String(str: Addr)
    | Array(arr: Addr)
    | Dict(dict: Addr)
    | Object(obj: Addr)
    | Function(fn: Addr)
    | Bytes(bytes: Addr)
    | Task(task: Addr)
    | Channel(channel: Addr)
    | Resource(resource: Addr)
    | Error(data: Addr, cause: Option<Value>)

  datatype DictEntry = DictEntry(key: Option<string>, value: Value)

  /** The fields of an object behind its header, by kind. */
  datatype Body =
    | StringBody
    | BytesBody
    | ResourceBody
    | ArrayBody(items: seq<Value>)
    | DictBody(entries: seq<DictEntry>)
    | FunctionBody(receiver: Value, parent: Value, members: Addr)
    | TaskBody(callee: Value, argc: nat, argv: seq<Value>, result: Value, raiseValue: Value,
               pendingValue: Value, waitingValue: Value, nextChannelWaiter: Addr)
    | ChannelBody(buffer: seq<Value>, len: nat, first: nat, recvWaiters: Addr, sendWaiters: Addr)

  /** The common prefix of every collected object. */
  datatype Header = Header(mark: bool, size: nat, next: Addr)

  ghost function Ref(a: Addr): set<Addr> {
    if a == NULL then {} else {a}
  }

  /** The objects the marker visits from a value. */
  ghost function ValueRefs(v: Value): set<Addr> {
    match v
    case String(a) => Ref(a)
    case Array(a) => Ref(a)
    case Dict(a) => Ref(a)
    case Object(a) => Ref(a)
    case Function(a) => Ref(a)
    case Bytes(a) => Ref(a)
    case Task(a) => Ref(a)
    case Channel(a) => Ref(a)
    case Resource(a) => Ref(a)
    case Error(a, c) => Ref(a) + (if c.Some? then ValueRefs(c.value) else {})
    case _ => {}
  }

  ghost function SeqRefs(vs: seq<Value>): set<Addr> {
    set v, a | v in vs && a in ValueRefs(v) :: a
  }

  /** An entry counts only if its key is present. */
  ghost function EntryRef(e: DictEntry): set<Addr> {
    if e.key.Some? then ValueRefs(e.value) else {}
  }

  ghost function EntryRefs(es: seq<DictEntry>): set<Addr> {
    set e, a | e in es && a in EntryRef(e) :: a
  }

  ghost function Elems<T>(s: seq<T>): set<T> {
    set x | x in s
  }

  /** The occupied part of a channel's ring buffer, oldest first. */
  ghost function Window(buffer: seq<Value>, len: nat, first: nat): seq<Value>
    requires |buffer| > 0
  {
    seq(len, i requires 0 <= i < len => buffer[(first + i) % |buffer|])
  }

  /** The tasks queued from `t` on through nextChannelWaiter, in order. */
  ghost function Waiters(t: Addr, m: map<Addr, Body>, unseen: set<Addr>): seq<Addr>
    decreases unseen
  {
    if t != NULL && t in unseen && t in m && m[t].TaskBody? then
      [t] + Waiters(m[t].nextChannelWaiter, m, unseen - {t})
    else []
  }

  /** The queue from `t` on consists of tasks and ends in NULL. */
  ghost predicate QueueOk(t: Addr, m: map<Addr, Body>, unseen: set<Addr>)
    decreases unseen
  {
    t != NULL ==> t in unseen && t in m && m[t].TaskBody? && QueueOk(m[t].nextChannelWaiter, m, unseen - {t})
  }

  ghost function WaitingRefs(ts: seq<Addr>, m: map<Addr, Body>): set<Addr> {
    set t, a | t in ts && t in m && m[t].TaskBody? && a in ValueRefs(m[t].waitingValue) :: a
  }

  ghost predicate BodyOk(b: Body, m: map<Addr, Body>) {
    match b
    case TaskBody(_, argc, argv, _, _, _, _, _) => argc <= |argv|
    case ChannelBody(buffer, len, first, rw, sw) =>
      len <= |buffer| && first < |buffer| && QueueOk(rw, m, m.Keys) && QueueOk(sw, m, m.Keys)
    case _ => true
  }

  /** The objects the marker visits directly from an object. */
  ghost function Edges(b: Body, m: map<Addr, Body>): set<Addr>
    requires BodyOk(b, m)
  {
    match b
    case StringBody => {}
    case BytesBody => {}
    case ResourceBody => {}
    case ArrayBody(items) => SeqRefs(items)
    case DictBody(entries) => EntryRefs(entries)
    case FunctionBody(receiver, parent, members) => ValueRefs(receiver) + ValueRefs(parent) + Ref(members)
    case TaskBody(callee, argc, argv, result, raiseValue, _, _, _) =>
      ValueRefs(callee) + SeqRefs(argv[..argc]) + ValueRefs(result) + ValueRefs(raiseValue)
    case ChannelBody(buffer, len, first, rw, sw) =>
      SeqRefs(Window(buffer, len, first)) +
      Elems(Waiters(rw, m, m.Keys)) + Elems(Waiters(sw, m, m.Keys)) +
      WaitingRefs(Waiters(sw, m, m.Keys), m)
  }

  /** No reference the marker follows dangles. */
  ghost predicate HeapOk(m: map<Addr, Body>) {
    NULL !in m && forall a {:trigger BodyOk(m[a], m)} :: a in m ==> BodyOk(m[a], m) && Edges(m[a], m) <= m.Keys
  }

  /** The graph of the references the marker follows. */
  ghost function RefGraph(m: map<Addr, Body>): (g: Digraph<Addr>)
    requires HeapOk(m)
  {
    map a | a in m :: Edges(m[a], m)
  }

  ghost function Marked(hs: map<Addr, Header>): set<Addr> {
    set a | a in hs && hs[a].mark
  }

  ghost predicate OnlyMarksDiffer(hs: map<Addr, Header>, hs': map<Addr, Header>) {
    hs'.Keys == hs.Keys && forall a :: a in hs ==> hs'[a].size == hs[a].size && hs'[a].next == hs[a].next
  }

  // ----- memory that grows or shrinks around an object -----

  lemma {:induction false} WaitersWithin(t: Addr, m: map<Addr, Body>, unseen: set<Addr>)
    ensures Elems(Waiters(t, m, unseen)) <= unseen
    decreases unseen
  {
    if t != NULL && t in unseen && t in m && m[t].TaskBody? {
      WaitersWithin(m[t].nextChannelWaiter, m, unseen - {t});
    }
  }

  /** The two objects queue the same task behind the same value, or are not tasks. */
  ghost predicate SameLink(b: Body, b': Body) {
    b.TaskBody? == b'.TaskBody? &&
    (b.TaskBody? ==> b'.nextChannelWaiter == b.nextChannelWaiter && b'.waitingValue == b.waitingValue)
  }

  /** A queue does not change when the memory around its tasks does. */
  lemma {:induction false} QueueAgree(t: Addr, m: map<Addr, Body>, unseen: set<Addr>, m': map<Addr, Body>,
                                      unseen': set<Addr>)
    requires QueueOk(t, m, unseen) && Elems(Waiters(t, m, unseen)) <= unseen'
    requires forall x :: x in Waiters(t, m, unseen) ==> x in m && x in m' && SameLink(m[x], m'[x])
    ensures QueueOk(t, m', unseen') && Waiters(t, m', unseen') == Waiters(t, m, unseen)
    decreases unseen
  {
    if t != NULL {
      var n, q := m[t].nextChannelWaiter, Waiters(t, m, unseen);
      assert q[0] == t && q[1..] == Waiters(n, m, unseen - {t});
      assert t in q;
      WaitersWithin(n, m, unseen - {t});
      forall x | x in q[1..] ensures x in q && x != t {
        assert x in Elems(q[1..]);
      }
      QueueAgree(n, m, unseen - {t}, m', unseen' - {t});
    }
  }

  /** Nor do an object's well-formedness and edges, as long as what it refers to stays. */
  lemma EdgesAgree(b: Body, m: map<Addr, Body>, m': map<Addr, Body>)
    requires BodyOk(b, m) && NULL !in m
    requires forall x :: x in Edges(b, m) ==> x in m && x in m' && SameLink(m[x], m'[x])
    ensures BodyOk(b, m') && Edges(b, m') == Edges(b, m)
  {
    if b.ChannelBody? {
      QueueKept(b.recvWaiters, m, m', Edges(b, m));
      QueueKept(b.sendWaiters, m, m', Edges(b, m));
      var q := Waiters(b.sendWaiters, m, m.Keys);
      forall x | x in q ensures x in m && x in m' && SameLink(m[x], m'[x]) {
        assert x in Elems(q);
      }
    }
  }

  lemma QueueKept(t: Addr, m: map<Addr, Body>, m': map<Addr, Body>, e: set<Addr>)
    requires QueueOk(t, m, m.Keys) && Elems(Waiters(t, m, m.Keys)) <= e
    requires forall x :: x in e ==> x in m && x in m' && SameLink(m[x], m'[x])
    ensures QueueOk(t, m', m'.Keys) && Waiters(t, m', m'.Keys) == Waiters(t, m, m.Keys)
  {
    forall x | x in Waiters(t, m, m.Keys) ensures x in e {
      assert x in Elems(Waiters(t, m, m.Keys));
    }
    QueueAgree(t, m, m.Keys, m', m'.Keys);
  }

  /** Keeping a closed part of the memory leaves it without dangling references. */
  lemma RestrictOk(m: map<Addr, Body>, keep: set<Addr>, m': map<Addr, Body>)
    requires HeapOk(m) && Closed(RefGraph(m), keep) && m'.Keys == keep && keep <= m.Keys
    requires forall x :: x in m' ==> m'[x] == m[x]
    ensures HeapOk(m')
    ensures RefGraph(m') == map a | a in keep :: RefGraph(m)[a]
  {
    forall a | a in m' ensures BodyOk(m'[a], m') && Edges(m'[a], m') == RefGraph(m)[a] <= m'.Keys {
      assert BodyOk(m[a], m) && Succ(RefGraph(m), a) <= keep;
      EdgesAgree(m[a], m, m');
    }
  }

  /** Adding an object whose references are in the memory. */
  lemma ExtendOk(m: map<Addr, Body>, a: Addr, b: Body)
    requires HeapOk(m) && a != NULL && a !in m
    requires BodyOk(b, m[a := b]) && Edges(b, m[a := b]) <= m.Keys + {a}
    ensures HeapOk(m[a := b])
  {
    var m' := m[a := b];
    forall x | x in m' ensures BodyOk(m'[x], m') && Edges(m'[x], m') <= m'.Keys {
      if x != a {
        assert BodyOk(m[x], m);
        EdgesAgree(m[x], m, m');
      }
    }
  }
}
