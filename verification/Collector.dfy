/**
 The mark-and-sweep collector: allocation, recursive marking, sweeping the
 linked list of all objects in place, and the threshold that triggers a run.
 */
module Collector {
  import opened Graph
  import opened Basics
  import opened Heap
  import opened Loads
  import opened RootFrames
  import opened RootSet

  /** Marking from `from` took the marked set from `m0` to `m1`: what is new is reachable from
      `from`, and, apart from `open`, everything new has all its successors marked. */
  ghost predicate Extends(g: Digraph<Addr>, m0: set<Addr>, m1: set<Addr>, from: set<Addr>, open: set<Addr>) {
    m0 <= m1 && m1 - m0 <= Reach(g, from) && forall a :: a in m1 && a !in m0 && a !in open ==> Succ(g, a) <= m1
  }

  lemma ExtendsTrans(g: Digraph<Addr>, m0: set<Addr>, m1: set<Addr>, m2: set<Addr>, a: set<Addr>, b: set<Addr>,
                     open: set<Addr>)
    requires Extends(g, m0, m1, a, open) && Extends(g, m1, m2, b, {})
    ensures Extends(g, m0, m2, a + b, open)
  {
    ReachUnion(g, a, b);
  }

  /** Marking one white object and then its successors. */
  lemma MarkNode(g: Digraph<Addr>, m0: set<Addr>, m1: set<Addr>, h: Addr)
    requires Extends(g, m0 + {h}, m1, Succ(g, h), {}) && Succ(g, h) <= m1
    ensures Extends(g, m0, m1, {h}, {})
  {
    ReachStep(g, h);
  }

  lemma SeqRefsSnoc(vs: seq<Value>, i: nat)
    requires i < |vs|
    ensures SeqRefs(vs[..i+1]) == SeqRefs(vs[..i]) + ValueRefs(vs[i])
    ensures ValueRefs(vs[i]) <= SeqRefs(vs)
  {
    assert vs[..i+1] == vs[..i] + [vs[i]];
  }

  lemma EntryRefsSnoc(es: seq<DictEntry>, i: nat)
    requires i < |es|
    ensures EntryRefs(es[..i+1]) == EntryRefs(es[..i]) + EntryRef(es[i])
    ensures EntryRef(es[i]) <= EntryRefs(es)
  {
    assert es[..i+1] == es[..i] + [es[i]];
  }

  lemma UnionAssoc<T>(a: set<T>, b: set<T>, c: set<T>)
    ensures a + (b + c) == (a + b) + c
  {
  }

  /** A marking of `all` has dealt with `done`, and `rest` is left. */
  ghost predicate Marking(g: Digraph<Addr>, m0: set<Addr>, m: set<Addr>, all: set<Addr>, done: set<Addr>,
                          rest: set<Addr>) {
    all == done + rest && done <= m && Extends(g, m0, m, done, {})
  }

  lemma MarkingStep(g: Digraph<Addr>, m0: set<Addr>, m1: set<Addr>, m2: set<Addr>,
                    all: set<Addr>, done: set<Addr>, own: set<Addr>, rest: set<Addr>)
    requires Marking(g, m0, m1, all, done, own + rest) && Extends(g, m1, m2, own, {}) && own <= m2
    ensures Marking(g, m0, m2, all, done + own, rest)
  {
    ExtendsTrans(g, m0, m1, m2, done, own, {});
  }

  ghost function QueueAndValues(t: Addr, m: map<Addr, Body>, unseen: set<Addr>): set<Addr> {
    Elems(Waiters(t, m, unseen)) + WaitingRefs(Waiters(t, m, unseen), m)
  }

  lemma QueueStep(t: Addr, m: map<Addr, Body>, unseen: set<Addr>)
    requires t != NULL && QueueOk(t, m, unseen)
    ensures Elems(Waiters(t, m, unseen)) == Ref(t) + Elems(Waiters(m[t].nextChannelWaiter, m, unseen - {t}))
    ensures QueueAndValues(t, m, unseen)
         == Ref(t) + ValueRefs(m[t].waitingValue) + QueueAndValues(m[t].nextChannelWaiter, m, unseen - {t})
  {
    var rest := Waiters(m[t].nextChannelWaiter, m, unseen - {t});
    assert Waiters(t, m, unseen) == [t] + rest;
    assert WaitingRefs([t] + rest, m) == ValueRefs(m[t].waitingValue) + WaitingRefs(rest, m);
  }

  /** A marking that starts from clear marks and marks its start marks exactly what is reachable. */
  lemma MarkedIsReach(g: Digraph<Addr>, m1: set<Addr>, from: set<Addr>)
    requires Extends(g, {}, m1, from, {}) && from <= m1
    ensures m1 == Reach(g, from)
  {
    ReachLeast(g, from, m1);
  }

  // ----- the list of all objects -----

  /** `s` is the chain of next links from `h` to `end`. */
  ghost predicate Seg(h: Addr, s: seq<Addr>, end: Addr, hs: map<Addr, Header>)
    decreases |s|
  {
    if s == [] then h == end else
      h == s[0] && h != NULL && h in hs && h !in s[1..] && Seg(hs[h].next, s[1..], end, hs)
  }

  ghost function Last(s: seq<Addr>): Addr {
    if s == [] then NULL else s[|s|-1]
  }

  /** The objects of `s` that are in `m`, in order. */
  ghost function Keep(s: seq<Addr>, m: set<Addr>): seq<Addr> {
    if s == [] then [] else (if s[0] in m then [s[0]] else []) + Keep(s[1..], m)
  }

  ghost function TotalSize(s: seq<Addr>, hs: map<Addr, Header>): nat {
    if s == [] then 0 else (if s[0] in hs then hs[s[0]].size else 0) + TotalSize(s[1..], hs)
  }

  lemma {:induction false} SegAgree(h: Addr, s: seq<Addr>, end: Addr, hs: map<Addr, Header>, hs': map<Addr, Header>)
    requires Seg(h, s, end, hs)
    requires forall x :: x in s && x in hs ==> x in hs' && hs'[x].next == hs[x].next
    ensures Seg(h, s, end, hs')
    decreases |s|
  {
    if s != [] {
      SegAgree(hs[h].next, s[1..], end, hs, hs');
    }
  }

  lemma {:induction false} SegIn(h: Addr, s: seq<Addr>, end: Addr, hs: map<Addr, Header>)
    requires Seg(h, s, end, hs)
    ensures forall x :: x in s ==> x in hs && x != NULL
    ensures |Elems(s)| == |s|
    decreases |s|
  {
    if s != [] {
      SegIn(hs[h].next, s[1..], end, hs);
      assert s == [s[0]] + s[1..];
      assert Elems(s) == {s[0]} + Elems(s[1..]);
    }
  }

  lemma {:induction false} SegSnoc(h: Addr, s: seq<Addr>, x: Addr, hs: map<Addr, Header>)
    requires Seg(h, s, x, hs) && x != NULL && x in hs && x !in s
    ensures Seg(h, s + [x], hs[x].next, hs)
    decreases |s|
  {
    if s != [] {
      SegSnoc(hs[h].next, s[1..], x, hs);
      assert (s + [x])[1..] == s[1..] + [x];
    }
  }

  /** Pointing the last link of a chain elsewhere. */
  lemma {:induction false} SegRedirect(h: Addr, s: seq<Addr>, x: Addr, hs: map<Addr, Header>, y: Addr)
    requires Seg(h, s, x, hs) && s != []
    ensures Last(s) in hs && Seg(h, s, y, hs[Last(s) := hs[Last(s)].(next := y)])
    decreases |s|
  {
    if |s| > 1 {
      SegRedirect(hs[h].next, s[1..], x, hs, y);
      assert Last(s) in s[1..];
    }
  }

  lemma {:induction false} KeepElems(s: seq<Addr>, m: set<Addr>)
    ensures Elems(Keep(s, m)) == Elems(s) * m
  {
    if s != [] {
      KeepElems(s[1..], m);
      assert Elems(s) == {s[0]} + Elems(s[1..]);
      assert Elems(Keep(s, m)) == (if s[0] in m then {s[0]} else {}) + Elems(Keep(s[1..], m));
    }
  }

  lemma {:induction false} SizeAgree(s: seq<Addr>, hs: map<Addr, Header>, hs': map<Addr, Header>)
    requires forall x :: x in s ==> x in hs && x in hs' && hs[x].size == hs'[x].size
    ensures TotalSize(s, hs) == TotalSize(s, hs')
  {
    if s != [] {
      SizeAgree(s[1..], hs, hs');
    }
  }

  /** The sweep stands before `rest`: what it kept is unmarked and linked to the rest. */
  ghost predicate Swept(head: Addr, prev: Addr, h: Addr, hs: map<Addr, Header>, hs0: map<Addr, Header>,
                        kept: seq<Addr>, rest: seq<Addr>) {
    prev == Last(kept) && (prev == NULL <==> kept == []) && Seg(head, kept, h, hs) && Seg(h, rest, NULL, hs) &&
    (forall x :: x in kept ==> x !in rest) &&
    hs.Keys == Elems(kept) + Elems(rest) &&
    (forall x :: x in kept ==> !hs[x].mark) &&
    (forall x :: x in rest ==> x in hs0 && hs[x].mark == hs0[x].mark) &&
    (forall x :: x in hs ==> x in hs0 && hs[x].size == hs0[x].size)
  }

  /** Freeing an unmarked object at the head of the list. */
  lemma FreeFirst(h: Addr, hs: map<Addr, Header>, hs0: map<Addr, Header>, rest: seq<Addr>)
    requires Swept(h, NULL, h, hs, hs0, [], rest) && h != NULL
    ensures h in hs && rest != [] && Swept(hs[h].next, NULL, hs[h].next, hs - {h}, hs0, [], rest[1..])
  {
    SegAgree(hs[h].next, rest[1..], NULL, hs, hs - {h});
    assert Elems(rest) == {h} + Elems(rest[1..]);
  }

  /** Unlinking `h` from behind a chain. */
  lemma FreeLink(head: Addr, h: Addr, hs: map<Addr, Header>, kept: seq<Addr>)
    requires Seg(head, kept, h, hs) && h in hs && h !in kept && kept != []
    ensures Last(kept) in kept && Last(kept) in hs && Last(kept) != NULL
    ensures Seg(head, kept, hs[h].next, (hs - {h})[Last(kept) := hs[Last(kept)].(next := hs[h].next)])
  {
    SegIn(head, kept, h, hs);
    SegAgree(head, kept, h, hs, hs - {h});
    SegRedirect(head, kept, h, hs - {h}, hs[h].next);
  }

  /** Freeing an unmarked object behind a kept one. */
  lemma FreeLater(head: Addr, prev: Addr, h: Addr, hs: map<Addr, Header>, hs0: map<Addr, Header>,
                  kept: seq<Addr>, rest: seq<Addr>)
    requires Swept(head, prev, h, hs, hs0, kept, rest) && h != NULL && kept != []
    ensures h in hs && rest != [] && prev in hs && prev != h && prev != NULL
    ensures Swept(head, prev, hs[h].next, (hs - {h})[prev := hs[prev].(next := hs[h].next)], hs0, kept, rest[1..])
  {
    var hs' := (hs - {h})[prev := hs[prev].(next := hs[h].next)];
    FreeLink(head, h, hs, kept);
    SegAgree(hs[h].next, rest[1..], NULL, hs, hs');
    assert Elems(rest) == {h} + Elems(rest[1..]);
  }

  /** Keeping a marked object. */
  lemma KeepStep(head: Addr, prev: Addr, h: Addr, hs: map<Addr, Header>, hs0: map<Addr, Header>,
                 kept: seq<Addr>, rest: seq<Addr>)
    requires Swept(head, prev, h, hs, hs0, kept, rest) && h != NULL
    ensures h in hs && rest != []
    ensures Swept(head, h, hs[h].next, hs[h := hs[h].(mark := false)], hs0, kept + [h], rest[1..])
  {
    var hs' := hs[h := hs[h].(mark := false)];
    SegSnoc(head, kept, h, hs);
    SegAgree(head, kept + [h], hs[h].next, hs, hs');
    SegAgree(hs[h].next, rest[1..], NULL, hs, hs');
    assert Elems(rest) == {h} + Elems(rest[1..]) && Elems(kept + [h]) == Elems(kept) + {h};
  }

  lemma KeepHead(rest: seq<Addr>, m: set<Addr>, hs: map<Addr, Header>)
    requires rest != []
    ensures rest[0] in m ==> Keep(rest, m) == [rest[0]] + Keep(rest[1..], m) && Keep(rest, m)[1..] == Keep(rest[1..], m)
    ensures rest[0] !in m ==> Keep(rest, m) == Keep(rest[1..], m)
  {
  }

  /** What the sweep works on. */
  datatype Sweeping = Sweeping(head: Addr, prev: Addr, h: Addr, headers: map<Addr, Header>, bodies: map<Addr, Body>,
                               count: nat, bytes: nat)

  /** The sweep invariant; the ghost arguments are the initial state and how far the sweep is. */
  ghost predicate Sweepable(s: Sweeping, hs0: map<Addr, Header>, bs0: map<Addr, Body>, order: seq<Addr>,
                            kept: seq<Addr>, rest: seq<Addr>) {
    Swept(s.head, s.prev, s.h, s.headers, hs0, kept, rest) && Accounted(s, hs0, bs0, order, kept, rest)
  }

  /** What the sweep has counted is what it has freed. */
  ghost predicate Accounted(s: Sweeping, hs0: map<Addr, Header>, bs0: map<Addr, Body>, order: seq<Addr>,
                            kept: seq<Addr>, rest: seq<Addr>) {
    var m0 := Marked(hs0);
    s.headers.Keys == s.bodies.Keys && (forall x :: x in s.bodies ==> x in bs0 && s.bodies[x] == bs0[x]) &&
    kept + Keep(rest, m0) == Keep(order, m0) &&
    s.count + |rest| - |Keep(rest, m0)| == |order| - |Keep(order, m0)| &&
    s.bytes + TotalSize(rest, hs0) - TotalSize(Keep(rest, m0), hs0)
      == TotalSize(order, hs0) - TotalSize(Keep(order, m0), hs0)
  }

  /** Free the object `h` and point the link that led to it at the next one. */
  method FreeOne(s: Sweeping, ghost hs0: map<Addr, Header>, ghost bs0: map<Addr, Body>, ghost order: seq<Addr>,
                 ghost kept: seq<Addr>, ghost rest: seq<Addr>)
    returns (r: Sweeping)
    requires Sweepable(s, hs0, bs0, order, kept, rest) && s.h != NULL && s.h in s.headers && !s.headers[s.h].mark
    ensures rest != [] && Sweepable(r, hs0, bs0, order, kept, rest[1..])
  {
    KeepHead(rest, Marked(hs0), hs0);
    var next := s.headers[s.h].next;
    r := s.(h := next, headers := s.headers - {s.h}, bodies := s.bodies - {s.h},
            count := s.count + 1, bytes := s.bytes + s.headers[s.h].size);
    if s.prev == NULL {
      FreeFirst(s.h, s.headers, hs0, rest);
      r := r.(head := next);
    } else {
      FreeLater(s.head, s.prev, s.h, s.headers, hs0, kept, rest);
      r := r.(headers := r.headers[s.prev := r.headers[s.prev].(next := next)]);
    }
  }

  lemma AccountKept(s: Sweeping, hs0: map<Addr, Header>, bs0: map<Addr, Body>, order: seq<Addr>,
                    kept: seq<Addr>, rest: seq<Addr>)
    requires Accounted(s, hs0, bs0, order, kept, rest) && rest != [] && s.h == rest[0] && s.h in Marked(hs0)
    requires s.h in s.headers
    ensures Accounted(s.(headers := s.headers[s.h := s.headers[s.h].(mark := false)], prev := s.h,
                         h := s.headers[s.h].next), hs0, bs0, order, kept + [s.h], rest[1..])
  {
    KeepHead(rest, Marked(hs0), hs0);
    assert kept + ([s.h] + Keep(rest[1..], Marked(hs0))) == (kept + [s.h]) + Keep(rest[1..], Marked(hs0));
  }

  /** Unmark the object `h` and move on. */
  method KeepOne(s: Sweeping, ghost hs0: map<Addr, Header>, ghost bs0: map<Addr, Body>, ghost order: seq<Addr>,
                 ghost kept: seq<Addr>, ghost rest: seq<Addr>)
    returns (r: Sweeping)
    requires Sweepable(s, hs0, bs0, order, kept, rest) && s.h != NULL && s.h in s.headers && s.headers[s.h].mark
    ensures rest != [] && Sweepable(r, hs0, bs0, order, kept + [s.h], rest[1..])
  {
    KeepStep(s.head, s.prev, s.h, s.headers, hs0, kept, rest);
    AccountKept(s, hs0, bs0, order, kept, rest);
    r := s.(headers := s.headers[s.h := s.headers[s.h].(mark := false)], prev := s.h, h := s.headers[s.h].next);
  }

  /** `r` is the list and memory without what was not marked, and says how much that was. */
  ghost predicate SweptTo(order: seq<Addr>, hs0: map<Addr, Header>, bs0: map<Addr, Body>, r: Sweeping) {
    var kept := Keep(order, Marked(hs0));
    Seg(r.head, kept, NULL, r.headers) &&
    r.headers.Keys == r.bodies.Keys == Elems(kept) == Marked(hs0) &&
    (forall x :: x in r.headers ==> x in hs0 && x in bs0) &&
    (forall x :: x in r.headers ==> !r.headers[x].mark && r.headers[x].size == hs0[x].size && r.bodies[x] == bs0[x]) &&
    r.count == |order| - |kept| && r.bytes == TotalSize(order, hs0) - TotalSize(kept, hs0)
  }

  lemma SweepDone(r: Sweeping, hs0: map<Addr, Header>, bs0: map<Addr, Body>, order: seq<Addr>, kept: seq<Addr>,
                  rest: seq<Addr>)
    requires Sweepable(r, hs0, bs0, order, kept, rest) && r.h == NULL && Elems(order) == hs0.Keys
    ensures SweptTo(order, hs0, bs0, r)
  {
    assert rest == [] && kept == Keep(order, Marked(hs0));
    KeepElems(order, Marked(hs0));
  }

  /** tya_gc_sweep: free what is not marked, clear the marks of the rest.  The list that is left
      holds the marked objects in their order; the counters say what was freed. */
  method Sweep(head: Addr, hs0: map<Addr, Header>, bs0: map<Addr, Body>, ghost order: seq<Addr>)
    returns (r: Sweeping)
    requires Seg(head, order, NULL, hs0) && Elems(order) == hs0.Keys == bs0.Keys
    ensures SweptTo(order, hs0, bs0, r)
  {
    r := Sweeping(head, NULL, head, hs0, bs0, 0, 0);
    ghost var kept, rest := [], order;
    while r.h != NULL
      invariant Sweepable(r, hs0, bs0, order, kept, rest)
      decreases |rest|
    {
      assert r.h in r.headers;
      if !r.headers[r.h].mark {
        r := FreeOne(r, hs0, bs0, order, kept, rest);
      } else {
        var h := r.h;
        r := KeepOne(r, hs0, bs0, order, kept, rest);
        kept := kept + [h];
      }
      rest := rest[1..];
    }
    SweepDone(r, hs0, bs0, order, kept, rest);
  }

  lemma AllocList(head: Addr, order: seq<Addr>, hs: map<Addr, Header>, a: Addr, hs': map<Addr, Header>)
    requires Seg(head, order, NULL, hs) && Elems(order) == hs.Keys && Marked(hs) == {} && a != NULL && a !in hs
    requires a in hs' && hs' == hs[a := hs'[a]] && hs'[a].next == head && !hs'[a].mark
    ensures Seg(a, [a] + order, NULL, hs') && Elems([a] + order) == hs'.Keys && Marked(hs') == {}
    ensures TotalSize([a] + order, hs') == TotalSize(order, hs) + hs'[a].size
  {
    SegIn(head, order, NULL, hs);
    SegAgree(head, order, NULL, hs, hs');
    SizeAgree(order, hs, hs');
    assert ([a] + order)[1..] == order;
    assert a !in Elems(order);
  }

  // ----- roots -----

  lemma CellRefsSnoc(cells: seq<Addr>, i: nat, vars: map<Addr, Value>)
    requires i < |cells| && Elems(cells) <= vars.Keys
    ensures cells[i] in vars
    ensures CellRefs(cells[..i+1], vars) == CellRefs(cells[..i], vars) + ValueRefs(vars[cells[i]])
    ensures ValueRefs(vars[cells[i]]) <= CellRefs(cells, vars)
  {
    assert cells[i] in Elems(cells);
    assert cells[..i+1] == cells[..i] + [cells[i]];
  }

  /** The memory is in order and `g` is its reference graph. */
  ghost predicate Ready(hs: map<Addr, Header>, bs: map<Addr, Body>, g: Digraph<Addr>) {
    hs.Keys == bs.Keys && HeapOk(bs) && g == RefGraph(bs)
  }

  /** The collector's counters. */
  datatype Stats = Stats(allocCount: nat, allocBytes: nat, freedCount: nat, freedBytes: nat,
                         collectCount: nat, liveAfterLast: nat, threshold: nat)

  /** Between collections: the list holds exactly the live memory, all marks are clear, nothing
      dangles, and the counters account for every object and byte. */
  ghost predicate Consistent(head: Addr, order: seq<Addr>, hs: map<Addr, Header>, bs: map<Addr, Body>, st: Stats) {
    Seg(head, order, NULL, hs) && Elems(order) == hs.Keys == bs.Keys && HeapOk(bs) && Marked(hs) == {} &&
    st.allocCount == st.freedCount + |order| && st.allocBytes == st.freedBytes + TotalSize(order, hs)
  }

  /** Marking does not disturb the list. */
  lemma MarkedConsistent(head: Addr, order: seq<Addr>, hs0: map<Addr, Header>, bs: map<Addr, Body>, st: Stats,
                         hs: map<Addr, Header>)
    requires Consistent(head, order, hs0, bs, st) && OnlyMarksDiffer(hs0, hs)
    ensures Seg(head, order, NULL, hs) && Elems(order) == hs.Keys == bs.Keys && HeapOk(bs)
    ensures st.allocCount == st.freedCount + |order| && st.allocBytes == st.freedBytes + TotalSize(order, hs)
  {
    SegIn(head, order, NULL, hs0);
    SegAgree(head, order, NULL, hs0, hs);
    SizeAgree(order, hs0, hs);
  }

  /** The counters after a collection that freed so much. */
  function AfterCollect(st: Stats, count: nat, bytes: nat): Stats
    requires count + st.freedCount <= st.allocCount
  {
    var live := st.allocCount - (st.freedCount + count);
    st.(freedCount := st.freedCount + count, freedBytes := st.freedBytes + bytes, collectCount := st.collectCount + 1,
        liveAfterLast := live, threshold := if 2 * live > 1024 then 2 * live else 1024)
  }

  /** A collection allocates nothing, is counted once, and sets the threshold to twice what is left, at least 1024. */
  ghost predicate Collected(before: Stats, after: Stats, left: nat) {
    after.allocCount == before.allocCount && after.allocBytes == before.allocBytes &&
    after.collectCount == before.collectCount + 1 && after.liveAfterLast == left &&
    after.threshold == if 2 * left > 1024 then 2 * left else 1024
  }

  /** A swept heap is consistent again. */
  lemma SweptConsistent(order: seq<Addr>, hs: map<Addr, Header>, bs: map<Addr, Body>, st: Stats, r: Sweeping)
    requires Elems(order) == hs.Keys == bs.Keys && HeapOk(bs) && Closed(RefGraph(bs), Marked(hs))
    requires st.allocCount == st.freedCount + |order| && st.allocBytes == st.freedBytes + TotalSize(order, hs)
    requires SweptTo(order, hs, bs, r)
    ensures r.count + st.freedCount <= st.allocCount
    ensures Consistent(r.head, Keep(order, Marked(hs)), r.headers, r.bodies, AfterCollect(st, r.count, r.bytes))
  {
    var kept := Keep(order, Marked(hs));
    RestrictOk(bs, Marked(hs), r.bodies);
    assert forall x :: x in kept ==> x in Elems(kept);
    SizeAgree(kept, hs, r.headers);
  }

  /** Sweep marked memory and bring the counters up to date. */
  method SweepAndCount(head: Addr, hs: map<Addr, Header>, bs: map<Addr, Body>, st: Stats,
                       ghost order: seq<Addr>, ghost hs0: map<Addr, Header>, ghost roots: set<Addr>)
    returns (r: Sweeping, st': Stats)
    requires Consistent(head, order, hs0, bs, st) && OnlyMarksDiffer(hs0, hs) && Marked(hs) == Survivors(bs, roots)
    ensures Consistent(r.head, Keep(order, Marked(hs)), r.headers, r.bodies, st')
    ensures r.headers.Keys == Marked(hs) && Collected(st, st', |Keep(order, Marked(hs))|)
    ensures forall a :: a in r.bodies ==> a in bs && r.bodies[a] == bs[a]
  {
    MarkedConsistent(head, order, hs0, bs, st, hs);
    ReachContains(RefGraph(bs), roots);
    r := Sweep(head, hs, bs, order);
    SweptConsistent(order, hs, bs, st, r);
    st' := AfterCollect(st, r.count, r.bytes);
  }

  class Collector {
    var head: Addr            // tya_gc_head
    var stats: Stats
    var headers: map<Addr, Header>
    var bodies: map<Addr, Body>

    ghost var order: seq<Addr>

    ghost predicate Valid()
      reads this
    {
      Consistent(head, order, headers, bodies, stats)
    }

    constructor ()
      ensures Valid() && order == [] && stats == Stats(0, 0, 0, 0, 0, 0, 1024)
    {
      head, headers, bodies, order, stats := NULL, map[], map[], [], Stats(0, 0, 0, 0, 0, 0, 1024);
    }

    /** tya_gc_alloc at a free address, with the fields its caller fills in. */
    method Alloc(a: Addr, size: nat, body: Body)
      requires Valid() && a != NULL && a !in headers
      requires BodyOk(body, bodies[a := body]) && Edges(body, bodies[a := body]) <= bodies.Keys + {a}
      modifies this
      ensures Valid() && order == [a] + old(order) && bodies == old(bodies)[a := body]
      ensures stats == old(stats).(allocCount := old(stats).allocCount + 1, allocBytes := old(stats).allocBytes + size)
    {
      ghost var hs := headers;
      ExtendOk(bodies, a, body);
      AllocList(head, order, hs, a, hs[a := Header(false, size, head)]);
      headers, bodies := headers[a := Header(false, size, head)], bodies[a := body];
      head, order := a, [a] + order;
      stats := stats.(allocCount := stats.allocCount + 1, allocBytes := stats.allocBytes + size);
    }

    /** The program overwrites the fields of an object with references to live objects. */
    method Store(a: Addr, body: Body)
      requires Valid() && a in bodies && HeapOk(bodies[a := body])
      modifies this`bodies
      ensures Valid() && bodies == old(bodies)[a := body]
    {
      bodies := bodies[a := body];
    }

    ghost function Unmarked(): set<Addr>
      reads this
    {
      headers.Keys - Marked(headers)
    }

    method MarkHeader(ghost gr: Digraph<Addr>, h: Addr)
      requires Ready(headers, bodies, gr) && (h != NULL ==> h in headers)
      modifies this`headers
      ensures Ready(headers, bodies, gr) && OnlyMarksDiffer(old(headers), headers)
      ensures Ref(h) <= Marked(headers)
      ensures Extends(gr, old(Marked(headers)), Marked(headers), Ref(h), {})
      decreases Unmarked(), 0
    {
      if h == NULL || headers[h].mark {
        return;
      }
      ghost var m0 := Marked(headers);
      headers := headers[h := headers[h].(mark := true)];
      assert Marked(headers) == m0 + {h};
      MarkBody(gr, h);
      MarkNode(gr, m0, Marked(headers), h);
    }

    method MarkBody(ghost gr: Digraph<Addr>, h: Addr)
      requires Ready(headers, bodies, gr) && h in headers
      modifies this`headers
      ensures Ready(headers, bodies, gr) && OnlyMarksDiffer(old(headers), headers)
      ensures Succ(gr, h) <= Marked(headers)
      ensures Extends(gr, old(Marked(headers)), Marked(headers), Succ(gr, h), {})
      decreases Unmarked(), 5
    {
      ghost var m0 := Marked(headers);
      assert BodyOk(bodies[h], bodies);
      match bodies[h] {
        case StringBody =>
        case BytesBody =>
        case ResourceBody =>
        case ArrayBody(items) => MarkAll(gr, items);
        case DictBody(entries) => MarkEntries(gr, entries);
        case FunctionBody(receiver, parent, members) =>
          MarkValue(gr, receiver);
          ghost var m1 := Marked(headers);
          MarkValue(gr, parent);
          ghost var m2 := Marked(headers);
          ExtendsTrans(gr, m0, m1, m2, ValueRefs(receiver), ValueRefs(parent), {});
          MarkHeader(gr, members);
          ExtendsTrans(gr, m0, m2, Marked(headers), ValueRefs(receiver) + ValueRefs(parent), Ref(members), {});
        case TaskBody(callee, argc, argv, result, raiseValue, _, _, _) =>
          MarkTask(gr, callee, argv[..argc], result, raiseValue);
        case ChannelBody(buffer, len, first, rw, sw) =>
          assert Succ(gr, h) == ChannelRefs(buffer, len, first, rw, sw);
          MarkChannel(gr, buffer, len, first, rw, sw);
      }
    }

    method MarkTask(ghost gr: Digraph<Addr>, callee: Value, args: seq<Value>, result: Value, raiseValue: Value)
      requires Ready(headers, bodies, gr) &&
               ValueRefs(callee) + SeqRefs(args) + ValueRefs(result) + ValueRefs(raiseValue) <= headers.Keys
      modifies this`headers
      ensures Ready(headers, bodies, gr) && OnlyMarksDiffer(old(headers), headers)
      ensures ValueRefs(callee) + SeqRefs(args) + ValueRefs(result) + ValueRefs(raiseValue) <= Marked(headers)
      ensures Extends(gr, old(Marked(headers)), Marked(headers),
                ValueRefs(callee) + SeqRefs(args) + ValueRefs(result) + ValueRefs(raiseValue), {})
      decreases Unmarked(), 4
    {
      ghost var m0 := Marked(headers);
      MarkValue(gr, callee);
      ghost var m1 := Marked(headers);
      MarkAll(gr, args);
      ghost var m2 := Marked(headers);
      ExtendsTrans(gr, m0, m1, m2, ValueRefs(callee), SeqRefs(args), {});
      MarkValue(gr, result);
      ghost var m3 := Marked(headers);
      ExtendsTrans(gr, m0, m2, m3, ValueRefs(callee) + SeqRefs(args), ValueRefs(result), {});
      MarkValue(gr, raiseValue);
      ExtendsTrans(gr, m0, m3, Marked(headers), ValueRefs(callee) + SeqRefs(args) + ValueRefs(result),
                   ValueRefs(raiseValue), {});
    }

    ghost function ChannelRefs(buffer: seq<Value>, len: nat, first: nat, rw: Addr, sw: Addr): set<Addr>
      requires 0 < |buffer|
      reads this
    {
      SeqRefs(Window(buffer, len, first)) + QueueRefs(rw) + SenderRefs(sw)
    }

    method MarkChannel(ghost gr: Digraph<Addr>, buffer: seq<Value>, len: nat, first: nat, rw: Addr, sw: Addr)
      requires Ready(headers, bodies, gr) && 0 < |buffer| && QueueOk(rw, bodies, bodies.Keys) &&
               QueueOk(sw, bodies, bodies.Keys)
      requires ChannelRefs(buffer, len, first, rw, sw) <= headers.Keys
      modifies this`headers
      ensures Ready(headers, bodies, gr) && OnlyMarksDiffer(old(headers), headers)
      ensures ChannelRefs(buffer, len, first, rw, sw) <= Marked(headers)
      ensures Extends(gr, old(Marked(headers)), Marked(headers), ChannelRefs(buffer, len, first, rw, sw), {})
      decreases Unmarked(), 4
    {
      ghost var m0 := Marked(headers);
      MarkWindow(gr, buffer, len, first);
      ghost var m1 := Marked(headers);
      MarkReceivers(gr, rw);
      ghost var m2 := Marked(headers);
      ExtendsTrans(gr, m0, m1, m2, SeqRefs(Window(buffer, len, first)), QueueRefs(rw), {});
      MarkSenders(gr, sw);
      ExtendsTrans(gr, m0, m2, Marked(headers), SeqRefs(Window(buffer, len, first)) + QueueRefs(rw),
                   SenderRefs(sw), {});
    }

    ghost function QueueRefs(t: Addr): set<Addr>
      reads this
    {
      Elems(Waiters(t, bodies, bodies.Keys))
    }

    ghost function SenderRefs(t: Addr): set<Addr>
      reads this
    {
      QueueAndValues(t, bodies, bodies.Keys)
    }

    method MarkAll(ghost gr: Digraph<Addr>, vs: seq<Value>)
      requires Ready(headers, bodies, gr) && SeqRefs(vs) <= headers.Keys
      modifies this`headers
      ensures Ready(headers, bodies, gr) && OnlyMarksDiffer(old(headers), headers)
      ensures SeqRefs(vs) <= Marked(headers)
      ensures Extends(gr, old(Marked(headers)), Marked(headers), SeqRefs(vs), {})
      decreases Unmarked(), 3
    {
      ghost var m0 := Marked(headers);
      var i := 0;
      assert SeqRefs(vs[..0]) == {};
      while i < |vs|
        invariant 0 <= i <= |vs| && OnlyMarksDiffer(old(headers), headers)
        invariant SeqRefs(vs[..i]) <= Marked(headers)
        invariant Extends(gr, m0, Marked(headers), SeqRefs(vs[..i]), {})
      {
        ghost var m1 := Marked(headers);
        SeqRefsSnoc(vs, i);
        MarkValue(gr, vs[i]);
        ExtendsTrans(gr, m0, m1, Marked(headers), SeqRefs(vs[..i]), ValueRefs(vs[i]), {});
        i := i + 1;
      }
      assert vs[..i] == vs;
    }

    method MarkEntries(ghost gr: Digraph<Addr>, es: seq<DictEntry>)
      requires Ready(headers, bodies, gr) && EntryRefs(es) <= headers.Keys
      modifies this`headers
      ensures Ready(headers, bodies, gr) && OnlyMarksDiffer(old(headers), headers)
      ensures EntryRefs(es) <= Marked(headers)
      ensures Extends(gr, old(Marked(headers)), Marked(headers), EntryRefs(es), {})
      decreases Unmarked(), 3
    {
      ghost var m0 := Marked(headers);
      var i := 0;
      assert EntryRefs(es[..0]) == {};
      while i < |es|
        invariant 0 <= i <= |es| && OnlyMarksDiffer(old(headers), headers)
        invariant EntryRefs(es[..i]) <= Marked(headers)
        invariant Extends(gr, m0, Marked(headers), EntryRefs(es[..i]), {})
      {
        ghost var m1 := Marked(headers);
        EntryRefsSnoc(es, i);
        if es[i].key.Some? {
          MarkValue(gr, es[i].value);
          ExtendsTrans(gr, m0, m1, Marked(headers), EntryRefs(es[..i]), EntryRef(es[i]), {});
        } else {
          assert EntryRefs(es[..i+1]) == EntryRefs(es[..i]);
        }
        i := i + 1;
      }
      assert es[..i] == es;
    }

    method MarkWindow(ghost gr: Digraph<Addr>, buffer: seq<Value>, len: nat, first: nat)
      requires Ready(headers, bodies, gr) && 0 < |buffer| && SeqRefs(Window(buffer, len, first)) <= headers.Keys
      modifies this`headers
      ensures Ready(headers, bodies, gr) && OnlyMarksDiffer(old(headers), headers)
      ensures SeqRefs(Window(buffer, len, first)) <= Marked(headers)
      ensures Extends(gr, old(Marked(headers)), Marked(headers), SeqRefs(Window(buffer, len, first)), {})
      decreases Unmarked(), 3
    {
      ghost var m0, w := Marked(headers), Window(buffer, len, first);
      var i := 0;
      assert SeqRefs(w[..0]) == {};
      while i < len
        invariant 0 <= i <= len && OnlyMarksDiffer(old(headers), headers)
        invariant SeqRefs(w[..i]) <= Marked(headers)
        invariant Extends(gr, m0, Marked(headers), SeqRefs(w[..i]), {})
      {
        ghost var m1 := Marked(headers);
        SeqRefsSnoc(w, i);
        var idx := (first + i) % |buffer|;
        MarkValue(gr, buffer[idx]);
        ExtendsTrans(gr, m0, m1, Marked(headers), SeqRefs(w[..i]), ValueRefs(w[i]), {});
        i := i + 1;
      }
      assert w[..i] == w;
    }

    /** Mark every task of a receiver queue. */
    method MarkReceivers(ghost gr: Digraph<Addr>, head: Addr)
      requires Ready(headers, bodies, gr) && QueueOk(head, bodies, bodies.Keys)
      modifies this`headers
      ensures Ready(headers, bodies, gr) && OnlyMarksDiffer(old(headers), headers)
      ensures QueueRefs(head) <= Marked(headers)
      ensures Extends(gr, old(Marked(headers)), Marked(headers), QueueRefs(head), {})
      decreases Unmarked(), 3
    {
      ghost var m0, unseen, done := Marked(headers), bodies.Keys, {};
      var t := head;
      while t != NULL
        invariant OnlyMarksDiffer(old(headers), headers)
        invariant unseen <= bodies.Keys && QueueOk(t, bodies, unseen)
        invariant QueueRefs(head) == done + Elems(Waiters(t, bodies, unseen)) && done <= Marked(headers)
        invariant Extends(gr, m0, Marked(headers), done, {})
        decreases unseen
      {
        ghost var m1 := Marked(headers);
        QueueStep(t, bodies, unseen);
        MarkHeader(gr, t);
        ExtendsTrans(gr, m0, m1, Marked(headers), done, Ref(t), {});
        UnionAssoc(done, Ref(t), Elems(Waiters(bodies[t].nextChannelWaiter, bodies, unseen - {t})));
        unseen, done := unseen - {t}, done + Ref(t);
        t := bodies[t].nextChannelWaiter;
      }
      assert QueueRefs(head) == done;
    }

    /** Mark a waiting sender and the value it holds. */
    method MarkSender(ghost gr: Digraph<Addr>, t: Addr)
      requires Ready(headers, bodies, gr) && t in bodies && bodies[t].TaskBody? &&
               ValueRefs(bodies[t].waitingValue) <= headers.Keys
      modifies this`headers
      ensures Ready(headers, bodies, gr) && OnlyMarksDiffer(old(headers), headers)
      ensures Ref(t) + ValueRefs(bodies[t].waitingValue) <= Marked(headers)
      ensures Extends(gr, old(Marked(headers)), Marked(headers), Ref(t) + ValueRefs(bodies[t].waitingValue), {})
      decreases Unmarked(), 2
    {
      ghost var m0 := Marked(headers);
      MarkHeader(gr, t);
      ghost var m1 := Marked(headers);
      MarkValue(gr, bodies[t].waitingValue);
      ExtendsTrans(gr, m0, m1, Marked(headers), Ref(t), ValueRefs(bodies[t].waitingValue), {});
    }

    /** Mark every task of a sender queue and the value it waits to send. */
    method MarkSenders(ghost gr: Digraph<Addr>, head: Addr)
      requires Ready(headers, bodies, gr) && QueueOk(head, bodies, bodies.Keys) && SenderRefs(head) <= headers.Keys
      modifies this`headers
      ensures Ready(headers, bodies, gr) && OnlyMarksDiffer(old(headers), headers)
      ensures SenderRefs(head) <= Marked(headers)
      ensures Extends(gr, old(Marked(headers)), Marked(headers), SenderRefs(head), {})
      decreases Unmarked(), 3
    {
      ghost var m0, unseen, done := Marked(headers), bodies.Keys, {};
      var t := head;
      while t != NULL
        invariant OnlyMarksDiffer(old(headers), headers)
        invariant unseen <= bodies.Keys && QueueOk(t, bodies, unseen)
        invariant Marking(gr, m0, Marked(headers), SenderRefs(head), done, QueueAndValues(t, bodies, unseen))
        decreases unseen
      {
        ghost var m1 := Marked(headers);
        QueueStep(t, bodies, unseen);
        MarkSender(gr, t);
        ghost var own := Ref(t) + ValueRefs(bodies[t].waitingValue);
        ghost var rest := QueueAndValues(bodies[t].nextChannelWaiter, bodies, unseen - {t});
        MarkingStep(gr, m0, m1, Marked(headers), SenderRefs(head), done, own, rest);
        unseen, done := unseen - {t}, done + own;
        t := bodies[t].nextChannelWaiter;
      }
      assert SenderRefs(head) == done;
    }

    method MarkValue(ghost gr: Digraph<Addr>, v: Value)
      requires Ready(headers, bodies, gr) && ValueRefs(v) <= headers.Keys
      modifies this`headers
      ensures Ready(headers, bodies, gr) && OnlyMarksDiffer(old(headers), headers)
      ensures ValueRefs(v) <= Marked(headers)
      ensures Extends(gr, old(Marked(headers)), Marked(headers), ValueRefs(v), {})
      decreases Unmarked(), 1, v
    {
      match v {
        case String(a) => MarkHeader(gr, a);
        case Array(a) => MarkHeader(gr, a);
        case Dict(a) => MarkHeader(gr, a);
        case Object(a) => MarkHeader(gr, a);
        case Function(a) => MarkHeader(gr, a);
        case Bytes(a) => MarkHeader(gr, a);
        case Task(a) => MarkHeader(gr, a);
        case Channel(a) => MarkHeader(gr, a);
        case Resource(a) => MarkHeader(gr, a);
        case Error(a, c) =>
          ghost var m0 := Marked(headers);
          MarkHeader(gr, a);
          ghost var m1 := Marked(headers);
          if c.Some? {
            MarkValue(gr, c.value);
            ExtendsTrans(gr, m0, m1, Marked(headers), Ref(a), ValueRefs(c.value), {});
          } else {
            assert ValueRefs(v) == Ref(a);
          }
        case _ =>
      }
    }

    // ----- roots -----

    method MarkCells(ghost gr: Digraph<Addr>, cells: seq<Addr>, vars: map<Addr, Value>)
      requires Ready(headers, bodies, gr) && CellRefs(cells, vars) <= headers.Keys && Elems(cells) <= vars.Keys
      modifies this`headers
      ensures Ready(headers, bodies, gr) && OnlyMarksDiffer(old(headers), headers)
      ensures CellRefs(cells, vars) <= Marked(headers)
      ensures Extends(gr, old(Marked(headers)), Marked(headers), CellRefs(cells, vars), {})
    {
      ghost var m0 := Marked(headers);
      var i := 0;
      while i < |cells|
        invariant 0 <= i <= |cells| && OnlyMarksDiffer(old(headers), headers)
        invariant CellRefs(cells[..i], vars) <= Marked(headers)
        invariant Extends(gr, m0, Marked(headers), CellRefs(cells[..i], vars), {})
      {
        ghost var m1 := Marked(headers);
        CellRefsSnoc(cells, i, vars);
        MarkValue(gr, vars[cells[i]]);
        ExtendsTrans(gr, m0, m1, Marked(headers), CellRefs(cells[..i], vars), ValueRefs(vars[cells[i]]), {});
        i := i + 1;
      }
      assert cells[..i] == cells;
    }

    method MarkFrame(ghost gr: Digraph<Addr>, f: Frame, vars: map<Addr, Value>)
      requires Ready(headers, bodies, gr) && FrameRefs(f, vars) <= headers.Keys && Elems(f.roots) <= vars.Keys
      modifies this`headers
      ensures Ready(headers, bodies, gr) && OnlyMarksDiffer(old(headers), headers)
      ensures FrameRefs(f, vars) <= Marked(headers)
      ensures Extends(gr, old(Marked(headers)), Marked(headers), FrameRefs(f, vars), {})
    {
      ghost var m0 := Marked(headers);
      MarkCells(gr, f.roots, vars);
      ghost var m1 := Marked(headers);
      MarkAll(gr, f.protectedValues);
      ExtendsTrans(gr, m0, m1, Marked(headers), CellRefs(f.roots, vars), SeqRefs(f.protectedValues), {});
    }

    /** Walk the global list of root frames. */
    method MarkFrames(ghost gr: Digraph<Addr>, t: Tables, ghost order: List<Addr>)
      requires Ready(headers, bodies, gr) && ListInv(t.rootFrames, order, t.frames)
      requires RootsDefined(t) && FrameListRefs(order, t) <= headers.Keys
      modifies this`headers
      ensures Ready(headers, bodies, gr) && OnlyMarksDiffer(old(headers), headers)
      ensures FrameListRefs(order, t) <= Marked(headers)
      ensures Extends(gr, old(Marked(headers)), Marked(headers), FrameListRefs(order, t), {})
    {
      ghost var m0, done, rest, prev := Marked(headers), {}, order, NULL;
      var x := t.rootFrames;
      while x != NULL
        invariant x == First(rest) && ListOk(rest, prev, t.frames) && OnlyMarksDiffer(old(headers), headers)
        invariant FrameListRefs(order, t) == done + FrameListRefs(rest, t) && done <= Marked(headers)
        invariant Extends(gr, m0, Marked(headers), done, {})
        decreases rest
      {
        ghost var m1 := Marked(headers);
        var f := t.frames[x];
        MarkFrame(gr, f, t.variables);
        ExtendsTrans(gr, m0, m1, Marked(headers), done, FrameRefs(f, t.variables), {});
        UnionAssoc(done, FrameRefs(f, t.variables), FrameListRefs(rest.tail, t));
        done := done + FrameRefs(f, t.variables);
        prev, rest := x, rest.tail;
        x := f.globalNext;
      }
      assert FrameListRefs(order, t) == done;
    }

    /** Walk the current task's handlers and the values they carry. */
    method MarkRaises(ghost gr: Digraph<Addr>, t: Tables, ghost hs0: Handlers)
      requires Ready(headers, bodies, gr) && HandlersOk(hs0, t.handlers) && t.raiseFrame == TopHandler(hs0)
      requires RaiseRefs(hs0, t.handlers) <= headers.Keys
      modifies this`headers
      ensures Ready(headers, bodies, gr) && OnlyMarksDiffer(old(headers), headers)
      ensures RaiseRefs(hs0, t.handlers) <= Marked(headers)
      ensures Extends(gr, old(Marked(headers)), Marked(headers), RaiseRefs(hs0, t.handlers), {})
    {
      ghost var m0, done, hs := Marked(headers), {}, hs0;
      var r := t.raiseFrame;
      while r != NULL
        invariant r == TopHandler(hs) && HandlersOk(hs, t.handlers) && OnlyMarksDiffer(old(headers), headers)
        invariant RaiseRefs(hs0, t.handlers) == done + RaiseRefs(hs, t.handlers) && done <= Marked(headers)
        invariant Extends(gr, m0, Marked(headers), done, {})
        decreases hs
      {
        ghost var m1 := Marked(headers);
        MarkValue(gr, t.handlers[r].value);
        ExtendsTrans(gr, m0, m1, Marked(headers), done, ValueRefs(t.handlers[r].value), {});
        done := done + ValueRefs(t.handlers[r].value);
        hs := hs.outer;
        r := t.handlers[r].prev;
      }
      assert RaiseRefs(hs0, t.handlers) == done;
    }

    /** Every task that is not yet joined. */
    method MarkLive(ghost gr: Digraph<Addr>, live: seq<Addr>)
      requires Ready(headers, bodies, gr) && Elems(live) <= headers.Keys && NULL !in live
      modifies this`headers
      ensures Ready(headers, bodies, gr) && OnlyMarksDiffer(old(headers), headers)
      ensures Elems(live) <= Marked(headers)
      ensures Extends(gr, old(Marked(headers)), Marked(headers), Elems(live), {})
    {
      ghost var m0 := Marked(headers);
      var i := 0;
      while i < |live|
        invariant 0 <= i <= |live| && OnlyMarksDiffer(old(headers), headers)
        invariant Elems(live[..i]) <= Marked(headers)
        invariant Extends(gr, m0, Marked(headers), Elems(live[..i]), {})
      {
        ghost var m1 := Marked(headers);
        assert Elems(live[..i+1]) == Elems(live[..i]) + Ref(live[i]) by {
          assert live[..i+1] == live[..i] + [live[i]];
        }
        MarkHeader(gr, live[i]);
        ExtendsTrans(gr, m0, m1, Marked(headers), Elems(live[..i]), Ref(live[i]), {});
        i := i + 1;
      }
      assert live[..i] == live;
    }

    /** The mark phase, from clear marks. */
    method MarkRoots(ghost gr: Digraph<Addr>, globals: seq<Addr>, t: Tables, ghost g: Shape, live: seq<Addr>)
      requires Ready(headers, bodies, gr) && Marked(headers) == {}
      requires RootsOk(globals, t, g, live) && Roots(globals, t, g, live) <= headers.Keys
      modifies this`headers
      ensures Ready(headers, bodies, gr) && OnlyMarksDiffer(old(headers), headers)
      ensures Marked(headers) == Survivors(bodies, Roots(globals, t, g, live))
      ensures forall x :: x in Marked(headers) <==> Held(bodies, globals, t, live, x)
    {
      ghost var r1, r2 := CellRefs(globals, t.variables), FrameListRefs(g.order, t);
      ghost var r3, r4 := RaiseRefs(g.tasks[t.current].handlers, t.handlers), Elems(live);
      MarkCells(gr, globals, t.variables);
      ghost var m1 := Marked(headers);
      MarkFrames(gr, t, g.order);
      ghost var m2 := Marked(headers);
      ExtendsTrans(gr, {}, m1, m2, r1, r2, {});
      MarkRaises(gr, t, g.tasks[t.current].handlers);
      ghost var m3 := Marked(headers);
      ExtendsTrans(gr, {}, m2, m3, r1 + r2, r3, {});
      MarkLive(gr, live);
      ExtendsTrans(gr, {}, m3, Marked(headers), r1 + r2 + r3, r4, {});
      MarkedIsReach(gr, Marked(headers), r1 + r2 + r3 + r4);
      SurvivorsAreHeld(bodies, globals, t, g, live);
    }

    /** tya_gc_collect: an object survives exactly if the program can get at it from a root;
        survivors keep their order and fields, and the rest is freed and accounted for. */
    method Collect(globals: seq<Addr>, t: Tables, ghost g: Shape, live: seq<Addr>)
      requires Valid() && RootsOk(globals, t, g, live) && Roots(globals, t, g, live) <= headers.Keys
      modifies this
      ensures Valid()
      ensures forall x :: x in bodies <==> Held(old(bodies), globals, t, live, x)
      ensures forall a, x :: a in bodies && CanLoad(bodies[a], bodies, x) ==> x in bodies
      ensures headers.Keys == Survivors(old(bodies), Roots(globals, t, g, live))
      ensures order == Keep(old(order), Survivors(old(bodies), Roots(globals, t, g, live)))
      ensures forall a :: a in bodies ==> a in old(bodies) && bodies[a] == old(bodies)[a]
      ensures Collected(old(stats), stats, |order|)
    {
      ghost var hs0 := headers;
      MarkRoots(RefGraph(bodies), globals, t, g, live);
      SweepPhase(hs0, Roots(globals, t, g, live));
      NothingDangles(bodies);
    }

    /** The rest of a collection: sweep, and recompute the counters and the threshold. */
    method SweepPhase(ghost hs0: map<Addr, Header>, ghost roots: set<Addr>)
      requires Consistent(head, order, hs0, bodies, stats) && OnlyMarksDiffer(hs0, headers)
      requires Marked(headers) == Survivors(bodies, roots)
      modifies this
      ensures Valid() && headers.Keys == old(Marked(headers)) && order == Keep(old(order), old(Marked(headers)))
      ensures forall a :: a in bodies ==> a in old(bodies) && bodies[a] == old(bodies)[a]
      ensures Collected(old(stats), stats, |order|)
    {
      ghost var kept := Keep(order, Marked(headers));
      var r, st := SweepAndCount(head, headers, bodies, stats, order, hs0, roots);
      head, headers, bodies, order, stats := r.head, r.headers, r.bodies, kept, st;
    }

    /** tya_gc_maybe_collect. */
    method MaybeCollect(globals: seq<Addr>, t: Tables, ghost g: Shape, live: seq<Addr>)
      requires Valid() && RootsOk(globals, t, g, live) && Roots(globals, t, g, live) <= headers.Keys
      modifies this
      ensures Valid() && Roots(globals, t, g, live) <= headers.Keys
      ensures |old(order)| >= old(stats).threshold ==>
        (forall x :: x in bodies <==> Held(old(bodies), globals, t, live, x)) &&
        headers.Keys == Survivors(old(bodies), Roots(globals, t, g, live)) &&
        order == Keep(old(order), Survivors(old(bodies), Roots(globals, t, g, live))) &&
        Collected(old(stats), stats, |order|)
      ensures forall a :: a in bodies ==> a in old(bodies) && bodies[a] == old(bodies)[a]
      ensures |old(order)| < old(stats).threshold ==>
        head == old(head) && order == old(order) && headers == old(headers) && bodies == old(bodies) &&
        stats == old(stats)
    {
      var liveNow := stats.allocCount - stats.freedCount;
      if liveNow >= stats.threshold {
        ReachContains(RefGraph(bodies), Roots(globals, t, g, live));
        Collect(globals, t, g, live);
      }
    }
  }

  // ----- what is lost -----

  /** The collector does not look at a task's pending value, so the value a sender has handed to
      a waiting receiver does not keep anything alive: changing it changes no survivor. */
  lemma PendingValueKeepsNothing(m: map<Addr, Body>, roots: set<Addr>, t: Addr, v: Value)
    requires HeapOk(m) && t in m && m[t].TaskBody?
    ensures HeapOk(m[t := m[t].(pendingValue := v)])
    ensures Survivors(m[t := m[t].(pendingValue := v)], roots) == Survivors(m, roots)
  {
    var m' := m[t := m[t].(pendingValue := v)];
    forall x | x in m' ensures BodyOk(m'[x], m') && Edges(m'[x], m') == Edges(m[x], m) <= m'.Keys {
      assert BodyOk(m[x], m);
      EdgesAgree(m[x], m, m');
    }
    assert RefGraph(m') == RefGraph(m);
  }

  ghost function PendingRefs(b: Body): set<Addr> {
    if b.TaskBody? then ValueRefs(b.pendingValue) else {}
  }

  /** The references the marker follows, and those of pending values. */
  ghost function FullGraph(m: map<Addr, Body>): Digraph<Addr>
    requires HeapOk(m)
  {
    map a | a in m :: Edges(m[a], m) + PendingRefs(m[a])
  }

  /** No pending value of a surviving task is freed under it. */
  ghost predicate PendingSafe(m: map<Addr, Body>, roots: set<Addr>)
    requires HeapOk(m)
  {
    forall a, x :: a in Survivors(m, roots) && a in m && m[a].TaskBody? && Gives(m[a].pendingValue, x) ==>
                     x in Survivors(m, roots)
  }

  /** Pending values survive exactly when following them as well would keep nothing more:
      when each of them is also reachable in a way the marker knows. */
  lemma PendingExact(m: map<Addr, Body>, roots: set<Addr>)
    requires HeapOk(m)
    ensures PendingSafe(m, roots) <==> Reach(FullGraph(m), roots) == Survivors(m, roots)
  {
    var g, full, s := RefGraph(m), FullGraph(m), Survivors(m, roots);
    forall a, x | a in m && m[a].TaskBody? ensures x in PendingRefs(m[a]) <==> Gives(m[a].pendingValue, x) {
      RefsAreGiven(m[a].pendingValue, x);
    }
    ReachContains(g, roots);
    ReachContains(full, roots);
    forall x ensures Succ(full, x) == Succ(g, x) + (if x in m then PendingRefs(m[x]) else {}) {
    }
    if PendingSafe(m, roots) {
      ReachLeast(full, roots, s);
      ReachLeast(g, roots, Reach(full, roots));
    }
  }

  /** For instance, a string handed to a receiver that has not run since is freed. */
  lemma PendingValueIsFreed()
    ensures var m := map[At(1) := TaskBody(Nil, 0, [], Nil, Nil, String(At(2)), Nil, NULL), At(2) := StringBody];
            HeapOk(m) && Survivors(m, {At(1)}) == {At(1)}
  {
    var m := map[At(1) := TaskBody(Nil, 0, [], Nil, Nil, String(At(2)), Nil, NULL), At(2) := StringBody];
    assert Edges(m[At(1)], m) == {} && Edges(m[At(2)], m) == {};
    ReachLeast(RefGraph(m), {At(1)}, {At(1)});
  }
}
