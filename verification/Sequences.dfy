/**
 Lazy sequences: a chain of iterators, each pulling from the one below it, against
 the lists the eager functions give.
 */
module Sequences {
  import opened Basics

  // ----- the lists -----

  ghost function Map<V>(f: V -> V, l: List<V>): List<V> {
    if l.End? then End else Cons(f(l.head), Map(f, l.tail))
  }

  ghost function Filter<V>(p: V -> bool, l: List<V>): List<V> {
    if l.End? then End else if p(l.head) then Cons(l.head, Filter(p, l.tail)) else Filter(p, l.tail)
  }

  ghost function Take<V>(n: int, l: List<V>): List<V> {
    if n <= 0 || l.End? then End else Cons(l.head, Take(n - 1, l.tail))
  }

  ghost function Drop<V>(n: int, l: List<V>): List<V>
    decreases l
  {
    if n <= 0 || l.End? then l else Drop(n - 1, l.tail)
  }

  ghost function From<V>(items: seq<V>, i: nat): List<V>
    decreases |items| - i
  {
    if i >= |items| then End else Cons(items[i], From(items, i + 1))
  }

  // ----- the lists, item by item -----

  lemma {:induction false} FromIs<V>(items: seq<V>, i: nat)
    requires i <= |items|
    ensures ToSeq(From(items, i)) == items[i..]
    decreases |items| - i
  {
    if i < |items| {
      FromIs(items, i + 1);
    }
  }

  lemma {:induction false} MapIs<V>(f: V -> V, l: List<V>)
    ensures var s, t := ToSeq(l), ToSeq(Map(f, l));
            |t| == |s| && forall i :: 0 <= i < |s| ==> t[i] == f(s[i])
  {
    if l.Cons? {
      MapIs(f, l.tail);
    }
  }

  ghost predicate Increasing(at: seq<nat>, end: nat) {
    (forall k :: 0 <= k < |at| ==> at[k] < end) && forall j, k :: 0 <= j < k < |at| ==> at[j] < at[k]
  }

  /** The items of `s` at the given positions. */
  ghost function At<V>(s: seq<V>, at: seq<nat>): seq<V>
    requires forall k :: 0 <= k < |at| ==> at[k] < |s|
  {
    seq(|at|, k requires 0 <= k < |at| => s[at[k]])
  }

  ghost function Up(at: seq<nat>): seq<nat> {
    seq(|at|, k requires 0 <= k < |at| => at[k] + 1)
  }

  lemma UpIn(at: seq<nat>, i: nat)
    ensures i + 1 in Up(at) <==> i in at
    ensures 0 !in Up(at)
  {
    if i in at {
      var k :| 0 <= k < |at| && at[k] == i;
      assert Up(at)[k] == i + 1;
    }
  }

  /** `at` are the positions, in order, of the items that satisfy the predicate. */
  ghost predicate Picked<V>(p: V -> bool, s: seq<V>, at: seq<nat>) {
    Increasing(at, |s|) && forall i :: 0 <= i < |s| ==> (p(s[i]) <==> i in at)
  }

  lemma PickedBehind<V>(p: V -> bool, x: V, s: seq<V>, at: seq<nat>)
    requires Picked(p, s, at)
    ensures Increasing(Up(at), |s| + 1) && At([x] + s, Up(at)) == At(s, at)
    ensures forall i :: 0 < i <= |s| ==> (p(([x] + s)[i]) <==> i in Up(at))
  {
    forall i | 0 < i <= |s| ensures p(([x] + s)[i]) <==> i in Up(at) {
      UpIn(at, i - 1);
      assert ([x] + s)[i] == s[i - 1];
    }
  }

  lemma IncreasingFirst(at: seq<nat>, end: nat)
    requires Increasing(at, end) && 0 !in at && end > 0
    ensures Increasing([0] + at, end) && forall i :: i in [0] + at <==> i == 0 || i in at
  {
  }

  lemma AtFirst<V>(s: seq<V>, at: seq<nat>)
    requires s != [] && Increasing(at, |s|)
    ensures Increasing([0] + at, |s|) ==> At(s, [0] + at) == [s[0]] + At(s, at)
  {
  }

  lemma PickedMore<V>(p: V -> bool, x: V, s: seq<V>, at: seq<nat>, at': seq<nat>)
    requires Picked(p, s, at) && at' == if p(x) then [0] + Up(at) else Up(at)
    ensures Picked(p, [x] + s, at')
    ensures At([x] + s, at') == (if p(x) then [x] else []) + At(s, at)
  {
    PickedBehind(p, x, s, at);
    UpIn(at, 0);
    if p(x) {
      IncreasingFirst(Up(at), |s| + 1);
      AtFirst([x] + s, Up(at));
    }
  }

  /** What is filtered are the items that satisfy the predicate, in their order. */
  lemma {:induction false} FilterIs<V>(p: V -> bool, l: List<V>) returns (at: seq<nat>)
    ensures Picked(p, ToSeq(l), at) && ToSeq(Filter(p, l)) == At(ToSeq(l), at)
  {
    at := [];
    if l.Cons? {
      var rest := FilterIs(p, l.tail);
      at := if p(l.head) then [0] + Up(rest) else Up(rest);
      PickedMore(p, l.head, ToSeq(l.tail), rest, at);
    }
  }

  ghost function Fold<V, A>(g: (A, V) -> A, acc: A, l: List<V>): A
    decreases l
  {
    if l.End? then acc else Fold(g, g(acc, l.head), l.tail)
  }

  /** A fold goes through the items one by one. */
  lemma {:induction false} FoldIs<V, A>(g: (A, V) -> A, acc: A, l: List<V>) returns (accs: seq<A>)
    ensures var s := ToSeq(l);
            |accs| == |s| + 1 && accs[0] == acc && accs[|s|] == Fold(g, acc, l) &&
            forall i :: 0 <= i < |s| ==> accs[i+1] == g(accs[i], s[i])
    decreases l
  {
    accs := [acc];
    if l.Cons? {
      var rest := FoldIs(g, g(acc, l.head), l.tail);
      accs := accs + rest;
    }
  }

  // ----- iterators -----

  datatype Kind<!V> =
    | ArrayKind(items: seq<V>)
    | MapKind(f: V -> V)
    | FilterKind(p: V -> bool)
    | TakeKind(n: int)
    | DropKind

  /** The members an iterator object updates. */
  datatype State<V> = State(index: nat, count: nat, pendingReady: bool, pending: V)

  class Iter<V> {
    const kind: Kind<V>
    const source: Iter?<V>
    const nil: V
    var state: State<V>
    ghost const Repr: set<object>

    ghost predicate Valid()
      reads this, Repr
      decreases Repr
    {
      this in Repr &&
      (!kind.ArrayKind? ==>
        source != null && source in Repr && source.Repr < Repr && this !in source.Repr && source.Valid()) &&
      (kind.TakeKind? ==> TakenOk())
    }

    /** A take has pulled as many items as it counts, and never more than its limit. */
    ghost predicate TakenOk()
      reads this, source
    {
      kind.TakeKind? && source != null && source.state.index == state.count &&
      (state.count == 0 || state.count <= kind.n)
    }

    /** What the iterator is still going to deliver. */
    ghost function Remaining(): List<V>
      requires Valid()
      reads this, Repr
      decreases Repr
    {
      match kind
      case ArrayKind(items) => From(items, state.index)
      case MapKind(f) => Map(f, source.Remaining())
      case FilterKind(p) =>
        if state.pendingReady then Cons(state.pending, Filter(p, source.Remaining()))
        else Filter(p, source.Remaining())
      case TakeKind(n) => Take(n - state.count, source.Remaining())
      case DropKind => source.Remaining()
    }

    constructor (kind: Kind<V>, source: Iter?<V>, nil: V)
      requires !kind.ArrayKind? ==> source != null && source.Valid() && (kind.TakeKind? ==> source.state.index == 0)
      ensures Valid() && this.kind == kind && this.source == source && state == State(0, 0, false, nil)
      ensures Repr == if kind.ArrayKind? then {this} else {this} + source.Repr
    {
      this.kind, this.source, this.nil := kind, source, nil;
      state := State(0, 0, false, nil);
      Repr := if kind.ArrayKind? then {this} else {this} + source.Repr;
    }

    /** tya_iterator_has_next: may look ahead, but delivers nothing. */
    method HasNext() returns (more: bool)
      requires Valid()
      modifies Repr
      ensures Valid() && Remaining() == old(Remaining()) && state.index == old(state.index)
      ensures more <==> Remaining().Cons?
      ensures kind.FilterKind? && more ==> state.pendingReady
      ensures state.count == old(state.count)
      decreases Repr, 0
    {
      match kind
      case ArrayKind(items) => more := state.index < |items|;
      case MapKind(_) => more := source.HasNext();
      case DropKind => more := source.HasNext();
      case TakeKind(n) =>
        more := state.count < n;
        if more {
          more := source.HasNext();
        }
      case FilterKind(p) =>
        if state.pendingReady {
          return true;
        }
        more := source.HasNext();
        while more
          invariant Valid() && source.Valid() && !state.pendingReady && state == old(state)
          invariant Filter(p, source.Remaining()) == old(Remaining())
          invariant more <==> source.Remaining().Cons?
          decreases Length(source.Remaining())
        {
          var item := source.Next();
          if p(item.value) {
            state := state.(pending := item.value, pendingReady := true);
            return true;
          }
          more := source.HasNext();
        }
    }

    /** tya_iterator_next; None is the error of an exhausted iterator. */
    method Next() returns (r: Option<V>)
      requires Valid()
      modifies Repr
      ensures Valid() && (kind.TakeKind? ==> state.count == old(state.count) + if r.Some? then 1 else 0)
      ensures old(Remaining()).End? ==> r == None && Remaining() == End && state.index == old(state.index)
      ensures old(Remaining()).Cons? ==>
                r == Some(old(Remaining()).head) && Remaining() == old(Remaining()).tail &&
                state.index == old(state.index) + 1
      decreases Repr, 1
    {
      var more := HasNext();
      if !more {
        return None;
      }
      match kind
      case ArrayKind(items) =>
        r := Some(items[state.index]);
        state := state.(index := state.index + 1);
      case MapKind(f) =>
        state := state.(index := state.index + 1);
        var item := source.Next();
        r := Some(f(item.value));
      case FilterKind(_) =>
        r := Some(state.pending);
        state := state.(index := state.index + 1, pending := nil, pendingReady := false);
      case TakeKind(_) =>
        state := state.(index := state.index + 1, count := state.count + 1);
        r := source.Next();
      case DropKind =>
        state := state.(index := state.index + 1);
        r := source.Next();
    }
  }

  // ----- sequences -----

  /** A sequence object: a source and one operation on it. */
  datatype Sequence<!V> =
    | Iterable(items: seq<V>)
    | Mapped(source: Sequence<V>, f: V -> V)
    | Filtered(source: Sequence<V>, p: V -> bool)
    | Taken(source: Sequence<V>, n: int)
    | Dropped(source: Sequence<V>, n: int)

  /** What the sequence means. */
  ghost function Eager<V>(s: Sequence<V>): List<V> {
    match s
    case Iterable(items) => From(items, 0)
    case Mapped(source, f) => Map(f, Eager(source))
    case Filtered(source, p) => Filter(p, Eager(source))
    case Taken(source, n) => Take(n, Eager(source))
    case Dropped(source, n) => Drop(n, Eager(source))
  }

  /** tya_method_sequence_iter; a drop pulls what it drops at once. */
  method Iterate<V>(s: Sequence<V>, nil: V) returns (it: Iter<V>)
    ensures it.Valid() && fresh(it.Repr) && it.Remaining() == Eager(s) && it.state.index == 0
    ensures s.Taken? ==> it.kind == TakeKind(s.n) && it.state.count == 0
    decreases s
  {
    if s.Iterable? {
      return new Iter(ArrayKind(s.items), null, nil);
    }
    var source := Iterate(s.source, nil);
    match s
    case Mapped(_, f) => it := new Iter(MapKind(f), source, nil);
    case Filtered(_, p) => it := new Iter(FilterKind(p), source, nil);
    case Taken(_, n) => it := new Iter(TakeKind(n), source, nil);
    case Dropped(_, n) =>
      it := new Iter(DropKind, source, nil);
      var i := 0;
      var more := i < n;
      if more {
        more := source.HasNext();
      }
      while more
        invariant it.Valid() && fresh(it.Repr) && it.source == source && it.kind == DropKind && it.state.index == 0
        invariant source.Repr < it.Repr && it !in source.Repr
        invariant Drop(n - i, source.Remaining()) == Eager(s)
        invariant more <==> i < n && source.Remaining().Cons?
        decreases n - i
      {
        var _ := source.Next();
        i := i + 1;
        more := i < n;
        if more {
          more := source.HasNext();
        }
      }
  }

  /** The to_a method: the list of the lazy sequence is the eager one. */
  method ToArray<V>(s: Sequence<V>, nil: V) returns (out: List<V>)
    ensures out == Eager(s)
  {
    out := End;
    var it := Iterate(s, nil);
    var more := it.HasNext();
    while more
      invariant it.Valid() && fresh(it.Repr) && (more <==> it.Remaining().Cons?)
      invariant Append(out, it.Remaining()) == Eager(s)
      decreases Length(it.Remaining())
    {
      AppendSnoc(out, it.Remaining().head, it.Remaining().tail);
      var item := it.Next();
      out := Snoc(out, item.value);
      more := it.HasNext();
    }
    AppendEnd(out);
  }

  /** The reduce method. */
  method Reduce<V, A>(s: Sequence<V>, initial: A, g: (A, V) -> A, nil: V) returns (acc: A)
    ensures acc == Fold(g, initial, Eager(s))
  {
    acc := initial;
    var it := Iterate(s, nil);
    var more := it.HasNext();
    while more
      invariant it.Valid() && fresh(it.Repr) && (more <==> it.Remaining().Cons?)
      invariant Fold(g, acc, it.Remaining()) == Fold(g, initial, Eager(s))
      decreases Length(it.Remaining())
    {
      var item := it.Next();
      acc := g(acc, item.value);
      more := it.HasNext();
    }
  }

  /** The find method, and with it any? and all?: the first item that satisfies `p`. */
  method Find<V>(s: Sequence<V>, p: V -> bool, nil: V) returns (r: Option<V>)
    ensures r == if Filter(p, Eager(s)).Cons? then Some(Filter(p, Eager(s)).head) else None
  {
    var it := Iterate(s, nil);
    var more := it.HasNext();
    while more
      invariant it.Valid() && fresh(it.Repr) && (more <==> it.Remaining().Cons?)
      invariant Filter(p, it.Remaining()) == Filter(p, Eager(s))
      decreases Length(it.Remaining())
    {
      var item := it.Next();
      if p(item.value) {
        return item;
      }
      more := it.HasNext();
    }
    return None;
  }

  // ----- the eager functions on arrays -----

  /** tya_map */
  method MapArray<V>(items: seq<V>, f: V -> V) returns (out: List<V>)
    ensures out == Eager(Mapped(Iterable(items), f))
  {
    out := End;
    for i := 0 to |items|
      invariant Append(out, Map(f, From(items, i))) == Map(f, From(items, 0))
    {
      AppendSnoc(out, f(items[i]), Map(f, From(items, i + 1)));
      out := Snoc(out, f(items[i]));
    }
    AppendEnd(out);
  }

  /** tya_filter */
  method FilterArray<V>(items: seq<V>, p: V -> bool) returns (out: List<V>)
    ensures out == Eager(Filtered(Iterable(items), p))
  {
    out := End;
    for i := 0 to |items|
      invariant Append(out, Filter(p, From(items, i))) == Filter(p, From(items, 0))
    {
      if p(items[i]) {
        AppendSnoc(out, items[i], Filter(p, From(items, i + 1)));
        out := Snoc(out, items[i]);
      }
    }
    AppendEnd(out);
  }

  /** tya_reduce */
  method ReduceArray<V, A>(items: seq<V>, initial: A, g: (A, V) -> A) returns (acc: A)
    ensures acc == Fold(g, initial, Eager(Iterable(items)))
  {
    acc := initial;
    for i := 0 to |items|
      invariant Fold(g, acc, From(items, i)) == Fold(g, initial, From(items, 0))
    {
      acc := g(acc, items[i]);
    }
  }

  // ----- how much a take pulls -----

  /** Taking splits a list into what is delivered and what a drop would leave. */
  lemma {:induction false} TakeAndDrop<V>(n: int, l: List<V>)
    ensures Append(Take(n, l), Drop(n, l)) == l
    ensures Length(Take(n, l)) == if n <= 0 then 0 else if Length(l) < n then Length(l) else n
  {
    if n > 0 && l.Cons? {
      TakeAndDrop(n - 1, l.tail);
    }
  }

  /** Running a take to its end pulls no item from its source beyond those it delivers. */
  method DrainTake<V>(source: Sequence<V>, n: int, nil: V) returns (out: List<V>, pulled: nat)
    ensures out == Take(n, Eager(source))
    ensures pulled == Length(out) <= if n <= 0 then 0 else n
  {
    out := End;
    var it := Iterate(Taken(source, n), nil);
    var below := it.source;
    var more := it.HasNext();
    while more
      invariant it.Valid() && fresh(it.Repr) && (more <==> it.Remaining().Cons?)
      invariant it.kind == TakeKind(n) && it.source == below && it.state.count == Length(out)
      invariant Append(out, it.Remaining()) == Take(n, Eager(source))
      decreases Length(it.Remaining())
    {
      AppendSnoc(out, it.Remaining().head, it.Remaining().tail);
      var item := it.Next();
      LengthSnoc(out, item.value);
      out := Snoc(out, item.value);
      more := it.HasNext();
    }
    AppendEnd(out);
    TakeAndDrop(n, Eager(source));
    pulled := below.state.index;
  }

  lemma {:induction false} LengthSnoc<V>(l: List<V>, x: V)
    ensures Length(Snoc(l, x)) == Length(l) + 1
  {
    if l.Cons? {
      LengthSnoc(l.tail, x);
    }
  }
}
