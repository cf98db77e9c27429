/**
 The order in which a class's interfaces are laid out, computed once by the
 checker (with repeats) and once by the emitter (without), and the super links
 that the emitter derives from it.
 */
module InterfaceOrder {
  import opened Basics
  import opened Graph
  import SuperCalls

  /** A method with a body is a default. */
  datatype Method = Method(arity: nat, body: Option<SuperCalls.Func>)

  datatype Interface = Interface(parents: List<Name>, methods: map<Name, Method>)

  type Interfaces = map<Name, Interface>

  const INITIALIZE := Name("initialize")

  /** The default methods of an interface. */
  function Defaults(g: Interfaces, k: Name): set<Name> {
    if k in g then set n | n in g[k].methods && g[k].methods[n].body.Some? && n != INITIALIZE else {}
  }

  /** Calls of super: all of them, those that the checker's scan flags, and those it misses. */
  datatype Which = All | Flagged | Hidden

  predicate Counts(f: SuperCalls.Func, w: Which) {
    match w
    case All => SuperCalls.Calls(f)
    case Flagged => SuperCalls.Scan(f)
    case Hidden => SuperCalls.Calls(f) && !SuperCalls.Scan(f)
  }

  /** The defaults that call super; with Flagged, defaultsCallSuper. */
  function Supers(g: Interfaces, k: Name, w: Which): set<Name> {
    set n | n in Defaults(g, k) && Counts(g[k].methods[n].body.value, w)
  }

  lemma SupersSplit(g: Interfaces, k: Name)
    ensures Supers(g, k, All) == Supers(g, k, Flagged) + Supers(g, k, Hidden)
  {
    forall n | n in Supers(g, k, Flagged) ensures n in Supers(g, k, All) {
      SuperCalls.ScanIsCall(g[k].methods[n].body.value);
    }
  }

  ghost function Up(g: Interfaces): Digraph<Name> {
    map k | k in g :: Members(g[k].parents)
  }

  /** The known interfaces at or above those in `s`. */
  ghost function Above(g: Interfaces, s: set<Name>): set<Name> {
    Reach(Up(g), s) * g.Keys
  }

  // ----- the checker's order -----

  /** effectiveInterfaceOrder: parents first, with repeats, cut off at unknown names and cycles. */
  function Order(key: Name, g: Interfaces, stack: List<Name>): List<Name>
    decreases g.Keys - Members(stack), 0, List<Name>.End
  {
    if key !in g || Has(stack, key) then End else
      assert key in g.Keys - Members(stack);
      Append(OrderAll(g[key].parents, g, Cons(key, stack)), Cons(key, End))
  }

  function OrderAll(ps: List<Name>, g: Interfaces, stack: List<Name>): List<Name>
    decreases g.Keys - Members(stack), 1, ps
  {
    if ps.End? then End else Append(Order(ps.head, g, stack), OrderAll(ps.tail, g, stack))
  }

  /** What is named first comes first. */
  lemma {:induction false} OrderAppend(a: List<Name>, b: List<Name>, g: Interfaces, stack: List<Name>)
    ensures OrderAll(Append(a, b), g, stack) == Append(OrderAll(a, g, stack), OrderAll(b, g, stack))
    decreases a
  {
    if a.Cons? {
      OrderAppend(a.tail, b, g, stack);
      AppendAssoc(Order(a.head, g, stack), OrderAll(a.tail, g, stack), OrderAll(b, g, stack));
    }
  }

  /** One interface comes behind its parents; one that is not known or met before is passed over. */
  lemma OrderOne(k: Name, g: Interfaces, stack: List<Name>)
    ensures OrderAll(Cons(k, End), g, stack) ==
            if k in g && k !in Members(stack) then Snoc(OrderAll(g[k].parents, g, Cons(k, stack)), k) else End
  {
    AppendEnd(Order(k, g, stack));
    assert OrderAll(End, g, stack) == End;
    if k in g && k !in Members(stack) {
      SnocIsAppend(OrderAll(g[k].parents, g, Cons(k, stack)), k);
    }
  }

  /** `l` without the members of `seen` and without repeats, first occurrences kept. */
  ghost function Fresh(seen: set<Name>, l: List<Name>): List<Name>
    decreases l
  {
    if l.End? then End
    else if l.head in seen then Fresh(seen, l.tail)
    else Cons(l.head, Fresh(seen + {l.head}, l.tail))
  }

  lemma {:induction false} MembersAppend(a: List<Name>, b: List<Name>)
    ensures Members(Append(a, b)) == Members(a) + Members(b)
  {
    if a.Cons? {
      MembersAppend(a.tail, b);
    }
  }

  lemma {:induction false} AppendAssoc(a: List<Name>, b: List<Name>, c: List<Name>)
    ensures Append(Append(a, b), c) == Append(a, Append(b, c))
  {
    if a.Cons? {
      AppendAssoc(a.tail, b, c);
    }
  }

  lemma {:induction false} FreshAppend(seen: set<Name>, a: List<Name>, b: List<Name>)
    ensures Fresh(seen, Append(a, b)) == Append(Fresh(seen, a), Fresh(seen + Members(a), b))
    decreases a
  {
    if a.Cons? {
      FreshAppend(seen + {a.head}, a.tail, b);
      assert seen + {a.head} + Members(a.tail) == seen + Members(a);
      if a.head in seen {
        assert seen + {a.head} == seen;
      }
    } else {
      assert seen + Members(a) == seen;
    }
  }

  lemma {:induction false} FreshMembers(seen: set<Name>, l: List<Name>)
    ensures Members(Fresh(seen, l)) == Members(l) - seen
    ensures Members(l) <= seen ==> Fresh(seen, l) == End
    decreases l
  {
    if l.Cons? {
      FreshMembers(seen, l.tail);
      FreshMembers(seen + {l.head}, l.tail);
    }
  }

  ghost predicate NoRepeats(l: List<Name>) {
    l.Cons? ==> l.head !in Members(l.tail) && NoRepeats(l.tail)
  }

  lemma {:induction false} FreshNoRepeats(seen: set<Name>, l: List<Name>)
    ensures NoRepeats(Fresh(seen, l))
    decreases l
  {
    if l.Cons? {
      FreshNoRepeats(seen, l.tail);
      FreshNoRepeats(seen + {l.head}, l.tail);
      FreshMembers(seen + {l.head}, l.tail);
    }
  }

  /** Above an acyclic name: its parents reach less, and never the name itself. */
  lemma AboveParents(g: Interfaces, key: Name)
    requires key in g && AcyclicFrom(Up(g), {key})
    ensures var ps := Members(g[key].parents);
            Reach(Up(g), ps) < Reach(Up(g), {key}) && key !in Reach(Up(g), ps) && AcyclicFrom(Up(g), ps)
    ensures Above(g, {key}) == Above(g, Members(g[key].parents)) + {key}
  {
    var ps := Members(g[key].parents);
    ReachContains(Up(g), {key});
    assert Succ(Up(g), key) == ps;
    assert !OnCycle(Up(g), key);
    ReachStep(Up(g), key);
    ReachContains(Up(g), ps);
    AcyclicBelow(Up(g), {key}, ps);
  }

  lemma AboveHead(g: Interfaces, ps: List<Name>)
    requires ps.Cons? && AcyclicFrom(Up(g), Members(ps))
    ensures Reach(Up(g), {ps.head}) + Reach(Up(g), Members(ps.tail)) == Reach(Up(g), Members(ps))
    ensures Above(g, {ps.head}) + Above(g, Members(ps.tail)) == Above(g, Members(ps))
    ensures AcyclicFrom(Up(g), {ps.head}) && AcyclicFrom(Up(g), Members(ps.tail))
  {
    ReachUnion(Up(g), {ps.head}, Members(ps.tail));
  }

  /** Without cycles the stack never matters, and the order lists exactly the interfaces above. */
  lemma {:induction false} OrderStable(key: Name, g: Interfaces, stack: List<Name>)
    requires AcyclicFrom(Up(g), {key}) && Reach(Up(g), {key}) !! Members(stack)
    ensures Order(key, g, stack) == Order(key, g, End)
    ensures Members(Order(key, g, stack)) == Above(g, {key})
    decreases Reach(Up(g), {key}), 0, List<Name>.End
  {
    if key in g {
      AboveParents(g, key);
      ReachContains(Up(g), {key});
      var ps := g[key].parents;
      OrderAllStable(ps, g, Cons(key, stack));
      OrderAllStable(ps, g, Cons(key, End));
      MembersAppend(OrderAll(ps, g, End), Cons(key, End));
    } else {
      assert Succ(Up(g), key) == {};
      ReachLeast(Up(g), {key}, {key});
    }
  }

  lemma {:induction false} OrderAllStable(ps: List<Name>, g: Interfaces, stack: List<Name>)
    requires AcyclicFrom(Up(g), Members(ps)) && Reach(Up(g), Members(ps)) !! Members(stack)
    ensures OrderAll(ps, g, stack) == OrderAll(ps, g, End)
    ensures Members(OrderAll(ps, g, stack)) == Above(g, Members(ps))
    decreases Reach(Up(g), Members(ps)), 1, ps
  {
    if ps.Cons? {
      AboveHead(g, ps);
      OrderStable(ps.head, g, stack);
      OrderAllStable(ps.tail, g, stack);
      MembersAppend(Order(ps.head, g, stack), OrderAll(ps.tail, g, stack));
    } else {
      ReachLeast(Up(g), {}, {});
    }
  }

  // ----- parents before children -----

  /** Every interface in `l` comes behind its known parents, which are in `seen` or earlier in `l`. */
  ghost predicate ParentsFirst(g: Interfaces, seen: set<Name>, l: List<Name>)
    decreases l
  {
    l.Cons? ==>
      l.head in g && Members(g[l.head].parents) * g.Keys <= seen && ParentsFirst(g, seen + {l.head}, l.tail)
  }

  lemma {:induction false} ParentsFirstAppend(g: Interfaces, seen: set<Name>, a: List<Name>, b: List<Name>)
    requires ParentsFirst(g, seen, a) && ParentsFirst(g, seen + Members(a), b)
    ensures ParentsFirst(g, seen, Append(a, b))
    decreases a
  {
    if a.Cons? {
      assert seen + {a.head} + Members(a.tail) == seen + Members(a);
      ParentsFirstAppend(g, seen + {a.head}, a.tail, b);
    } else {
      assert seen + Members(a) == seen;
    }
  }

  lemma {:induction false} OrderParentsFirst(key: Name, g: Interfaces, stack: List<Name>, seen: set<Name>)
    requires AcyclicFrom(Up(g), {key}) && Reach(Up(g), {key}) !! Members(stack)
    ensures ParentsFirst(g, seen, Order(key, g, stack))
    decreases Reach(Up(g), {key}), 0, List<Name>.End
  {
    if key in g {
      AboveParents(g, key);
      ReachContains(Up(g), {key});
      var ps := g[key].parents;
      OrderAllParentsFirst(ps, g, Cons(key, stack), seen);
      OrderAllStable(ps, g, Cons(key, stack));
      ReachContains(Up(g), Members(ps));
      ParentsFirstAppend(g, seen, OrderAll(ps, g, Cons(key, stack)), Cons(key, End));
    }
  }

  lemma {:induction false} OrderAllParentsFirst(ps: List<Name>, g: Interfaces, stack: List<Name>, seen: set<Name>)
    requires AcyclicFrom(Up(g), Members(ps)) && Reach(Up(g), Members(ps)) !! Members(stack)
    ensures ParentsFirst(g, seen, OrderAll(ps, g, stack))
    decreases Reach(Up(g), Members(ps)), 1, ps
  {
    if ps.Cons? {
      AboveHead(g, ps);
      OrderParentsFirst(ps.head, g, stack, seen);
      var l := Order(ps.head, g, stack);
      OrderAllParentsFirst(ps.tail, g, stack, seen + Members(l));
      ParentsFirstAppend(g, seen, l, OrderAll(ps.tail, g, stack));
    }
  }

  lemma {:induction false} FreshParentsFirst(g: Interfaces, seen: set<Name>, l: List<Name>)
    requires ParentsFirst(g, seen, l)
    ensures ParentsFirst(g, seen, Fresh(seen, l))
    decreases l
  {
    if l.Cons? {
      if l.head in seen {
        assert seen + {l.head} == seen;
      }
      FreshParentsFirst(g, seen + {l.head}, l.tail);
    }
  }

  // ----- the emitter's order -----

  /** The interfaces seen so far include everything above them. */
  ghost predicate Settled(g: Interfaces, seen: set<Name>) {
    forall k :: k in seen ==> Above(g, {k}) <= seen
  }

  lemma SettledGrows(g: Interfaces, seen: set<Name>, s: set<Name>)
    requires Settled(g, seen)
    ensures Settled(g, seen + Above(g, s))
  {
    forall k | k in Above(g, s) ensures Above(g, {k}) <= Above(g, s) {
      ReachMonotone(Up(g), {k}, s);
    }
  }

  /** The closure `visit` of effectiveInterfaces: depth first, without a guard against cycles. */
  method Visit(g: Interfaces, key: Name, seen: set<Name>, out: List<Name>) returns (seen': set<Name>, out': List<Name>)
    requires AcyclicFrom(Up(g), {key}) && seen == Members(out) && Settled(g, seen)
    ensures out' == Append(out, Fresh(seen, Order(key, g, End)))
    ensures seen' == seen + Above(g, {key}) && seen' == Members(out') && Settled(g, seen')
    decreases Reach(Up(g), {key}), 0, List<Name>.End
  {
    VisitFacts(g, key, seen, out);
    if key in seen || key !in g {
      return seen, out;
    }
    seen', out' := VisitAll(g, g[key].parents, seen, out);
    VisitEnds(g, key, seen, out);
    seen' := seen' + {key};
    MembersSnoc(out', key);
    out' := Snoc(out', key);
  }

  /** The loop over an interface's parents, and over the interfaces a class names. */
  method VisitAll(g: Interfaces, keys: List<Name>, seen: set<Name>, out: List<Name>)
    returns (seen': set<Name>, out': List<Name>)
    requires AcyclicFrom(Up(g), Members(keys)) && seen == Members(out) && Settled(g, seen)
    ensures out' == Append(out, Fresh(seen, OrderAll(keys, g, End)))
    ensures seen' == seen + Above(g, Members(keys)) && seen' == Members(out') && Settled(g, seen')
    decreases Reach(Up(g), Members(keys)), 1, keys
  {
    seen', out' := seen, out;
    var rest := keys;
    while rest.Cons?
      invariant seen' == Members(out') && Settled(g, seen')
      invariant Pending(g, rest, seen', out', keys, seen, out)
      invariant rest == keys || rest < keys
      decreases rest
    {
      PendingStep(g, rest, seen', out', keys, seen, out);
      seen', out' := Visit(g, rest.head, seen', out');
      rest := rest.tail;
    }
    AppendEnd(out');
    ReachLeast(Up(g), {}, {});
  }

  lemma VisitFacts(g: Interfaces, key: Name, seen: set<Name>, out: List<Name>)
    requires AcyclicFrom(Up(g), {key}) && seen == Members(out) && Settled(g, seen)
    ensures Settled(g, seen + Above(g, {key}))
    ensures key in seen || key !in g ==> Above(g, {key}) <= seen && Append(out, Fresh(seen, Order(key, g, End))) == out
    ensures key in g ==>
              AcyclicFrom(Up(g), Members(g[key].parents)) && Reach(Up(g), Members(g[key].parents)) < Reach(Up(g), {key})
  {
    SettledGrows(g, seen, {key});
    AppendEnd(out);
    if key in g {
      AboveParents(g, key);
    } else {
      assert Succ(Up(g), key) == {};
      ReachLeast(Up(g), {key}, {key});
    }
    OrderStable(key, g, End);
    FreshMembers(seen, Order(key, g, End));
  }

  lemma VisitEnds(g: Interfaces, key: Name, seen: set<Name>, out: List<Name>)
    requires AcyclicFrom(Up(g), {key}) && key in g && key !in seen
    ensures Snoc(Append(out, Fresh(seen, OrderAll(g[key].parents, g, End))), key) ==
            Append(out, Fresh(seen, Order(key, g, End)))
    ensures Above(g, {key}) == Above(g, Members(g[key].parents)) + {key}
  {
    var ps := g[key].parents;
    AboveParents(g, key);
    OrderAllStable(ps, g, Cons(key, End));
    var l := OrderAll(ps, g, End);
    FreshAppend(seen, l, Cons(key, End));
    SnocIsAppend(Append(out, Fresh(seen, l)), key);
    AppendAssoc(out, Fresh(seen, l), Cons(key, End));
  }

  lemma {:induction false} SnocIsAppend(l: List<Name>, x: Name)
    ensures Snoc(l, x) == Append(l, Cons(x, End))
  {
    if l.Cons? {
      SnocIsAppend(l.tail, x);
    }
  }

  /** Visiting `rest` from here gives what visiting `keys` from the start was to give. */
  ghost predicate Pending(g: Interfaces, rest: List<Name>, seen': set<Name>, out': List<Name>, keys: List<Name>,
                          seen: set<Name>, out: List<Name>) {
    Reach(Up(g), Members(rest)) <= Reach(Up(g), Members(keys)) && AcyclicFrom(Up(g), Members(rest)) &&
    Append(out', Fresh(seen', OrderAll(rest, g, End))) == Append(out, Fresh(seen, OrderAll(keys, g, End))) &&
    seen' + Above(g, Members(rest)) == seen + Above(g, Members(keys))
  }

  lemma PendingStep(g: Interfaces, rest: List<Name>, seen': set<Name>, out': List<Name>, keys: List<Name>,
                    seen: set<Name>, out: List<Name>)
    requires Pending(g, rest, seen', out', keys, seen, out) && rest.Cons?
    ensures AcyclicFrom(Up(g), {rest.head}) && Reach(Up(g), {rest.head}) <= Reach(Up(g), Members(keys))
    ensures Pending(g, rest.tail, seen' + Above(g, {rest.head}),
                    Append(out', Fresh(seen', Order(rest.head, g, End))), keys, seen, out)
  {
    AboveHead(g, rest);
    OrderStable(rest.head, g, End);
    var a := Order(rest.head, g, End);
    var b := OrderAll(rest.tail, g, End);
    FreshAppend(seen', a, b);
    AppendAssoc(out', Fresh(seen', a), Fresh(seen' + Members(a), b));
    assert seen' + Above(g, {rest.head}) + Above(g, Members(rest.tail)) == seen' + Above(g, Members(rest));
  }

  /** What both phases agree on: the checker's order with first occurrences kept. */
  ghost function Linearisation(g: Interfaces, implements: List<Name>): List<Name> {
    Fresh({}, OrderAll(implements, g, End))
  }

  /** effectiveInterfaces */
  method EffectiveInterfaces(g: Interfaces, implements: List<Name>) returns (out: List<Name>)
    requires AcyclicFrom(Up(g), Members(implements))
    ensures out == Linearisation(g, implements)
  {
    var _, l := VisitAll(g, implements, {}, End);
    out := l;
  }

  /** The layout is each interface above the named ones, once, parents first. */
  lemma LinearisationIsExact(g: Interfaces, implements: List<Name>)
    requires AcyclicFrom(Up(g), Members(implements))
    ensures Members(Linearisation(g, implements)) == Above(g, Members(implements))
    ensures NoRepeats(Linearisation(g, implements)) && ParentsFirst(g, {}, Linearisation(g, implements))
  {
    var l := OrderAll(implements, g, End);
    OrderAllStable(implements, g, End);
    FreshMembers({}, l);
    FreshNoRepeats({}, l);
    OrderAllParentsFirst(implements, g, End, {});
    FreshParentsFirst(g, {}, l);
  }

  // ----- the checker's test for super -----

  /** Every default counted by `w` that the class does not declare has an earlier default of its name. */
  ghost predicate Met(g: Interfaces, w: Which, declared: set<Name>, l: List<Name>, seen: set<Name>)
    decreases l
  {
    l.Cons? ==> Supers(g, l.head, w) - declared <= seen && Met(g, w, declared, l.tail, seen + Defaults(g, l.head))
  }

  /** The loop over the interface order in checkInterfaceImplementations: the flagged calls are met. */
  method CheckSupers(g: Interfaces, declared: set<Name>, order: List<Name>) returns (ok: bool)
    ensures ok == Met(g, Flagged, declared, order, {})
  {
    var seen: set<Name> := {};
    var rest := order;
    while rest.Cons?
      invariant Met(g, Flagged, declared, rest, seen) == Met(g, Flagged, declared, order, {})
      decreases rest
    {
      if !(Supers(g, rest.head, Flagged) - declared <= seen) {
        return false;
      }
      seen := seen + Defaults(g, rest.head);
      rest := rest.tail;
    }
    return true;
  }

  /** All calls are met exactly when the flagged and the hidden ones are. */
  lemma {:induction false} MetSplit(g: Interfaces, declared: set<Name>, l: List<Name>, seen: set<Name>)
    ensures Met(g, All, declared, l, seen) <==> Met(g, Flagged, declared, l, seen) && Met(g, Hidden, declared, l, seen)
    decreases l
  {
    if l.Cons? {
      SupersSplit(g, l.head);
      MetSplit(g, declared, l.tail, seen + Defaults(g, l.head));
    }
  }

  /** Repeats do not change the verdict. */
  lemma {:induction false} MetFresh(g: Interfaces, w: Which, declared: set<Name>, l: List<Name>, past: set<Name>,
                                    seen: set<Name>)
    requires forall k :: k in past ==> Supers(g, k, w) - declared <= seen && Defaults(g, k) <= seen
    ensures Met(g, w, declared, l, seen) <==> Met(g, w, declared, Fresh(past, l), seen)
    decreases l
  {
    if l.Cons? {
      if l.head in past {
        assert seen + Defaults(g, l.head) == seen;
        MetFresh(g, w, declared, l.tail, past, seen);
      } else if Supers(g, l.head, w) - declared <= seen {
        MetFresh(g, w, declared, l.tail, past + {l.head}, seen + Defaults(g, l.head));
      }
    }
  }

  // ----- the emitter's super links -----

  /**
   An emitted default method, with the method its super calls lead to.  The emitter caches
   by exactly these three, so equal links are emitted once.
   */
  datatype Sym = NoLink | Link(owner: Name, name: Name, next: Sym)

  /** interfaceDefaultSymInStack: the nearest default of that name; `stack` has the latest interface first. */
  function SuperSym(g: Interfaces, stack: List<Name>, name: Name): Sym {
    if stack.End? then NoLink
    else if name in Defaults(g, stack.head) then Link(stack.head, name, SuperSym(g, stack.tail, name))
    else SuperSym(g, stack.tail, name)
  }

  /** Everyone along the chain who calls super has someone to call. */
  ghost predicate Linked(g: Interfaces, s: Sym) {
    s.Link? ==> (s.name in Supers(g, s.owner, All) ==> s.next.Link?) && Linked(g, s.next)
  }

  ghost function Chain(s: Sym): List<Name> {
    if s.NoLink? then End else Cons(s.owner, Chain(s.next))
  }

  ghost function WithDefault(g: Interfaces, l: List<Name>, name: Name): List<Name> {
    if l.End? then End
    else if name in Defaults(g, l.head) then Cons(l.head, WithDefault(g, l.tail, name))
    else WithDefault(g, l.tail, name)
  }

  ghost function DefaultsOf(g: Interfaces, l: List<Name>): set<Name> {
    if l.Cons? then Defaults(g, l.head) + DefaultsOf(g, l.tail) else {}
  }

  /** `l` turned round in front of `stack`. */
  ghost function Onto(l: List<Name>, stack: List<Name>): List<Name>
    decreases l
  {
    if l.End? then stack else Onto(l.tail, Cons(l.head, stack))
  }

  /** The super chain runs through every default of the name, once, the latest first. */
  lemma {:induction false} ChainIsComplete(g: Interfaces, stack: List<Name>, name: Name)
    ensures Chain(SuperSym(g, stack, name)) == WithDefault(g, stack, name)
    ensures SuperSym(g, stack, name).Link? <==> name in DefaultsOf(g, stack)
  {
    if stack.Cons? {
      ChainIsComplete(g, stack.tail, name);
    }
  }

  ghost predicate IsDefault(g: Interfaces, k: Name, n: Name) {
    k in g && n in g[k].methods && g[k].methods[n].body.Some? && n != INITIALIZE
  }

  /** Those with a default of the name are kept, the others are not, and nobody changes places. */
  lemma {:induction false} WithDefaultExact(g: Interfaces, a: List<Name>, b: List<Name>, n: Name, k: Name)
    ensures WithDefault(g, Append(a, b), n) == Append(WithDefault(g, a, n), WithDefault(g, b, n))
    ensures WithDefault(g, Cons(k, End), n) == if IsDefault(g, k, n) then Cons(k, End) else End
  {
    if a.Cons? {
      WithDefaultExact(g, a.tail, b, n, k);
    }
  }

  lemma {:induction false} DefaultsOfExact(g: Interfaces, l: List<Name>, n: Name)
    ensures n in DefaultsOf(g, l) <==> exists k :: k in Members(l) && IsDefault(g, k, n)
  {
    if l.Cons? {
      DefaultsOfExact(g, l.tail, n);
      assert n in Defaults(g, l.head) <==> IsDefault(g, l.head, n);
    }
  }

  /** Whoever is later in the list is nearer the front when it is turned round. */
  lemma {:induction false} OntoExact(a: List<Name>, b: List<Name>, stack: List<Name>, x: Name)
    ensures Onto(Append(a, b), stack) == Onto(b, Onto(a, stack)) && Onto(Cons(x, End), stack) == Cons(x, stack)
    ensures Members(Onto(a, stack)) == Members(a) + Members(stack)
    decreases a
  {
    if a.Cons? {
      OntoExact(a.tail, b, Cons(a.head, stack), x);
    }
  }

  lemma {:induction false} LinkedBelow(g: Interfaces, l: List<Name>, stack: List<Name>, name: Name)
    requires Linked(g, SuperSym(g, Onto(l, stack), name))
    ensures Linked(g, SuperSym(g, stack, name))
    decreases l
  {
    if l.Cons? {
      LinkedBelow(g, l.tail, Cons(l.head, stack), name);
    }
  }

  ghost predicate AllLinked(g: Interfaces, declared: set<Name>, stack: List<Name>) {
    forall n :: n !in declared ==> Linked(g, SuperSym(g, stack, n))
  }

  lemma {:induction false} MetIsLinked(g: Interfaces, declared: set<Name>, l: List<Name>, stack: List<Name>)
    requires AllLinked(g, declared, stack)
    ensures Met(g, All, declared, l, DefaultsOf(g, stack)) <==> AllLinked(g, declared, Onto(l, stack))
    decreases l
  {
    if l.Cons? {
      var stack' := Cons(l.head, stack);
      forall n ensures SuperSym(g, stack, n).Link? <==> n in DefaultsOf(g, stack) {
        ChainIsComplete(g, stack, n);
      }
      assert DefaultsOf(g, stack') == DefaultsOf(g, stack) + Defaults(g, l.head);
      if Supers(g, l.head, All) - declared <= DefaultsOf(g, stack) {
        assert AllLinked(g, declared, stack');
        MetIsLinked(g, declared, l.tail, stack');
      } else {
        var n :| n in Supers(g, l.head, All) - declared && n !in DefaultsOf(g, stack);
        assert !Linked(g, SuperSym(g, stack', n));
        if Linked(g, SuperSym(g, Onto(l, stack), n)) {
          LinkedBelow(g, l.tail, stack', n);
        }
      }
    }
  }

  /** Whether the calls counted by `w` are met in the checker's order. */
  ghost predicate MetInOrder(g: Interfaces, w: Which, implements: List<Name>, declared: set<Name>) {
    Met(g, w, declared, OrderAll(implements, g, End), {})
  }

  /** What the emitter makes of the class's defaults: no super link is missing. */
  ghost predicate NoLinkMissing(g: Interfaces, implements: List<Name>, declared: set<Name>) {
    AllLinked(g, declared, Onto(Linearisation(g, implements), End))
  }

  /**
   No emitted super link is missing exactly when the checker accepts and, besides, the calls
   its scan misses are met.
   */
  lemma AcceptedMeansLinked(g: Interfaces, implements: List<Name>, declared: set<Name>)
    ensures NoLinkMissing(g, implements, declared) <==>
            MetInOrder(g, Flagged, implements, declared) && MetInOrder(g, Hidden, implements, declared)
  {
    MetFresh(g, All, declared, OrderAll(implements, g, End), {}, {});
    MetIsLinked(g, declared, Linearisation(g, implements), End);
    MetSplit(g, declared, OrderAll(implements, g, End), {});
  }

  /** emitInterfaceMethods: the object's table of defaults; a later interface overwrites an earlier one. */
  method EmitMethods(g: Interfaces, ifaces: List<Name>, overrides: set<Name>) returns (table: map<Name, Sym>)
    ensures table.Keys == DefaultsOf(g, Onto(ifaces, End)) - overrides
    ensures forall n :: n in table ==> table[n] == SuperSym(g, Onto(ifaces, End), n)
  {
    table := map[];
    var stack := End;
    var rest := ifaces;
    while rest.Cons?
      invariant Onto(rest, stack) == Onto(ifaces, End)
      invariant table.Keys == DefaultsOf(g, stack) - overrides
      invariant forall n :: n in table ==> table[n] == SuperSym(g, stack, n)
      decreases rest
    {
      var names := Defaults(g, rest.head) - overrides;
      table := table + map n | n in names :: Link(rest.head, n, SuperSym(g, stack, n));
      stack := Cons(rest.head, stack);
      rest := rest.tail;
    }
  }

  /**
   Check a class's super calls and emit its defaults.  Each chain of an accepted class is
   complete, and no link is missing exactly when the calls the scan missed are met.
   */
  method Compile(g: Interfaces, implements: List<Name>, declared: set<Name>) returns (ok: bool, table: map<Name, Sym>)
    requires AcyclicFrom(Up(g), Members(implements))
    ensures ok <==> MetInOrder(g, Flagged, implements, declared)
    ensures ok ==> (TableLinked(g, table) <==> MetInOrder(g, Hidden, implements, declared))
    ensures ok ==> TableComplete(g, Linearisation(g, implements), table)
    ensures ok ==> table.Keys == DefaultsOf(g, Onto(Linearisation(g, implements), End)) - declared
  {
    ok := CheckSupers(g, declared, OrderAll(implements, g, End));
    table := map[];
    if ok {
      var ifaces := EffectiveInterfaces(g, implements);
      table := EmitMethods(g, ifaces, declared);
      forall n ensures Chain(SuperSym(g, Onto(ifaces, End), n)) == WithDefault(g, Onto(ifaces, End), n) {
        ChainIsComplete(g, Onto(ifaces, End), n);
      }
      TableIsAll(g, ifaces, declared, table);
      AcceptedMeansLinked(g, implements, declared);
    }
  }

  /** The emitted names are those for which some interface above has a default, but for those the class declares. */
  lemma TableExact(g: Interfaces, implements: List<Name>, n: Name)
    requires AcyclicFrom(Up(g), Members(implements))
    ensures n in DefaultsOf(g, Onto(Linearisation(g, implements), End)) <==>
            exists k :: k in Above(g, Members(implements)) && IsDefault(g, k, n)
  {
    var l := Linearisation(g, implements);
    LinearisationIsExact(g, implements);
    OntoExact(l, End, End, n);
    DefaultsOfExact(g, Onto(l, End), n);
    assert Members(Onto(l, End)) == Above(g, Members(implements));
  }

  /** Each chain runs through all defaults of its name, the latest first. */
  ghost predicate TableComplete(g: Interfaces, ifaces: List<Name>, table: map<Name, Sym>) {
    forall n :: n in table ==> Chain(table[n]) == WithDefault(g, Onto(ifaces, End), n)
  }

  ghost predicate TableLinked(g: Interfaces, table: map<Name, Sym>) {
    forall n :: n in table ==> Linked(g, table[n])
  }

  lemma TableIsAll(g: Interfaces, ifaces: List<Name>, declared: set<Name>, table: map<Name, Sym>)
    requires table.Keys == DefaultsOf(g, Onto(ifaces, End)) - declared
    requires forall n :: n in table ==> table[n] == SuperSym(g, Onto(ifaces, End), n)
    ensures TableLinked(g, table) <==> AllLinked(g, declared, Onto(ifaces, End))
  {
    forall n | n !in table && n !in declared ensures SuperSym(g, Onto(ifaces, End), n).NoLink? {
      ChainIsComplete(g, Onto(ifaces, End), n);
    }
  }

  // ----- calls the scan sees, and calls it misses -----

  /** A lone default is refused exactly when the scan sees it call super. */
  lemma LoneDefault(i: Name, m: Name, f: SuperCalls.Func)
    requires m != INITIALIZE
    ensures MetInOrder(OnlyDefault(i, m, f), Flagged, Cons(i, End), {}) <==> !SuperCalls.Scan(f)
  {
    var g := OnlyDefault(i, m, f);
    OnlyDefaultOrder(i, m, f);
    assert Supers(g, i, Flagged) == if SuperCalls.Scan(f) then {m} else {};
    assert Met(g, Flagged, {}, Cons(i, End), {}) <==> Supers(g, i, Flagged) - {} <= {};
    assert SuperCalls.Scan(f) ==> m in Supers(g, i, Flagged) - {};
  }

  /** For instance one that only calls super. */
  lemma LoneSuperRefused(i: Name, m: Name)
    requires m != INITIALIZE
    ensures !MetInOrder(OnlyDefault(i, m, SuperCalls.JustSuper()), Flagged, Cons(i, End), {})
  {
    var f := SuperCalls.JustSuper();
    assert SuperCalls.CallsStmt(f.block.head);
    SuperCalls.FlatScan(f);
    LoneDefault(i, m, f);
  }

  /** A default that calls super in an if, alone: the checker accepts, and the link is missing. */
  lemma HiddenUnlinked(i: Name, m: Name, cond: SuperCalls.Expr)
    requires m != INITIALIZE
    ensures var g := OnlyDefault(i, m, SuperCalls.InsideIf(cond));
            MetInOrder(g, Flagged, Cons(i, End), {}) && !NoLinkMissing(g, Cons(i, End), {})
  {
    var f := SuperCalls.InsideIf(cond);
    var g := OnlyDefault(i, m, f);
    SuperCalls.ScanMissesIf(cond);
    OnlyDefaultOrder(i, m, f);
    assert Supers(g, i, Flagged) == {} && m in Supers(g, i, Hidden) - {};
    assert Met(g, Flagged, {}, Cons(i, End), {});
    assert Met(g, Hidden, {}, Cons(i, End), {}) ==> Supers(g, i, Hidden) - {} <= {};
    AcceptedMeansLinked(g, Cons(i, End), {});
  }

  /** One interface with one default and no parents. */
  function OnlyDefault(i: Name, m: Name, f: SuperCalls.Func): Interfaces {
    map[i := Interface(End, map[m := Method(0, Some(f))])]
  }

  lemma OnlyDefaultOrder(i: Name, m: Name, f: SuperCalls.Func)
    ensures var g := OnlyDefault(i, m, f);
            OrderAll(Cons(i, End), g, End) == Cons(i, End) && Linearisation(g, Cons(i, End)) == Cons(i, End)
  {
    var g := OnlyDefault(i, m, f);
    assert OrderAll(g[i].parents, g, Cons(i, End)) == End;
    assert Order(i, g, End) == Append(End, Cons(i, End)) == Cons(i, End);
    AppendEnd(Cons(i, End));
    assert OrderAll(End, g, End) == End;
    assert OrderAll(Cons(i, End), g, End) == Cons(i, End);
    assert Fresh({} + {i}, End) == End;
  }

  // ----- names the class declares itself -----

  /**
   What `super` in a class's own method `m` leads to, where the class has no parent class:
   there is something, and everyone along the chain who calls super has someone to call.
   */
  ghost predicate SuperWhole(g: Interfaces, implements: List<Name>, m: Name) {
    var s := SuperSym(g, Onto(Linearisation(g, implements), End), m);
    s.Link? && Linked(g, s)
  }

  /** The chain over `l` is whole exactly when the chain below is, or there is none and `l` begins one. */
  lemma {:induction false} WholeOnto(g: Interfaces, l: List<Name>, stack: List<Name>, m: Name)
    ensures var below, s := SuperSym(g, stack, m), SuperSym(g, Onto(l, stack), m);
            var ds := WithDefault(g, l, m);
            s.Link? && Linked(g, s) <==>
            if below.Link? then Linked(g, below) else ds.Cons? && m !in Supers(g, ds.head, All)
    decreases l
  {
    if l.Cons? {
      WholeOnto(g, l.tail, Cons(l.head, stack), m);
    }
  }

  /**
   The checker passes over names the class declares.  Its super calls are whole exactly
   when some interface has a default of the name and the first such, in layout order, does
   not itself call super.
   */
  lemma DeclaredExact(g: Interfaces, implements: List<Name>, m: Name)
    ensures var ds := WithDefault(g, Linearisation(g, implements), m);
            SuperWhole(g, implements, m) <==> ds.Cons? && m !in Supers(g, ds.head, All)
  {
    WholeOnto(g, Linearisation(g, implements), End, m);
  }

  /** An accepted class whose own method calls super with no default of its name anywhere. */
  lemma DeclaredWithoutDefault(m: Name)
    ensures MetInOrder(map[], Flagged, End, {m}) && !SuperWhole(map[], End, m)
  {
    assert Linearisation(map[], End) == End;
    DeclaredExact(map[], End, m);
  }

  /** An accepted class whose own method reaches a default with an empty super link. */
  lemma DeclaredUnlinked(i: Name, m: Name, f: SuperCalls.Func)
    requires m != INITIALIZE && SuperCalls.Calls(f)
    ensures var g := OnlyDefault(i, m, f);
            MetInOrder(g, Flagged, Cons(i, End), {m}) && !SuperWhole(g, Cons(i, End), m)
  {
    var g := OnlyDefault(i, m, f);
    OnlyDefaultOrder(i, m, f);
    assert Met(g, Flagged, {m}, Cons(i, End), {});
    assert m in Supers(g, i, All);
    assert WithDefault(g, Cons(i, End), m) == Cons(i, End);
    DeclaredExact(g, Cons(i, End), m);
  }
}
