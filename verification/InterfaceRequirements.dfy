/**
 The methods an interface asks of its implementers, collected from everything above
 it.  The walk carries its own path as a stack and so ends on cyclic declarations too.
 */
module InterfaceRequirements {
  import opened Basics
  import opened Graph
  import opened InterfaceOrder

  datatype Requirement = Requirement(arity: nat, source: Name)

  type Requirements = map<Name, Requirement>

  datatype Outcome =
    | Ok(reqs: Requirements)
    | NotAnInterface(key: Name, isClass: bool)
    | Cycle(key: Name)
    | Conflict(key: Name, name: Name)

  /** The methods an interface declares without a body. */
  function Declared(g: Interfaces, k: Name): map<Name, nat> {
    if k in g then map n | n in g[k].methods && g[k].methods[n].body.None? :: g[k].methods[n].arity else map[]
  }

  /** Interfaces that declare the same method agree on its arity. */
  ghost predicate Agree(g: Interfaces, s: set<Name>) {
    forall k, l, n {:trigger Declared(g, k)[n], Declared(g, l)[n]} ::
      k in s && l in s && n in Declared(g, k) && n in Declared(g, l) ==> Declared(g, k)[n] == Declared(g, l)[n]
  }

  /** `reqs` holds exactly the methods declared in `s`, with their arities. */
  ghost predicate Represents(g: Interfaces, reqs: Requirements, s: set<Name>) {
    Origins(g, reqs, s) && AllMet(g, s, Arities(reqs))
  }

  ghost predicate Origins(g: Interfaces, reqs: Requirements, s: set<Name>) {
    forall n :: n in reqs ==> Origin(g, n, reqs[n], s)
  }

  ghost predicate AllMet(g: Interfaces, s: set<Name>, arities: map<Name, nat>) {
    forall k :: k in s ==> Meets(Declared(g, k), arities)
  }

  /** Whatever is declared is there, with its arity. */
  ghost predicate Meets(declared: map<Name, nat>, arities: map<Name, nat>) {
    forall n :: n in declared ==> n in arities && arities[n] == declared[n]
  }

  function Arities(reqs: Requirements): map<Name, nat> {
    map n | n in reqs :: reqs[n].arity
  }

  ghost predicate Origin(g: Interfaces, n: Name, r: Requirement, s: set<Name>) {
    r.source in s && n in Declared(g, r.source) && Declared(g, r.source)[n] == r.arity
  }

  /** Interface `k` declares the method without a body. */
  ghost predicate Asks(g: Interfaces, k: Name, n: Name, arity: nat) {
    k in g && n in g[k].methods && g[k].methods[n] == Method(arity, None)
  }

  lemma DeclaredIsAsked(g: Interfaces, k: Name, n: Name, arity: nat)
    ensures Asks(g, k, n, arity) <==> n in Declared(g, k) && Declared(g, k)[n] == arity
  {
  }

  /** The requirements are what some interface asks for, and nothing else. */
  lemma RequirementsExact(g: Interfaces, reqs: Requirements, s: set<Name>, n: Name, arity: nat)
    requires Represents(g, reqs, s)
    ensures n in reqs && reqs[n].arity == arity <==> exists k :: k in s && Asks(g, k, n, arity)
  {
    if n in reqs && reqs[n].arity == arity {
      assert Origin(g, n, reqs[n], s);
      DeclaredIsAsked(g, reqs[n].source, n, arity);
    }
    if k :| k in s && Asks(g, k, n, arity) {
      DeclaredIsAsked(g, k, n, arity);
      assert Meets(Declared(g, k), Arities(reqs));
    }
  }

  /** Agreeing is asking for no method with two arities. */
  lemma AgreeExact(g: Interfaces, s: set<Name>)
    ensures Agree(g, s) <==>
            forall k, l, n, a, b {:trigger Asks(g, k, n, a), Asks(g, l, n, b)} ::
              k in s && l in s && Asks(g, k, n, a) && Asks(g, l, n, b) ==> a == b
  {
    if !Agree(g, s) {
      var k, l, n :| k in s && l in s && n in Declared(g, k) && n in Declared(g, l) &&
                     Declared(g, k)[n] != Declared(g, l)[n];
      assert Asks(g, k, n, Declared(g, k)[n]) && Asks(g, l, n, Declared(g, l)[n]);
    } else {
      forall k, l, n, a, b | k in s && l in s && Asks(g, k, n, a) && Asks(g, l, n, b) ensures a == b {
        DeclaredIsAsked(g, k, n, a);
        DeclaredIsAsked(g, l, n, b);
      }
    }
  }

  /** Every interface above is known, none is on a cycle, and they agree. */
  ghost predicate Sound(g: Interfaces, s: set<Name>) {
    Reach(Up(g), s) <= g.Keys && AcyclicFrom(Up(g), s) && Agree(g, Reach(Up(g), s))
  }

  /** The same for a walk that arrived along `stack`. */
  ghost predicate SoundBelow(g: Interfaces, s: set<Name>, stack: List<Name>) {
    Reach(Up(g), s) <= g.Keys && Free(Up(g), s, Members(stack)) && Agree(g, Reach(Up(g), s))
  }

  lemma RepresentsAgree(g: Interfaces, reqs: Requirements, s: set<Name>)
    requires Represents(g, reqs, s)
    ensures Agree(g, s)
  {
  }

  /** Both have the name, with different arities. */
  predicate Clash(a: map<Name, nat>, b: map<Name, nat>, n: Name) {
    n in a && n in b && a[n] != b[n]
  }

  lemma ClashDisagrees(g: Interfaces, a: Requirements, s: set<Name>, b: Requirements, t: set<Name>, n: Name,
                       all: set<Name>)
    requires Represents(g, a, s) && Represents(g, b, t) && Clash(Arities(a), Arities(b), n) && s + t <= all
    ensures !Agree(g, all)
  {
    assert Origin(g, n, a[n], s) && Origin(g, n, b[n], t);
    assert Declared(g, a[n].source)[n] != Declared(g, b[n].source)[n];
  }

  lemma MergeRepresents(g: Interfaces, a: Requirements, s: set<Name>, b: Requirements, t: set<Name>)
    requires Represents(g, a, s) && Represents(g, b, t)
    requires forall n :: n in Arities(b) ==> !Clash(Arities(a), Arities(b), n)
    ensures Represents(g, a + b, s + t)
  {
    MergeOrigins(g, a, s, b, t);
    MergeMet(g, Arities(a), s, Arities(b), t);
    AritiesMerge(a, b);
  }

  lemma AritiesMerge(a: Requirements, b: Requirements)
    ensures Arities(a + b) == Arities(a) + Arities(b)
  {
    var l := Arities(a + b);
    var r := Arities(a) + Arities(b);
    assert l.Keys == r.Keys;
    forall n | n in l ensures l[n] == r[n] {
    }
  }

  lemma MergeOrigins(g: Interfaces, a: Requirements, s: set<Name>, b: Requirements, t: set<Name>)
    requires Origins(g, a, s) && Origins(g, b, t)
    ensures Origins(g, a + b, s + t)
  {
  }

  lemma MergeMet(g: Interfaces, a: map<Name, nat>, s: set<Name>, b: map<Name, nat>, t: set<Name>)
    requires AllMet(g, s, a) && AllMet(g, t, b) && forall n :: n in b ==> !Clash(a, b, n)
    ensures AllMet(g, s + t, a + b)
  {
    forall k | k in s + t ensures Meets(Declared(g, k), a + b) {
      MeetsEither(Declared(g, k), a, b);
    }
  }

  lemma MeetsEither(declared: map<Name, nat>, a: map<Name, nat>, b: map<Name, nat>)
    requires Meets(declared, a) || Meets(declared, b)
    requires forall n :: n in b ==> !Clash(a, b, n)
    ensures Meets(declared, a + b)
  {
    forall n | n in declared ensures n in a + b && (a + b)[n] == declared[n] {
      assert n in b ==> !Clash(a, b, n);
    }
  }

  lemma AgreeSubset(g: Interfaces, s: set<Name>, t: set<Name>)
    requires Agree(g, t) && s <= t
    ensures Agree(g, s)
  {
  }

  /** A name is sound when it is known, off the stack, and its parents are sound without it. */
  lemma SoundStep(g: Interfaces, key: Name, stack: List<Name>)
    requires key in g && key !in Members(stack)
    ensures var ps := Members(g[key].parents);
            SoundBelow(g, {key}, stack) <==> SoundBelow(g, ps, Cons(key, stack)) && Agree(g, {key} + Reach(Up(g), ps))
    ensures Reach(Up(g), {key}) == {key} + Reach(Up(g), Members(g[key].parents))
  {
    var ps := Members(g[key].parents);
    assert Succ(Up(g), key) == ps;
    FreeStep(Up(g), key, Members(stack));
    assert Members(stack) + {key} == Members(Cons(key, stack));
    if Agree(g, {key} + Reach(Up(g), ps)) {
      AgreeSubset(g, Reach(Up(g), ps), {key} + Reach(Up(g), ps));
    }
  }

  lemma SoundHead(g: Interfaces, ps: List<Name>, stack: List<Name>)
    requires ps.Cons?
    ensures SoundBelow(g, Members(ps), stack) ==>
              SoundBelow(g, {ps.head}, stack) && SoundBelow(g, Members(ps.tail), stack)
    ensures Agree(g, Reach(Up(g), Members(ps))) ==>
              SoundBelow(g, {ps.head}, stack) && SoundBelow(g, Members(ps.tail), stack) ==>
              SoundBelow(g, Members(ps), stack)
    ensures Reach(Up(g), Members(ps)) == Reach(Up(g), {ps.head}) + Reach(Up(g), Members(ps.tail))
  {
    FreeUnion(Up(g), {ps.head}, Members(ps.tail), Members(stack));
    assert {ps.head} + Members(ps.tail) == Members(ps);
    if SoundBelow(g, Members(ps), stack) {
      AgreeSubset(g, Reach(Up(g), {ps.head}), Reach(Up(g), Members(ps)));
      AgreeSubset(g, Reach(Up(g), Members(ps.tail)), Reach(Up(g), Members(ps)));
    }
  }

  /** What an error reports, for a walk from `s` along `stack`. */
  ghost predicate Justified(g: Interfaces, classes: set<Name>, s: set<Name>, stack: List<Name>, r: Outcome) {
    match r
    case Ok(_) => true
    case NotAnInterface(k, c) => k in Reach(Up(g), s) && k !in g && c == (k in classes)
    case Cycle(k) => k in Reach(Up(g), s) && (k in Members(stack) || OnCycle(Up(g), k))
    case Conflict(k, n) => k in Reach(Up(g), s) && !Agree(g, Reach(Up(g), {k}))
  }

  lemma JustifiedAbove(g: Interfaces, classes: set<Name>, key: Name, p: Name, stack: List<Name>, r: Outcome)
    requires key in g && p in Members(g[key].parents) && Justified(g, classes, {p}, Cons(key, stack), r)
    ensures Justified(g, classes, {key}, stack, r)
  {
    ReachStep(Up(g), key);
    var ps := Members(g[key].parents);
    assert Succ(Up(g), key) == ps;
    ReachContains(Up(g), ps);
    ReachMonotone(Up(g), {p}, ps);
  }

  /** effectiveInterfaceRequirements */
  method Effective(g: Interfaces, classes: set<Name>, key: Name, stack: List<Name>) returns (r: Outcome)
    requires g.Keys !! classes
    ensures r.Ok? <==> SoundBelow(g, {key}, stack)
    ensures r.Ok? ==> Represents(g, r.reqs, Reach(Up(g), {key}))
    ensures Justified(g, classes, {key}, stack, r)
    decreases g.Keys - Members(stack)
  {
    ReachContains(Up(g), {key});
    if key !in g {
      return NotAnInterface(key, key in classes);
    }
    if Has(stack, key) {
      return Cycle(key);
    }
    WalkStart(g, key, stack);
    var reqs := OwnRequirements(g, key);
    ghost var covered := {key};
    var rest := g[key].parents;
    while rest.Cons?
      invariant Members(rest) <= Members(g[key].parents)
      invariant Represents(g, reqs, covered) && Walk(g, key, stack, rest, covered)
      decreases rest
    {
      var parent := rest.head;
      ghost var covered' := covered + Reach(Up(g), {parent});
      WalkStep(g, key, stack, rest, covered);
      if parent !in g {
        return NotAnInterface(parent, parent in classes);
      }
      var sub := Effective(g, classes, parent, Cons(key, stack));
      if !sub.Ok? {
        JustifiedAbove(g, classes, key, parent, stack, sub);
        return sub;
      }
      var clash := FindClash(Arities(reqs), Arities(sub.reqs));
      if clash.Some? {
        ClashDisagrees(g, reqs, covered, sub.reqs, Reach(Up(g), {parent}), clash.value, Reach(Up(g), {key}));
        return Conflict(key, clash.value);
      }
      MergeRepresents(g, reqs, covered, sub.reqs, Reach(Up(g), {parent}));
      reqs, covered, rest := reqs + sub.reqs, covered', rest.tail;
    }
    WalkEnd(g, key, stack, reqs, covered);
    return Ok(reqs);
  }

  /** The walk at `key` has covered a part of what is above; the rest decides. */
  ghost predicate Walk(g: Interfaces, key: Name, stack: List<Name>, rest: List<Name>, covered: set<Name>) {
    covered + Reach(Up(g), Members(rest)) == Reach(Up(g), {key}) &&
    (SoundBelow(g, {key}, stack) ==> SoundBelow(g, Members(rest), Cons(key, stack))) &&
    (SoundBelow(g, Members(rest), Cons(key, stack)) && Agree(g, Reach(Up(g), {key})) ==> SoundBelow(g, {key}, stack))
  }

  lemma WalkStart(g: Interfaces, key: Name, stack: List<Name>)
    requires key in g && key !in Members(stack)
    ensures Walk(g, key, stack, g[key].parents, {key})
  {
    SoundStep(g, key, stack);
  }

  lemma WalkStep(g: Interfaces, key: Name, stack: List<Name>, rest: List<Name>, covered: set<Name>)
    requires Walk(g, key, stack, rest, covered) && rest.Cons?
    ensures SoundBelow(g, {key}, stack) ==> SoundBelow(g, {rest.head}, Cons(key, stack)) && rest.head in g
    ensures rest.head in Reach(Up(g), {key})
    ensures covered + Reach(Up(g), {rest.head}) <= Reach(Up(g), {key})
    ensures SoundBelow(g, {rest.head}, Cons(key, stack)) ==>
              Walk(g, key, stack, rest.tail, covered + Reach(Up(g), {rest.head}))
  {
    SoundHead(g, rest, Cons(key, stack));
    ReachContains(Up(g), {rest.head});
    if Agree(g, Reach(Up(g), {key})) {
      AgreeSubset(g, Reach(Up(g), Members(rest)), Reach(Up(g), {key}));
    }
  }

  lemma WalkEnd(g: Interfaces, key: Name, stack: List<Name>, reqs: Requirements, covered: set<Name>)
    requires Walk(g, key, stack, End, covered) && Represents(g, reqs, covered)
    ensures SoundBelow(g, {key}, stack) && covered == Reach(Up(g), {key})
  {
    ReachLeast(Up(g), {}, {});
    assert Reach(Up(g), {}) == {};
    RepresentsAgree(g, reqs, covered);
  }

  function OwnRequirements(g: Interfaces, key: Name): (reqs: Requirements)
    ensures Represents(g, reqs, {key})
  {
    map n | n in Declared(g, key) :: Requirement(Declared(g, key)[n], key)
  }

  /** Some name on which the two disagree, if there is one. */
  method FindClash(a: map<Name, nat>, b: map<Name, nat>) returns (n: Option<Name>)
    ensures n.Some? ==> Clash(a, b, n.value)
    ensures n.None? ==> forall m :: m in b ==> !Clash(a, b, m)
  {
    var names := set m | m in b && Clash(a, b, m);
    assert forall m :: m in b && Clash(a, b, m) ==> m in names;
    if names == {} {
      return None;
    }
    var m :| m in names;
    return Some(m);
  }

  // ----- a class and the interfaces it names -----

  /** The parent class's requirements `inherited` agree with what is declared in `s`. */
  ghost predicate AgreesWith(g: Interfaces, inherited: map<Name, nat>, s: set<Name>) {
    forall k, n {:trigger Declared(g, k)[n]} ::
      k in s && n in Declared(g, k) && n in inherited ==> inherited[n] == Declared(g, k)[n]
  }

  /** `reqs` is `inherited` and what is declared in `s`. */
  ghost predicate Collected(g: Interfaces, reqs: map<Name, nat>, inherited: map<Name, nat>, s: set<Name>) {
    Meets(inherited, reqs) && AllMet(g, s, reqs) &&
    forall n {:trigger n in reqs} :: n in reqs ==> n in inherited || exists k :: k in s && n in Declared(g, k)
  }

  /** What a class may name: known interfaces, none twice, that agree with each other and with the parent class. */
  ghost predicate Implementable(g: Interfaces, inherited: map<Name, nat>, implements: List<Name>) {
    NoRepeats(implements) && Sound(g, Members(implements)) &&
    AgreesWith(g, inherited, Reach(Up(g), Members(implements)))
  }

  lemma CollectMore(g: Interfaces, reqs: map<Name, nat>, inherited: map<Name, nat>, s: set<Name>, sub: Requirements,
                    t: set<Name>)
    requires Collected(g, reqs, inherited, s) && Represents(g, sub, t)
    requires forall n :: n in Arities(sub) ==> !Clash(reqs, Arities(sub), n)
    ensures Collected(g, reqs + Arities(sub), inherited, s + t)
  {
    var m := reqs + Arities(sub);
    MeetsEither(inherited, reqs, Arities(sub));
    MergeMet(g, reqs, s, Arities(sub), t);
    forall n {:trigger n in m} | n in m ensures n in inherited || exists k :: k in s + t && n in Declared(g, k) {
      if n !in reqs {
        assert Origin(g, n, sub[n], t);
      }
    }
  }

  /** What has been gathered once the interfaces in `seen` are dealt with. */
  ghost predicate Gathered(g: Interfaces, inherited: map<Name, nat>, seen: set<Name>, reqs: map<Name, nat>) {
    Reach(Up(g), seen) <= g.Keys && AcyclicFrom(Up(g), seen) && Collected(g, reqs, inherited, Reach(Up(g), seen))
  }

  lemma GatherMore(g: Interfaces, inherited: map<Name, nat>, seen: set<Name>, reqs: map<Name, nat>, key: Name,
                   sub: Requirements)
    requires Gathered(g, inherited, seen, reqs) && Sound(g, {key}) && Represents(g, sub, Reach(Up(g), {key}))
    requires forall n :: n in Arities(sub) ==> !Clash(reqs, Arities(sub), n)
    ensures Gathered(g, inherited, seen + {key}, reqs + Arities(sub))
  {
    ReachUnion(Up(g), seen, {key});
    CollectMore(g, reqs, inherited, Reach(Up(g), seen), sub, Reach(Up(g), {key}));
  }

  lemma GatheredSound(g: Interfaces, inherited: map<Name, nat>, seen: set<Name>, reqs: map<Name, nat>)
    requires Gathered(g, inherited, seen, reqs)
    ensures Sound(g, seen) && AgreesWith(g, inherited, Reach(Up(g), seen))
  {
    var s := Reach(Up(g), seen);
    assert forall k :: k in s ==> Meets(Declared(g, k), reqs);
  }

  lemma ClashRefutes(g: Interfaces, inherited: map<Name, nat>, seen: set<Name>, reqs: map<Name, nat>, key: Name,
                     sub: Requirements, n: Name, all: set<Name>)
    requires Gathered(g, inherited, seen, reqs) && Represents(g, sub, Reach(Up(g), {key}))
    requires Clash(reqs, Arities(sub), n) && seen + {key} <= all
    ensures !(Agree(g, Reach(Up(g), all)) && AgreesWith(g, inherited, Reach(Up(g), all)))
  {
    ReachContains(Up(g), all);
    ReachMonotone(Up(g), seen, all);
    ReachMonotone(Up(g), {key}, all);
    assert Origin(g, n, sub[n], Reach(Up(g), {key}));
    var l := sub[n].source;
    if n !in inherited {
      var k :| k in Reach(Up(g), seen) && n in Declared(g, k);
      assert Meets(Declared(g, k), reqs);
      assert Declared(g, k)[n] != Declared(g, l)[n];
    } else {
      assert inherited[n] != Declared(g, l)[n];
    }
  }

  lemma SoundSubset(g: Interfaces, s: set<Name>, t: set<Name>)
    requires Sound(g, t) && s <= t
    ensures Sound(g, s)
  {
    ReachContains(Up(g), t);
    ReachMonotone(Up(g), s, t);
    AgreeSubset(g, Reach(Up(g), s), Reach(Up(g), t));
  }

  /**
   The requirement part of checkInterfaceImplementations: what the class must
   implement, before its defaults are taken off.
   */
  method Gather(g: Interfaces, classes: set<Name>, inherited: map<Name, nat>, implements: List<Name>)
    returns (ok: bool, reqs: map<Name, nat>)
    requires g.Keys !! classes
    ensures ok <==> Implementable(g, inherited, implements)
    ensures ok ==> Collected(g, reqs, inherited, Reach(Up(g), Members(implements)))
  {
    reqs := inherited;
    var seen: set<Name> := {};
    var rest := implements;
    ReachLeast(Up(g), {}, {});
    while rest.Cons?
      invariant seen + Members(rest) == Members(implements)
      invariant NoRepeats(implements) <==> NoRepeats(rest) && Members(rest) !! seen
      invariant Gathered(g, inherited, seen, reqs)
      decreases rest
    {
      var key := rest.head;
      if key in seen {
        return false, reqs;
      }
      var sub := Effective(g, classes, key, End);
      if !sub.Ok? {
        if Implementable(g, inherited, implements) {
          SoundSubset(g, {key}, Members(implements));
        }
        return false, reqs;
      }
      var clash := FindClash(reqs, Arities(sub.reqs));
      if clash.Some? {
        ClashRefutes(g, inherited, seen, reqs, key, sub.reqs, clash.value, Members(implements));
        return false, reqs;
      }
      GatherMore(g, inherited, seen, reqs, key, sub.reqs);
      reqs, seen, rest := reqs + Arities(sub.reqs), seen + {key}, rest.tail;
    }
    GatheredSound(g, inherited, seen, reqs);
    return true, reqs;
  }

  /**
   Check a class, then emit its defaults, with no assumption on the declarations.  What the
   checker lets through has no cycle and complete super chains, and no link is missing
   exactly when the super calls its scan missed are met.
   */
  method CheckAndCompile(g: Interfaces, classes: set<Name>, inherited: map<Name, nat>, implements: List<Name>,
                         declared: set<Name>)
    returns (ok: bool, table: map<Name, Sym>)
    requires g.Keys !! classes
    ensures ok <==> Implementable(g, inherited, implements) && MetInOrder(g, Flagged, implements, declared)
    ensures ok ==> (TableLinked(g, table) <==> MetInOrder(g, Hidden, implements, declared))
    ensures ok ==> TableComplete(g, Linearisation(g, implements), table)
    ensures ok ==> table.Keys == DefaultsOf(g, Onto(Linearisation(g, implements), End)) - declared
  {
    var good, _ := Gather(g, classes, inherited, implements);
    ok, table := false, map[];
    if good {
      ok, table := Compile(g, implements, declared);
    }
  }
}
