/**
 Walks along a class's parents.  None of them guards against cycles, so all of them
 rest on hasInheritanceCycle; two of them compute the same thing in opposite order.
 */
module ClassWalks {
  import opened Basics
  import opened Graph

  /** The concrete and the abstract methods a class declares, with their arities. */
  datatype Table = Table(methods: map<Name, nat>, abstracts: map<Name, nat>)

  datatype Class = Class(parent: Name, instance: Table, statics: Table)

  type Classes = map<Name, Class>

  /** The empty name: a class without a parent. */
  const NONE := Name("")

  /** A missing entry reads as a class that declares nothing. */
  function Info(g: Classes, c: Name): Class {
    if c in g then g[c] else Class(NONE, Table(map[], map[]), Table(map[], map[]))
  }

  ghost function Parents(g: Classes): Digraph<Name> {
    map c | c in g && c != NONE :: {g[c].parent}
  }

  /** The walk from `c` meets no class twice. */
  ghost predicate Ends(g: Classes, c: Name) {
    AcyclicFrom(Parents(g), {c})
  }

  lemma EndsAtNone(g: Classes, c: Name)
    requires c == NONE || c !in g
    ensures Ends(g, c) && Reach(Parents(g), {c}) == {c}
  {
    assert Succ(Parents(g), c) == {};
    ReachLeast(Parents(g), {c}, {c});
    ReachLeast(Parents(g), {}, {});
  }

  lemma EndsStep(g: Classes, c: Name, seen: set<Name>)
    requires c in g && c != NONE && c !in seen
    ensures Free(Parents(g), {c}, seen) <==> Free(Parents(g), {g[c].parent}, seen + {c})
    ensures Reach(Parents(g), {c}) == {c} + Reach(Parents(g), {g[c].parent})
  {
    assert Succ(Parents(g), c) == {g[c].parent};
    FreeStep(Parents(g), c, seen);
  }

  /** hasInheritanceCycle is exact. */
  method HasInheritanceCycle(g: Classes, start: Name) returns (cyclic: bool)
    ensures cyclic <==> !Ends(g, start)
  {
    var seen: set<Name> := {};
    var current := start;
    while current != NONE
      invariant Free(Parents(g), {current}, seen) <==> Ends(g, start)
      invariant NONE !in seen && (current !in g ==> current !in seen)
      invariant forall x :: x in seen ==> x in g
      decreases g.Keys - seen, if current == NONE then 0 else if current in g then 2 else 1
    {
      ReachContains(Parents(g), {current});
      if current in seen {
        return true;
      }
      if current in g {
        EndsStep(g, current, seen);
        seen := seen + {current};
      } else {
        EndsAtNone(g, current);
        EndsAtNone(g, NONE);
      }
      current := Info(g, current).parent;
    }
    EndsAtNone(g, NONE);
    return false;
  }

  // ----- what the walks see -----

  /** The classes from `c` up to its root. */
  ghost function Lineage(g: Classes, c: Name): List<Class>
    requires Ends(g, c)
    decreases Reach(Parents(g), {c})
  {
    if c == NONE then End else if c !in g then Cons(Info(g, c), End) else
      Descends(g, c);
      Cons(g[c], Lineage(g, g[c].parent))
  }

  lemma Descends(g: Classes, c: Name)
    requires c in g && c != NONE && Ends(g, c)
    ensures Ends(g, g[c].parent) && Reach(Parents(g), {g[c].parent}) < Reach(Parents(g), {c})
  {
    EndsStep(g, c, {});
  }

  ghost function Tables(l: List<Class>, statics: bool): List<Table> {
    if l.End? then End else Cons(if statics then l.head.statics else l.head.instance, Tables(l.tail, statics))
  }

  ghost function At<T>(l: List<T>, i: nat): T
    requires i < Length(l)
  {
    if i == 0 then l.head else At(l.tail, i - 1)
  }

  /** The class `i` steps up from `c`. */
  ghost function Ancestor(g: Classes, c: Name, i: nat): Name
    decreases i
  {
    if i == 0 then c else Ancestor(g, if c in g then g[c].parent else NONE, i - 1)
  }

  /** What class `k` declares; a class that is not there declares nothing. */
  ghost function DeclaredBy(g: Classes, k: Name, statics: bool): Table {
    if k !in g then Table(map[], map[]) else if statics then g[k].statics else g[k].instance
  }

  /** The walk goes through all ancestors, one step at a time, and stops where there is no parent. */
  lemma {:induction false} LineageExact(g: Classes, c: Name, statics: bool)
    requires Ends(g, c)
    ensures var ts := Tables(Lineage(g, c), statics);
            Ancestor(g, c, Length(ts)) == NONE &&
            forall i: nat :: i < Length(ts) ==>
              Ancestor(g, c, i) != NONE && At(ts, i) == DeclaredBy(g, Ancestor(g, c, i), statics)
    decreases Reach(Parents(g), {c})
  {
    if c != NONE && c in g {
      Descends(g, c);
      LineageExact(g, g[c].parent, statics);
      var ts, rest := Tables(Lineage(g, c), statics), Tables(Lineage(g, g[c].parent), statics);
      assert ts.tail == rest;
      forall i: nat | 0 < i < Length(ts)
        ensures At(ts, i) == At(rest, i - 1) && Ancestor(g, c, i) == Ancestor(g, g[c].parent, i - 1)
      {
      }
    }
  }

  /** The nearest class that mentions the method decides; concrete goes before abstract. */
  ghost function Required(l: List<Table>, n: Name): Option<nat> {
    if l.End? || n in l.head.methods then None
    else if n in l.head.abstracts then Some(l.head.abstracts[n])
    else Required(l.tail, n)
  }

  /** Class `i`, counted from the leaf, declares the method abstract, and no class at or below it implements it. */
  ghost predicate OpenAt(l: List<Table>, n: Name, i: nat) {
    i < Length(l) && n in At(l, i).abstracts && forall j: nat :: j <= i ==> n !in At(l, j).methods
  }

  /** And no class below it declares it. */
  ghost predicate RequiredAt(l: List<Table>, n: Name, i: nat, arity: nat) {
    OpenAt(l, n, i) && At(l, i).abstracts[n] == arity && forall j: nat :: j < i ==> n !in At(l, j).abstracts
  }

  ghost predicate NearestOpen(l: List<Table>, n: Name, arity: nat) {
    exists i: nat :: RequiredAt(l, n, i, arity)
  }

  ghost predicate LeftOpen(l: List<Table>, n: Name) {
    exists i: nat :: OpenAt(l, n, i)
  }

  /** The walk stops at the class that decides, with that class's arity. */
  lemma {:induction false} WalkFinds(l: List<Table>, n: Name)
    requires Required(l, n).Some?
    ensures NearestOpen(l, n, Required(l, n).value)
  {
    if n in l.head.abstracts {
      assert RequiredAt(l, n, 0, Required(l, n).value);
    } else {
      WalkFinds(l.tail, n);
      var k: nat :| RequiredAt(l.tail, n, k, Required(l, n).value);
      forall j: nat | j <= k + 1 ensures n !in At(l, j).methods && (j < k + 1 ==> n !in At(l, j).abstracts) {
        assert j > 0 ==> At(l, j) == At(l.tail, j - 1);
      }
      assert RequiredAt(l, n, k + 1, Required(l, n).value);
    }
  }

  /** An open declaration keeps the walk from ending without a result. */
  lemma {:induction false} WalkMisses(l: List<Table>, n: Name, i: nat)
    requires OpenAt(l, n, i)
    ensures Required(l, n).Some? && forall a: nat :: RequiredAt(l, n, i, a) ==> Required(l, n) == Some(a)
  {
    assert n !in At(l, 0).methods;
    if n !in l.head.abstracts {
      assert i > 0;
      forall j: nat | j <= i - 1
        ensures n !in At(l.tail, j).methods && (n !in At(l, j + 1).abstracts ==> n !in At(l.tail, j).abstracts)
      {
        assert At(l, j + 1) == At(l.tail, j);
      }
      WalkMisses(l.tail, n, i - 1);
      forall a: nat | RequiredAt(l, n, i, a) ensures RequiredAt(l.tail, n, i - 1, a) {
        forall j: nat | j < i - 1 ensures n !in At(l.tail, j).abstracts {
          assert n !in At(l, j + 1).abstracts;
        }
      }
    } else if i > 0 {
      assert n in At(l, 0).abstracts;
    }
  }

  /**
   A method is required with an arity exactly when some class declares it abstract with
   it, none at or below that class implements it and none below it declares it; and it is
   required at all exactly when some declaration is left open.
   */
  lemma RequiredExact(l: List<Table>, n: Name, arity: nat)
    ensures Required(l, n) == Some(arity) <==> NearestOpen(l, n, arity)
    ensures Required(l, n).Some? <==> LeftOpen(l, n)
  {
    if Required(l, n).Some? {
      WalkFinds(l, n);
    }
    if i: nat :| OpenAt(l, n, i) {
      WalkMisses(l, n, i);
    }
    if i: nat :| RequiredAt(l, n, i, arity) {
      WalkMisses(l, n, i);
    }
  }

  lemma RequiredMeans(l: List<Table>, n: Name)
    ensures if Required(l, n).Some? then LeftOpen(l, n) && NearestOpen(l, n, Required(l, n).value) else !LeftOpen(l, n)
  {
    RequiredExact(l, n, if Required(l, n).Some? then Required(l, n).value else 0);
  }

  /** inheritedAbstractMethodArity, and with `statics` inheritedAbstractClassMethodArity: from the leaf up. */
  method InheritedAbstractArity(g: Classes, start: Name, name: Name, statics: bool) returns (arity: Option<nat>)
    requires Ends(g, start)
    ensures arity == Required(Tables(Lineage(g, start), statics), name)
    ensures if arity.Some? then NearestOpen(Tables(Lineage(g, start), statics), name, arity.value)
            else !LeftOpen(Tables(Lineage(g, start), statics), name)
  {
    RequiredMeans(Tables(Lineage(g, start), statics), name);
    var c := start;
    while c != NONE
      invariant Ends(g, c)
      invariant Required(Tables(Lineage(g, c), statics), name) == Required(Tables(Lineage(g, start), statics), name)
      decreases Reach(Parents(g), {c})
    {
      if c !in g {
        assert Tables(Lineage(g, c), statics).tail == End;
        return None;
      }
      var t := if statics then g[c].statics else g[c].instance;
      if name in t.methods {
        return None;
      }
      if name in t.abstracts {
        return Some(t.abstracts[name]);
      }
      Descends(g, c);
      c := g[c].parent;
    }
    return None;
  }

  /** What is still required of the classes in `l`, which the map `reqs` is to hold. */
  ghost predicate Holds(reqs: map<Name, nat>, l: List<Table>) {
    forall n :: (n in reqs <==> Required(l, n).Some?) && (n in reqs ==> reqs[n] == Required(l, n).value)
  }

  /** `reqs` is what the classes in `l` leave open, each with the arity of its nearest declaration. */
  ghost predicate Means(reqs: map<Name, nat>, l: List<Table>) {
    forall n :: (n in reqs <==> LeftOpen(l, n)) && (n in reqs ==> NearestOpen(l, n, reqs[n]))
  }

  lemma HoldsMeans(reqs: map<Name, nat>, l: List<Table>)
    requires Holds(reqs, l)
    ensures Means(reqs, l)
  {
    forall n ensures (n in reqs <==> LeftOpen(l, n)) && (n in reqs ==> NearestOpen(l, n, reqs[n])) {
      RequiredMeans(l, n);
    }
  }

  /** One class further down: its abstract methods come in, then its concrete ones go out. */
  function Down(reqs: map<Name, nat>, t: Table): map<Name, nat> {
    (reqs + t.abstracts) - t.methods.Keys
  }

  lemma DownHolds(reqs: map<Name, nat>, t: Table, l: List<Table>)
    requires Holds(reqs, l)
    ensures Holds(Down(reqs, t), Cons(t, l))
  {
  }

  /** effectiveAbstractRequirements: the chain is gathered first and then folded from the root down. */
  method EffectiveAbstractRequirements(g: Classes, start: Name)
    returns (instance: map<Name, nat>, statics: map<Name, nat>)
    requires Ends(g, start)
    ensures Holds(instance, Tables(Lineage(g, start), false))
    ensures Holds(statics, Tables(Lineage(g, start), true))
    ensures Means(instance, Tables(Lineage(g, start), false)) && Means(statics, Tables(Lineage(g, start), true))
  {
    var chain: List<Class> := End;
    var c := start;
    while c != NONE
      invariant Ends(g, c)
      invariant Upside(chain, Lineage(g, c)) == Lineage(g, start)
      decreases if c == NONE then 0 else if c in g then 2 else 1, Reach(Parents(g), {c})
    {
      if c in g {
        Descends(g, c);
      } else {
        EndsAtNone(g, c);
        EndsAtNone(g, NONE);
      }
      chain := Cons(Info(g, c), chain);
      c := Info(g, c).parent;
    }
    instance, statics := map[], map[];
    ghost var done: List<Class> := End;
    while chain.Cons?
      invariant Upside(chain, done) == Lineage(g, start)
      invariant Holds(instance, Tables(done, false)) && Holds(statics, Tables(done, true))
      decreases chain
    {
      DownHolds(instance, chain.head.instance, Tables(done, false));
      DownHolds(statics, chain.head.statics, Tables(done, true));
      instance := Down(instance, chain.head.instance);
      statics := Down(statics, chain.head.statics);
      done := Cons(chain.head, done);
      chain := chain.tail;
    }
    HoldsMeans(instance, Tables(done, false));
    HoldsMeans(statics, Tables(done, true));
  }

  /** `above` with the classes of `chain`, a root-first list, put under it. */
  ghost function Upside(chain: List<Class>, above: List<Class>): List<Class>
    decreases chain
  {
    if chain.End? then above else Upside(chain.tail, Cons(chain.head, above))
  }

  /** Some instance method or class method `n` of `c` is left open. */
  ghost predicate MethodOpen(g: Classes, c: Name, n: Name)
    requires Ends(g, c)
  {
    LeftOpen(Tables(Lineage(g, c), false), n) || LeftOpen(Tables(Lineage(g, c), true), n)
  }

  /** checkAbstractImplementations: a class that is not abstract leaves no method open. */
  method CheckAbstract(g: Classes, c: Name, isAbstract: bool) returns (ok: bool)
    requires Ends(g, c)
    ensures ok <==> isAbstract || forall n :: !MethodOpen(g, c, n)
  {
    var instance, statics := EffectiveAbstractRequirements(g, c);
    forall n ensures MethodOpen(g, c, n) <==> n in instance || n in statics {
      RequiredMeans(Tables(Lineage(g, c), false), n);
      RequiredMeans(Tables(Lineage(g, c), true), n);
    }
    ok := isAbstract || (instance == map[] && statics == map[]);
    if instance == map[] && statics == map[] {
      forall n ensures !MethodOpen(g, c, n) {
        assert n !in instance && n !in statics;
      }
    } else {
      ghost var n :| n in instance || n in statics;
      assert MethodOpen(g, c, n);
    }
  }
}
