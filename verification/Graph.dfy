/**
 Finite directed graphs, shared by the collector, the interface walks and the
 task graph.  A node without an entry in the map has no successors.
 */
module Graph {

  type Digraph<T> = map<T, set<T>>

  ghost function Succ<T>(g: Digraph<T>, x: T): set<T> {
    if x in g then g[x] else {}
  }

  ghost function Nodes<T>(g: Digraph<T>): set<T> {
    g.Keys + set x, y | x in g.Keys && y in g[x] :: y
  }

  /** One breadth-first layer. */
  ghost function Grow<T>(g: Digraph<T>, s: set<T>): set<T> {
    s + set x, y | x in s && y in Succ(g, x) :: y
  }

  ghost predicate Closed<T>(g: Digraph<T>, s: set<T>) {
    forall x :: x in s ==> Succ(g, x) <= s
  }

  /** Every node reachable from `s`, by growing `s` until nothing is added. */
  ghost function Reach<T>(g: Digraph<T>, s: set<T>): set<T>
    decreases Nodes(g) - s
  {
    var t := Grow(g, s);
    if t == s then s else
      assert Nodes(g) - t < Nodes(g) - s by {
        var y :| y in t && y !in s;
        assert y in Nodes(g);
      }
      Reach(g, t)
  }

  /** Reach is closed and is below every closed set that contains the start. */
  lemma {:induction false} ReachLeast<T>(g: Digraph<T>, s: set<T>, c: set<T>)
    ensures s <= Reach(g, s) && Closed(g, Reach(g, s))
    ensures s <= c && Closed(g, c) ==> Reach(g, s) <= c
    decreases Nodes(g) - s
  {
    var t := Grow(g, s);
    if t != s {
      assert Nodes(g) - t < Nodes(g) - s by {
        var y :| y in t && y !in s;
        assert y in Nodes(g);
      }
      ReachLeast(g, t, c);
      if s <= c && Closed(g, c) {
        assert t <= c;
      }
    }
  }

  lemma ReachContains<T>(g: Digraph<T>, s: set<T>)
    ensures s <= Reach(g, s) && Closed(g, Reach(g, s))
  {
    ReachLeast(g, s, s);
  }

  lemma ReachMonotone<T>(g: Digraph<T>, a: set<T>, b: set<T>)
    requires a <= Reach(g, b)
    ensures Reach(g, a) <= Reach(g, b)
  {
    ReachContains(g, b);
    ReachLeast(g, a, Reach(g, b));
  }

  /** What is reachable from `x` is `x` and what its successors reach. */
  lemma ReachStep<T>(g: Digraph<T>, x: T)
    ensures Reach(g, {x}) == {x} + Reach(g, Succ(g, x))
  {
    ReachContains(g, {x});
    ReachContains(g, Succ(g, x));
    ReachMonotone(g, Succ(g, x), {x});
    ReachLeast(g, {x}, {x} + Reach(g, Succ(g, x)));
  }

  lemma ReachUnion<T>(g: Digraph<T>, a: set<T>, b: set<T>)
    ensures Reach(g, a + b) == Reach(g, a) + Reach(g, b)
  {
    ReachContains(g, a);
    ReachContains(g, b);
    ReachContains(g, a + b);
    ReachMonotone(g, a, a + b);
    ReachMonotone(g, b, a + b);
    ReachLeast(g, a + b, Reach(g, a) + Reach(g, b));
  }

  // ----- paths: the same notion, by witnesses -----

  ghost predicate IsPath<T>(g: Digraph<T>, p: seq<T>) {
    p != [] && forall i :: 0 <= i < |p| - 1 ==> p[i+1] in Succ(g, p[i])
  }

  ghost predicate Connects<T>(g: Digraph<T>, p: seq<T>, x: T, y: T) {
    IsPath(g, p) && p[0] == x && p[|p|-1] == y
  }

  lemma {:induction false} PathInReach<T>(g: Digraph<T>, p: seq<T>)
    requires IsPath(g, p)
    ensures p[|p|-1] in Reach(g, {p[0]})
  {
    ReachContains(g, {p[0]});
    if |p| > 1 {
      var q := p[1..];
      assert IsPath(g, q) by {
        forall i | 0 <= i < |q| - 1 ensures q[i+1] in Succ(g, q[i]) {
          assert q[i] == p[i+1] && q[i+1] == p[i+2];
        }
      }
      PathInReach(g, q);
      assert p[1] in Succ(g, p[0]);
      ReachMonotone(g, {p[1]}, {p[0]});
    }
  }

  /** Reach is exactly path reachability. */
  lemma ReachIsPaths<T(!new)>(g: Digraph<T>, x: T, y: T)
    ensures y in Reach(g, {x}) <==> exists p :: Connects(g, p, x, y)
  {
    if p :| Connects(g, p, x, y) {
      PathInReach(g, p);
    }
    if y in Reach(g, {x}) {
      var c := set z | z in Reach(g, {x}) && exists p :: Connects(g, p, x, z);
      ReachContains(g, {x});
      assert Connects(g, [x], x, x);
      forall z, w | z in c && w in Succ(g, z) ensures w in c {
        var p :| Connects(g, p, x, z);
        assert Connects(g, p + [w], x, w);
      }
      ReachLeast(g, {x}, c);
    }
  }

  /** The same from a set of starts. */
  lemma PathFromSet<T(!new)>(g: Digraph<T>, s: set<T>, y: T) returns (p: seq<T>)
    requires y in Reach(g, s)
    ensures IsPath(g, p) && p[0] in s && p[|p|-1] == y
  {
    var c := set x, z | x in s && z in Reach(g, {x}) :: z;
    forall x | x in s ensures x in Reach(g, {x}) && Closed(g, Reach(g, {x})) {
      ReachContains(g, {x});
    }
    ReachLeast(g, s, c);
    var x :| x in s && y in Reach(g, {x});
    ReachIsPaths(g, x, y);
    p :| Connects(g, p, x, y);
  }

  // ----- cycles -----

  /** `x` lies on a cycle. */
  ghost predicate OnCycle<T>(g: Digraph<T>, x: T) {
    x in Reach(g, Succ(g, x))
  }

  ghost predicate AcyclicFrom<T>(g: Digraph<T>, s: set<T>) {
    forall x :: x in Reach(g, s) ==> !OnCycle(g, x)
  }

  lemma AcyclicBelow<T>(g: Digraph<T>, s: set<T>, t: set<T>)
    requires AcyclicFrom(g, s) && t <= Reach(g, s)
    ensures AcyclicFrom(g, t)
  {
    ReachMonotone(g, t, s);
  }

  /** A walk from `s` meets no cycle and nothing in `off`, the nodes it came through. */
  ghost predicate Free<T>(g: Digraph<T>, s: set<T>, off: set<T>) {
    AcyclicFrom(g, s) && Reach(g, s) !! off
  }

  lemma FreeStep<T>(g: Digraph<T>, x: T, off: set<T>)
    requires x !in off
    ensures Free(g, {x}, off) <==> Free(g, Succ(g, x), off + {x})
    ensures Reach(g, {x}) == {x} + Reach(g, Succ(g, x))
  {
    ReachStep(g, x);
    ReachContains(g, Succ(g, x));
    if Free(g, {x}, off) {
      AcyclicBelow(g, {x}, Succ(g, x));
      assert !OnCycle(g, x);
    }
  }

  lemma FreeUnion<T>(g: Digraph<T>, a: set<T>, b: set<T>, off: set<T>)
    ensures Free(g, a + b, off) <==> Free(g, a, off) && Free(g, b, off)
    ensures Reach(g, a + b) == Reach(g, a) + Reach(g, b)
  {
    ReachUnion(g, a, b);
  }

  lemma FreeEmpty<T>(g: Digraph<T>, off: set<T>)
    ensures Free(g, {}, off) && Reach(g, {}) == {}
  {
    ReachLeast(g, {}, {});
  }
}
