/** Where marking begins, and what it is to reach. */
module RootSet {
  import opened Basics
  import opened Graph
  import opened Heap
  import opened RootFrames

  ghost function CellRefs(cells: seq<Addr>, vars: map<Addr, Value>): set<Addr> {
    set c, a | c in cells && c in vars && a in ValueRefs(vars[c]) :: a
  }

  ghost function FrameRefs(f: Frame, vars: map<Addr, Value>): set<Addr> {
    CellRefs(f.roots, vars) + SeqRefs(f.protectedValues)
  }

  ghost function FrameListRefs(l: List<Addr>, t: Tables): set<Addr> {
    if l.End? then {} else
      (if l.head in t.frames then FrameRefs(t.frames[l.head], t.variables) else {}) + FrameListRefs(l.tail, t)
  }

  ghost function RaiseRefs(hs: Handlers, m: map<Addr, RaiseFrame>): set<Addr> {
    if hs.NoHandler? then {} else
      (if hs.r in m then ValueRefs(m[hs.r].value) else {}) + RaiseRefs(hs.outer, m)
  }

  /** Every root variable exists. */
  ghost predicate RootsDefined(t: Tables) {
    forall x :: x in t.frames ==> Elems(t.frames[x].roots) <= t.variables.Keys
  }

  ghost predicate RootsOk(globals: seq<Addr>, t: Tables, g: Shape, live: seq<Addr>) {
    Inv(t, g) && Elems(globals) <= t.variables.Keys && RootsDefined(t) && NULL !in live
  }

  /** Registered globals, the frames of all tasks, the current task's handlers, and live tasks. */
  ghost function Roots(globals: seq<Addr>, t: Tables, g: Shape, live: seq<Addr>): set<Addr>
    requires t.current in g.tasks
  {
    CellRefs(globals, t.variables) + FrameListRefs(g.order, t) +
    RaiseRefs(g.tasks[t.current].handlers, t.handlers) + Elems(live)
  }

  /** The objects that a collection keeps. */
  ghost function Survivors(m: map<Addr, Body>, roots: set<Addr>): set<Addr>
    requires HeapOk(m)
  {
    Reach(RefGraph(m), roots)
  }
}
