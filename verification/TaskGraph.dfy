/**
 The task runner: a depth-first check of the dependency graph, then a memoised run
 whose termination rests on that check.
 */
module TaskGraph {
  import opened Basics
  import opened Graph

  /** The tasks of a manifest with the tasks each depends on. */
  type Tasks = map<Name, List<Name>>

  ghost function Deps(g: Tasks): Digraph<Name> {
    map n | n in g :: Members(g[n])
  }

  function Elements<T>(s: seq<T>): set<T> {
    set x | x in s
  }

  // ----- the check -----

  datatype Verdict = Valid | Unknown(parent: Name, name: Name) | Cycle(path: seq<Name>)

  /** Everything the tasks in `s` need is defined, nothing needs itself, and nothing in `visiting` is needed. */
  ghost predicate Sound(g: Tasks, s: set<Name>, visiting: set<Name>) {
    Reach(Deps(g), s) <= g.Keys && Free(Deps(g), s, visiting)
  }

  /** What has been checked is sound and complete. */
  ghost predicate Checked(g: Tasks, visited: set<Name>, visiting: set<Name>) {
    Reach(Deps(g), visited) == visited && Sound(g, visited, visiting)
  }

  lemma CheckedReach(g: Tasks, visited: set<Name>, visiting: set<Name>, name: Name)
    requires Checked(g, visited, visiting) && name in visited
    ensures Sound(g, {name}, visiting) && visited + Reach(Deps(g), {name}) == visited
  {
    FreeUnion(Deps(g), visited, {name}, visiting);
    assert visited + {name} == visited;
  }

  /** A task that has not been checked is needed by none that has. */
  lemma CheckedWithout(g: Tasks, visited: set<Name>, visiting: set<Name>, name: Name)
    requires Checked(g, visited, visiting) && name !in visited
    ensures Checked(g, visited, visiting + {name})
  {
  }

  lemma SoundStep(g: Tasks, name: Name, visiting: set<Name>)
    requires name in g && name !in visiting
    ensures Sound(g, {name}, visiting) <==> Sound(g, Members(g[name]), visiting + {name})
    ensures Reach(Deps(g), {name}) == {name} + Reach(Deps(g), Members(g[name]))
  {
    assert Succ(Deps(g), name) == Members(g[name]);
    FreeStep(Deps(g), name, visiting);
  }

  lemma SoundUnion(g: Tasks, a: set<Name>, b: set<Name>, visiting: set<Name>)
    ensures Sound(g, a + b, visiting) <==> Sound(g, a, visiting) && Sound(g, b, visiting)
    ensures Reach(Deps(g), a + b) == Reach(Deps(g), a) + Reach(Deps(g), b)
  {
    FreeUnion(Deps(g), a, b, visiting);
  }

  /** A task joins the checked ones when all it needs has been checked. */
  lemma CheckedMore(g: Tasks, visited: set<Name>, name: Name, visiting: set<Name>)
    requires name in g && name !in visiting && Sound(g, {name}, visiting)
    requires Checked(g, visited, visiting + {name}) && Reach(Deps(g), Members(g[name])) <= visited
    ensures Checked(g, visited + {name}, visiting)
  {
    SoundStep(g, name, visiting);
    SoundUnion(g, visited, {name}, visiting);
  }

  /** The reported cycle is a chain of dependencies that comes back to a task it has passed. */
  ghost predicate IsCycle(g: Tasks, selected: Name, path: seq<Name>) {
    IsPath(Deps(g), path) && path[0] == selected && path[|path| - 1] in path[..|path| - 1]
  }

  ghost predicate Justified(g: Tasks, selected: Name, r: Verdict) {
    match r
    case Valid => true
    case Unknown(parent, name) =>
      name !in g && (name in Succ(Deps(g), parent) || (name == selected && parent == selected))
    case Cycle(path) => IsCycle(g, selected, path)
  }

  /** `stack` is the way from the selected task to the one being visited. */
  ghost predicate Arrives(g: Tasks, selected: Name, stack: seq<Name>, name: Name) {
    IsPath(Deps(g), stack + [name]) && (stack + [name])[0] == selected
  }

  lemma ArrivesNext(g: Tasks, selected: Name, stack: seq<Name>, name: Name)
    requires Arrives(g, selected, stack, name) && name in g
    ensures forall d :: d in Members(g[name]) ==> Arrives(g, selected, stack + [name], d)
    ensures Elements(stack + [name]) == Elements(stack) + {name}
  {
    assert Succ(Deps(g), name) == Members(g[name]);
  }

  /** The two reasons to refuse a task at once, and their messages. */
  lemma Refused(g: Tasks, selected: Name, stack: seq<Name>, name: Name)
    requires Arrives(g, selected, stack, name)
    ensures name !in g || name in Elements(stack) ==> !Sound(g, {name}, Elements(stack))
    ensures name !in g ==> Justified(g, selected, Unknown(if stack != [] then stack[|stack| - 1] else selected, name))
    ensures name in Elements(stack) ==> Justified(g, selected, Cycle(stack + [name]))
  {
    ReachContains(Deps(g), {name});
    ArrivesFrom(g, selected, stack, name);
    assert (stack + [name])[..|stack|] == stack;
  }

  lemma ArrivesFrom(g: Tasks, selected: Name, stack: seq<Name>, name: Name)
    requires Arrives(g, selected, stack, name)
    ensures if stack == [] then name == selected else name in Succ(Deps(g), stack[|stack| - 1])
  {
    var p := stack + [name];
    if stack != [] {
      assert p[|stack| - 1 + 1] in Succ(Deps(g), p[|stack| - 1]);
    }
  }

  /** The closure `visit` of validateTaskGraph. */
  method Visit(g: Tasks, selected: Name, name: Name, stack: seq<Name>, visiting: set<Name>, visited: set<Name>)
    returns (r: Verdict, visited': set<Name>)
    requires visiting == Elements(stack) && visiting <= g.Keys && Checked(g, visited, visiting)
    requires Arrives(g, selected, stack, name)
    ensures r.Valid? <==> Sound(g, {name}, visiting)
    ensures r.Valid? ==> visited' == visited + Reach(Deps(g), {name}) && Checked(g, visited', visiting)
    ensures Justified(g, selected, r)
    decreases g.Keys - visiting, 0
  {
    Refused(g, selected, stack, name);
    if name !in g {
      return Unknown(if stack != [] then stack[|stack| - 1] else selected, name), visited;
    }
    if name in visiting {
      return Cycle(stack + [name]), visited;
    }
    if name in visited {
      CheckedReach(g, visited, visiting, name);
      return Valid, visited;
    }
    SoundStep(g, name, visiting);
    ArrivesNext(g, selected, stack, name);
    CheckedWithout(g, visited, visiting, name);
    r, visited' := VisitDeps(g, selected, name, stack + [name], visiting + {name}, visited);
    if r.Valid? {
      CheckedMore(g, visited', name, visiting);
      visited' := visited' + {name};
    }
  }

  /** The loop over the dependencies of `name`. */
  method VisitDeps(g: Tasks, selected: Name, name: Name, stack: seq<Name>, visiting: set<Name>, visited: set<Name>)
    returns (r: Verdict, visited': set<Name>)
    requires visiting == Elements(stack) && visiting <= g.Keys && Checked(g, visited, visiting)
    requires name in g && forall d :: d in Members(g[name]) ==> Arrives(g, selected, stack, d)
    ensures r.Valid? <==> Sound(g, Members(g[name]), visiting)
    ensures r.Valid? ==> visited' == visited + Reach(Deps(g), Members(g[name])) && Checked(g, visited', visiting)
    ensures Justified(g, selected, r)
    decreases g.Keys - visiting, 1
  {
    visited' := visited;
    var rest := g[name];
    while rest.Cons?
      invariant Members(rest) <= Members(g[name])
      invariant Checked(g, visited', visiting)
      invariant visited' + Reach(Deps(g), Members(rest)) == visited + Reach(Deps(g), Members(g[name]))
      invariant Sound(g, Members(g[name]), visiting) <==> Sound(g, Members(rest), visiting)
      decreases rest
    {
      SoundUnion(g, {rest.head}, Members(rest.tail), visiting);
      r, visited' := Visit(g, selected, rest.head, stack, visiting, visited');
      if !r.Valid? {
        return;
      }
      rest := rest.tail;
    }
    FreeEmpty(Deps(g), visiting);
    r := Valid;
  }

  /** validateTaskGraph */
  method Validate(g: Tasks, selected: Name) returns (r: Verdict)
    ensures r.Valid? <==> Reach(Deps(g), {selected}) <= g.Keys && AcyclicFrom(Deps(g), {selected})
    ensures Justified(g, selected, r)
  {
    FreeEmpty(Deps(g), {});
    assert [] + [selected] == [selected];
    var v, _ := Visit(g, selected, selected, [], {}, {});
    r := v;
  }

  // ----- the run -----

  /** How a task's commands end; `failed` is an error other than the exit code. */
  datatype Outcome = Outcome(code: int, failed: bool)

  const SUCCESS := Outcome(0, false)

  /** A task that was started, and whether it got the extra arguments. */
  datatype Execution = Execution(name: Name, withArgs: bool)

  ghost function Names(log: List<Execution>): set<Name> {
    if log.End? then {} else {log.head.name} + Names(log.tail)
  }

  /** The latest execution came at its turn: first of its task, after everything the task needs. */
  ghost predicate InTurn(g: Tasks, selected: Name, log: List<Execution>)
    requires log.Cons?
  {
    var name := log.head.name;
    name !in Names(log.tail) && Reach(Deps(g), Succ(Deps(g), name)) <= Names(log.tail) &&
    (log.head.withArgs <==> name == selected)
  }

  /** `log`, the latest execution first: each at its turn and successful. */
  ghost predicate Succeeded(g: Tasks, outcome: Name -> Outcome, selected: Name, log: List<Execution>) {
    log.Cons? ==>
      InTurn(g, selected, log) && outcome(log.head.name) == SUCCESS && Succeeded(g, outcome, selected, log.tail)
  }

  /** The latest execution failed, and nothing was started after it. */
  ghost predicate Stopped(g: Tasks, outcome: Name -> Outcome, selected: Name, log: List<Execution>) {
    log.Cons? && InTurn(g, selected, log) && outcome(log.head.name) != SUCCESS &&
    Succeeded(g, outcome, selected, log.tail)
  }

  lemma {:induction false} LogIsClosed(g: Tasks, outcome: Name -> Outcome, selected: Name, log: List<Execution>,
                                       x: Name)
    requires Succeeded(g, outcome, selected, log) && x in Names(log)
    ensures Reach(Deps(g), {x}) <= Names(log) && outcome(x) == SUCCESS
  {
    if x == log.head.name {
      ReachStep(Deps(g), x);
    } else {
      LogIsClosed(g, outcome, selected, log.tail, x);
    }
  }

  // ----- the order of the run -----

  /** The tasks that are started for `name`, in order, when those in `done` have been run and none fails. */
  ghost function TaskPlan(g: Tasks, name: Name, done: set<Name>): seq<Name>
    requires Sound(g, {name}, {})
    decreases Reach(Deps(g), {name}), 0
  {
    if name in done then [] else
      Below(g, name);
      ReachContains(Deps(g), {name});
      Plan(g, g[name], done) + [name]
  }

  /** The same for several tasks: one after the other. */
  ghost function Plan(g: Tasks, ds: List<Name>, done: set<Name>): seq<Name>
    requires Sound(g, Members(ds), {})
    decreases Reach(Deps(g), Members(ds)), 1, ds
  {
    if ds.End? then [] else
      SoundUnion(g, {ds.head}, Members(ds.tail), {});
      var first := TaskPlan(g, ds.head, done);
      first + Plan(g, ds.tail, done + Elements(first))
  }

  lemma PlanEnd(g: Tasks, done: set<Name>)
    ensures Sound(g, {}, {}) && Plan(g, End, done) == []
  {
    FreeEmpty(Deps(g), {});
  }

  lemma PlanCons(g: Tasks, ds: List<Name>, done: set<Name>)
    requires ds.Cons? && Sound(g, Members(ds), {})
    ensures Sound(g, {ds.head}, {}) && Sound(g, Members(ds.tail), {})
    ensures var first := TaskPlan(g, ds.head, done);
            Plan(g, ds, done) == first + Plan(g, ds.tail, done + Elements(first))
  {
    SoundUnion(g, {ds.head}, Members(ds.tail), {});
  }

  lemma ElementsConcat(done: set<Name>, a: seq<Name>, b: seq<Name>)
    ensures done + Elements(a) + Elements(b) == done + Elements(a + b)
  {
  }

  lemma {:induction false} SoundAppend(g: Tasks, a: List<Name>, b: List<Name>)
    requires Sound(g, Members(a), {}) && Sound(g, Members(b), {})
    ensures Sound(g, Members(Append(a, b)), {})
  {
    if a.Cons? {
      SoundUnion(g, {a.head}, Members(a.tail), {});
      SoundAppend(g, a.tail, b);
      SoundUnion(g, {a.head}, Members(Append(a.tail, b)), {});
    }
  }

  /** Everything for the first tasks is started before anything for the others. */
  lemma {:induction false} PlanAppend(g: Tasks, a: List<Name>, b: List<Name>, done: set<Name>)
    requires Sound(g, Members(a), {}) && Sound(g, Members(b), {})
    ensures Sound(g, Members(Append(a, b)), {})
    ensures Plan(g, Append(a, b), done) == Plan(g, a, done) + Plan(g, b, done + Elements(Plan(g, a, done)))
    decreases a
  {
    SoundAppend(g, a, b);
    if a.End? {
      PlanEnd(g, done);
      assert done + Elements<Name>([]) == done;
    } else {
      PlanCons(g, a, done);
      PlanCons(g, Append(a, b), done);
      var first := TaskPlan(g, a.head, done);
      var later := done + Elements(first);
      var next := Plan(g, a.tail, later);
      PlanAppend(g, a.tail, b, later);
      ElementsConcat(done, first, next);
      Regroup(Plan(g, Append(a, b), done), first, Plan(g, Append(a.tail, b), later), next,
              Plan(g, b, later + Elements(next)), Plan(g, a, done));
    }
  }

  lemma Regroup<T>(whole: seq<T>, first: seq<T>, rest: seq<T>, next: seq<T>, last: seq<T>, front: seq<T>)
    requires whole == first + rest && rest == next + last && front == first + next
    ensures whole == front + last
  {
  }

  /** The tasks of a log, the earliest first. */
  ghost function Started(log: List<Execution>): seq<Name> {
    if log.End? then [] else Started(log.tail) + [log.head.name]
  }

  lemma {:induction false} StartedNames(log: List<Execution>)
    ensures Elements(Started(log)) == Names(log)
  {
    if log.Cons? {
      StartedNames(log.tail);
    }
  }

  ghost predicate AllSucceed(outcome: Name -> Outcome, names: seq<Name>) {
    forall n :: n in names ==> outcome(n) == SUCCESS
  }

  /** The plan is followed up to its end, or up to and with the first task that fails. */
  ghost predicate Follows(outcome: Name -> Outcome, plan: seq<Name>, names: seq<Name>, r: Outcome) {
    names <= plan &&
    if r == SUCCESS then names == plan && AllSucceed(outcome, plan)
    else names != [] && outcome(names[|names| - 1]) == r && AllSucceed(outcome, names[..|names| - 1])
  }

  /** The part of the log since `log`. */
  ghost predicate Since(log: List<Execution>, log': List<Execution>, names: seq<Name>) {
    Started(log') == Started(log) + names
  }

  /** `names` of the plan have been run; then `front` comes, and `last` after it. */
  lemma FollowsNext(outcome: Name -> Outcome, plan: seq<Name>, names: seq<Name>, front: seq<Name>, last: seq<Name>,
                    more: seq<Name>, r: Outcome)
    requires plan == names + (front + last) && AllSucceed(outcome, names) && Follows(outcome, front, more, r)
    ensures r == SUCCESS ==> AllSucceed(outcome, names + more) && more == front && plan == names + more + last
    ensures r != SUCCESS ==> Follows(outcome, plan, names + more, r)
  {
    assert names + (front + last) == names + front + last;
    if r != SUCCESS {
      assert (names + more)[..|names + more| - 1] == names + more[..|more| - 1];
    }
  }

  /** The last of a plan is run. */
  lemma FollowsLast(outcome: Name -> Outcome, plan: seq<Name>, names: seq<Name>, name: Name, r: Outcome)
    requires Follows(outcome, plan, names, r)
    ensures r == SUCCESS ==> Follows(outcome, plan + [name], names + [name], outcome(name))
    ensures r != SUCCESS ==> Follows(outcome, plan + [name], names, r)
  {
    assert (plan + [name])[..|plan|] == plan;
  }

  lemma SinceTrans(a: List<Execution>, b: List<Execution>, c: List<Execution>, x: seq<Name>, y: seq<Name>)
    requires Since(a, b, x) && Since(b, c, y)
    ensures Since(a, c, x + y)
  {
  }

  lemma NamesSince(log: List<Execution>, log': List<Execution>, names: seq<Name>)
    requires Since(log, log', names)
    ensures Names(log') == Names(log) + Elements(names)
  {
    StartedNames(log);
    StartedNames(log');
  }

  /** `names` have been run of the plan for `ds`, and `rest` is still to be run. */
  ghost predicate Done(g: Tasks, outcome: Name -> Outcome, ds: List<Name>, ran: set<Name>, names: seq<Name>,
                       rest: List<Name>, ran': set<Name>) {
    Sound(g, Members(ds), {}) && Sound(g, Members(rest), {}) && AllSucceed(outcome, names) &&
    Plan(g, ds, ran) == names + Plan(g, rest, ran')
  }

  /** After the next dependency the plan is followed further, or ends with its failure. */
  lemma DoneNext(g: Tasks, outcome: Name -> Outcome, ds: List<Name>, ran: set<Name>, names: seq<Name>,
                 rest: List<Name>, ran': set<Name>, more: seq<Name>, r: Outcome)
    requires Done(g, outcome, ds, ran, names, rest, ran') && rest.Cons? && Sound(g, {rest.head}, {})
    requires Follows(outcome, TaskPlan(g, rest.head, ran'), more, r)
    ensures r == SUCCESS ==> Done(g, outcome, ds, ran, names + more, rest.tail, ran' + Elements(more))
    ensures r != SUCCESS ==> Follows(outcome, Plan(g, ds, ran), names + more, r)
  {
    PlanCons(g, rest, ran');
    var front := TaskPlan(g, rest.head, ran');
    FollowsNext(outcome, Plan(g, ds, ran), names, front, Plan(g, rest.tail, ran' + Elements(front)), more, r);
  }

  /** How a run of `name` from the log `log` may leave the log. */
  ghost predicate Ran(g: Tasks, outcome: Name -> Outcome, selected: Name, s: set<Name>, log: List<Execution>,
                      r: Outcome, log': List<Execution>) {
    if r == SUCCESS then Succeeded(g, outcome, selected, log') && Names(log') == Names(log) + Reach(Deps(g), s)
    else Stopped(g, outcome, selected, log') && log'.head.name in Reach(Deps(g), s) && r == outcome(log'.head.name)
  }

  /** runTaskWithDeps; runTask is the oracle `outcome`, and `log` the executions it starts. */
  method RunWithDeps(g: Tasks, outcome: Name -> Outcome, name: Name, selected: Name, ran: set<Name>,
                     log: List<Execution>)
    returns (r: Outcome, ran': set<Name>, log': List<Execution>, ghost names: seq<Name>)
    requires Sound(g, {name}, {}) && Succeeded(g, outcome, selected, log) && ran == Names(log)
    ensures Ran(g, outcome, selected, {name}, log, r, log')
    ensures r == SUCCESS ==> ran' == Names(log') && (name !in ran ==> log'.Cons? && log'.head.name == name)
    ensures r == SUCCESS || exists x :: x in Reach(Deps(g), {name}) && r == outcome(x)
    ensures Since(log, log', names) && Follows(outcome, TaskPlan(g, name, ran), names, r)
    decreases Reach(Deps(g), {name}), 0
  {
    ReachContains(Deps(g), {name});
    names := [];
    if name in ran {
      LogIsClosed(g, outcome, selected, log, name);
      assert Names(log) + Reach(Deps(g), {name}) == Names(log);
      return SUCCESS, ran, log, [];
    }
    Below(g, name);
    r, ran', log', names := RunDeps(g, outcome, name, selected, ran, log);
    FollowsLast(outcome, Plan(g, g[name], ran), names, name, r);
    OwnTurn(g, outcome, selected, name, log, r, log', names);
    if r == SUCCESS {
      r := outcome(name);
      names := names + [name];
      log' := Cons(Execution(name, name == selected), log');
      if r == SUCCESS {
        ran' := ran' + {name};
      }
    }
  }

  /** Once what it depends on has run, a task is started at its turn. */
  lemma OwnTurn(g: Tasks, outcome: Name -> Outcome, selected: Name, name: Name, log: List<Execution>, r: Outcome,
                log': List<Execution>, names: seq<Name>)
    requires Sound(g, {name}, {}) && name in g && name !in Names(log) && Since(log, log', names)
    requires Ran(g, outcome, selected, Members(g[name]), log, r, log')
    ensures r == SUCCESS ==>
              var own := Cons(Execution(name, name == selected), log');
              Ran(g, outcome, selected, {name}, log, outcome(name), own) && Since(log, own, names + [name])
    ensures r != SUCCESS ==> Ran(g, outcome, selected, {name}, log, r, log')
  {
    ReachContains(Deps(g), {name});
    Below(g, name);
    if r == SUCCESS {
      ReachContains(Deps(g), Members(g[name]));
      assert Started(log) + names + [name] == Started(log) + (names + [name]);
    }
  }

  lemma Below(g: Tasks, name: Name)
    requires Sound(g, {name}, {})
    ensures name in g && Sound(g, Members(g[name]), {}) && name !in Reach(Deps(g), Members(g[name]))
    ensures Succ(Deps(g), name) == Members(g[name])
    ensures Reach(Deps(g), {name}) == {name} + Reach(Deps(g), Members(g[name]))
  {
    ReachContains(Deps(g), {name});
    SoundStep(g, name, {});
  }

  /** The dependencies `ds` have been run up to `rest`. */
  ghost predicate RunSoFar(g: Tasks, outcome: Name -> Outcome, selected: Name, ds: List<Name>, log: List<Execution>,
                           names: seq<Name>, rest: List<Name>, log': List<Execution>) {
    Since(log, log', names) && Done(g, outcome, ds, Names(log), names, rest, Names(log')) &&
    Succeeded(g, outcome, selected, log') && Reach(Deps(g), Members(rest)) <= Reach(Deps(g), Members(ds)) &&
    Names(log') + Reach(Deps(g), Members(rest)) == Names(log) + Reach(Deps(g), Members(ds))
  }

  lemma NextDependency(g: Tasks, outcome: Name -> Outcome, selected: Name, ds: List<Name>, log: List<Execution>,
                       names: seq<Name>, rest: List<Name>, log0: List<Execution>,
                       r: Outcome, log': List<Execution>, more: seq<Name>)
    requires RunSoFar(g, outcome, selected, ds, log, names, rest, log0) && rest.Cons? && Sound(g, {rest.head}, {})
    requires Ran(g, outcome, selected, {rest.head}, log0, r, log') && Since(log0, log', more)
    requires Follows(outcome, TaskPlan(g, rest.head, Names(log0)), more, r)
    ensures if r == SUCCESS then RunSoFar(g, outcome, selected, ds, log, names + more, rest.tail, log') else
              Ran(g, outcome, selected, Members(ds), log, r, log') && Since(log, log', names + more) &&
              Follows(outcome, Plan(g, ds, Names(log)), names + more, r)
  {
    SoundUnion(g, {rest.head}, Members(rest.tail), {});
    SinceTrans(log, log0, log', names, more);
    DoneNext(g, outcome, ds, Names(log), names, rest, Names(log0), more, r);
    NamesSince(log0, log', more);
  }

  /** The loop over the dependencies of `name`. */
  method RunDeps(g: Tasks, outcome: Name -> Outcome, name: Name, selected: Name, ran: set<Name>, log: List<Execution>)
    returns (r: Outcome, ran': set<Name>, log': List<Execution>, ghost names: seq<Name>)
    requires name in g && Sound(g, Members(g[name]), {}) && Succeeded(g, outcome, selected, log) && ran == Names(log)
    ensures Ran(g, outcome, selected, Members(g[name]), log, r, log')
    ensures r == SUCCESS ==> ran' == Names(log')
    ensures Since(log, log', names) && Follows(outcome, Plan(g, g[name], ran), names, r)
    decreases Reach(Deps(g), Members(g[name])), 1
  {
    ran', log', names := ran, log, [];
    var rest := g[name];
    while rest.Cons?
      invariant ran' == Names(log') && RunSoFar(g, outcome, selected, g[name], log, names, rest, log')
      decreases rest
    {
      SoundUnion(g, {rest.head}, Members(rest.tail), {});
      ghost var log0, more := log', [];
      r, ran', log', more := RunWithDeps(g, outcome, rest.head, selected, ran', log');
      NextDependency(g, outcome, selected, g[name], log, names, rest, log0, r, log', more);
      names := names + more;
      if r != SUCCESS {
        return;
      }
      rest := rest.tail;
    }
    FreeEmpty(Deps(g), {});
    PlanEnd(g, ran');
    r := SUCCESS;
  }

  /** A run succeeds exactly when everything it needs does. */
  lemma SuccessMeans(g: Tasks, outcome: Name -> Outcome, selected: Name, r: Outcome, log: List<Execution>)
    requires Ran(g, outcome, selected, {selected}, End, r, log)
    ensures r == SUCCESS <==> forall x :: x in Reach(Deps(g), {selected}) ==> outcome(x) == SUCCESS
  {
    if r == SUCCESS {
      forall x | x in Reach(Deps(g), {selected}) ensures outcome(x) == SUCCESS {
        LogIsClosed(g, outcome, selected, log, x);
      }
    }
  }

  /**
   Check a task, then run it.  Without an error every needed task ran once, in turn, the
   selected one last; otherwise a needed task failed and ended the run with its outcome.
   */
  method Run(g: Tasks, outcome: Name -> Outcome, selected: Name)
    returns (checked: Verdict, r: Outcome, log: List<Execution>)
    ensures checked.Valid? <==> Sound(g, {selected}, {})
    ensures !checked.Valid? ==> log == End
    ensures checked.Valid? ==> Ran(g, outcome, selected, {selected}, End, r, log)
    ensures checked.Valid? ==> Follows(outcome, TaskPlan(g, selected, {}), Started(log), r)
    ensures checked.Valid? && r == SUCCESS ==>
              log.Cons? && log.head.name == selected && Names(log) == Reach(Deps(g), {selected})
    ensures checked.Valid? ==> (r == SUCCESS <==> forall x :: x in Reach(Deps(g), {selected}) ==> outcome(x) == SUCCESS)
  {
    r, log := SUCCESS, End;
    checked := Validate(g, selected);
    if checked.Valid? {
      var r', _, log', _ := RunWithDeps(g, outcome, selected, selected, {}, End);
      r, log := r', log';
      SuccessMeans(g, outcome, selected, r, log);
    }
  }
}
