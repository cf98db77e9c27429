/**
 Bodies of functions, as far as calls of super go: where the checker's scan looks for
 them, and where they are.
 */
module SuperCalls {
  import opened Basics

  datatype Expr =
    | Atom                                          // a plain literal, a name, self, a field
    | SuperCall(arguments: List<Expr>)              // super(...)
    | Call(callee: Expr, args: List<Expr>)
    | Binary(left: Expr, right: Expr)
    | Unary(operand: Expr)
    | Try(tried: Expr)
    | Member(owner: Expr)
    | Index(target: Expr, index: Expr)
    | ArrayOf(elems: List<Expr>)
    | DictOf(props: List<Expr>)
    | Text(parts: List<Expr>)                       // a string with interpolated expressions
    | Function(func: Func)
    | Spawn(spawned: Expr)
    | Await(awaited: Expr)
    | Control(stmt: Stmt)                           // if, while, for or match used as a value

  datatype Stmt =
    | Simple                                        // break, continue, import
    | Expression(expr: Expr)
    | Assign(targets: List<Expr>, values: List<Expr>)
    | Return(results: List<Expr>)
    | Raise(raised: Expr)
    | If(cond: Expr, yes: List<Stmt>, no: List<Stmt>)
    | While(test: Expr, body: List<Stmt>)
    | For(iterable: Expr, body: List<Stmt>)
    | Match(value: Expr, cases: List<Case>)
    | TryCatch(body: List<Stmt>, handler: List<Stmt>, last: List<Stmt>)
    | Scope(body: List<Stmt>)
    | Select(arms: List<Case>)

  /** A case of a match, with its pattern, or an arm of a select, with its channel, value and time. */
  datatype Case = Case(heads: List<Expr>, block: List<Stmt>)

  datatype Func = Func(defaults: List<Expr>, result: Option<Expr>, block: List<Stmt>)

  // ----- the checker's scan -----

  /** exprHasSuper */
  predicate ScanExpr(e: Expr) {
    match e
    case SuperCall(_) => true
    case Call(callee, args) => ScanExpr(callee) || ScanAny(args)
    case Binary(l, r) => ScanExpr(l) || ScanExpr(r)
    case Unary(x) => ScanExpr(x)
    case Try(x) => ScanExpr(x)
    case Member(x) => ScanExpr(x)
    case Index(x, i) => ScanExpr(x) || ScanExpr(i)
    case ArrayOf(es) => ScanAny(es)
    case DictOf(es) => ScanAny(es)
    case _ => false
  }

  predicate ScanAny(es: List<Expr>) {
    es.Cons? && (ScanExpr(es.head) || ScanAny(es.tail))
  }

  /** funcCallsSuper: the result, and the top-level expression, assignment and return statements. */
  predicate Scan(f: Func) {
    (f.result.Some? && ScanExpr(f.result.value)) || ScanBlock(f.block)
  }

  predicate ScanBlock(ss: List<Stmt>) {
    ss.Cons? && (ScanStmt(ss.head) || ScanBlock(ss.tail))
  }

  predicate ScanStmt(s: Stmt) {
    match s
    case Expression(e) => ScanExpr(e)
    case Assign(_, values) => ScanAny(values)
    case Return(results) => ScanAny(results)
    case _ => false
  }

  // ----- the calls -----

  /** super is called somewhere in the expression, which the emitter turns into a call through the super link. */
  predicate CallsExpr(e: Expr) {
    match e
    case Atom => false
    case SuperCall(_) => true
    case Call(callee, args) => CallsExpr(callee) || CallsAny(args)
    case Binary(l, r) => CallsExpr(l) || CallsExpr(r)
    case Unary(x) => CallsExpr(x)
    case Try(x) => CallsExpr(x)
    case Member(x) => CallsExpr(x)
    case Index(x, i) => CallsExpr(x) || CallsExpr(i)
    case ArrayOf(es) => CallsAny(es)
    case DictOf(es) => CallsAny(es)
    case Text(es) => CallsAny(es)
    case Function(f) => Calls(f)
    case Spawn(x) => CallsExpr(x)
    case Await(x) => CallsExpr(x)
    case Control(s) => CallsStmt(s)
  }

  predicate CallsAny(es: List<Expr>) {
    es.Cons? && (CallsExpr(es.head) || CallsAny(es.tail))
  }

  predicate CallsStmt(s: Stmt) {
    match s
    case Simple => false
    case Expression(e) => CallsExpr(e)
    case Assign(targets, values) => CallsAny(targets) || CallsAny(values)
    case Return(results) => CallsAny(results)
    case Raise(e) => CallsExpr(e)
    case If(c, yes, no) => CallsExpr(c) || CallsBlock(yes) || CallsBlock(no)
    case While(c, body) => CallsExpr(c) || CallsBlock(body)
    case For(x, body) => CallsExpr(x) || CallsBlock(body)
    case Match(v, cases) => CallsExpr(v) || CallsCases(cases)
    case TryCatch(body, handler, last) => CallsBlock(body) || CallsBlock(handler) || CallsBlock(last)
    case Scope(body) => CallsBlock(body)
    case Select(arms) => CallsCases(arms)
  }

  predicate CallsBlock(ss: List<Stmt>) {
    ss.Cons? && (CallsStmt(ss.head) || CallsBlock(ss.tail))
  }

  predicate CallsCases(cs: List<Case>) {
    cs.Cons? && (CallsAny(cs.head.heads) || CallsBlock(cs.head.block) || CallsCases(cs.tail))
  }

  predicate Calls(f: Func) {
    CallsAny(f.defaults) || (f.result.Some? && CallsExpr(f.result.value)) || CallsBlock(f.block)
  }

  // ----- what the scan sees and what it misses -----

  function Atoms(es: List<Expr>): List<Expr> {
    if es.End? then End else Cons(Atom, Atoms(es.tail))
  }

  /** The expression with what the scan does not enter replaced by atoms. */
  function SeenExpr(e: Expr): Expr {
    match e
    case SuperCall(_) => e
    case Call(callee, args) => Call(SeenExpr(callee), SeenAny(args))
    case Binary(l, r) => Binary(SeenExpr(l), SeenExpr(r))
    case Unary(x) => Unary(SeenExpr(x))
    case Try(x) => Try(SeenExpr(x))
    case Member(x) => Member(SeenExpr(x))
    case Index(x, i) => Index(SeenExpr(x), SeenExpr(i))
    case ArrayOf(es) => ArrayOf(SeenAny(es))
    case DictOf(es) => DictOf(SeenAny(es))
    case _ => Atom
  }

  function SeenAny(es: List<Expr>): List<Expr> {
    if es.End? then End else Cons(SeenExpr(es.head), SeenAny(es.tail))
  }

  function SeenStmt(s: Stmt): Stmt {
    match s
    case Expression(e) => Expression(SeenExpr(e))
    case Assign(targets, values) => Assign(Atoms(targets), SeenAny(values))
    case Return(results) => Return(SeenAny(results))
    case _ => Simple
  }

  function SeenBlock(ss: List<Stmt>): List<Stmt> {
    if ss.End? then End else Cons(SeenStmt(ss.head), SeenBlock(ss.tail))
  }

  function Seen(f: Func): Func {
    Func(Atoms(f.defaults), if f.result.Some? then Some(SeenExpr(f.result.value)) else None, SeenBlock(f.block))
  }

  /** No strings with expressions, functions, spawn, await or control flow outside the arguments of super. */
  predicate FlatExpr(e: Expr) {
    match e
    case Atom => true
    case SuperCall(_) => true
    case Call(callee, args) => FlatExpr(callee) && FlatAll(args)
    case Binary(l, r) => FlatExpr(l) && FlatExpr(r)
    case Unary(x) => FlatExpr(x)
    case Try(x) => FlatExpr(x)
    case Member(x) => FlatExpr(x)
    case Index(x, i) => FlatExpr(x) && FlatExpr(i)
    case ArrayOf(es) => FlatAll(es)
    case DictOf(es) => FlatAll(es)
    case _ => false
  }

  predicate FlatAll(es: List<Expr>) {
    es.Cons? ==> FlatExpr(es.head) && FlatAll(es.tail)
  }

  predicate AllAtoms(es: List<Expr>) {
    es.Cons? ==> es.head.Atom? && AllAtoms(es.tail)
  }

  predicate FlatBlock(ss: List<Stmt>) {
    ss.Cons? ==>
      (match ss.head
       case Simple => true
       case Expression(e) => FlatExpr(e)
       case Assign(targets, values) => AllAtoms(targets) && FlatAll(values)
       case Return(results) => FlatAll(results)
       case _ => false) &&
      FlatBlock(ss.tail)
  }

  /** A body of simple, expression, assignment and return statements, all flat. */
  predicate Flat(f: Func) {
    AllAtoms(f.defaults) && (f.result.Some? ==> FlatExpr(f.result.value)) && FlatBlock(f.block)
  }

  lemma {:induction false} AtomsCallNothing(es: List<Expr>)
    ensures !CallsAny(Atoms(es)) && (AllAtoms(es) <==> Atoms(es) == es)
  {
    if es.Cons? {
      AtomsCallNothing(es.tail);
    }
  }

  lemma {:induction false} ScanExprExact(e: Expr)
    ensures ScanExpr(e) <==> CallsExpr(SeenExpr(e))
    ensures FlatExpr(e) <==> SeenExpr(e) == e
  {
    match e
    case Call(callee, args) => ScanExprExact(callee); ScanAnyExact(args);
    case Binary(l, r) => ScanExprExact(l); ScanExprExact(r);
    case Unary(x) => ScanExprExact(x);
    case Try(x) => ScanExprExact(x);
    case Member(x) => ScanExprExact(x);
    case Index(x, i) => ScanExprExact(x); ScanExprExact(i);
    case ArrayOf(es) => ScanAnyExact(es);
    case DictOf(es) => ScanAnyExact(es);
    case _ =>
  }

  lemma {:induction false} ScanAnyExact(es: List<Expr>)
    ensures ScanAny(es) <==> CallsAny(SeenAny(es))
    ensures FlatAll(es) <==> SeenAny(es) == es
  {
    if es.Cons? {
      ScanExprExact(es.head);
      ScanAnyExact(es.tail);
    }
  }

  lemma {:induction false} ScanBlockExact(ss: List<Stmt>)
    ensures ScanBlock(ss) <==> CallsBlock(SeenBlock(ss))
    ensures FlatBlock(ss) <==> SeenBlock(ss) == ss
  {
    if ss.Cons? {
      match ss.head {
        case Expression(e) => ScanExprExact(e);
        case Assign(targets, values) => AtomsCallNothing(targets); ScanAnyExact(values);
        case Return(results) => ScanAnyExact(results);
        case _ =>
      }
      ScanBlockExact(ss.tail);
    }
  }

  /** The scan flags exactly the functions that call super where it looks; in a flat body it looks everywhere. */
  lemma ScanExact(f: Func)
    ensures Scan(f) <==> Calls(Seen(f))
    ensures Flat(f) <==> Seen(f) == f
  {
    AtomsCallNothing(f.defaults);
    ScanBlockExact(f.block);
    if f.result.Some? {
      ScanExprExact(f.result.value);
    }
  }

  /** So on flat bodies the flag is right. */
  lemma FlatScan(f: Func)
    requires Flat(f)
    ensures Scan(f) <==> Calls(f)
  {
    ScanExact(f);
  }

  lemma {:induction false} ScanExprIsCall(e: Expr)
    requires ScanExpr(e)
    ensures CallsExpr(e)
  {
    match e
    case Call(callee, args) => if ScanExpr(callee) { ScanExprIsCall(callee); } else { ScanAnyIsCall(args); }
    case Binary(l, r) => if ScanExpr(l) { ScanExprIsCall(l); } else { ScanExprIsCall(r); }
    case Unary(x) => ScanExprIsCall(x);
    case Try(x) => ScanExprIsCall(x);
    case Member(x) => ScanExprIsCall(x);
    case Index(x, i) => if ScanExpr(x) { ScanExprIsCall(x); } else { ScanExprIsCall(i); }
    case ArrayOf(es) => ScanAnyIsCall(es);
    case DictOf(es) => ScanAnyIsCall(es);
    case _ =>
  }

  lemma {:induction false} ScanAnyIsCall(es: List<Expr>)
    requires ScanAny(es)
    ensures CallsAny(es)
  {
    if ScanExpr(es.head) {
      ScanExprIsCall(es.head);
    } else {
      ScanAnyIsCall(es.tail);
    }
  }

  lemma {:induction false} ScanBlockIsCall(ss: List<Stmt>)
    requires ScanBlock(ss)
    ensures CallsBlock(ss)
  {
    if ScanStmt(ss.head) {
      match ss.head
      case Expression(e) => ScanExprIsCall(e);
      case Assign(_, values) => ScanAnyIsCall(values);
      case Return(results) => ScanAnyIsCall(results);
      case _ =>
    } else {
      ScanBlockIsCall(ss.tail);
    }
  }

  /** What the scan flags does call super. */
  lemma ScanIsCall(f: Func)
    requires Scan(f)
    ensures Calls(f)
  {
    if ScanBlock(f.block) {
      ScanBlockIsCall(f.block);
    } else {
      ScanExprIsCall(f.result.value);
    }
  }

  /** A function whose only statement is a call of super. */
  function JustSuper(): Func {
    Func(End, None, Cons(Expression(SuperCall(End)), End))
  }

  /** A function whose only statement is an if around a call of super. */
  function InsideIf(cond: Expr): Func {
    Func(End, None, Cons(If(cond, Cons(Expression(SuperCall(End)), End), End), End))
  }

  /** That call is not seen. */
  lemma ScanMissesIf(cond: Expr)
    ensures Calls(InsideIf(cond)) && !Scan(InsideIf(cond))
  {
    var inner := Cons(Expression(SuperCall(End)), End);
    assert CallsStmt(inner.head) && CallsBlock(inner);
    assert CallsStmt(If(cond, inner, End));
    var block := InsideIf(cond).block;
    assert block.tail == End && !ScanStmt(block.head) && !ScanBlock(block.tail) && CallsBlock(block);
  }
}
