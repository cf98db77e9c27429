/** Task references, and queues linked through one field of the tasks. */
module TaskQueues {
  import opened Basics

  datatype Ref = NULL | Task(id: nat)

  /** `l` is the queue from `first` on along `next`, without repetition. */
  ghost predicate Chain(first: Ref, l: List<Ref>, next: Ref -> Ref)
    decreases l
  {
    match l
    case End => first == NULL
    case Cons(x, rest) => first == x && x != NULL && x !in Members(rest) && Chain(next(x), rest, next)
  }

  ghost function LastOf(l: List<Ref>): Ref {
    if l.End? then NULL else if l.tail.End? then l.head else LastOf(l.tail)
  }

  lemma {:induction false} LastIsMember(l: List<Ref>)
    requires l.Cons?
    ensures LastOf(l) in Members(l)
  {
    if l.tail.Cons? {
      LastIsMember(l.tail);
    }
  }

  lemma {:induction false} ChainAgree(first: Ref, l: List<Ref>, next: Ref -> Ref, next': Ref -> Ref)
    requires Chain(first, l, next) && forall x :: x in Members(l) ==> next'(x) == next(x)
    ensures Chain(first, l, next')
    decreases l
  {
    if l.Cons? {
      ChainAgree(next(first), l.tail, next, next');
    }
  }

  /** Linking a task behind the last one. */
  lemma {:induction false} ChainAppend(first: Ref, l: List<Ref>, next: Ref -> Ref, t: Ref, next': Ref -> Ref)
    requires Chain(first, l, next) && l.Cons? && t != NULL && t !in Members(l)
    requires next'(t) == NULL && next'(LastOf(l)) == t
    requires forall x :: x in Members(l) && x != LastOf(l) ==> next'(x) == next(x)
    ensures Chain(first, Snoc(l, t), next')
    decreases l
  {
    if l.tail.Cons? {
      LastIsMember(l.tail);
      ChainAppend(next(first), l.tail, next, t, next');
      MembersSnoc(l.tail, t);
    }
  }

  lemma {:induction false} LastOfSnoc(l: List<Ref>, t: Ref)
    ensures LastOf(Snoc(l, t)) == t
  {
    if l.Cons? {
      LastOfSnoc(l.tail, t);
    }
  }
}
