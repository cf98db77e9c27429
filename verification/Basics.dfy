/** Options and lists, shared by the models. */
module Basics {

  datatype Option<+T> = None | Some(value: T)

  /** The name of a class, an interface, a method or a task. */
  datatype Name = Name(text: string)

  datatype List<T> = End | Cons(head: T, tail: List<T>)

  ghost function Members<T>(l: List<T>): set<T> {
    if l.Cons? then {l.head} + Members(l.tail) else {}
  }

  predicate Has<T(==)>(l: List<T>, x: T): (r: bool)
    ensures r <==> x in Members(l)
  {
    l.Cons? && (l.head == x || Has(l.tail, x))
  }

  function Length<T>(l: List<T>): nat {
    if l.Cons? then 1 + Length(l.tail) else 0
  }

  ghost function ToSeq<T>(l: List<T>): seq<T> {
    if l.Cons? then [l.head] + ToSeq(l.tail) else []
  }

  /** `l` with `x` behind its last element. */
  function Snoc<T>(l: List<T>, x: T): List<T> {
    if l.End? then Cons(x, End) else Cons(l.head, Snoc(l.tail, x))
  }

  function Append<T>(l: List<T>, r: List<T>): List<T> {
    if l.End? then r else Cons(l.head, Append(l.tail, r))
  }

  lemma {:induction false} MembersSnoc<T>(l: List<T>, x: T)
    ensures Members(Snoc(l, x)) == Members(l) + {x}
  {
    if l.Cons? {
      MembersSnoc(l.tail, x);
    }
  }

  lemma {:induction false} AppendSnoc<T>(l: List<T>, x: T, r: List<T>)
    ensures Append(Snoc(l, x), r) == Append(l, Cons(x, r))
  {
    if l.Cons? {
      AppendSnoc(l.tail, x, r);
    }
  }

  lemma {:induction false} AppendEnd<T>(l: List<T>)
    ensures Append(l, End) == l
  {
    if l.Cons? {
      AppendEnd(l.tail);
    }
  }
}
