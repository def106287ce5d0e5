// Lists, for specifications that are defined by recursion over a stream.
module Lists {
  datatype List<+T> = Nil | Cons(head: T, tail: List<T>)

  function Append<T>(a: List<T>, b: List<T>): List<T> {
    match a
    case Nil => b
    case Cons(x, rest) => Cons(x, Append(rest, b))
  }

  predicate Has<T(==)>(a: List<T>, x: T) {
    a.Cons? && (a.head == x || Has(a.tail, x))
  }

  /** The list's elements appended to `onto`, in order. */
  function Onto<T>(onto: seq<T>, a: List<T>): seq<T>
    decreases a
  {
    match a
    case Nil => onto
    case Cons(x, rest) => Onto(onto + [x], rest)
  }

  function Seq<T>(a: List<T>): seq<T> {
    Onto([], a)
  }

  function Length<T>(a: List<T>): nat {
    if a.Nil? then 0 else 1 + Length(a.tail)
  }

  function At<T>(a: List<T>, i: nat): T
    requires i < Length(a)
  {
    if i == 0 then a.head else At(a.tail, i - 1)
  }

  lemma {:induction false} AppendNil<T>(a: List<T>)
    ensures Append(a, Nil) == a
  {
    if a.Cons? {
      AppendNil(a.tail);
    }
  }

  lemma {:induction false} AppendAssoc<T>(a: List<T>, b: List<T>, c: List<T>)
    ensures Append(Append(a, b), c) == Append(a, Append(b, c))
  {
    if a.Cons? {
      AppendAssoc(a.tail, b, c);
    }
  }

  lemma {:induction false} HasAppend<T>(a: List<T>, b: List<T>, x: T)
    ensures Has(Append(a, b), x) <==> Has(a, x) || Has(b, x)
  {
    if a.Cons? {
      HasAppend(a.tail, b, x);
    }
  }

  lemma {:induction false} OntoAt<T>(onto: seq<T>, a: List<T>, i: nat)
    ensures |Onto(onto, a)| == |onto| + Length(a)
    ensures i < |onto| ==> Onto(onto, a)[i] == onto[i]
    ensures |onto| <= i < |onto| + Length(a) ==> Onto(onto, a)[i] == At(a, i - |onto|)
    decreases a
  {
    if a.Cons? {
      OntoAt(onto + [a.head], a.tail, i);
    }
  }

  /** `rest` is what `xs` holds from index `i` on. */
  ghost predicate Pending<T>(xs: seq<T>, i: nat, rest: List<T>)
    decreases rest
  {
    match rest
    case Nil => i == |xs|
    case Cons(x, tail) => i < |xs| && xs[i] == x && Pending(xs, i + 1, tail)
  }

  lemma {:induction false} PendingOnto<T>(onto: seq<T>, a: List<T>)
    ensures Pending(Onto(onto, a), |onto|, a)
    decreases a
  {
    if a.Cons? {
      PendingOnto(onto + [a.head], a.tail);
      OntoAt(onto + [a.head], a.tail, |onto|);
    }
  }
}
