/** Lexicographic order of sequences, as Go compares strings and byte slices. */
module Lexical {
  predicate Precedes<T(==)>(lt: (T, T) -> bool, a: seq<T>, b: seq<T>) {
    b != [] && (a == [] || lt(a[0], b[0]) || (a[0] == b[0] && Precedes(lt, a[1..], b[1..])))
  }

  /** `lt` is a strict total order. */
  ghost predicate StrictOrder<T(!new)>(lt: (T, T) -> bool) {
    && (forall x, y :: lt(x, y) ==> !lt(y, x))
    && (forall x, y :: x == y || lt(x, y) || lt(y, x))
    && (forall x, y, z :: lt(x, y) && lt(y, z) ==> lt(x, z))
  }

  lemma {:induction false} Asymmetric<T(!new)>(lt: (T, T) -> bool, a: seq<T>, b: seq<T>)
    requires StrictOrder(lt)
    ensures Precedes(lt, a, b) ==> !Precedes(lt, b, a)
  {
    if a != [] && b != [] && a[0] == b[0] { Asymmetric(lt, a[1..], b[1..]); }
  }

  lemma {:induction false} Total<T(!new)>(lt: (T, T) -> bool, a: seq<T>, b: seq<T>)
    requires StrictOrder(lt)
    ensures a == b || Precedes(lt, a, b) || Precedes(lt, b, a)
  {
    if a != [] && b != [] && a[0] == b[0] {
      Total(lt, a[1..], b[1..]);
      assert a == [a[0]] + a[1..] && b == [b[0]] + b[1..];
    }
  }

  lemma {:induction false} Transitive<T(!new)>(lt: (T, T) -> bool, a: seq<T>, b: seq<T>, c: seq<T>)
    requires StrictOrder(lt) && Precedes(lt, a, b) && Precedes(lt, b, c)
    ensures Precedes(lt, a, c)
  {
    if a != [] && a[0] == b[0] && b[0] == c[0] { Transitive(lt, a[1..], b[1..], c[1..]); }
  }
}
