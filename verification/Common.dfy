/** Small types shared by every component of the model. */
module Common {

  datatype Option<+T> = None | Some(value: T)

  datatype Result<+T, +E> = Ok(value: T) | Err(error: E)

  /** No element of `s` occurs twice. */
  ghost predicate NoDuplicates<T>(s: seq<T>) {
    forall i, j :: 0 <= i < j < |s| ==> s[i] != s[j]
  }

  lemma SplitLast<T>(s: seq<T>)
    requires s != []
    ensures s == s[..|s| - 1] + [s[|s| - 1]]
  {
  }

  lemma SplitAt<T>(s: seq<T>, i: nat)
    requires i < |s|
    ensures s == s[..i] + [s[i]] + s[i + 1..]
  {
  }

  lemma MultisetAround<T>(a: seq<T>, x: T, b: seq<T>)
    ensures multiset(a + [x] + b) == multiset(a + b) + multiset{x}
  {
    assert multiset(a + [x] + b) == multiset(a) + multiset{x} + multiset(b);
    assert multiset(a + b) == multiset(a) + multiset(b);
  }

  lemma SameRest<T>(a: seq<T>, b: seq<T>, x: T, c: seq<T>, d: seq<T>)
    requires multiset(a + [x] + b) == multiset(c + [x] + d)
    ensures multiset(a + b) == multiset(c + d)
  {
    MultisetAround(a, x, b);
    MultisetAround(c, x, d);
    assert multiset(a + b) == multiset(a + [x] + b) - multiset{x};
    assert multiset(c + d) == multiset(c + [x] + d) - multiset{x};
  }
}
