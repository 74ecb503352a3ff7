/** Sequence helpers shared by the modules: duplicate-freedom and the order-keeping filter
    `xs.filter(x => !ys.includes(x))`. */
module SeqUtil {

  /** No two elements of `s` are equal. */
  predicate NoDuplicates<T(==)>(s: seq<T>) {
    forall i, j :: 0 <= i < j < |s| ==> s[i] != s[j]
  }

  /** The elements of `s`, as a set. */
  function SetOf<T(!new)>(s: seq<T>): (r: set<T>)
    ensures forall x :: x in r <==> x in s
  {
    set x | x in s
  }

  /** The elements of `xs` that are not in `ys`, in their order in `xs`. */
  function Without<T(==,!new)>(xs: seq<T>, ys: seq<T>): (r: seq<T>)
    ensures forall x :: x in r <==> x in xs && x !in ys
    ensures |r| <= |xs|
    decreases |xs|
  {
    if xs == [] then []
    else if xs[0] in ys then Without(xs[1..], ys)
    else [xs[0]] + Without(xs[1..], ys)
  }

  /** Filtering keeps a duplicate-free list duplicate-free. */
  lemma {:induction false} WithoutNoDuplicates<T(!new)>(xs: seq<T>, ys: seq<T>)
    requires NoDuplicates(xs)
    ensures NoDuplicates(Without(xs, ys))
    decreases |xs|
  {
    if xs != [] {
      assert NoDuplicates(xs[1..]) by {
        forall i, j | 0 <= i < j < |xs[1..]| ensures xs[1..][i] != xs[1..][j] {
          assert xs[1..][i] == xs[i + 1] && xs[1..][j] == xs[j + 1];
        }
      }
      WithoutNoDuplicates(xs[1..], ys);
      if xs[0] !in ys {
        assert xs[0] !in xs[1..];
      }
    }
  }
}
