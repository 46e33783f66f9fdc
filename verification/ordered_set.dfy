/** JavaScript's `Set` seen through its iteration order: distinct elements in order of first insertion. */
module OrderedSet {

  predicate NoDuplicates<T(==)>(s: seq<T>) {
    forall i, j :: 0 <= i < j < |s| ==> s[i] != s[j]
  }

  /** The index of the first occurrence of `x` in `xs`. */
  function FirstIndex<T(==)>(xs: seq<T>, x: T): (k: nat)
    requires x in xs
    ensures k < |xs| && xs[k] == x && x !in xs[..k]
  {
    if xs[0] == x then 0 else 1 + FirstIndex(xs[1..], x)
  }

  /** A position holding `x` with no earlier `x` is THE first index. */
  lemma FirstIndexUnique<T>(xs: seq<T>, x: T, k: nat)
    requires k < |xs| && xs[k] == x && x !in xs[..k]
    ensures FirstIndex(xs, x) == k
  {
  }

  /** The elements `new Set(xs)` iterates over, in that order. */
  function FromSeq<T(==,!new)>(xs: seq<T>): (r: seq<T>)
    ensures NoDuplicates(r)
    ensures forall x :: x in r <==> x in xs
    ensures forall i, j :: 0 <= i < j < |r| ==> FirstIndex(xs, r[i]) < FirstIndex(xs, r[j])
  {
    if xs == [] then []
    else
      var init := xs[..|xs| - 1];
      var last := xs[|xs| - 1];
      var d := FromSeq(init);
      assert xs == init + [last];
      forall x | x in init
        ensures FirstIndex(xs, x) == FirstIndex(init, x)
      {
        var k := FirstIndex(init, x);
        assert xs[..k] == init[..k];
        FirstIndexUnique(xs, x, k);
      }
      if last in d then d
      else
        assert last !in xs[..|xs| - 1];
        FirstIndexUnique(xs, last, |xs| - 1);
        d + [last]
  }
}
