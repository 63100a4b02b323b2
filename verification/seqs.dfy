/** Sequence helpers shared by the data model and the union. */
module Seqs {

  predicate NoDuplicates<T(==)>(xs: seq<T>) {
    forall i, j | 0 <= i < j < |xs| :: xs[i] != xs[j]
  }

  /** The elements of `xs` in first-seen order, each once. */
  function Distinct<T(==)>(xs: seq<T>): seq<T>
  {
    if |xs| == 0 then []
    else
      var d := Distinct(xs[..|xs| - 1]);
      if xs[|xs| - 1] in d then d else d + [xs[|xs| - 1]]
  }

  /** Distinct keeps exactly the elements of its input. */
  lemma {:induction false} DistinctElements<T>(xs: seq<T>)
    ensures forall x :: x in Distinct(xs) <==> x in xs
  {
    if |xs| > 0 {
      var p := xs[..|xs| - 1];
      DistinctElements(p);
      assert xs == p + [xs[|xs| - 1]];
    }
  }

  /** Every element Distinct keeps lies in any sequence holding all of its input. */
  lemma DistinctWithin<T>(xs: seq<T>, ys: seq<T>)
    requires forall i | 0 <= i < |xs| :: xs[i] in ys
    ensures forall i | 0 <= i < |Distinct(xs)| :: Distinct(xs)[i] in ys
  {
    DistinctElements(xs);
    forall i | 0 <= i < |Distinct(xs)|
      ensures Distinct(xs)[i] in ys
    {
      assert Distinct(xs)[i] in xs;
    }
  }

  /** Distinct never repeats an element. */
  lemma {:induction false} DistinctNoDuplicates<T>(xs: seq<T>)
    ensures NoDuplicates(Distinct(xs))
  {
    if |xs| > 0 {
      DistinctNoDuplicates(xs[..|xs| - 1]);
    }
  }

  /** On a sequence without repeats, Distinct is the identity. */
  lemma {:induction false} DistinctOfNoDuplicates<T>(xs: seq<T>)
    requires NoDuplicates(xs)
    ensures Distinct(xs) == xs
  {
    if |xs| > 0 {
      var p := xs[..|xs| - 1];
      DistinctOfNoDuplicates(p);
      assert xs == p + [xs[|xs| - 1]];
    }
  }

  /** Appending one element to the input appends it to Distinct unless already seen. */
  lemma DistinctSnoc<T>(xs: seq<T>, x: T)
    ensures Distinct(xs + [x]) == if x in xs then Distinct(xs) else Distinct(xs) + [x]
  {
    assert (xs + [x])[..|xs + [x]| - 1] == xs;
    DistinctElements(xs);
  }

  /** The sequences of `xss` one after another. */
  function Concat<T>(xss: seq<seq<T>>): seq<T> {
    if |xss| == 0 then [] else xss[0] + Concat(xss[1..])
  }

  /** Every element of every part is in the concatenation. */
  lemma {:induction false} ConcatContains<T>(xss: seq<seq<T>>)
    ensures forall i, j | 0 <= i < |xss| && 0 <= j < |xss[i]| :: xss[i][j] in Concat(xss)
  {
    if |xss| > 0 {
      ConcatContains(xss[1..]);
      forall i, j | 0 <= i < |xss| && 0 <= j < |xss[i]|
        ensures xss[i][j] in Concat(xss)
      {
        if i > 0 {
          assert xss[1..][i - 1] == xss[i];
        }
      }
    }
  }

  /** Every element of the concatenation comes from some part: its position there is returned. */
  lemma {:induction false} ConcatOrigin<T>(xss: seq<seq<T>>, k: nat) returns (i: nat, j: nat)
    requires k < |Concat(xss)|
    ensures i < |xss| && j < |xss[i]|
    ensures Concat(xss)[k] == xss[i][j]
  {
    if k < |xss[0]| {
      i, j := 0, k;
    } else {
      var i', j' := ConcatOrigin(xss[1..], k - |xss[0]|);
      i, j := i' + 1, j';
    }
  }
}
