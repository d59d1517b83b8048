/** Small value-level helpers shared by every module of the timetable model. */
module Common {

  datatype Option<+T> = None | Some(value: T)

  /** Sum of a sequence of integers, folded from the left as Python's `sum` does. */
  function Sum(xs: seq<int>): int
  {
    if xs == [] then 0 else Sum(xs[..|xs| - 1]) + xs[|xs| - 1]
  }

  /** No element occurs twice. */
  predicate Distinct<T(==)>(s: seq<T>)
  {
    forall i, j | 0 <= i < |s| && 0 <= j < |s| && i != j :: s[i] != s[j]
  }

  /** Python's `list(range(lo, hi))`. */
  function Range(lo: int, hi: int): (r: seq<int>)
    ensures |r| == if lo <= hi then hi - lo else 0
    ensures forall i | 0 <= i < |r| :: r[i] == lo + i
    decreases hi - lo
  {
    if hi <= lo then [] else [lo] + Range(lo + 1, hi)
  }

  lemma RangeMembership(lo: int, hi: int, x: int)
    ensures x in Range(lo, hi) <==> lo <= x < hi
  {
    if lo <= x < hi {
      assert Range(lo, hi)[x - lo] == x;
    }
  }

  lemma SumAppend(xs: seq<int>, x: int)
    ensures Sum(xs + [x]) == Sum(xs) + x
  {
    assert (xs + [x])[..|xs|] == xs;
  }

  /** The elements of the lists one after the other. */
  function Flatten<T>(ss: seq<seq<T>>): seq<T>
  {
    if ss == [] then [] else Flatten(ss[..|ss| - 1]) + ss[|ss| - 1]
  }

  lemma FlattenStep<T>(ss: seq<seq<T>>, i: nat)
    requires i < |ss|
    ensures Flatten(ss[..i + 1]) == Flatten(ss[..i]) + ss[i]
  {
    assert ss[..i + 1][..i] == ss[..i];
  }

  lemma {:induction false} FlattenMonotone<T>(ss: seq<seq<T>>, i: nat, n: nat)
    requires i <= n <= |ss|
    ensures Flatten(ss[..i]) <= Flatten(ss[..n])
    decreases n - i
  {
    if i < n {
      FlattenMonotone(ss, i + 1, n);
      FlattenStep(ss, i);
    }
  }

  lemma {:induction false} FlattenMember<T>(ss: seq<seq<T>>, x: T)
    requires x in Flatten(ss)
    ensures exists k | 0 <= k < |ss| :: x in ss[k]
  {
    var n := |ss| - 1;
    if x !in ss[n] {
      assert x in Flatten(ss[..n]);
      FlattenMember(ss[..n], x);
      var k :| 0 <= k < n && x in ss[..n][k];
      assert ss[..n][k] == ss[k];
    }
  }

  /** A non-empty sequence's members are those of its prefix plus its last element. */
  lemma DropLastMembers<T>(xs: seq<T>)
    requires xs != []
    ensures forall x <- xs[..|xs| - 1] :: x in xs
    ensures forall x <- xs :: x in xs[..|xs| - 1] || x == xs[|xs| - 1]
  {
    forall x <- xs ensures x in xs[..|xs| - 1] || x == xs[|xs| - 1] {
      var i :| 0 <= i < |xs| && xs[i] == x;
      if i < |xs| - 1 { assert xs[..|xs| - 1][i] == x; }
    }
  }

  lemma AppendAssoc<T>(a: seq<T>, b: seq<T>, c: seq<T>)
    ensures (a + b) + c == a + (b + c)
  {
  }

  /** A position inside the second part of a prefix `a + b`. */
  lemma PrefixSplit<T>(all: seq<T>, a: seq<T>, b: seq<T>, k: nat)
    requires a + b <= all && k < |b|
    ensures all[..|a| + k] == a + b[..k] && all[|a| + k] == b[k]
  {
    assert all[..|a| + k] == (a + b)[..|a| + k];
    assert all[|a| + k] == (a + b)[|a| + k];
  }
}
