/** Generic facts about sequences used throughout the model. */
module Seqs {

  /** No element occurs twice. */
  ghost predicate Distinct<T>(s: seq<T>) {
    forall i, j :: 0 <= i < j < |s| ==> s[i] != s[j]
  }

  /** The elements of `s` that satisfy `p`, in their order in `s`: `[x for x in s if p(x)]`. */
  function Filter<T>(s: seq<T>, p: T -> bool): (r: seq<T>)
    ensures |r| <= |s|
    ensures forall i :: 0 <= i < |r| ==> r[i] in s && p(r[i])
    ensures forall i :: 0 <= i < |s| && p(s[i]) ==> s[i] in r
  {
    if s == [] then []
    else
      var front := s[..|s| - 1];
      assert s == front + [s[|s| - 1]];
      Filter(front, p) + (if p(s[|s| - 1]) then [s[|s| - 1]] else [])
  }

  /** Filtering a sequence without duplicates gives a sequence without duplicates. */
  lemma {:induction false} FilterDistinct<T>(s: seq<T>, p: T -> bool)
    requires Distinct(s)
    ensures Distinct(Filter(s, p))
  {
    if s != [] {
      var front := s[..|s| - 1];
      FilterDistinct(front, p);
      assert s[|s| - 1] !in front;
      assert s[|s| - 1] !in Filter(front, p);
    }
  }

  /** Appending to a concatenation appends to its second part. */
  lemma {:induction false} AppendSnoc<T>(a: seq<T>, b: seq<T>, x: T)
    ensures (a + b) + [x] == a + (b + [x])
  {
  }

  /** The first `t + 1` elements are the first `t` and then element `t`. */
  lemma {:induction false} TakeOne<T>(z: seq<T>, t: nat)
    requires t < |z|
    ensures z[..t + 1] == z[..t] + [z[t]]
  {
  }

  /**
   * The index of the first element satisfying `p`, or `|s|` when there is none:
   * where a loop over `s` that stops at the first such element stops.
   */
  function FirstWhere<T>(s: seq<T>, p: T -> bool): (f: nat)
    ensures f <= |s|
    ensures forall i :: 0 <= i < f ==> !p(s[i])
    ensures f < |s| ==> p(s[f])
  {
    if s == [] then 0
    else if p(s[0]) then 0
    else 1 + FirstWhere(s[1..], p)
  }

  /** The elements of `s` as a set, `set(s)`. */
  function Elements<T(!new)>(s: seq<T>): set<T> {
    set x | x in s
  }

  /** A loop that has passed `i` elements and finds `s[i]` acceptable has not yet reached the first match. */
  lemma {:induction false} FirstWhereStep<T>(s: seq<T>, p: T -> bool, i: nat)
    requires i < |s| && i <= FirstWhere(s, p) && !p(s[i])
    ensures i + 1 <= FirstWhere(s, p)
  {
  }
}
