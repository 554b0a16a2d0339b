/** Order-preserving selection on sequences, the counterpart of JavaScript's `filter`. */
module Seqs {

  /** The elements of `s` that `keep` accepts, in their original order. */
  function Filter<T(!new)>(s: seq<T>, keep: T -> bool): (r: seq<T>)
    ensures |r| <= |s|
    ensures forall x :: x in r <==> x in s && keep(x)
  {
    if s == [] then [] else (if keep(s[0]) then [s[0]] else []) + Filter(s[1..], keep)
  }

  /** Selection distributes over concatenation: relative order is kept. */
  lemma {:induction false} FilterAppend<T(!new)>(a: seq<T>, b: seq<T>, keep: T -> bool)
    ensures Filter(a + b, keep) == Filter(a, keep) + Filter(b, keep)
  {
    if a == [] {
      assert a + b == b;
    } else {
      assert (a + b)[1..] == a[1..] + b;
      FilterAppend(a[1..], b, keep);
    }
  }

  /** When every element is kept, nothing changes. */
  lemma {:induction false} FilterKeepsAll<T(!new)>(s: seq<T>, keep: T -> bool)
    requires forall i | 0 <= i < |s| :: keep(s[i])
    ensures Filter(s, keep) == s
  {
    if s != [] {
      FilterKeepsAll(s[1..], keep);
    }
  }

  /** Selecting twice with the same test is selecting once. */
  lemma FilterIdempotent<T(!new)>(s: seq<T>, keep: T -> bool)
    ensures Filter(Filter(s, keep), keep) == Filter(s, keep)
  {
    var r := Filter(s, keep);
    forall i | 0 <= i < |r| ensures keep(r[i]) {
      assert r[i] in r;
    }
    FilterKeepsAll(r, keep);
  }

  /** When exactly one element fails the test, selection removes exactly that element. */
  lemma FilterDropsOne<T(!new)>(s: seq<T>, keep: T -> bool, k: nat)
    requires k < |s| && !keep(s[k])
    requires forall i | 0 <= i < |s| && i != k :: keep(s[i])
    ensures Filter(s, keep) == s[..k] + s[k + 1..]
    ensures |Filter(s, keep)| == |s| - 1
  {
    var before, after := s[..k], s[k + 1..];
    assert s == before + ([s[k]] + after);
    assert Filter(before, keep) == before by {
      FilterKeepsAll(before, keep);
    }
    assert Filter(after, keep) == after by {
      assert forall i | 0 <= i < |after| :: after[i] == s[k + 1 + i];
      FilterKeepsAll(after, keep);
    }
    assert Filter([s[k]] + after, keep) == after by {
      assert ([s[k]] + after)[1..] == after;
    }
    FilterAppend(before, [s[k]] + after, keep);
  }

  /** Two selections can be applied in either order. */
  lemma {:induction false} FilterCommute<T(!new)>(s: seq<T>, f: T -> bool, g: T -> bool)
    ensures Filter(Filter(s, f), g) == Filter(Filter(s, g), f)
  {
    if s != [] {
      FilterCommute(s[1..], f, g);
      var x := s[0];
      FilterAppend(if f(x) then [x] else [], Filter(s[1..], f), g);
      FilterAppend(if g(x) then [x] else [], Filter(s[1..], g), f);
    }
  }

  /** Nothing is selected when no element passes. */
  lemma FilterKeepsNone<T(!new)>(s: seq<T>, keep: T -> bool)
    requires forall i | 0 <= i < |s| :: !keep(s[i])
    ensures Filter(s, keep) == []
  {
    var r := Filter(s, keep);
    assert forall x :: x !in r;
  }
}
