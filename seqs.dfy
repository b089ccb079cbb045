/** Selection that keeps order and multiplicity: pandas boolean-mask indexing
    (`df[mask]`) and Python list comprehensions with an `if` clause. */
module Seqs {

  /** `r` is `s` with some elements left out and the others kept in order. */
  predicate IsSubseq<T(==)>(r: seq<T>, s: seq<T>)
    decreases |s|
  {
    if r == [] then true
    else if s == [] then false
    else if r[|r| - 1] == s[|s| - 1] then IsSubseq(r[..|r| - 1], s[..|s| - 1])
    else IsSubseq(r, s[..|s| - 1])
  }

  /** The elements of `s` satisfying `p`, in order: every copy of a selected
      element is kept and no copy of any other. */
  function Filter<T(==,!new)>(s: seq<T>, p: T -> bool): (r: seq<T>)
    ensures |r| <= |s|
    ensures forall x :: x in r <==> x in s && p(x)
    ensures forall x :: multiset(r)[x] == if p(x) then multiset(s)[x] else 0
    ensures IsSubseq(r, s)
  {
    if s == [] then []
    else
      var init, last := s[..|s| - 1], s[|s| - 1];
      var r := Filter(init, p);
      assert s == init + [last];
      assert multiset(s) == multiset(init) + multiset{last};
      if p(last) then
        var r' := r + [last];
        assert r'[..|r'| - 1] == r && r'[|r'| - 1] == last;
        assert multiset(r') == multiset(r) + multiset{last};
        r'
      else
        assert r != [] ==> r[|r| - 1] in r && r[|r| - 1] != last;
        r
  }

  /** Filtering a concatenation filters each part: selecting rows chunk by chunk
      gives the rows selected from the whole, in the same order. */
  lemma {:induction false} FilterAppend<T(!new)>(a: seq<T>, b: seq<T>, p: T -> bool)
    ensures Filter(a + b, p) == Filter(a, p) + Filter(b, p)
    decreases |b|
  {
    if b == [] {
      assert a + b == a;
    } else {
      var init := b[..|b| - 1];
      assert a + b == (a + init) + [b[|b| - 1]];
      assert (a + b)[..|a + b| - 1] == a + init;
      FilterAppend(a, init, p);
    }
  }
}
