/** The reason histograms of both engines: a dict from label to count that a loop
    increments with `h[v] = h.get(v, 0) + 1`. Its specification is the multiset of
    every label the loop meets; the histogram is that multiset read as a map. */
module Histograms {

  /** The histogram a multiset of labels describes. */
  function ToMap(m: multiset<string>): map<string, nat> {
    map v | v in m :: m[v]
  }

  /** One `h[v] = h.get(v, 0) + 1` step. */
  function Bump(h: map<string, nat>, v: string): map<string, nat> {
    h[v := (if v in h then h[v] else 0) + 1]
  }

  /** Incrementing the histogram is adding one occurrence to its multiset. */
  lemma BumpAdds(m: multiset<string>, v: string)
    ensures ToMap(m + multiset{v}) == Bump(ToMap(m), v)
  {
    var l, r := ToMap(m + multiset{v}), Bump(ToMap(m), v);
    assert l.Keys == r.Keys;
    forall k | k in l ensures l[k] == r[k] {
      if k == v {
        assert (m + multiset{v})[k] == m[k] + 1;
      }
    }
  }

  /** A histogram holds a label exactly when it was counted, and counts each occurrence. */
  lemma ToMapCounts(m: multiset<string>, v: string)
    ensures v in ToMap(m) <==> m[v] > 0
    ensures v in ToMap(m) ==> ToMap(m)[v] == m[v]
  {
  }
}
