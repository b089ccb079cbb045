/** The arithmetic of `get_next_document_id`: the next document id is one more than
    the largest all-digit id stored, or 1 when there is none. */
module DocumentIds {
  import opened Text

  /** `[int(d) for d in ids if d.isdigit()]`. */
  function NumericIds(ids: seq<string>): (r: seq<nat>)
    ensures forall n :: n in r <==> exists k :: 0 <= k < |ids| && IsDigits(ids[k]) && DigitsValue(ids[k]) == n
  {
    if ids == [] then []
    else
      var init := ids[..|ids| - 1];
      var d := ids[|ids| - 1];
      assert forall k :: 0 <= k < |init| ==> init[k] == ids[k];
      NumericIds(init) + (if IsDigits(d) then [DigitsValue(d)] else [])
  }

  function MaxNat(xs: seq<nat>): (m: nat)
    requires |xs| > 0
    ensures m in xs && forall i :: 0 <= i < |xs| ==> xs[i] <= m
  {
    if |xs| == 1 then xs[0]
    else
      var rest := MaxNat(xs[1..]);
      if xs[0] > rest then xs[0] else rest
  }

  /** The next free id: above every numeric id, and either 1 (no numeric id) or one more than some numeric id. */
  function NextDocumentId(ids: seq<string>): (next: nat)
    ensures next >= 1
    ensures forall k :: 0 <= k < |ids| && IsDigits(ids[k]) ==> DigitsValue(ids[k]) < next
    ensures next == 1 || exists k :: 0 <= k < |ids| && IsDigits(ids[k]) && DigitsValue(ids[k]) + 1 == next
    ensures (forall k :: 0 <= k < |ids| ==> !IsDigits(ids[k])) ==> next == 1
  {
    var numeric := NumericIds(ids);
    assert forall k :: 0 <= k < |ids| && IsDigits(ids[k]) ==> DigitsValue(ids[k]) in numeric;
    if numeric == [] then 1 else MaxNat(numeric) + 1
  }
}
