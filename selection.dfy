/** Ordered selection: the reference meaning of every `filter` and of every
    `reduce((pre, cur) => keep(cur) ? [...pre, f(cur)] : pre, [])` of the statistics layer.
    A selection is described by the values `vals[i]` the fold would append and a mask
    `mask[i]` saying whether record `i` passes; the result lists `vals[i]` for exactly the
    positions where `mask[i]` holds, in increasing order of `i`. */
module Selection {

  /** The positions of `mask` that hold, in increasing order. */
  function Positions(mask: seq<bool>): (idx: seq<nat>)
    ensures |idx| <= |mask|
  {
    if mask == [] then []
    else
      var n := |mask| - 1;
      Positions(mask[..n]) + (if mask[n] then [n] else [])
  }

  /** `Positions` lists exactly the positions that hold, each once, in increasing order. */
  lemma {:induction false} PositionsSpec(mask: seq<bool>)
    ensures forall k :: 0 <= k < |Positions(mask)| ==> Positions(mask)[k] < |mask| && mask[Positions(mask)[k]]
    ensures forall j, k :: 0 <= j < k < |Positions(mask)| ==> Positions(mask)[j] < Positions(mask)[k]
    ensures forall i :: 0 <= i < |mask| && mask[i] ==> i in Positions(mask)
  {
    if mask != [] {
      var n := |mask| - 1;
      var init := mask[..n];
      PositionsSpec(init);
      var pre := Positions(init);
      assert forall k :: 0 <= k < |pre| ==> pre[k] < n && mask[pre[k]];
      assert forall i :: 0 <= i < n && mask[i] ==> init[i];
    }
  }

  /** The values at the positions where `mask` holds, in increasing order of position. */
  function Selected<U>(vals: seq<U>, mask: seq<bool>): (r: seq<U>)
    requires |vals| == |mask|
    ensures |r| == |Positions(mask)| <= |vals|
  {
    PositionsSpec(mask);
    var idx := Positions(mask);
    seq(|idx|, k requires 0 <= k < |idx| => vals[idx[k]])
  }

  /** Appending one record to the input appends at most its value to the selection:
      this is what makes a left fold with `[...pre, x]` compute `Selected`. */
  lemma SelectedSnoc<U>(vals: seq<U>, mask: seq<bool>, x: U, b: bool)
    requires |vals| == |mask|
    ensures Selected(vals + [x], mask + [b]) == Selected(vals, mask) + (if b then [x] else [])
  {
    assert (mask + [b])[..|mask|] == mask;
    PositionsSpec(mask);
  }

  /** Nothing is selected exactly when no position of the mask holds. */
  lemma SelectedEmpty<U>(vals: seq<U>, mask: seq<bool>)
    requires |vals| == |mask|
    ensures Selected(vals, mask) == [] <==> forall i :: 0 <= i < |mask| ==> !mask[i]
  {
    PositionsSpec(mask);
    var idx := Positions(mask);
    if exists i :: 0 <= i < |mask| && mask[i] {
      var i :| 0 <= i < |mask| && mask[i];
      assert i in idx;
    }
    if idx != [] {
      assert mask[idx[0]];
    }
  }

  /** A pointwise weaker mask selects no more positions than a stronger one. */
  lemma {:induction false} PositionsMonotone(m1: seq<bool>, m2: seq<bool>)
    requires |m1| == |m2|
    requires forall i :: 0 <= i < |m1| && m1[i] ==> m2[i]
    ensures |Positions(m1)| <= |Positions(m2)|
  {
    if m1 != [] {
      var n := |m1| - 1;
      var a, b := m1[..n], m2[..n];
      assert forall i :: 0 <= i < |a| && a[i] ==> b[i];
      PositionsMonotone(a, b);
      assert |Positions(m1)| == |Positions(a)| + (if m1[n] then 1 else 0);
      assert |Positions(m2)| == |Positions(b)| + (if m2[n] then 1 else 0);
    }
  }
}
