/** The bucket scratch space both feeds seal at the end of a row: walking the slots in
    index order, every valid slot's record is appended to the remainder. */
module Slots {

  /** The indices of the valid slots, in ascending order. */
  function ValidSlots<R>(w: seq<R>, valid: R -> bool): (ds: seq<nat>)
    ensures forall k :: 0 <= k < |ds| ==> ds[k] < |w| && valid(w[ds[k]])
    ensures forall k, l :: 0 <= k < l < |ds| ==> ds[k] < ds[l]
    ensures forall d :: 0 <= d < |w| && valid(w[d]) ==> d in ds
    decreases |w|
  {
    if w == [] then []
    else
      var front := w[..|w| - 1];
      assert forall d :: 0 <= d < |front| ==> front[d] == w[d];
      ValidSlots(front, valid) + (if valid(w[|w| - 1]) then [|w| - 1] else [])
  }

  /** The records sealing appends: those of the valid slots, in slot order. */
  function Sealed<R>(w: seq<R>, valid: R -> bool): (r: seq<R>)
    ensures |r| == |ValidSlots(w, valid)|
    ensures forall k :: 0 <= k < |r| ==> r[k] == w[ValidSlots(w, valid)[k]]
    decreases |w|
  {
    if w == [] then []
    else
      var front := w[..|w| - 1];
      assert forall d :: 0 <= d < |front| ==> front[d] == w[d];
      Sealed(front, valid) + (if valid(w[|w| - 1]) then [w[|w| - 1]] else [])
  }

  /** The valid slots, as a set. */
  function ValidSet<R>(w: seq<R>, valid: R -> bool): set<nat>
  {
    set d: nat | d < |w| && valid(w[d])
  }

  lemma {:induction false} AscendingCard(ds: seq<nat>)
    requires forall k, l :: 0 <= k < l < |ds| ==> ds[k] < ds[l]
    ensures |set k | 0 <= k < |ds| :: ds[k]| == |ds|
    decreases |ds|
  {
    if ds != [] {
      var front := ds[..|ds| - 1];
      AscendingCard(front);
      var s := set k | 0 <= k < |front| :: front[k];
      var last := ds[|ds| - 1];
      assert (set k | 0 <= k < |ds| :: ds[k]) == s + {last};
      assert last !in s;
    }
  }

  /** Sealing appends exactly one record per valid slot. */
  lemma SealedCount<R>(w: seq<R>, valid: R -> bool)
    ensures |Sealed(w, valid)| == |ValidSet(w, valid)|
  {
    var ds := ValidSlots(w, valid);
    AscendingCard(ds);
    assert (set k | 0 <= k < |ds| :: ds[k]) == ValidSet(w, valid);
  }

  /** The slots after sealing: every valid one is reset to `empty`, the others are kept. */
  ghost function Cleared<R>(w: seq<R>, valid: R -> bool, empty: R): seq<R>
  {
    seq(|w|, d requires 0 <= d < |w| => if valid(w[d]) then empty else w[d])
  }

  ghost predicate AllEmpty<R>(w: seq<R>, empty: R)
  {
    forall d :: 0 <= d < |w| ==> w[d] == empty
  }

  /** The end-of-row loop: every valid slot, in slot order, is appended and reset. */
  method Seal<R>(slots: array<R>, valid: R -> bool, empty: R) returns (sealed: seq<R>)
    modifies slots
    ensures sealed == Sealed(old(slots[..]), valid)
    ensures slots[..] == Cleared(old(slots[..]), valid, empty)
  {
    sealed := [];
    for d := 0 to slots.Length
      invariant sealed == Sealed(old(slots[..])[..d], valid)
      invariant forall e :: 0 <= e < d ==> slots[e] == (if valid(old(slots[e])) then empty else old(slots[e]))
      invariant forall e :: d <= e < slots.Length ==> slots[e] == old(slots[e])
    {
      assert old(slots[..])[..d + 1][..d] == old(slots[..])[..d];
      if valid(slots[d]) {
        sealed := sealed + [slots[d]];
        slots[d] := empty;
      }
    }
    assert old(slots[..])[..slots.Length] == old(slots[..]);
    assert slots[..] == Cleared(old(slots[..]), valid, empty);
  }
}
