/** Order-preserving selection from a sequence, the shape of JavaScript's `Array.prototype.filter`. */
module Seqs {

  /** `src.filter(keep)`: the elements that pass `keep`, in their order, repeats included. */
  function Filter<T(==)>(src: seq<T>, keep: T -> bool): (r: seq<T>)
    ensures |r| <= |src|
    ensures forall k :: 0 <= k < |r| ==> keep(r[k]) && r[k] in src
  {
    if src == [] then []
    else (if keep(src[0]) then [src[0]] else []) + Filter(src[1..], keep)
  }

  /**
   * `r` is the selection of `src` at the strictly increasing positions `idx`,
   * and `idx` holds every position whose element passes `keep`.
   */
  predicate Picks<T(==)>(idx: seq<nat>, src: seq<T>, keep: T -> bool, r: seq<T>) {
    && |idx| == |r|
    && (forall k, l :: 0 <= k < l < |idx| ==> idx[k] < idx[l])
    && (forall k :: 0 <= k < |idx| ==> idx[k] < |src| && r[k] == src[idx[k]])
    && (forall j :: 0 <= j < |src| && keep(src[j]) ==> j in idx)
  }

  /** The filter keeps exactly the passing elements, each once per occurrence and in order. */
  lemma {:induction false} FilterPicks<T>(src: seq<T>, keep: T -> bool)
    ensures exists idx :: Picks(idx, src, keep, Filter(src, keep))
  {
    if src == [] {
      assert Picks([], src, keep, Filter(src, keep));
    } else {
      var rest := Filter(src[1..], keep);
      FilterPicks(src[1..], keep);
      var tailIdx :| Picks(tailIdx, src[1..], keep, rest);
      var shifted := Shift(tailIdx);
      ShiftPicks(src, keep, tailIdx, rest);
      if keep(src[0]) {
        PrependPicks(src, keep, shifted, rest);
        assert Picks([0] + shifted, src, keep, Filter(src, keep));
      } else {
        assert Filter(src, keep) == rest;
      }
    }
  }

  /** Every position moved one place to the right. */
  function Shift(idx: seq<nat>): (r: seq<nat>)
    ensures |r| == |idx| && forall k :: 0 <= k < |idx| ==> r[k] == idx[k] + 1
  {
    seq(|idx|, k requires 0 <= k < |idx| => idx[k] + 1)
  }

  /** Positions in the tail, shifted, select the same elements from the whole sequence. */
  lemma ShiftPicks<T>(src: seq<T>, keep: T -> bool, tailIdx: seq<nat>, rest: seq<T>)
    requires src != [] && Picks(tailIdx, src[1..], keep, rest)
    ensures var s := Shift(tailIdx);
            && |s| == |rest|
            && (forall k, l :: 0 <= k < l < |s| ==> s[k] < s[l])
            && (forall k :: 0 <= k < |s| ==> 0 < s[k] < |src| && rest[k] == src[s[k]])
            && (forall j :: 1 <= j < |src| && keep(src[j]) ==> j in s)
            && (!keep(src[0]) ==> Picks(s, src, keep, rest))
  {
    var s := Shift(tailIdx);
    forall k | 0 <= k < |s|
      ensures 0 < s[k] < |src| && rest[k] == src[s[k]]
    {
      assert rest[k] == src[1..][tailIdx[k]];
    }
    forall j | 1 <= j < |src| && keep(src[j])
      ensures j in s
    {
      assert src[1..][j - 1] == src[j];
      var k :| 0 <= k < |tailIdx| && tailIdx[k] == j - 1;
      assert s[k] == j;
    }
  }

  lemma PrependPicks<T>(src: seq<T>, keep: T -> bool, s: seq<nat>, rest: seq<T>)
    requires src != []
    requires |s| == |rest|
    requires forall k, l :: 0 <= k < l < |s| ==> s[k] < s[l]
    requires forall k :: 0 <= k < |s| ==> 0 < s[k] < |src| && rest[k] == src[s[k]]
    requires forall j :: 1 <= j < |src| && keep(src[j]) ==> j in s
    ensures Picks([0] + s, src, keep, [src[0]] + rest)
  {
    var idx, r := [0] + s, [src[0]] + rest;
    forall k | 0 < k < |idx|
      ensures idx[k] == s[k - 1] && r[k] == rest[k - 1]
    {
    }
    forall j | 0 <= j < |src| && keep(src[j])
      ensures j in idx
    {
      if j > 0 {
        assert j in s;
      }
    }
  }

  /** An element is kept exactly when it occurs in `src` and passes `keep`. */
  lemma {:induction false} FilterMembers<T>(src: seq<T>, keep: T -> bool, x: T)
    ensures x in Filter(src, keep) <==> x in src && keep(x)
  {
    if src != [] {
      FilterMembers(src[1..], keep, x);
      assert x in src <==> x == src[0] || x in src[1..];
    }
  }
}
