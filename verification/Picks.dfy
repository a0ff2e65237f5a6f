/** Picking elements out of a list without changing their order. */
module Picks {

  /** `r` lists the elements of `all` that are to be kept, at the positions `at`, each once and in order. */
  ghost predicate Picked<T>(all: seq<T>, keep: seq<bool>, r: seq<T>, at: seq<nat>) {
    && |all| == |keep| && |r| == |at|
    && (forall i, j :: 0 <= i < j < |at| ==> at[i] < at[j])
    && (forall p: nat :: p in at <==> p < |keep| && keep[p])
    && forall k :: 0 <= k < |r| ==> at[k] < |all| && r[k] == all[at[k]]
  }

  /** One more element at the end. */
  lemma PickedLast<T>(all: seq<T>, keep: seq<bool>, r: seq<T>, at: seq<nat>, x: T, kept: bool)
    requires Picked(all, keep, r, at)
    ensures Picked(all + [x], keep + [kept], r + if kept then [x] else [], at + if kept then [|all|] else [])
  {
    var more := at + if kept then [|all|] else [];
    forall p: nat ensures p in more <==> p < |keep| + 1 && (keep + [kept])[p] {
      assert p in more <==> p in at || (kept && p == |all|);
    }
  }
}
