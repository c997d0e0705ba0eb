/**
 * Transform-or-drop over sequences: Rust's `iter().filter_map(..).collect()`.
 * Both recursive definitions peel the LAST element, so an element keeps its
 * absolute index in every prefix.
 */
module FilterMaps {
  import opened Wrappers

  /** Pairs every element with its position, like `iter().enumerate()`. */
  function Indexed<A>(s: seq<A>): (r: seq<(nat, A)>)
    ensures |r| == |s|
    ensures forall i :: 0 <= i < |s| ==> r[i] == (i, s[i])
  {
    seq(|s|, i requires 0 <= i < |s| => (i, s[i]))
  }

  /** The predicate "f yields a value here". */
  function Defined<A, B>(f: A -> Option<B>): A -> bool {
    x => f(x).Some?
  }

  /** Keeps `f(x)`'s value for every `x` of `s` where it has one, in order. */
  function FilterMap<A, B>(s: seq<A>, f: A -> Option<B>): (r: seq<B>)
    ensures |r| <= |s|
    decreases |s|
  {
    if |s| == 0 then []
    else
      var n := |s| - 1;
      FilterMap(s[..n], f) + (match f(s[n]) case Some(b) => [b] case None => [])
  }

  /** The positions of `s` whose element satisfies `p`, as an increasing sequence. */
  function Positions<A>(s: seq<A>, p: A -> bool): (r: seq<nat>)
    ensures forall k :: 0 <= k < |r| ==> r[k] < |s| && p(s[r[k]])
    ensures forall j, k :: 0 <= j < k < |r| ==> r[j] < r[k]
    ensures forall i :: 0 <= i < |s| && p(s[i]) ==> i in r
    decreases |s|
  {
    if |s| == 0 then []
    else
      var n := |s| - 1;
      var init := Positions(s[..n], p);
      assert forall k :: 0 <= k < |init| ==> s[..n][init[k]] == s[init[k]];
      assert forall i :: 0 <= i < n ==> s[..n][i] == s[i];
      init + (if p(s[n]) then [n] else [])
  }

  /**
   * The exact shape of a filter-map: its k-th element is the value `f` gives
   * the k-th element of `s` on which `f` is defined.
   */
  lemma {:induction false} FilterMapAtPositions<A, B>(s: seq<A>, f: A -> Option<B>)
    ensures |FilterMap(s, f)| == |Positions(s, Defined(f))|
    ensures forall k :: 0 <= k < |Positions(s, Defined(f))| ==>
              FilterMap(s, f)[k] == f(s[Positions(s, Defined(f))[k]]).value
    decreases |s|
  {
    if |s| > 0 {
      var n := |s| - 1;
      FilterMapAtPositions(s[..n], f);
      var idx := Positions(s[..n], Defined(f));
      var pos := Positions(s, Defined(f));
      var r := FilterMap(s, f);
      var init := FilterMap(s[..n], f);
      FilterMapLast(s, f);
      PositionsLast(s, Defined(f));
      forall k | 0 <= k < |pos|
        ensures r[k] == f(s[pos[k]]).value
      {
        if k < |idx| {
          assert r[k] == init[k];
          assert s[..n][idx[k]] == s[idx[k]];
        }
      }
    }
  }

  /** One step of `FilterMap`: the last element is kept or dropped. */
  lemma FilterMapLast<A, B>(s: seq<A>, f: A -> Option<B>)
    requires |s| > 0
    ensures f(s[|s| - 1]).Some? ==>
              FilterMap(s, f) == FilterMap(s[..|s| - 1], f) + [f(s[|s| - 1]).value]
    ensures f(s[|s| - 1]).None? ==> FilterMap(s, f) == FilterMap(s[..|s| - 1], f)
  {
  }

  /** One step of `Positions`: the last position is added when it satisfies the predicate. */
  lemma PositionsLast<A>(s: seq<A>, p: A -> bool)
    requires |s| > 0
    ensures p(s[|s| - 1]) ==> Positions(s, p) == Positions(s[..|s| - 1], p) + [|s| - 1]
    ensures !p(s[|s| - 1]) ==> Positions(s, p) == Positions(s[..|s| - 1], p)
  {
  }

  /** Nothing is dropped when `f` is defined everywhere on `s`. */
  lemma {:induction false} FilterMapAllDefined<A, B>(s: seq<A>, f: A -> Option<B>)
    requires forall i :: 0 <= i < |s| ==> f(s[i]).Some?
    ensures |FilterMap(s, f)| == |s|
    ensures forall i :: 0 <= i < |s| ==> FilterMap(s, f)[i] == f(s[i]).value
    decreases |s|
  {
    if |s| > 0 {
      var n := |s| - 1;
      assert forall i :: 0 <= i < n ==> s[..n][i] == s[i];
      FilterMapAllDefined(s[..n], f);
    }
  }

  /** Every element on which `f` is undefined shortens the result. */
  lemma {:induction false} FilterMapDropsUndefined<A, B>(s: seq<A>, f: A -> Option<B>, i: nat)
    requires i < |s| && f(s[i]).None?
    ensures |FilterMap(s, f)| < |s|
    decreases |s|
  {
    var n := |s| - 1;
    if i < n {
      assert s[..n][i] == s[i];
      FilterMapDropsUndefined(s[..n], f, i);
    }
  }

  /** Positions depend only on which elements satisfy the predicate. */
  lemma {:induction false} PositionsAgree<A, C>(s: seq<A>, p: A -> bool, t: seq<C>, q: C -> bool)
    requires |s| == |t|
    requires forall i :: 0 <= i < |s| ==> p(s[i]) == q(t[i])
    ensures Positions(s, p) == Positions(t, q)
    decreases |s|
  {
    if |s| > 0 {
      var n := |s| - 1;
      assert forall i :: 0 <= i < n ==> s[..n][i] == s[i] && t[..n][i] == t[i];
      PositionsAgree(s[..n], p, t[..n], q);
    }
  }
}
