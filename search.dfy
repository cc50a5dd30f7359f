/** Linear search for the first element satisfying a predicate, as done by
    `Array.prototype.find` in every handler of the server. */
module Search {
  import opened Wrappers

  /** Index of the first element of `s` satisfying `p`, or None. The index
      stands for the object reference `find` returns, so that a caller can
      update that very record in place. */
  function FirstIndex<T>(s: seq<T>, p: T -> bool): (r: Option<nat>)
    ensures r.Some? ==> r.value < |s| && p(s[r.value])
    ensures r.Some? ==> forall k :: 0 <= k < r.value ==> !p(s[k])
    ensures r.None? ==> forall k :: 0 <= k < |s| ==> !p(s[k])
    decreases |s|
  {
    if |s| == 0 then None
    else if p(s[0]) then Some(0)
    else match FirstIndex(s[1..], p)
      case None => None
      case Some(i) => Some(i + 1)
  }

  /** The first match is determined by the predicate on each element: an
      index that satisfies `p` with no earlier element satisfying it is the
      one `FirstIndex` returns. */
  lemma FirstIndexIs<T>(s: seq<T>, p: T -> bool, i: nat)
    requires i < |s| && p(s[i])
    requires forall k :: 0 <= k < i ==> !p(s[k])
    ensures FirstIndex(s, p) == Some(i)
  {
  }

  /** Replacing an element by one on which `p` agrees leaves the first match
      where it was. */
  lemma FirstIndexUpdate<T>(s: seq<T>, p: T -> bool, j: nat, v: T)
    requires j < |s| && p(v) == p(s[j])
    ensures FirstIndex(s[j := v], p) == FirstIndex(s, p)
  {
    var t := s[j := v];
    assert forall k :: 0 <= k < |s| ==> p(t[k]) == p(s[k]);
    match FirstIndex(s, p)
    case None =>
    case Some(i) =>
      FirstIndexIs(t, p, i);
  }

  /** Appending an element changes the outcome of the search only when
      nothing matched before. */
  lemma FirstIndexAppend<T>(s: seq<T>, p: T -> bool, x: T)
    ensures FirstIndex(s + [x], p) ==
            if FirstIndex(s, p).Some? then FirstIndex(s, p)
            else if p(x) then Some(|s|) else None
  {
    var t := s + [x];
    assert forall k :: 0 <= k < |s| ==> t[k] == s[k];
    match FirstIndex(s, p)
    case Some(i) =>
      FirstIndexIs(t, p, i);
    case None =>
      if p(x) {
        FirstIndexIs(t, p, |s|);
      }
  }
}
