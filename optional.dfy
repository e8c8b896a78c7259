/** The Option datatype used wherever the source returns None for "absent". */
module Optional {

  datatype Option<+T> = None | Some(value: T)

  /**
   * Applies f to every element in order: all results when every call
   * succeeds, None as soon as one fails (a comprehension whose element
   * expression may raise).
   */
  function MapAll<A, B>(xs: seq<A>, f: A -> Option<B>): (r: Option<seq<B>>)
    ensures r.Some? <==> forall i | 0 <= i < |xs| :: f(xs[i]).Some?
    ensures r.Some? ==> |r.value| == |xs|
    ensures r.Some? ==> forall i | 0 <= i < |xs| :: Some(r.value[i]) == f(xs[i])
  {
    if xs == [] then Some([])
    else
      var init := MapAll(xs[..|xs| - 1], f);
      var last := f(xs[|xs| - 1]);
      if init.None? || last.None? then None else Some(init.value + [last.value])
  }

  /** One more element: its result is appended, or the whole traversal fails. */
  lemma MapAllSnoc<A, B>(xs: seq<A>, x: A, f: A -> Option<B>)
    ensures MapAll(xs + [x], f) ==
      if MapAll(xs, f).None? || f(x).None? then None else Some(MapAll(xs, f).value + [f(x).value])
  {
    assert (xs + [x])[..|xs|] == xs;
  }
}
