/** Histories shared by several actors, and what each actor contributed to them. */
module History {
  /** One actor's entries, in order. */
  function Only<A(==), P>(h: seq<(A, P)>, actor: A): seq<P>
  {
    if h == [] then []
    else
      var (a, p) := h[|h| - 1];
      Only(h[..|h| - 1], actor) + (if a == actor then [p] else [])
  }

  function LastOr<P>(s: seq<P>, default: P): P
  {
    if s == [] then default else s[|s| - 1]
  }

  lemma OnlyAppend<A, P>(h: seq<(A, P)>, a: A, p: P, actor: A)
    ensures Only(h + [(a, p)], actor) == Only(h, actor) + (if a == actor then [p] else [])
  {
    assert (h + [(a, p)])[..|h|] == h;
  }

  /** If two histories agree actor by actor, each ends with some actor's latest entry in the other. */
  lemma EndsAreSomeonesLatest<A(!new), P>(x: seq<(A, P)>, y: seq<(A, P)>)
    requires forall a :: Only(x, a) == Only(y, a)
    requires x != []
    ensures y != []
    ensures var (a, p) := y[|y| - 1]; Only(x, a) != [] && LastOr(Only(x, a), p) == p
  {
    var n := |x| - 1;
    assert x == x[..n] + [x[n]];
    OnlyAppend(x[..n], x[n].0, x[n].1, x[n].0);
    assert Only(y, x[n].0) != [];
    var (a, p) := y[|y| - 1];
    assert Only(x, a) == Only(y, a);
  }
}
