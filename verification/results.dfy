/** Optional values, tagged results, and the two sequence combinators the
 *  transplant pipeline is built from: a stop-on-first-error map and an
 *  order-preserving filter. */
module Results {

  datatype Option<+T> = None | Some(value: T)

  datatype Result<+T, +E> = Ok(value: T) | Err(error: E)

  /** Applies `f` to every element in order and stops at the first error;
   *  succeeds with all the mapped values when no element fails. */
  function MapAll<A, B, E>(xs: seq<A>, f: A -> Result<B, E>): (r: Result<seq<B>, E>)
    ensures r.Ok? <==> forall i :: 0 <= i < |xs| ==> f(xs[i]).Ok?
    ensures r.Ok? ==> |r.value| == |xs| && forall i :: 0 <= i < |xs| ==> f(xs[i]) == Ok(r.value[i])
    ensures r.Err? ==> FirstFailure(xs, f) < |xs| && f(xs[FirstFailure(xs, f)]) == Err(r.error)
    decreases |xs|
  {
    if xs == [] then Ok([])
    else match f(xs[0])
      case Err(e) => Err(e)
      case Ok(y) =>
        match MapAll(xs[1..], f)
        case Err(e) => Err(e)
        case Ok(ys) => Ok([y] + ys)
  }

  /** Index of the first element on which `f` fails (|xs| when none does). */
  function FirstFailure<A, B, E>(xs: seq<A>, f: A -> Result<B, E>): (k: nat)
    ensures k <= |xs|
    ensures forall j :: 0 <= j < k ==> f(xs[j]).Ok?
    ensures k < |xs| <==> exists i :: 0 <= i < |xs| && f(xs[i]).Err?
    ensures k < |xs| ==> f(xs[k]).Err?
    decreases |xs|
  {
    if xs == [] then 0
    else if f(xs[0]).Err? then 0
    else 1 + FirstFailure(xs[1..], f)
  }

  /** The elements of `xs` that satisfy `p`, in their original order. */
  function Filter<T(!new)>(xs: seq<T>, p: T -> bool): (r: seq<T>)
    ensures forall x :: x in r <==> x in xs && p(x)
    ensures forall x :: multiset(r)[x] == if p(x) then multiset(xs)[x] else 0
    ensures SubsequenceOf(r, xs)
    decreases |xs|
  {
    if xs == [] then []
    else
      assert xs == [xs[0]] + xs[1..];
      if p(xs[0]) then
        var rest := Filter(xs[1..], p);
        assert ([xs[0]] + rest)[1..] == rest;
        [xs[0]] + rest
      else Filter(xs[1..], p)
  }

  /** `xs` is obtained from `ys` by deleting elements, without reordering. */
  ghost predicate SubsequenceOf<T>(xs: seq<T>, ys: seq<T>)
    decreases |ys|
  {
    xs == [] ||
    (ys != [] &&
     ((xs[0] == ys[0] && SubsequenceOf(xs[1..], ys[1..])) || SubsequenceOf(xs, ys[1..])))
  }
}
