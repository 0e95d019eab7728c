/** Small value helpers shared by the other modules: an optional value
    (a JSON key that may be absent, a Python `None`), a minimum, Python's
    list slice `xs[:n]` and list concatenation of a list of lists. */
module Util {

  datatype Option<T> = None | Some(value: T) {
    /** `d.get(key, default)` once the lookup has produced this option */
    function GetOr(default: T): T {
      match this
      case Some(v) => v
      case None => default
    }
  }

  function Min(a: int, b: int): int {
    if a <= b then a else b
  }

  /** Python's `xs[:n]` for a non-negative `n` */
  function Take<T>(xs: seq<T>, n: nat): (r: seq<T>)
    ensures |r| == Min(n, |xs|)
    ensures r == xs[..|r|]
  {
    if |xs| <= n then xs else xs[..n]
  }

  /** the lists of `xss` one after another */
  function Flatten<T>(xss: seq<seq<T>>): seq<T>
  {
    if xss == [] then [] else Flatten(xss[..|xss| - 1]) + xss[|xss| - 1]
  }

  lemma FlattenAppend<T>(xss: seq<seq<T>>, xs: seq<T>)
    ensures Flatten(xss + [xs]) == Flatten(xss) + xs
  {
    assert (xss + [xs])[..|xss|] == xss;
  }
}
