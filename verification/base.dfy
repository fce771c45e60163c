/** Shared vocabulary: the errors the Python code raises, a Result type that
    works with `:-`, and the Python list conventions (slices that clamp and
    count negative bounds from the end, element access with negative
    indices, floor division) that the shape rules rely on. */
module Base {

  /** One constructor per way the modelled code can fail. */
  datatype Error =
    | UnsupportedOperation(op: string) // dispatch: op name absent from the table (NotImplementedError)
    | UnsupportedCase                   // a rule's own NotImplementedError
    | IndexOutOfRange                   // IndexError
    | MissingAttribute                  // AttributeError: `.orig_shape`, `.shape` or `.is_padded` read on an object without it
    | MalformedArgument                 // an argument of a type the rule cannot use (TypeError)
    | UnpackMismatch                    // ValueError from unpacking a shape of the wrong rank
    | AssertionFailed                   // a failing `assert`
    | DivisionByZero                    // ZeroDivisionError
    | InvalidSliceRange                 // ValueError("Invalid slice indices ...")
    | UnresolvedShape                   // unpad of a shape holding the sentinel

  datatype Result<+T> = Ok(value: T) | Err(error: Error) {
    predicate IsFailure() { Err? }
    function PropagateFailure<U>(): Result<U>
      requires Err?
    {
      Err(error)
    }
    function Extract(): T
      requires Ok?
    {
      value
    }
  }

  datatype Option<+T> = None | Some(value: T)

  /** `s` put in front of a successful list result; a failure is kept. */
  function Prefixed<T>(s: seq<T>, r: Result<seq<T>>): Result<seq<T>> {
    match r
    case Ok(rest) => Ok(s + rest)
    case Err(e) => Err(e)
  }

  lemma PrefixedNil<T>(r: Result<seq<T>>)
    ensures Prefixed([], r) == r
  {
    if r.Ok? {
      assert [] + r.value == r.value;
    }
  }

  lemma PrefixedTwice<T>(a: seq<T>, b: seq<T>, r: Result<seq<T>>)
    ensures Prefixed(a, Prefixed(b, r)) == Prefixed(a + b, r)
  {
    if r.Ok? {
      assert a + (b + r.value) == (a + b) + r.value;
    }
  }

  /** Python's `//`: the quotient rounded towards minus infinity. */
  function FloorDiv(a: int, b: int): (q: int)
    requires b != 0
    ensures b > 0 ==> q * b <= a < q * b + b
    ensures b < 0 ==> q * b >= a > q * b + b
  {
    if b > 0 then a / b else (-a) / (-b)
  }

  /** The position a Python slice bound `k` denotes in a list of length `n`. */
  function SliceBound(k: int, n: nat): (b: nat)
    ensures b <= n
    ensures 0 <= k <= n ==> b == k
    ensures k < 0 && 0 <= n + k ==> b == n + k
  {
    if k < 0 then (if k + n < 0 then 0 else k + n) else if k > n then n else k
  }

  /** Python's `s[:k]`. */
  function Take<T>(s: seq<T>, k: int): seq<T> {
    s[..SliceBound(k, |s|)]
  }

  /** Python's `s[k:]`. */
  function Drop<T>(s: seq<T>, k: int): seq<T> {
    s[SliceBound(k, |s|)..]
  }

  /** The position Python's `s[i]` reads, or None where it raises IndexError. */
  function PyIndex(i: int, n: nat): (r: Option<nat>)
    ensures r.Some? <==> 0 <= n + i && i < n
    ensures r.Some? ==> r.value < n && (i >= 0 ==> r.value == i) && (i < 0 ==> r.value == n + i)
  {
    if 0 <= i < n then Some(i) else if i < 0 && 0 <= n + i then Some(n + i) else None
  }

  /** Python's `s[i]`. */
  function PyAt<T>(s: seq<T>, i: int): Result<T> {
    match PyIndex(i, |s|)
    case Some(j) => Ok(s[j])
    case None => Err(IndexOutOfRange)
  }

  /** Python's `if dim < 0: dim += n`. */
  function NormalizeAxis(dim: int, n: nat): int {
    if dim < 0 then dim + n else dim
  }
}
