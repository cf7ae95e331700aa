/** Small vocabulary shared by the models: optional values and real arithmetic. */
module Common {

  datatype Option<+T> = None | Some(value: T) {
    function GetOr(default: T): T {
      match this
      case Some(v) => v
      case None => default
    }
  }

  datatype Result<+T, +E> = Ok(value: T) | Err(error: E)

  function Max(a: real, b: real): real {
    if a >= b then a else b
  }

  function Min(a: real, b: real): real {
    if a <= b then a else b
  }

  function Abs(a: real): real {
    if a >= 0.0 then a else -a
  }

  /** A product behind a name, so that proofs can carry it around without the solver multiplying out. */
  function Scale(a: real, b: real): real {
    a * b
  }

  lemma ScaleAdd(r: real, x: real, y: real)
    ensures Scale(r, x + y) == Scale(r, x) + Scale(r, y)
  {
    MulDistributes(r, x, y);
  }

  lemma ScaleMinus(r: real, x: real, y: real)
    ensures Scale(r, x - y) == Scale(r, x) - Scale(r, y)
    ensures Scale(x - y, r) == Scale(x, r) - Scale(y, r)
  {
    MulDistributes(r, x - y, y);
  }

  lemma ScaleFactor(d: real, s: real, w: real, x: real)
    ensures Scale(d, s) + Scale(Scale(d, w), x) == Scale(d, s + Scale(w, x))
  {
    MulAssoc(d, w, x);
    MulDistributes(d, s, w * x);
  }

  lemma DivMul(a: real, b: real)
    requires b != 0.0
    ensures a / b * b == a
  {
  }

  lemma MulAssoc(a: real, b: real, c: real)
    ensures a * b * c == a * (b * c)
  {
  }

  lemma MulDistributes(a: real, b: real, c: real)
    ensures a * (b + c) == a * b + a * c
  {
  }

  lemma MulPos(a: real, b: real)
    requires a > 0.0 && b > 0.0
    ensures a * b > 0.0
  {
  }

  lemma MulNonneg(a: real, b: real)
    requires a >= 0.0 && b >= 0.0
    ensures a * b >= 0.0
  {
  }

  lemma MulMono(a: real, b: real, c: real)
    requires a <= b && c >= 0.0
    ensures a * c <= b * c
  {
  }

  lemma DivPos(a: real, b: real)
    requires a > 0.0 && b > 0.0
    ensures a / b > 0.0
  {
    if a / b <= 0.0 {
      MulNonneg(-(a / b), b);
      DivMul(a, b);
    }
  }

  lemma DivNonneg(a: real, b: real)
    requires a >= 0.0 && b > 0.0
    ensures a / b >= 0.0
  {
    if a > 0.0 {
      DivPos(a, b);
    }
  }

  /** Python's slice xs[-k:]: the last `k` elements, but everything for k == 0, and what follows the first
      -k elements for a negative k. */
  function Tail<T>(xs: seq<T>, k: int): (r: seq<T>)
    ensures k >= 1 && |xs| <= k ==> r == xs
    ensures k >= 1 && |xs| > k ==> r == xs[|xs| - k..] && |r| == k
    ensures k == 0 ==> r == xs
  {
    if k > 0 then (if |xs| <= k then xs else xs[|xs| - k..])
    else if -k <= |xs| then xs[-k..] else []
  }
}
