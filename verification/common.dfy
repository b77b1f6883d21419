/** Failure-carrying values shared by every module of the model. */
module Common {

  /** A value that may be missing: a pandas NaN cell, or a key a Python dict may lack. */
  datatype Option<T> = None | Some(value: T)

  /** The outcome of a run: the statistics, or the reason the script stops. */
  datatype Result<T> = Ok(value: T) | Err(message: string)

  function Min(a: int, b: int): int { if a <= b then a else b }

  /**
   * `num / den` rounded to a whole number, an exact half going to the even
   * neighbour: Python's `round` and numpy's `rint` on an exactly held value.
   */
  function RoundHalfEven(num: nat, den: nat): (r: nat)
    requires den > 0
    ensures 2 * num - den <= 2 * den * r <= 2 * num + den
    ensures 2 * den * r == 2 * num - den || 2 * den * r == 2 * num + den ==> r % 2 == 0
  {
    var q := num / den;
    var m := num % den;
    NearestMultiples(num, den, q, m);
    if 2 * m < den then q
    else if 2 * m > den then q + 1
    else if q % 2 == 0 then q
    else q + 1
  }

  /** With `num == den * q + m`, the multiples `q` and `q + 1` of `den` lie either side of `num`. */
  lemma {:induction false} NearestMultiples(num: nat, den: nat, q: nat, m: nat)
    requires num == den * q + m && m < den
    ensures 2 * den * q == 2 * num - 2 * m
    ensures 2 * den * (q + 1) == 2 * num - 2 * m + 2 * den
  {
  }

  /** The least index in [from, to) satisfying `ok`: a left-to-right search that stops at the first hit. */
  function FirstIndex(from: nat, to: nat, ok: nat -> bool): (r: Option<nat>)
    ensures r.Some? ==> from <= r.value < to && ok(r.value)
    ensures r.Some? ==> (forall j :: from <= j < r.value ==> !ok(j))
    ensures r.None? ==> (forall j :: from <= j < to ==> !ok(j))
    decreases if from <= to then to - from else 0
  {
    if from >= to then None
    else if ok(from) then Some(from)
    else FirstIndex(from + 1, to, ok)
  }
}
