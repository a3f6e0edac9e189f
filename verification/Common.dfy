/** Small vocabulary shared by every module of the model. */
module Common {
  datatype Option<+T> = None | Some(value: T)

  datatype Result<+T, +E> = Ok(value: T) | Err(error: E)

  function Max(a: int, b: int): int {
    if a < b then b else a
  }

  function Min(a: int, b: int): int {
    if a < b then a else b
  }

  // Instants are microseconds since the epoch in UTC; dates are days since the same epoch.
  const MICROS_PER_DAY: int := 86_400_000_000

  // The UTC calendar date of an instant (`as_of.date()`).
  function DateOf(instant: int): int {
    instant / MICROS_PER_DAY
  }

  lemma DateOfMeans(instant: int)
    ensures DateOf(instant) * 86_400_000_000 <= instant < (DateOf(instant) + 1) * 86_400_000_000
  {
  }

  function Pow(base: nat, exponent: nat): nat {
    if exponent == 0 then 1 else base * Pow(base, exponent - 1)
  }

  lemma {:induction false} PowPositive(base: nat, exponent: nat)
    requires base > 0
    ensures Pow(base, exponent) > 0
  {
    if exponent > 0 {
      PowPositive(base, exponent - 1);
    }
  }

  lemma ProductsAssociate(a: nat, b: nat, c: nat)
    ensures a * (b * c) == (a * b) * c
  {
  }

  lemma {:induction false} PowSum(base: nat, a: nat, b: nat)
    ensures Pow(base, a + b) == Pow(base, a) * Pow(base, b)
  {
    if a > 0 {
      PowSum(base, a - 1, b);
      ProductsAssociate(base, Pow(base, a - 1), Pow(base, b));
    }
  }

  function Repeat<T>(x: T, n: nat): (s: seq<T>)
    ensures |s| == n && forall i :: 0 <= i < n ==> s[i] == x
  {
    seq(n, _ => x)
  }

  // n steps of a counted loop.
  function Iterate<T>(step: (T, nat) -> T, start: T, n: nat): T {
    if n == 0 then start else step(Iterate(step, start, n - 1), n - 1)
  }

  // What holds at the start and is kept by every step holds after the loop.
  lemma {:induction false} IterateKeeps<T(!new)>(step: (T, nat) -> T, start: T, n: nat, holds: (T, nat) -> bool)
    requires holds(start, 0)
    requires forall t, i: nat :: i < n && holds(t, i) ==> holds(step(t, i), i + 1)
    ensures holds(Iterate(step, start, n), n)
  {
    if n > 0 {
      IterateKeeps(step, start, n - 1, holds);
    }
  }
}
