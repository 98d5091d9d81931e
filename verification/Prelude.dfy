// Types and conversions shared by the models of the accounts, trading and persistence packages.

module Prelude {

  datatype Option<+T> = None | Some(value: T)

  datatype Result<+T, +E> = Ok(value: T) | Err(error: E)

  lemma AroundIndex<T>(s: seq<T>, i: nat)
    requires i < |s|
    ensures s == s[..i] + [s[i]] + s[i + 1..]
  {
  }

  lemma ConsOnto<T>(s: seq<T>, x: T, more: seq<T>)
    ensures s + ([x] + more) == s + [x] + more
  {
  }

  /** Conversion to an integer drops the fraction, towards zero. */
  function Truncate(x: real): int {
    if x >= 0.0 then x.Floor else -((-x).Floor)
  }

  /** That is the whole number nearest to x that is no further from zero. */
  lemma TruncateMeans(x: real)
    ensures var n := Truncate(x) as real;
      if x >= 0.0 then 0.0 <= n <= x < n + 1.0 else n - 1.0 < x <= n <= 0.0
  {
  }
}
