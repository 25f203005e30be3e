/** Shared vocabulary of the model: bytes, optional values and the
    C `realloc` used by every growable array of the program. */
module Base {

  /** One byte of a buffer (`char` / `unsigned char` in the C program). */
  type byte = x: int | 0 <= x < 256

  /** The newline byte `'\n'`. */
  const NL: byte := 10

  datatype Option<T> = None | Some(value: T)

  /** `realloc`: a fresh block of `n` slots whose first `a.Length` slots
      carry the old contents; the slots past them hold `fill` (their
      contents are unspecified in C and never read by the program). */
  method Realloc<T>(a: array<T>, n: nat, fill: T) returns (b: array<T>)
    requires a.Length <= n
    ensures fresh(b)
    ensures b.Length == n
    ensures b[..a.Length] == a[..]
  {
    b := new T[n](_ => fill);
    var i := 0;
    while i < a.Length
      invariant 0 <= i <= a.Length
      invariant forall j :: 0 <= j < i ==> b[j] == a[j]
    {
      b[i] := a[i];
      i := i + 1;
    }
  }
}
