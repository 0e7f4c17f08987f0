/** Types and small facts shared by every module of the model. */
module Basics {

  newtype byte = x: int | 0 <= x < 256

  type bytes = seq<byte>

  datatype Option<+T> = None | Some(value: T)

  datatype Result<+T, +E> = Ok(value: T) | Err(error: E)

  function Min(a: int, b: int): int {
    if a <= b then a else b
  }

  function Max(a: int, b: int): int {
    if a >= b then a else b
  }

  /** `s` from position `from`, empty when the position lies past the end. */
  function From<T>(s: seq<T>, from: nat): seq<T> {
    if from <= |s| then s[from..] else []
  }

  /** Concatenating a prefix and dropping it again. */
  lemma DropPrefix<T>(a: seq<T>, b: seq<T>, n: nat)
    requires |a| <= n <= |a| + |b|
    ensures (a + b)[n..] == b[n - |a|..]
  {
  }
}
