/** The values, results and texts shared by every component. */
module Common {
  datatype Option<+T> = None | Some(value: T)

  datatype Result<+T, +E> = Ok(value: T) | Err(error: E)

  type Byte = x: int | 0 <= x < 256

  function Min(a: int, b: int): int { if a <= b then a else b }

  function Max(a: int, b: int): int { if a >= b then a else b }

  /** Lower-case hexadecimal digits. */
  predicate IsHex(s: string) { forall i :: 0 <= i < |s| ==> '0' <= s[i] <= '9' || 'a' <= s[i] <= 'f' }

  /** A SHA-256 value in text form. */
  predicate IsSha256(s: string) { |s| == 64 && IsHex(s) }

  /** A character below the space. */
  predicate HasControl(s: string) { exists i :: 0 <= i < |s| && s[i] < ' ' }
}
