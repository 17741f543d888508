/** What more than one component uses. */
module Basics {
  /** A value or none. */
  datatype Option<+T> = None | Some(value: T)

  type Byte = x: int | 0 <= x < 256

  const INT32_MAX: nat := 0x7FFF_FFFF

  /** Whether storage that is asked for can be had. An operation may be refused storage each time it asks for some, and
      never is when it is `granted` all it asks for. */
  method HasStorage(granted: bool) returns (ok: bool)
    ensures granted ==> ok
  {
    ok := *;
    ok := ok || granted;
  }

  lemma TimesUp(a: int, b: int, c: int)
    requires a <= b && c >= 0
    ensures a * c <= b * c
  {
  }
}
