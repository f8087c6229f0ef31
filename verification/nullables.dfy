/**
 This module models the C# reference `null` for the values the command handles:
 a token's text may be absent, and so may the active document view.
 */
module Nullables {

  /** A value of type `T`, or the null reference. */
  datatype Nullable<+T> = Null | NonNull(value: T)

  /** What `String.Join` contributes for one list element: a null element
      contributes nothing, exactly like the empty string. */
  function OrEmpty(s: Nullable<string>): string {
    match s
    case Null => ""
    case NonNull(v) => v
  }
}
