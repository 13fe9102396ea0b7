/**
 The vocabulary shared by every module: optional values, and the byte strings of the
 protocol. A byte string is a Dafny `string` with one char per byte ('\U{0}' to '\U{FF}');
 text that is not such a string is refused by `Utf8.ValidUtf8`, as invalid bytes are.
 */
module Basics {
  datatype Option<+T> = None | Some(value: T) {
    predicate IsFailure() {
      None?
    }

    function PropagateFailure<U>(): Option<U>
      requires None?
    {
      None
    }

    function Extract(): T
      requires Some?
    {
      value
    }
  }

  type Bytes = string

  predicate Distinct<T(==)>(s: seq<T>) {
    forall i, j | 0 <= i < j < |s| :: s[i] != s[j]
  }
}
