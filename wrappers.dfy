/** Option and Result values for the error paths of the model. */
module Wrappers {
  datatype Option<+T> = None | Some(value: T)

  datatype Result<+T, +E> = Success(value: T) | Failure(error: E)
}

/** Go strings are byte strings; the feed is read as one. */
module Bytes {
  /** One byte of a Go string, written as the character with that code. */
  type Byte = c: char | c as int < 256 witness '0'

  /** The six bytes Go's strings.Fields treats as white space: '\t', '\n', '\v', '\f', '\r' and ' '. */
  predicate IsSpace(c: Byte) {
    c as int == 32 || 9 <= c as int <= 13
  }

  predicate IsDecimalDigit(c: Byte) {
    '0' <= c <= '9'
  }

  predicate NoSpace(s: seq<Byte>) {
    forall i :: 0 <= i < |s| ==> !IsSpace(s[i])
  }

  predicate AllSpace(s: seq<Byte>) {
    forall i :: 0 <= i < |s| ==> IsSpace(s[i])
  }

  predicate AllDecimal(s: seq<Byte>) {
    forall i :: 0 <= i < |s| ==> IsDecimalDigit(s[i])
  }
}
