/**
 * The Go values the domain layer is built from: byte strings (Go's `string`
 * is an immutable byte sequence and `len` counts bytes), `nil`-able values,
 * and the instant that `time.Now().UTC()` would read, which the model takes
 * as a parameter supplied by the caller.
 */
module GoBasics {

  /** One byte of a Go string. */
  newtype byte = b: int | 0 <= b < 256

  /** A Go `string`: its length is the number of bytes. */
  type GoString = seq<byte>

  /** A point in time as read from the clock; the model never reads a clock itself. */
  type Time = int

  /** A value that may be absent (Go's `nil` pointer or `nil` error). */
  datatype Option<+T> = None | Some(value: T)

  /** True when every character of `s` is ASCII, so that it is one byte in UTF-8. */
  predicate IsAscii(s: string)
  {
    forall i :: 0 <= i < |s| ==> s[i] as int < 128
  }

  /** The UTF-8 bytes of an ASCII string literal: one byte per character. */
  function Ascii(s: string): (r: GoString)
    requires IsAscii(s)
    ensures |r| == |s|
    ensures forall i :: 0 <= i < |s| ==> r[i] as int == s[i] as int
  {
    seq(|s|, i requires 0 <= i < |s| => s[i] as int as byte)
  }
}
