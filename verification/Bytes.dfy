/** Vocabulary shared by every module: machine bytes, C strings and the usual Option. */
module Bytes {

  type byte = x: int | 0 <= x < 256

  /** The characters of a NUL-terminated C string, without the terminator. */
  type CString = s: seq<byte> | forall i :: 0 <= i < |s| ==> s[i] != 0

  datatype Option<+T> = None | Some(value: T)
}
