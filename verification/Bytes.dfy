/** Bytes, optional values and the few byte constants the client decoders name. */
module Bytes {
  type Byte = b: int | 0 <= b < 256

  datatype Option<+T> = None | Some(value: T)

  const ESC: Byte := 0x1b
  const OPEN: Byte := 0x5b         // '['
  const LESS: Byte := 0x3c         // '<'
  const SEMICOLON: Byte := 0x3b    // ';'
  const COLON: Byte := 0x3a        // ':'
  const PRESS: Byte := 0x4d        // 'M'
  const RELEASE: Byte := 0x6d      // 'm'
  const FOCUS_IN: Byte := 0x49     // 'I'
  const FOCUS_OUT: Byte := 0x4f    // 'O'

  /** The index of the first byte satisfying `p`, or the length if there is none. */
  function FirstIndex(s: seq<Byte>, p: Byte -> bool): (i: nat)
    ensures i <= |s|
    ensures forall j :: 0 <= j < i ==> !p(s[j])
    ensures i < |s| ==> p(s[i])
  {
    if s == [] || p(s[0]) then 0 else 1 + FirstIndex(s[1..], p)
  }
}
