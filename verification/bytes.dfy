/** Bytes and the "binary string" view of them that the browser's base64
    functions work on: one character per byte, code point = byte value. */
module Bytes {

  type Byte = b: int | 0 <= b < 256

  /** A string every character of which stands for one byte. */
  predicate IsBinaryString(s: string) {
    forall i :: 0 <= i < |s| ==> s[i] as int < 256
  }

  /** The loop `binary += String.fromCharCode(bytes[i])`. */
  function BinaryString(bytes: seq<Byte>): (s: string)
    ensures |s| == |bytes|
    ensures forall i :: 0 <= i < |bytes| ==> s[i] as int == bytes[i]
    ensures IsBinaryString(s)
  {
    seq(|bytes|, i requires 0 <= i < |bytes| => bytes[i] as char)
  }

  /** The loop `bytes[i] = binaryString.charCodeAt(i)` over a binary string. */
  function CharCodes(s: string): (bytes: seq<Byte>)
    requires IsBinaryString(s)
    ensures |bytes| == |s|
    ensures forall i :: 0 <= i < |s| ==> bytes[i] == s[i] as int
  {
    seq(|s|, i requires 0 <= i < |s| => s[i] as int)
  }

  /** The two conversions are inverse to each other. */
  lemma CharCodesOfBinaryString(bytes: seq<Byte>)
    ensures CharCodes(BinaryString(bytes)) == bytes
  {
  }

  lemma BinaryStringOfCharCodes(s: string)
    requires IsBinaryString(s)
    ensures BinaryString(CharCodes(s)) == s
  {
  }
}
