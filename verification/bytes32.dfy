/** `toBytes32FromString` (src/lib/bytes32.js): the hashed derivation of a
    32-byte identifier from a string, with values already in bytes32 form
    passed through. The hash of the UTF-8 bytes is supplied by the caller. */
module Bytes32 {
  import opened Base
  import opened JsText

  predicate IsHexDigit(c: char) {
    '0' <= c <= '9' || 'a' <= c <= 'f' || 'A' <= c <= 'F'
  }

  /** `isHexString(s)`: `0x` followed by hex digits only. */
  predicate IsHexString(s: string) {
    StartsWith(s, "0x") && forall i :: 2 <= i < |s| ==> IsHexDigit(s[i])
  }

  /** The pass-through test: `0x` and 64 hex digits (66 characters; a string
      of hex digits has as many UTF-16 units as characters). */
  predicate IsBytes32Hex(s: string) {
    |s| == 66 && IsHexString(s)
  }

  /** A bytes32 value in the form the system stores: lower-case hex. */
  predicate IsCanonicalBytes32(s: string) {
    IsBytes32Hex(s) && NoUpper(s)
  }

  /** The hash returns canonical bytes32 values for every input, as
      keccak256 does. */
  ghost predicate HashIsCanonical(keccakUtf8: string -> string) {
    forall s :: IsCanonicalBytes32(keccakUtf8(s))
  }

  /** `toBytes32FromString(_, input)`: throws on an empty input; a bytes32
      value comes back lower-cased without hashing; anything else, including
      `0x` strings of any other length, is hashed. */
  function ToBytes32FromString(keccakUtf8: string -> string, input: string): (r: Completion<string>)
    ensures r.Throw? <==> input == ""
    ensures r.Normal? ==> (IsBytes32Hex(input) && r.value == Lower(input)) || r.value == keccakUtf8(input)
  {
    if input == "" then Throw("input required")
    else if StartsWith(input, "0x") && |input| == 66 && IsHexString(input) then Normal(Lower(input))
    else Normal(keccakUtf8(input))
  }

  /** Values already in bytes32 form are not hashed. */
  lemma PassThroughNotHashed(keccakUtf8: string -> string, input: string)
    requires IsBytes32Hex(input)
    ensures ToBytes32FromString(keccakUtf8, input) == Normal(Lower(input))
  {
  }

  /** Every other non-empty input is hashed, including `0x` strings whose
      length is not 66 and 66-character strings with a non-hex digit. */
  lemma OthersHashed(keccakUtf8: string -> string, input: string)
    requires input != "" && !IsBytes32Hex(input)
    ensures ToBytes32FromString(keccakUtf8, input) == Normal(keccakUtf8(input))
  {
  }

  /** Two bytes32 inputs that differ only in letter case give the same value. */
  lemma CaseInsensitiveOnBytes32(keccakUtf8: string -> string, a: string, b: string)
    requires IsBytes32Hex(a) && IsBytes32Hex(b) && Lower(a) == Lower(b)
    ensures ToBytes32FromString(keccakUtf8, a) == ToBytes32FromString(keccakUtf8, b)
  {
  }

  /** Lower-casing keeps a bytes32 value in bytes32 form. */
  lemma LowerKeepsBytes32(s: string)
    requires IsBytes32Hex(s)
    ensures IsCanonicalBytes32(Lower(s))
  {
    LowerIsLower(s);
    assert Lower(s)[..2] == "0x";
    forall i | 2 <= i < 66 ensures IsHexDigit(Lower(s)[i]) {
      assert IsHexDigit(s[i]);
    }
  }

  /** With a canonical hash, every result is canonical bytes32 and feeding a
      result back in returns it unchanged. */
  lemma Idempotent(keccakUtf8: string -> string, input: string)
    requires HashIsCanonical(keccakUtf8)
    requires input != ""
    ensures IsCanonicalBytes32(ToBytes32FromString(keccakUtf8, input).value)
    ensures var h := ToBytes32FromString(keccakUtf8, input).value;
      ToBytes32FromString(keccakUtf8, h) == Normal(h)
  {
    var h := ToBytes32FromString(keccakUtf8, input).value;
    if IsBytes32Hex(input) {
      LowerKeepsBytes32(input);
    } else {
      assert IsCanonicalBytes32(keccakUtf8(input));
    }
    LowerIsLower(h);
  }
}
