/** Option and Result, the failure-carrying values used across the model. */
module Wrappers {

  datatype Option<+T> = None | Some(value: T)

  datatype Result<+T, +E> = Ok(value: T) | Err(error: E)

  /** The md5 hexdigest the source uses for level and blob ids: always 32 hexadecimal characters. */
  predicate IsHexDigit(c: char) {
    ('0' <= c <= '9') || ('a' <= c <= 'f')
  }

  type HexDigest = s: string | |s| == 32 && forall i | 0 <= i < |s| :: IsHexDigit(s[i])
    witness "00000000000000000000000000000000"

  /** An uninterpreted digest function (md5 in the source). */
  type Digest = string -> HexDigest
}
