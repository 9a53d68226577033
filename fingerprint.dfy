/** File contents and their content fingerprint. */
module Fingerprint {

  /** The bytes of a file, as `fs.readFileSync` returns them. */
  type Bytes = seq<bv8>

  /**
   * The hex digest of `crypto.createHash('md5')` over a buffer. The digest
   * itself is not modelled: every operation that compares checksums takes
   * the digest function as a parameter, so nothing is assumed about it.
   */
  type Md5 = Bytes -> string
}
