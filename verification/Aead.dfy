/** The AEAD both the backup and the guest card use: XChaCha20-Poly1305 as an ideal pair of functions. */
module Aead {
  import opened Bytes

  const TAG_LEN: nat := 16
  const NONCE_LEN: nat := 24

  /** `seal` and `open` take key, nonce, associated data, and text or ciphertext. */
  datatype Cipher = Cipher(
    seal: (bytes, bytes, bytes, bytes) -> bytes,
    open: (bytes, bytes, bytes, bytes) -> Option<bytes>)

  /** Opening succeeds exactly on what was sealed under the same key, nonce and associated data. */
  ghost predicate Lawful(c: Cipher) {
    && (forall k, n, ad, p :: |c.seal(k, n, ad, p)| == |p| + TAG_LEN)
    && (forall k, n, ad, p :: c.open(k, n, ad, c.seal(k, n, ad, p)) == Some(p))
    && (forall k, n, ad, ct :: c.open(k, n, ad, ct).Some? ==> ct == c.seal(k, n, ad, c.open(k, n, ad, ct).value))
  }
}
