/** Payload encryption, known by its contract: opening undoes sealing and the
    tag adds sixteen bytes. A sealed payload travels behind its 12-byte nonce. */
module Crypto {
  import opened Words
  import opened Wrappers

  const NONCE_SIZE := 12
  const TAG_SIZE := 16

  datatype Aead = Aead(seal: (Bytes, Bytes) -> Bytes, open: (Bytes, Bytes) -> Option<Bytes>)

  ghost predicate Lawful(a: Aead) {
    && (forall nonce, text {:trigger a.seal(nonce, text)} :: |a.seal(nonce, text)| == |text| + TAG_SIZE)
    && (forall nonce, text {:trigger a.open(nonce, a.seal(nonce, text))} :: a.open(nonce, a.seal(nonce, text)) == Some(text))
  }

  function Encrypt(a: Aead, nonce: Bytes, text: Bytes): Bytes {
    nonce + a.seal(nonce, text)
  }

  function Decrypt(a: Aead, c: Bytes): Option<Bytes> {
    if |c| < NONCE_SIZE then None else a.open(c[..NONCE_SIZE], c[NONCE_SIZE..])
  }

  lemma DecryptEncrypt(a: Aead, nonce: Bytes, text: Bytes)
    requires Lawful(a) && |nonce| == NONCE_SIZE
    ensures Decrypt(a, Encrypt(a, nonce, text)) == Some(text)
    ensures |Encrypt(a, nonce, text)| == |text| + 28
  {
    var c := Encrypt(a, nonce, text);
    assert c[..NONCE_SIZE] == nonce && c[NONCE_SIZE..] == a.seal(nonce, text);
  }

  /** The contract can be met (by an instance that hides nothing). */
  const PLAIN := Aead(
    (nonce: Bytes, text: Bytes) => text + seq(TAG_SIZE, _ => 0),
    (nonce: Bytes, c: Bytes) => if |c| < TAG_SIZE then None else Some(c[..|c| - TAG_SIZE]))

  lemma PlainIsLawful()
    ensures Lawful(PLAIN)
  {
    forall nonce: Bytes, text: Bytes
      ensures PLAIN.open(nonce, PLAIN.seal(nonce, text)) == Some(text)
    {
      var c := PLAIN.seal(nonce, text);
      assert c[..|c| - TAG_SIZE] == text;
    }
  }
}
