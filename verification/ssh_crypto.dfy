/** The foreign cryptography the key store and challenge protocol call into:
    OpenSSH key parsing, signing, signature verification and Base64. None of
    it is modelled; a `Suite` bundles the operations as function values, and
    `Sound` states the only facts about them that the protocol relies on. */
module SshCrypto {
  import opened Wrappers

  newtype byte = x: int | 0 <= x < 256

  /** A parsed private key; what it holds is the library's business. */
  datatype PrivateKey = PrivateKey(secret: seq<byte>)

  /** A parsed public key. */
  datatype PublicKey = PublicKey(material: seq<byte>)

  datatype Suite = Suite(
    // `SSHData::PrivateKey.parse_openssh`: every key found in the text, and
    // `[]` where the library raises, so both surface as `PrivateKeyNotParsed`
    parsePrivateKeys: string -> seq<PrivateKey>,
    // `SSHData::PublicKey.parse_openssh`: `None` where the library raises
    parsePublicKey: string -> Option<PublicKey>,
    // the public half of a private key
    publicKeyOf: PrivateKey -> PublicKey,
    // `PrivateKey#sign` over the bytes of a message
    sign: (PrivateKey, string) -> seq<byte>,
    // `PublicKey#verify(message, signature)`
    verify: (PublicKey, string, seq<byte>) -> bool,
    // `Base64.strict_encode64` and the lenient `Base64.decode64`
    encode64: seq<byte> -> string,
    decode64: string -> seq<byte>)

  /** A signature made with a private key verifies under its public key, and
      decoding undoes encoding. */
  ghost predicate Sound(c: Suite) {
    && (forall k, m :: c.verify(c.publicKeyOf(k), m, c.sign(k, m)))
    && (forall b :: c.decode64(c.encode64(b)) == b)
  }
}
