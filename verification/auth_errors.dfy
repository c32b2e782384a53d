/** The failures the key store and the challenge protocol raise. */
module AuthErrors {

  /** The three fields of a challenge payload, by their hash keys. */
  datatype Field = SshPublicKey | SshChallenge | SshSignature

  datatype Error =
    | NoPrivateKeyFound      // no file matches the private-key name pattern
    | PrivateKeyNotParsed    // the first match holds no OpenSSH private key
    | NoPublicKeyFound       // no file matches the public-key name pattern
    | MissingField(field: Field)
    | StaleChallenge         // the timestamp is older than the validity window
    | PublicKeyNotParsed     // the payload's public key does not parse
    | SignatureMismatch      // the signature does not verify over the timestamp
    | UntrustedKey           // the public key is not among the trusted keys
}
