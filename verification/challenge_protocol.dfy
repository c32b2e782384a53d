/** The challenge protocol of `TerrierAuth::SshKeys`: a host signs the
    current UNIX time with its private key, and a verifier accepts the signed
    timestamp only while it is fresh, correctly signed, and signed by a key
    the verifier trusts. */
module ChallengeProtocol {
  import opened Wrappers
  import opened Sequences
  import opened RubyText
  import opened RubyInteger
  import opened SshCrypto
  import opened AuthErrors
  import opened KeyStore

  /** How long a challenge stays valid, in seconds. */
  const ChallengeDurationSeconds: int := 5

  /** A generated challenge: the timestamp as decimal text, the Base64 of its
      signature, and the signer's raw public key. */
  datatype Challenge = Challenge(challenge: string, signature: string, publicKey: string)

  /** The hash handed to validation, keyed `ssh_public_key`, `ssh_challenge`
      and `ssh_signature`; `None` is an absent or `nil` entry. */
  datatype Payload = Payload(
    sshPublicKey: Option<string>,
    sshChallenge: Option<string>,
    sshSignature: Option<string>)

  function ToPayload(ch: Challenge): Payload {
    Payload(Some(ch.publicKey), Some(ch.challenge), Some(ch.signature))
  }

  /** `generate_challenge`, with the clock read as `nowMs` milliseconds since
      the epoch: the timestamp is the whole seconds, as decimal text, and the
      signature is made over exactly that text. */
  function GenerateChallenge(c: Suite, d: SshDir, nowMs: nat): (r: Result<Challenge, Error>)
    ensures LoadPrivateKey(c, d.listing).Err? ==> r == Err(LoadPrivateKey(c, d.listing).error)
    ensures r.Err? <==> LoadPrivateKey(c, d.listing).Err? || LoadPublicKey(d.listing).Err?
    ensures LoadPrivateKey(c, d.listing).Ok? && LoadPublicKey(d.listing).Err? ==> r == Err(NoPublicKeyFound)
    ensures r.Ok? ==> ParseLeadingInt(r.value.challenge) == nowMs / 1000
    ensures r.Ok? ==> r.value.challenge != [] && AllDigits(r.value.challenge)
    ensures r.Ok? && r.value.challenge[0] == '0' ==> r.value.challenge == "0"
    ensures r.Ok? ==> r.value.publicKey == LoadPublicKey(d.listing).value
    ensures r.Ok? && Sound(c) ==>
      c.decode64(r.value.signature) == c.sign(LoadPrivateKey(c, d.listing).value, r.value.challenge)
  {
    var key :- LoadPrivateKey(c, d.listing);
    var own :- LoadPublicKey(d.listing);
    var timestamp := IntToDecimal(nowMs / 1000);
    DecimalRoundTrip(nowMs / 1000);
    Ok(Challenge(timestamp, c.encode64(c.sign(key, timestamp)), own))
  }

  /** `Time.at(timestamp) < Time.now - CHALLENGE_DURATION_SECONDS`, on a
      millisecond clock. */
  predicate IsStale(timestamp: int, nowMs: int) {
    timestamp * 1000 < nowMs - ChallengeDurationSeconds * 1000
  }

  /** A payload entry, or the error naming it when it is absent. Only `nil`
      is missing: an empty string is present. */
  function Require(entry: Option<string>, name: Field): (r: Result<string, Error>)
    ensures entry.Some? <==> r.Ok?
    ensures r.Ok? ==> r.value == entry.value
    ensures r.Err? ==> r.error == MissingField(name)
  {
    match entry
    case None => Err(MissingField(name))
    case Some(v) => Ok(v)
  }

  /** What validation demands of a payload, stage by stage: all three fields
      present, a timestamp inside the window, a public key that parses, a
      signature that verifies over the timestamp, and a trusted key. */
  ghost predicate Accepted(c: Suite, d: SshDir, p: Payload, nowMs: nat) {
    && p.sshPublicKey.Some? && p.sshChallenge.Some? && p.sshSignature.Some?
    && !IsStale(ParseLeadingInt(p.sshChallenge.value), nowMs)
    && c.parsePublicKey(p.sshPublicKey.value).Some?
    && c.verify(c.parsePublicKey(p.sshPublicKey.value).value, p.sshChallenge.value, c.decode64(p.sshSignature.value))
    && Trusted(d, p.sshPublicKey.value)
  }

  /** `validate_challenge!`, with the clock read as `nowMs` milliseconds since
      the epoch. Each stage is a hard stop; on success the answer is `true`,
      never `false`. */
  function ValidateChallenge(c: Suite, d: SshDir, p: Payload, nowMs: nat): (r: Result<bool, Error>)
    ensures r.Ok? ==> r.value
    ensures r.Ok? <==> Accepted(c, d, p, nowMs)
    ensures r.Err? ==> r.error != NoPrivateKeyFound && r.error != PrivateKeyNotParsed
  {
    var rawKey :- Require(p.sshPublicKey, SshPublicKey);
    var challenge :- Require(p.sshChallenge, SshChallenge);
    var rawSignature :- Require(p.sshSignature, SshSignature);
    if IsStale(ParseLeadingInt(challenge), nowMs) then Err(StaleChallenge)
    else
      var signature := c.decode64(rawSignature);
      match c.parsePublicKey(rawKey)
      case None => Err(PublicKeyNotParsed)
      case Some(publicKey) =>
        if !c.verify(publicKey, challenge, signature) then Err(SignatureMismatch)
        else
          var trusted :- HasPublicKey(d, rawKey);
          if !trusted then Err(UntrustedKey) else Ok(true)
  }

  /** The fields are checked in the order public key, challenge, signature,
      and the first absent one is named. */
  lemma MissingFieldsInOrder(c: Suite, d: SshDir, p: Payload, nowMs: nat)
    ensures p.sshPublicKey.None? ==>
      ValidateChallenge(c, d, p, nowMs) == Err(MissingField(SshPublicKey))
    ensures p.sshPublicKey.Some? && p.sshChallenge.None? ==>
      ValidateChallenge(c, d, p, nowMs) == Err(MissingField(SshChallenge))
    ensures p.sshPublicKey.Some? && p.sshChallenge.Some? && p.sshSignature.None? ==>
      ValidateChallenge(c, d, p, nowMs) == Err(MissingField(SshSignature))
  {
  }

  /** Validation fails for a missing field exactly when some field is absent;
      later stages never report one. */
  lemma MissingFieldOnlyWhenAbsent(c: Suite, d: SshDir, p: Payload, nowMs: nat)
    ensures (ValidateChallenge(c, d, p, nowMs).Err? && ValidateChallenge(c, d, p, nowMs).error.MissingField?)
      <==> (p.sshPublicKey.None? || p.sshChallenge.None? || p.sshSignature.None?)
  {
    if p.sshPublicKey.Some? && p.sshChallenge.Some? && p.sshSignature.Some? {
      assert ValidateChallenge(c, d, p, nowMs).Err? ==>
        ValidateChallenge(c, d, p, nowMs).error in
          {StaleChallenge, PublicKeyNotParsed, SignatureMismatch, UntrustedKey, NoPublicKeyFound};
    }
  }

  /** A stale challenge is refused before its key or signature is looked at:
      the answer is the same for every suite, directory, key and signature. */
  lemma StaleRefusedFirst(c: Suite, d: SshDir, rawKey: string, challenge: string, signature: string, nowMs: nat)
    requires IsStale(ParseLeadingInt(challenge), nowMs)
    ensures ValidateChallenge(c, d, Payload(Some(rawKey), Some(challenge), Some(signature)), nowMs) == Err(StaleChallenge)
  {
  }

  /** A signature that does not verify is refused before authorization: the
      answer is the same whichever keys the directory trusts. */
  lemma SignatureCheckedBeforeTrust(c: Suite, d: SshDir, p: Payload, nowMs: nat)
    requires p.sshPublicKey.Some? && p.sshChallenge.Some? && p.sshSignature.Some?
    requires !IsStale(ParseLeadingInt(p.sshChallenge.value), nowMs)
    requires c.parsePublicKey(p.sshPublicKey.value).Some?
    requires !c.verify(c.parsePublicKey(p.sshPublicKey.value).value, p.sshChallenge.value, c.decode64(p.sshSignature.value))
    ensures ValidateChallenge(c, d, p, nowMs) == Err(SignatureMismatch)
  {
  }

  /** A fresh challenge whose public key does not parse is refused for that
      reason, before its signature or the trusted keys are looked at. */
  lemma UnparsableKeyRefused(c: Suite, d: SshDir, rawKey: string, challenge: string, signature: string, nowMs: nat)
    requires !IsStale(ParseLeadingInt(challenge), nowMs)
    requires c.parsePublicKey(rawKey).None?
    ensures ValidateChallenge(c, d, Payload(Some(rawKey), Some(challenge), Some(signature)), nowMs) == Err(PublicKeyNotParsed)
  {
  }

  /** A fresh, correctly signed challenge checked on a verifier that has no
      public key file of its own fails with the loader's error, not as
      untrusted: the trust check loads the verifier's own key first. */
  lemma VerifierWithoutOwnKeyFails(c: Suite, d: SshDir, p: Payload, nowMs: nat)
    requires p.sshPublicKey.Some? && p.sshChallenge.Some? && p.sshSignature.Some?
    requires !IsStale(ParseLeadingInt(p.sshChallenge.value), nowMs)
    requires c.parsePublicKey(p.sshPublicKey.value).Some?
    requires c.verify(c.parsePublicKey(p.sshPublicKey.value).value, p.sshChallenge.value, c.decode64(p.sshSignature.value))
    requires SecondToken(p.sshPublicKey.value).Some?
    requires LoadPublicKey(d.listing).Err?
    ensures ValidateChallenge(c, d, p, nowMs) == Err(NoPublicKeyFound)
  {
  }

  /** A fresh, correctly signed challenge from a key the directory does not
      trust is refused as untrusted. */
  lemma UntrustedKeyRefused(c: Suite, d: SshDir, p: Payload, nowMs: nat)
    requires p.sshPublicKey.Some? && p.sshChallenge.Some? && p.sshSignature.Some?
    requires !IsStale(ParseLeadingInt(p.sshChallenge.value), nowMs)
    requires c.parsePublicKey(p.sshPublicKey.value).Some?
    requires c.verify(c.parsePublicKey(p.sshPublicKey.value).value, p.sshChallenge.value, c.decode64(p.sshSignature.value))
    requires HasPublicKey(d, p.sshPublicKey.value) == Ok(false)
    ensures ValidateChallenge(c, d, p, nowMs) == Err(UntrustedKey)
  {
  }

  /** A timestamp in the future is never stale. */
  lemma FutureTimestampNotStale(timestamp: int, nowMs: int)
    requires timestamp * 1000 >= nowMs
    ensures !IsStale(timestamp, nowMs)
  {
  }

  /** A challenge lasts `CHALLENGE_DURATION_SECONDS`, five seconds, from its
      timestamp: it is still fresh exactly 5000 ms later and stale one
      millisecond after that. */
  lemma ChallengeLastsFiveSeconds(timestamp: int)
    ensures !IsStale(timestamp, timestamp * 1000 + 5000)
    ensures IsStale(timestamp, timestamp * 1000 + 5001)
  {
  }

  /** A challenge that is not a number reads as timestamp 0, the epoch, so
      it is refused as stale once the clock is more than five seconds past
      the epoch, whatever the key and signature. */
  lemma NonNumericChallengeIsStale(c: Suite, d: SshDir, rawKey: string, challenge: string, signature: string, nowMs: nat)
    requires challenge == [] ||
      (!IsSpace(challenge[0]) && !IsDigit(challenge[0]) && challenge[0] != '-' && challenge[0] != '+')
    requires nowMs > 5000
    ensures ValidateChallenge(c, d, Payload(Some(rawKey), Some(challenge), Some(signature)), nowMs) == Err(StaleChallenge)
  {
    ParseLeadingIntWithoutNumber(challenge);
  }

  /** Once stale, a timestamp stays stale. */
  lemma StalenessIsPermanent(timestamp: int, nowMs: int, laterMs: int)
    requires IsStale(timestamp, nowMs) && nowMs <= laterMs
    ensures IsStale(timestamp, laterMs)
  {
  }

  /** The signer's directory holds a matching key pair: the first private
      key file parses, and the first public key file holds that key's public
      half. */
  ghost predicate KeyPairOnDisk(c: Suite, listing: seq<Entry>) {
    && LoadPrivateKey(c, listing).Ok?
    && LoadPublicKey(listing).Ok?
    && c.parsePublicKey(LoadPublicKey(listing).value) == Some(c.publicKeyOf(LoadPrivateKey(c, listing).value))
  }

  /** A challenge generated at `t` on the signer is accepted by a verifier
      at `nowMs` exactly when the verifier trusts the signer's key and
      `nowMs` is at most five seconds after the whole second `t` falls in. */
  lemma {:induction false} RoundTrip(c: Suite, signer: SshDir, verifier: SshDir, t: nat, nowMs: nat)
    requires Sound(c) && KeyPairOnDisk(c, signer.listing)
    ensures GenerateChallenge(c, signer, t).Ok?
    ensures ValidateChallenge(c, verifier, ToPayload(GenerateChallenge(c, signer, t).value), nowMs) == Ok(true)
      <==> nowMs <= (t / 1000) * 1000 + 5000 && HasPublicKey(verifier, LoadPublicKey(signer.listing).value) == Ok(true)
    ensures nowMs > (t / 1000) * 1000 + 5000 ==>
      ValidateChallenge(c, verifier, ToPayload(GenerateChallenge(c, signer, t).value), nowMs) == Err(StaleChallenge)
  {
    var key := LoadPrivateKey(c, signer.listing).value;
    var ch := GenerateChallenge(c, signer, t).value;
    assert c.decode64(ch.signature) == c.sign(key, ch.challenge);
    assert c.verify(c.publicKeyOf(key), ch.challenge, c.sign(key, ch.challenge));
  }

  /** On one machine whose public key line has a second token, a challenge
      is accepted for at least four seconds after it is generated and refused
      as stale more than five seconds after. */
  lemma SelfRoundTrip(c: Suite, d: SshDir, t: nat, nowMs: nat)
    requires Sound(c) && KeyPairOnDisk(c, d.listing)
    requires SecondToken(LoadPublicKey(d.listing).value).Some?
    ensures GenerateChallenge(c, d, t).Ok?
    ensures nowMs <= t + 4000 ==>
      ValidateChallenge(c, d, ToPayload(GenerateChallenge(c, d, t).value), nowMs) == Ok(true)
    ensures nowMs > t + 5000 ==>
      ValidateChallenge(c, d, ToPayload(GenerateChallenge(c, d, t).value), nowMs) == Err(StaleChallenge)
  {
    RoundTrip(c, d, d, t, nowMs);
    OwnKeyTrusted(d, LoadPublicKey(d.listing).value);
  }

  /** The conventional set-up: with a matching key pair in `id_<algorithm>`
      and `id_<algorithm>.pub` and no `authorized_keys`, a challenge
      validated on the same machine within four seconds of generation
      succeeds (the machine trusts its own key), and one validated six
      seconds later is stale. */
  lemma ConventionalSetUpRoundTrip(c: Suite, dir: string, algorithm: string,
                                   privateText: string, publicText: string, t: nat, nowMs: nat)
    requires algorithm == "rsa" || algorithm == "dsa" || algorithm == "ecdsa" || algorithm == "ed25519"
    requires '\n' !in dir
    requires Sound(c)
    requires c.parsePrivateKeys(Strip(privateText)) != []
    requires c.parsePublicKey(Strip(publicText)) == Some(c.publicKeyOf(c.parsePrivateKeys(Strip(privateText))[0]))
    requires SecondToken(Strip(publicText)).Some?
    ensures var d := SshDir(ConventionalListing(dir, algorithm, privateText, publicText), None);
      && GenerateChallenge(c, d, t).Ok?
      && (nowMs <= t + 4000 ==>
            ValidateChallenge(c, d, ToPayload(GenerateChallenge(c, d, t).value), nowMs) == Ok(true))
      && (nowMs >= t + 6000 ==>
            ValidateChallenge(c, d, ToPayload(GenerateChallenge(c, d, t).value), nowMs) == Err(StaleChallenge))
  {
    var d := SshDir(ConventionalListing(dir, algorithm, privateText, publicText), None);
    ConventionalListingLoads(c, dir, algorithm, privateText, publicText);
    assert KeyPairOnDisk(c, d.listing);
    SelfRoundTrip(c, d, t, nowMs);
  }
}
