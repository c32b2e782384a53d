# terrier-auth SSH key challenge, in Dafny

A model of `TerrierAuth::SshKeys`, the part of terrier-auth that proves a
machine's identity with its SSH key pair. It covers two jobs.

- **Key store.** This finds the machine's own private and public key files
  in its SSH directory. It assembles the trusted public keys: the machine's
  own key, then every line of `authorized_keys`. It decides whether a
  presented public key is among them by comparing only the second
  whitespace-separated component, the key material.
- **Challenge protocol.** `generate_challenge` signs the current UNIX time
  in whole seconds, as decimal text, and returns it with the Base64
  signature and the signer's public key. `validate_challenge!` checks these
  stages in order:
  1. all three fields are present;
  2. the timestamp is no older than `CHALLENGE_DURATION_SECONDS` (5);
  3. the public key parses;
  4. the signature verifies over the timestamp text;
  5. the key is trusted.

  Each stage is a hard stop. Success is always `true`.

Modules, one file each:

- `Wrappers` (`wrappers.dfy`): `Option` and `Result`.
- `Sequences` (`sequences.dfy`): first-match search and Ruby's `select`.
- `RubyText` (`ruby_text.dfy`): `String#strip`, `split(/\s+/)`, and its
  second component. The `\s` class and the NUL that `strip` also removes
  are modelled exactly.
- `RubyInteger` (`ruby_integer.dfy`): `Integer#to_s` and the lenient
  `String#to_i`.
- `SshCrypto` (`ssh_crypto.dfy`): key parsing, signing, verification and
  Base64. They are values of a `Suite` datatype. The predicate
  `Sound(c)` states the two facts the round trip relies on: a signature
  made with a key verifies under its public half, and `decode64` undoes
  `encode64`.
- `AuthErrors` (`auth_errors.dfy`): the ways the source fails. Most
  constructors stand for one `raise`. `MissingField` covers the three
  `data[:…] || raise` presence checks of lines 130-132 and names the
  field. `PublicKeyNotParsed` stands
  for the exception `SSHData` raises on a key it cannot parse.
- `KeyStore` (`key_store.dfy`): `load_private_key`, `load_public_key`,
  `load_all_public_keys` and `has_public_key?`.
- `ChallengeProtocol` (`challenge_protocol.dfy`): `generate_challenge`,
  `CHALLENGE_DURATION_SECONDS` (`ChallengeDurationSeconds`),
  `validate_challenge!` and the round trip between them.
- `ExampleSetUp` (`example_setup.dfy`): a toy suite that satisfies `Sound`,
  and a conventional key directory. Together they show that the round-trip
  lemmas' preconditions can hold.

What the environment supplies is a parameter:

- The SSH directory is an `SshDir`. It holds the `Dir.glob` listing in
  glob order, with what `File.file?`, `File.readable?` and `File.read`
  report for each entry. It also holds the lines of `authorized_keys`
  (`File.readlines`), or `None` when that file does not exist.
- The clock is a count of milliseconds since the epoch. `Time.now.to_i` is
  `nowMs / 1000`. The staleness test
  `Time.at(challenge.to_i) < Time.now - 5` becomes
  `timestamp * 1000 < nowMs - 5000`.

The file-name patterns are modelled as Ruby matches them.

- `$` matches at the end of the path and also before any line feed.
- The `.` in `id_(rsa|dsa|ecdsa|ed25519).pub$` is unescaped. It matches any
  character except a line feed.

So `id_rsa_pub` is taken for a public key (`UnescapedDotMatchesAnyCharacter`).
A path with a line feed after `id_rsa` is taken for a private key even when
it ends in `.pub` (`LineFeedPathIsPrivateKeyName`). For ordinary paths
without line feeds, a `.pub` file is never taken for a private key
(`PubPathIsNotPrivateKeyName`).

A challenge generated at millisecond `t` carries the whole second `t / 1000`.
It is accepted until `(t / 1000) * 1000 + 5000`, so the effective window is
between four and five seconds after generation (`RoundTrip`,
`SelfRoundTrip`).

## Model

| member | source | states |
|---|---|---|
| RubyText.Strip | lib/terrier_auth/ssh_keys.rb:41 | the stripped text is no longer than the input and, when non-empty, neither starts nor ends with whitespace or NUL |
| RubyText.StripTrimsBothEnds | lib/terrier_auth/ssh_keys.rb:41 | `strip` keeps exactly the text between the maximal runs of `\s`/NUL at both ends: what it cuts is all such characters, and what it keeps neither starts nor ends with one |
| RubyText.StripKeepsBetweenBounds | lib/terrier_auth/ssh_keys.rb:56 | those bounds are unique: for any bounds with that property, `strip` returns exactly the text between them |
| RubyText.Split | lib/terrier_auth/ssh_keys.rb:83 | every field of `split(/\s+/)` is free of whitespace, and every field after the first is non-empty (only a leading empty field survives) |
| RubyText.SecondToken | lib/terrier_auth/ssh_keys.rb:83 | a second component, when there is one, is a non-empty word without whitespace |
| RubyText.SecondTokenIsSecondWord | lib/terrier_auth/ssh_keys.rb:83 | `split(/\s+/)[1]` is `t` exactly when `t` is the maximal non-whitespace word after the first whitespace run, where the part before that run may be empty; it is `nil` when there is no such word |
| RubyText.NoSecondTokenWithoutSpace | lib/terrier_auth/ssh_keys.rb:83-87 | a key string without whitespace has no second component, so it takes the fail-closed `nil` branch |
| RubyText.KeyLineToken | lib/terrier_auth/ssh_keys.rb:91-92 | for a line `<algorithm> <material><comment>`, the compared component is `material`, whatever the comment and even when the algorithm label is empty |
| RubyInteger.NatToDecimal | lib/terrier_auth/ssh_keys.rb:111 | the decimal text of a natural number is a non-empty run of digits, `0` for zero and without a leading zero otherwise |
| RubyInteger.IntToDecimal | lib/terrier_auth/ssh_keys.rb:111 | `to_s` is non-empty, starts with a minus sign exactly for negative numbers, and is digits otherwise |
| RubyInteger.DecimalRoundTrip | lib/terrier_auth/ssh_keys.rb:111 | `to_i` of `to_s` of any integer gives the integer back |
| RubyInteger.ParseLeadingIntOfDecimal | lib/terrier_auth/ssh_keys.rb:135 | `to_i` reads the decimal back even when text follows, as long as that text cannot continue the number |
| RubyInteger.ParseLeadingIntSkipsSpace | lib/terrier_auth/ssh_keys.rb:135 | `to_i` skips any leading whitespace: prefixing a run of `\s` does not change the number read |
| RubyInteger.ParseLeadingIntWithoutNumber | lib/terrier_auth/ssh_keys.rb:135 | text that is empty or starts with neither whitespace, a sign nor a digit reads as 0 |
| KeyStore.ReadPrivateKey | lib/terrier_auth/ssh_keys.rb:41-43 | reading a key file succeeds exactly when its stripped contents parse to at least one key, and then gives the first key parsed; otherwise the error is "no private keys parsed" |
| KeyStore.LoadPrivateKey | lib/terrier_auth/ssh_keys.rb:33-44 | "no private keys found" exactly when no regular, readable entry matches the private pattern; otherwise the result is that of reading the first matching entry in listing order |
| KeyStore.LoadPublicKey | lib/terrier_auth/ssh_keys.rb:49-59 | fails, with "no public keys found", exactly when no regular, readable entry matches the public pattern; otherwise returns the stripped contents of the first such entry |
| KeyStore.AuthorizedKeys | lib/terrier_auth/ssh_keys.rb:64-70 | no lines when `authorized_keys` does not exist; otherwise one stripped key per line, in order |
| KeyStore.LoadAllPublicKeys | lib/terrier_auth/ssh_keys.rb:63-76 | fails exactly when the own public key cannot be loaded; otherwise the own key first, then the stripped `authorized_keys` lines with duplicates kept, and only the own key when the file is absent |
| KeyStore.AnyKeyHasToken | lib/terrier_auth/ssh_keys.rb:90-97 | the loop answers true exactly when some key's second component equals the token |
| KeyStore.HasPublicKey | lib/terrier_auth/ssh_keys.rb:82-98 | false, without touching the key files, when the candidate has no second component; otherwise fails exactly when the own public key cannot be loaded, and answers true exactly when some trusted key has the candidate's second component |
| KeyStore.OwnKeyTrusted | lib/terrier_auth/ssh_keys.rb:72-75 | a candidate with the same key material as the machine's own public key is trusted, whatever `authorized_keys` says |
| KeyStore.AuthorizedLineTrusted | lib/terrier_auth/ssh_keys.rb:67-68 | a candidate with the same key material as any `authorized_keys` line is trusted |
| KeyStore.OnlyOwnKeyWithoutAuthorizedKeys | lib/terrier_auth/ssh_keys.rb:66-75 | without `authorized_keys`, a candidate is trusted exactly when its key material is the own key's |
| KeyStore.OnlyKeyMaterialMatters | lib/terrier_auth/ssh_keys.rb:78-92 | two candidates with the same second component get the same answer |
| KeyStore.CommentsAreIgnored | lib/terrier_auth/ssh_keys.rb:79 | changing a candidate's algorithm label or trailing user comment does not change the answer |
| KeyStore.TokenlessKeyNeverMatches | lib/terrier_auth/ssh_keys.rb:91-92 | a trusted key without a second component never matches, so adding one leaves the loop's answer unchanged |
| KeyStore.LineWithoutTokenChangesNothing | lib/terrier_auth/ssh_keys.rb:88-97 | appending an `authorized_keys` line without a second component, such as a blank line, does not change any answer |
| KeyStore.PrivateKeyNameWithoutLineFeed | lib/terrier_auth/ssh_keys.rb:36 | for a path without a line feed, the private pattern matches exactly when the path ends in `id_rsa`, `id_dsa`, `id_ecdsa` or `id_ed25519` |
| KeyStore.PublicKeyNameWithoutLineFeed | lib/terrier_auth/ssh_keys.rb:51 | for a path without a line feed, the public pattern matches exactly when the path ends in one of those names, any one character other than a line feed, and `pub` |
| KeyStore.PubPathIsNotPrivateKeyName | lib/terrier_auth/ssh_keys.rb:36 | a path ending in `.pub` with no line feed never matches the private pattern |
| KeyStore.NonPubPathIsNotPublicKeyName | lib/terrier_auth/ssh_keys.rb:51 | a path not ending in `pub`, with no line feed, never matches the public pattern |
| KeyStore.KeyStemNamesMatch | lib/terrier_auth/ssh_keys.rb:35-52 | a path ending in `id_rsa`, `id_dsa`, `id_ecdsa` or `id_ed25519` matches the private pattern, and the same path with `.pub` appended matches the public pattern |
| KeyStore.ConventionalNamesMatch | lib/terrier_auth/ssh_keys.rb:30-52 | the standard names `<dir>/id_<algorithm>` and `<dir>/id_<algorithm>.pub` match their patterns under any directory |
| KeyStore.ConventionalNamesDistinct | lib/terrier_auth/ssh_keys.rb:35-52 | under a directory without line feeds, the private-key file does not match the public pattern and the `.pub` file does not match the private pattern |
| KeyStore.ConventionalListingLoads | lib/terrier_auth/ssh_keys.rb:33-59 | in a directory holding just `id_<algorithm>` and `id_<algorithm>.pub`, the private key is read from the first and the public key is the stripped contents of the second |
| KeyStore.LineFeedPathIsPrivateKeyName | lib/terrier_auth/ssh_keys.rb:36 | because `$` matches before a line feed, `id_rsa\n.pub` matches the private pattern |
| KeyStore.UnescapedDotMatchesAnyCharacter | lib/terrier_auth/ssh_keys.rb:51 | because the `.` is unescaped, `id_rsa_pub` matches the public pattern |
| ChallengeProtocol.GenerateChallenge | lib/terrier_auth/ssh_keys.rb:104-120 | a private-key failure is reported first; generation fails exactly when a key cannot be loaded, with "no public keys found" when only the public key is missing; the challenge is canonical decimal text (digits only, no leading zero) that reads back with `to_i` as the current whole second; the public key is the loaded one; and with sound crypto the signature decodes to a signature over exactly the challenge text |
| ChallengeProtocol.Require | lib/terrier_auth/ssh_keys.rb:130-132 | an entry passes exactly when it is present, even when it is the empty string; an absent entry fails with an error naming it |
| ChallengeProtocol.ValidateChallenge | lib/terrier_auth/ssh_keys.rb:129-153 | succeeds, and then with `true`, exactly when all fields are present, the timestamp is fresh, the key parses, the signature verifies over the challenge and the key is trusted; it never fails with a private-key error |
| ChallengeProtocol.MissingFieldsInOrder | lib/terrier_auth/ssh_keys.rb:130-132 | fields are required in the order public key, challenge, signature, and the first absent one is named |
| ChallengeProtocol.MissingFieldOnlyWhenAbsent | lib/terrier_auth/ssh_keys.rb:129-153 | validation fails with a missing-field error exactly when some field is absent; no later stage reports one |
| ChallengeProtocol.StaleRefusedFirst | lib/terrier_auth/ssh_keys.rb:134-138 | a stale timestamp is refused as stale whatever the key, signature, suite or trusted keys |
| ChallengeProtocol.UnparsableKeyRefused | lib/terrier_auth/ssh_keys.rb:140-142 | a fresh challenge whose public key does not parse is refused with the parse failure, whatever the signature and the trusted keys |
| ChallengeProtocol.SignatureCheckedBeforeTrust | lib/terrier_auth/ssh_keys.rb:140-145 | a fresh challenge whose signature does not verify is refused as a mismatch, whatever the verifier trusts |
| ChallengeProtocol.UntrustedKeyRefused | lib/terrier_auth/ssh_keys.rb:147-150 | a fresh, correctly signed challenge from a key the verifier does not trust is refused as untrusted |
| ChallengeProtocol.VerifierWithoutOwnKeyFails | lib/terrier_auth/ssh_keys.rb:147-150 | a fresh, correctly signed challenge with key material, checked on a verifier that has no public key file, fails with "no public keys found" rather than as untrusted |
| ChallengeProtocol.ChallengeLastsFiveSeconds | lib/terrier_auth/ssh_keys.rb:122-138 | `CHALLENGE_DURATION_SECONDS` is five seconds: a timestamp is still fresh exactly 5000 ms after its second starts and stale one millisecond later |
| ChallengeProtocol.NonNumericChallengeIsStale | lib/terrier_auth/ssh_keys.rb:134-138 | a challenge that is not a number reads as the epoch, so once the clock is more than five seconds past the epoch it is refused as stale |
| ChallengeProtocol.FutureTimestampNotStale | lib/terrier_auth/ssh_keys.rb:135-136 | a timestamp at or after the current time is never stale |
| ChallengeProtocol.StalenessIsPermanent | lib/terrier_auth/ssh_keys.rb:135-136 | once a timestamp is stale it stays stale as the clock advances |
| ChallengeProtocol.RoundTrip | lib/terrier_auth/ssh_keys.rb:104-153 | given sound crypto and a matching key pair on the signer, generation succeeds, and the verifier accepts the challenge exactly when it trusts the signer's key and at most five seconds have passed since the start of the signed second; later it is refused as stale |
| ChallengeProtocol.SelfRoundTrip | lib/terrier_auth/ssh_keys.rb:104-153 | on one machine whose own public key line has key material, a challenge is accepted for at least four seconds after generation and refused as stale more than five seconds after |
| ChallengeProtocol.ConventionalSetUpRoundTrip | lib/terrier_auth/ssh_keys.rb:104-153 | with a matching pair in `id_<algorithm>` and `id_<algorithm>.pub` and no `authorized_keys`, validation on the same machine succeeds within four seconds of generation and is refused as stale six seconds after |
| ExampleSetUp.RoundTripPreconditionsCanHold | lib/terrier_auth/ssh_keys.rb:30-59 | a machine laid out as the loaders assume, with `id_ed25519` and a `.pub` line of the form `ssh-ed25519 <material>` and a sound suite, holds a matching key pair and trusts its own key |

## Left out

- Logging (`log_timestamp`, `debug`, `info`, `warn`, lines 9-23) and the
  colour codes in messages are not modelled. They only write to standard
  output.
- Error message texts are not modelled. Each `raise` is an `AuthErrors.Error`
  constructor. A `StandardError` that carries a text is the same kind of
  failure.
- `ssh_dir`, `Dir.glob`, `File.file?`, `File.readable?`, `File.read`,
  `File.exist?` and `File.readlines` become the `SshDir` parameter, as
  described above. Races between the checks and the reads are not
  modelled.
- `SSHData` key parsing, signing and verification, and `Base64`, become the
  functions of a `SshCrypto.Suite`. The model proves nothing about the
  cryptography itself, such as unforgeability or that a flipped signature
  bit is refused. Those facts need assumptions about the algorithms.
- Exceptions that `SSHData` raises are represented by other outcomes. A
  public key that does not parse is `PublicKeyNotParsed`. An exception from
  `verify` on a malformed signature is the same outcome as a `false` from
  `verify`: `SignatureMismatch`.
- The clock has millisecond resolution instead of `Time`'s nanoseconds. A
  timestamp that is stale by less than a millisecond is not distinguished.
- RubyInteger.ParseLeadingInt: does not model the `0d` decimal prefix that
  `String#to_i` also accepts. `generate_challenge` never produces it.
- KeyStore.LoadAllPublicKeys: an `authorized_keys` that exists but cannot
  be read, or is a directory, makes `File.readlines` raise (lines 67-68).
  The model only knows a file as absent or as its lines, so this failure is
  not modelled. The claims of `LoadAllPublicKeys` and `HasPublicKey` that
  they fail exactly when the own key cannot be loaded hold only for a
  readable `authorized_keys`.
- Text is a sequence of characters. The `ArgumentError` that `strip`,
  `split` and the pattern matches raise on a string with an invalid byte
  sequence is not modelled.
- Payload entries that are not strings are not modelled. Nor are string
  keys in place of symbols. An entry is a string or absent (`nil`).
- `lib/terrier_auth.rb` only loads the library and defines the module. It
  holds no behaviour to model.
