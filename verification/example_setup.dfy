/** A concrete machine on which the round-trip lemmas apply: a toy suite
    that satisfies `Sound` and a conventional SSH directory holding a
    matching key pair. It shows that their preconditions can be met. */
module ExampleSetUp {
  import opened Wrappers
  import opened RubyText
  import opened SshCrypto
  import opened KeyStore
  import opened ChallengeProtocol

  /** Every text parses to the same key, every signature verifies, and
      "Base64" spells each byte as the character with that code. */
  function ToySuite(): Suite {
    Suite(
      s => [PrivateKey([])],
      s => Some(PublicKey([])),
      k => PublicKey([]),
      (k, m) => [],
      (pk, m, sig) => true,
      b => seq(|b|, i requires 0 <= i < |b| => (b[i] as int) as char),
      s => seq(|s|, i requires 0 <= i < |s| => if s[i] as int < 256 then (s[i] as int) as byte else 0))
  }

  lemma ToySuiteIsSound()
    ensures Sound(ToySuite())
  {
    var c := ToySuite();
    forall b: seq<byte> ensures c.decode64(c.encode64(b)) == b {
      var e := c.encode64(b);
      assert |e| == |b|;
      assert forall i :: 0 <= i < |b| ==> e[i] as int == b[i] as int;
    }
  }

  /** A public key line `ssh-ed25519 <material>` is its own `strip` and has
      `material` as its second token. */
  lemma KeyLineParts(material: string)
    requires material != [] && NoSpace(material) && material[|material| - 1] != '\0'
    ensures Strip("ssh-ed25519 " + material) == "ssh-ed25519 " + material
    ensures SecondToken("ssh-ed25519 " + material) == Some(material)
  {
    var s := "ssh-ed25519 " + material;
    assert s[|s| - 1] == material[|material| - 1];
    assert StripBounds(s, 0, |s|) by {
      assert s[..0] == [] && s[|s|..] == [];
    }
    StripKeepsBetweenBounds(s, 0, |s|);
    assert s[0..|s|] == s;
    assert s == "ssh-ed25519" + " " + material + [];
    KeyLineToken("ssh-ed25519", material, []);
  }

  /** Under the toy suite, any conventional directory holds a matching key
      pair. */
  lemma ToyKeyPairOnDisk(dir: string, algorithm: string, privateText: string, publicText: string)
    requires algorithm == "rsa" || algorithm == "dsa" || algorithm == "ecdsa" || algorithm == "ed25519"
    requires '\n' !in dir
    ensures KeyPairOnDisk(ToySuite(), ConventionalListing(dir, algorithm, privateText, publicText))
  {
    ConventionalListingLoads(ToySuite(), dir, algorithm, privateText, publicText);
  }

  /** With `id_ed25519` and `id_ed25519.pub` holding `ssh-ed25519 <material>`
      under any directory, and the toy suite, the machine holds a matching
      key pair and trusts its own key, so `RoundTrip`, `SelfRoundTrip` and
      `ConventionalSetUpRoundTrip` apply. */
  lemma RoundTripPreconditionsCanHold(dir: string, material: string)
    requires '\n' !in dir
    requires material != [] && NoSpace(material) && material[|material| - 1] != '\0'
    ensures var d := SshDir(ConventionalListing(dir, "ed25519", "PRIVATE KEY", "ssh-ed25519 " + material), None);
      && Sound(ToySuite())
      && KeyPairOnDisk(ToySuite(), d.listing)
      && HasPublicKey(d, LoadPublicKey(d.listing).value) == Ok(true)
  {
    var d := SshDir(ConventionalListing(dir, "ed25519", "PRIVATE KEY", "ssh-ed25519 " + material), None);
    var line := "ssh-ed25519 " + material;
    ToySuiteIsSound();
    KeyLineParts(material);
    ToyKeyPairOnDisk(dir, "ed25519", "PRIVATE KEY", line);
    ConventionalListingLoads(ToySuite(), dir, "ed25519", "PRIVATE KEY", line);
    assert LoadPublicKey(d.listing) == Ok(line);
    OwnKeyTrusted(d, line);
  }
}
