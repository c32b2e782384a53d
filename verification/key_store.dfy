/** The key store of `TerrierAuth::SshKeys`: finding this machine's own key
    files in its SSH directory, assembling the trusted public keys, and
    deciding whether a presented public key is one of them. */
module KeyStore {
  import opened Wrappers
  import opened Sequences
  import opened RubyText
  import opened SshCrypto
  import opened AuthErrors

  /** One entry of the SSH directory listing, with what `File.file?`,
      `File.readable?` and `File.read` report for it. */
  datatype Entry = Entry(path: string, isFile: bool, readable: bool, contents: string)

  /** The SSH directory as the key store sees it: the entries in the order
      `Dir.glob` lists them, and the lines of `authorized_keys` as
      `File.readlines` returns them, or `None` when that file does not exist. */
  datatype SshDir = SshDir(listing: seq<Entry>, authorizedKeys: Option<seq<string>>)

  predicate EndsWith(q: string, suffix: string) {
    |suffix| <= |q| && q[|q| - |suffix|..] == suffix
  }

  /** `q` ends with the alternation `id_(rsa|dsa|ecdsa|ed25519)`. */
  predicate EndsWithKeyStem(q: string) {
    || EndsWith(q, "id_rsa")
    || EndsWith(q, "id_dsa")
    || EndsWith(q, "id_ecdsa")
    || EndsWith(q, "id_ed25519")
  }

  /** The positions where Ruby's `$` anchor matches: the end of the string,
      and just before every line feed. */
  predicate LineEndAt(p: string, e: int) {
    e == |p| || (0 <= e < |p| && p[e] == '\n')
  }

  /** The path matches `/id_(rsa|dsa|ecdsa|ed25519)$/`. */
  predicate MatchesPrivateKeyName(p: string) {
    exists e :: 0 <= e <= |p| && LineEndAt(p, e) && EndsWithKeyStem(p[..e])
  }

  /** `q` ends with the key stem, then any one character but a line feed
      (the pattern's unescaped `.`), then `pub`. */
  predicate EndsWithPublicKeyStem(q: string) {
    && |q| >= 4
    && q[|q| - 4] != '\n'
    && q[|q| - 3..] == "pub"
    && EndsWithKeyStem(q[..|q| - 4])
  }

  /** The path matches `/id_(rsa|dsa|ecdsa|ed25519).pub$/`. */
  predicate MatchesPublicKeyName(p: string) {
    exists e :: 0 <= e <= |p| && LineEndAt(p, e) && EndsWithPublicKeyStem(p[..e])
  }

  predicate IsPrivateKeyFile(e: Entry) {
    e.isFile && e.readable && MatchesPrivateKeyName(e.path)
  }

  predicate IsPublicKeyFile(e: Entry) {
    e.isFile && e.readable && MatchesPublicKeyName(e.path)
  }

  /** Reading one private-key file: its stripped contents are parsed and the
      first key found is taken. */
  function ReadPrivateKey(c: Suite, e: Entry): (r: Result<PrivateKey, Error>)
    ensures r.Ok? <==> c.parsePrivateKeys(Strip(e.contents)) != []
    ensures r.Err? ==> r.error == PrivateKeyNotParsed
    ensures r.Ok? ==> r.value == c.parsePrivateKeys(Strip(e.contents))[0]
  {
    var keys := c.parsePrivateKeys(Strip(e.contents));
    if keys == [] then Err(PrivateKeyNotParsed) else Ok(keys[0])
  }

  /** `load_private_key`: the first regular, readable file whose path matches
      the private-key pattern is read; later matches are never looked at. */
  function LoadPrivateKey(c: Suite, listing: seq<Entry>): (r: Result<PrivateKey, Error>)
    ensures r == Err(NoPrivateKeyFound) <==> forall i :: 0 <= i < |listing| ==> !IsPrivateKeyFile(listing[i])
    ensures r != Err(NoPrivateKeyFound) ==>
      exists k :: IsFirst(listing, IsPrivateKeyFile, k) && r == ReadPrivateKey(c, listing[k])
  {
    var files := Filter(listing, IsPrivateKeyFile);
    if files == [] then Err(NoPrivateKeyFound) else ReadPrivateKey(c, files[0])
  }

  /** `load_public_key`: the stripped contents of the first regular, readable
      file whose path matches the public-key pattern. */
  function LoadPublicKey(listing: seq<Entry>): (r: Result<string, Error>)
    ensures r.Err? <==> forall i :: 0 <= i < |listing| ==> !IsPublicKeyFile(listing[i])
    ensures r.Err? ==> r.error == NoPublicKeyFound
    ensures r.Ok? ==> exists k :: IsFirst(listing, IsPublicKeyFile, k) && r.value == Strip(listing[k].contents)
  {
    var files := Filter(listing, IsPublicKeyFile);
    if files == [] then Err(NoPublicKeyFound) else Ok(Strip(files[0].contents))
  }

  /** The lines of `authorized_keys`, each stripped; none when the file does
      not exist. */
  function AuthorizedKeys(d: SshDir): (r: seq<string>)
    ensures d.authorizedKeys.None? ==> r == []
    ensures d.authorizedKeys.Some? ==> |r| == |d.authorizedKeys.value|
    ensures d.authorizedKeys.Some? ==>
      forall i :: 0 <= i < |r| ==> r[i] == Strip(d.authorizedKeys.value[i])
  {
    match d.authorizedKeys
    case None => []
    case Some(lines) => seq(|lines|, i requires 0 <= i < |lines| => Strip(lines[i]))
  }

  /** `load_all_public_keys`: the machine's own public key, then every line of
      `authorized_keys`, stripped, in order and with duplicates kept. */
  function LoadAllPublicKeys(d: SshDir): (r: Result<seq<string>, Error>)
    ensures r.Err? <==> LoadPublicKey(d.listing).Err?
    ensures r.Err? ==> r.error == NoPublicKeyFound
    ensures r.Ok? ==> |r.value| >= 1 && r.value[0] == LoadPublicKey(d.listing).value
    ensures r.Ok? ==> r.value[1..] == AuthorizedKeys(d)
    ensures r.Ok? && d.authorizedKeys.None? ==> r.value == [LoadPublicKey(d.listing).value]
  {
    match LoadPublicKey(d.listing)
    case Err(e) => Err(e)
    case Ok(own) => Ok([own] + AuthorizedKeys(d))
  }

  /** The loop of `has_public_key?`: true as soon as one key's second token
      equals `token`, false once the keys are exhausted. */
  function AnyKeyHasToken(keys: seq<string>, token: string): (r: bool)
    ensures r <==> exists i :: 0 <= i < |keys| && SecondToken(keys[i]) == Some(token)
  {
    if keys == [] then false
    else if SecondToken(keys[0]) == Some(token) then true
    else
      assert forall i :: 1 <= i < |keys| ==> keys[i] == keys[1..][i - 1];
      AnyKeyHasToken(keys[1..], token)
  }

  /** Some trusted key has the same second token as `candidate`. */
  ghost predicate Trusted(d: SshDir, candidate: string) {
    && SecondToken(candidate).Some?
    && LoadAllPublicKeys(d).Ok?
    && exists i :: 0 <= i < |LoadAllPublicKeys(d).value| &&
         SecondToken(LoadAllPublicKeys(d).value[i]) == SecondToken(candidate)
  }

  /** `has_public_key?`: a candidate without a second token is refused before
      any key is loaded; otherwise the answer is whether some trusted key has
      the same second token. */
  function HasPublicKey(d: SshDir, candidate: string): (r: Result<bool, Error>)
    ensures SecondToken(candidate).None? ==> r == Ok(false)
    ensures r.Err? <==> SecondToken(candidate).Some? && LoadPublicKey(d.listing).Err?
    ensures r.Err? ==> r.error == NoPublicKeyFound
    ensures r == Ok(true) <==> Trusted(d, candidate)
  {
    match SecondToken(candidate)
    case None => Ok(false)
    case Some(token) =>
      var keys :- LoadAllPublicKeys(d);
      Ok(AnyKeyHasToken(keys, token))
  }

  /** The machine's own public key, and any key with the same material, is
      always trusted. */
  lemma OwnKeyTrusted(d: SshDir, candidate: string)
    requires LoadPublicKey(d.listing).Ok?
    requires SecondToken(candidate).Some?
    requires SecondToken(candidate) == SecondToken(LoadPublicKey(d.listing).value)
    ensures HasPublicKey(d, candidate) == Ok(true)
  {
    assert SecondToken(LoadAllPublicKeys(d).value[0]) == SecondToken(candidate);
  }

  /** A key whose material appears on some line of `authorized_keys`, after
      stripping, is trusted. */
  lemma AuthorizedLineTrusted(d: SshDir, i: int, candidate: string)
    requires LoadPublicKey(d.listing).Ok?
    requires d.authorizedKeys.Some? && 0 <= i < |d.authorizedKeys.value|
    requires SecondToken(candidate).Some?
    requires SecondToken(candidate) == SecondToken(Strip(d.authorizedKeys.value[i]))
    ensures HasPublicKey(d, candidate) == Ok(true)
  {
    assert SecondToken(LoadAllPublicKeys(d).value[i + 1]) == SecondToken(candidate);
  }

  /** Without `authorized_keys` the only trusted key material is the
      machine's own. */
  lemma OnlyOwnKeyWithoutAuthorizedKeys(d: SshDir, candidate: string)
    requires d.authorizedKeys.None?
    ensures HasPublicKey(d, candidate) == Ok(true) <==>
      && LoadPublicKey(d.listing).Ok?
      && SecondToken(candidate).Some?
      && SecondToken(candidate) == SecondToken(LoadPublicKey(d.listing).value)
  {
    if HasPublicKey(d, candidate) == Ok(true) {
      assert LoadAllPublicKeys(d).value == [LoadPublicKey(d.listing).value];
    }
  }

  /** Only the second token of a candidate matters: the algorithm label and
      the comment around it are irrelevant. */
  lemma OnlyKeyMaterialMatters(d: SshDir, a: string, b: string)
    requires SecondToken(a) == SecondToken(b)
    ensures HasPublicKey(d, a) == HasPublicKey(d, b)
  {
  }

  /** Two key lines with the same material are equally trusted, whatever
      their algorithm labels and comments. */
  lemma CommentsAreIgnored(d: SshDir, material: string,
                           algorithm1: string, comment1: string,
                           algorithm2: string, comment2: string)
    requires material != [] && NoSpace(material)
    requires NoSpace(algorithm1) && NoSpace(algorithm2)
    requires comment1 == [] || IsSpace(comment1[0])
    requires comment2 == [] || IsSpace(comment2[0])
    ensures HasPublicKey(d, algorithm1 + " " + material + comment1)
         == HasPublicKey(d, algorithm2 + " " + material + comment2)
  {
    KeyLineToken(algorithm1, material, comment1);
    KeyLineToken(algorithm2, material, comment2);
  }

  /** A key without a second token never matches. */
  lemma TokenlessKeyNeverMatches(keys: seq<string>, key: string, token: string)
    requires SecondToken(key).None?
    ensures AnyKeyHasToken(keys + [key], token) == AnyKeyHasToken(keys, token)
  {
    var keys' := keys + [key];
    assert forall i :: 0 <= i < |keys| ==> keys'[i] == keys[i];
  }

  /** `d` with `line` appended to its `authorized_keys`, which is created
      when missing. */
  function WithAuthorizedLine(d: SshDir, line: string): (d': SshDir)
    ensures d'.listing == d.listing
    ensures AuthorizedKeys(d') == AuthorizedKeys(d) + [Strip(line)]
  {
    var lines := if d.authorizedKeys.Some? then d.authorizedKeys.value else [];
    var d' := d.(authorizedKeys := Some(lines + [line]));
    assert |AuthorizedKeys(d')| == |AuthorizedKeys(d)| + 1;
    assert forall i :: 0 <= i < |lines| ==> (lines + [line])[i] == lines[i];
    d'
  }

  /** A line of `authorized_keys` without a second token changes no answer:
      appending one to the file leaves every candidate as trusted as before. */
  lemma LineWithoutTokenChangesNothing(d: SshDir, line: string, candidate: string)
    requires SecondToken(Strip(line)).None?
    ensures HasPublicKey(WithAuthorizedLine(d, line), candidate) == HasPublicKey(d, candidate)
  {
    var d' := WithAuthorizedLine(d, line);
    match SecondToken(candidate)
    case None =>
    case Some(token) =>
      match LoadPublicKey(d.listing)
      case Err(_) =>
      case Ok(own) =>
        var keys := [own] + AuthorizedKeys(d);
        var keys' := [own] + AuthorizedKeys(d');
        ConcatAssociative([own], AuthorizedKeys(d), [Strip(line)]);
        assert LoadAllPublicKeys(d) == Ok(keys);
        assert LoadPublicKey(d'.listing) == Ok(own);
        assert LoadAllPublicKeys(d') == Ok(keys');
        TokenlessKeyNeverMatches(keys, Strip(line), token);
        assert HasPublicKey(d, candidate) == Ok(AnyKeyHasToken(keys, token));
        assert HasPublicKey(d', candidate) == Ok(AnyKeyHasToken(keys', token));
  }

  /** A path ending in `.pub`, with no line feed in it, is never taken for a
      private key: the private pattern must end in an algorithm name. */
  lemma PubPathIsNotPrivateKeyName(p: string)
    requires EndsWith(p, ".pub") && '\n' !in p
    ensures !MatchesPrivateKeyName(p)
  {
    assert forall i :: 0 <= i < |p| ==> p[i] != '\n';
    forall e | 0 <= e <= |p| && LineEndAt(p, e) ensures !EndsWithKeyStem(p[..e]) {
      assert e == |p|;
      assert p[..e][|p| - 1] == p[|p| - 1] == 'b';
    }
  }

  /** A path without a line feed that does not end in `pub` is never taken
      for a public key. */
  lemma NonPubPathIsNotPublicKeyName(p: string)
    requires !EndsWith(p, "pub") && '\n' !in p
    ensures !MatchesPublicKeyName(p)
  {
    assert forall i :: 0 <= i < |p| ==> p[i] != '\n';
    forall e | 0 <= e <= |p| && LineEndAt(p, e) ensures !EndsWithPublicKeyStem(p[..e]) {
      assert e == |p|;
      assert p[..e] == p;
    }
  }

  /** For a path without a line feed, `$` can only match at the end, so the
      private pattern matches exactly when the path ends in the key stem. */
  lemma PrivateKeyNameWithoutLineFeed(p: string)
    requires '\n' !in p
    ensures MatchesPrivateKeyName(p) <==> EndsWithKeyStem(p)
  {
    assert p[..|p|] == p;
    assert LineEndAt(p, |p|);
    forall e | 0 <= e < |p| ensures p[e] != '\n' {
      assert p[e] in p;
    }
  }

  /** For a path without a line feed, the public pattern matches exactly
      when the path ends in the key stem, one character and `pub`. */
  lemma PublicKeyNameWithoutLineFeed(p: string)
    requires '\n' !in p
    ensures MatchesPublicKeyName(p) <==> EndsWithPublicKeyStem(p)
  {
    assert p[..|p|] == p;
    assert LineEndAt(p, |p|);
    forall e | 0 <= e < |p| ensures p[e] != '\n' {
      assert p[e] in p;
    }
  }

  /** A path ending in the key stem is a private-key name, and with `.pub`
      appended it is a public-key name. */
  lemma KeyStemNamesMatch(p: string)
    requires EndsWithKeyStem(p)
    ensures MatchesPrivateKeyName(p)
    ensures MatchesPublicKeyName(p + ".pub")
  {
    assert p[..|p|] == p;
    assert LineEndAt(p, |p|);
    var q := p + ".pub";
    assert q[..|q|] == q;
    assert q[..|q| - 4] == p;
    assert q[|q| - 3..] == "pub";
    assert LineEndAt(q, |q|);
  }

  /** The conventional file names are found under any directory. */
  lemma ConventionalNamesMatch(dir: string, algorithm: string)
    requires algorithm == "rsa" || algorithm == "dsa" || algorithm == "ecdsa" || algorithm == "ed25519"
    ensures MatchesPrivateKeyName(dir + "/id_" + algorithm)
    ensures MatchesPublicKeyName(dir + "/id_" + algorithm + ".pub")
  {
    ConventionalNameEndsWithKeyStem(dir, algorithm);
    KeyStemNamesMatch(dir + "/id_" + algorithm);
  }

  lemma ConventionalNameEndsWithKeyStem(dir: string, algorithm: string)
    requires algorithm == "rsa" || algorithm == "dsa" || algorithm == "ecdsa" || algorithm == "ed25519"
    ensures EndsWithKeyStem(dir + "/id_" + algorithm)
  {
    var stem := "id_" + algorithm;
    assert dir + "/id_" + algorithm == (dir + "/") + stem;
    EndsWithAppended(dir + "/", stem);
    if algorithm == "rsa" {
      assert stem == "id_rsa";
    } else if algorithm == "dsa" {
      assert stem == "id_dsa";
    } else if algorithm == "ecdsa" {
      assert stem == "id_ecdsa";
    } else {
      assert stem == "id_ed25519";
    }
  }

  lemma EndsWithAppended(q: string, suffix: string)
    ensures EndsWith(q + suffix, suffix)
  {
    assert (q + suffix)[|q|..] == suffix;
  }

  /** Under a directory without line feeds, the conventional private-key
      file is not a public-key name and its `.pub` partner is not a
      private-key name. */
  lemma ConventionalNamesDistinct(dir: string, algorithm: string)
    requires algorithm == "rsa" || algorithm == "dsa" || algorithm == "ecdsa" || algorithm == "ed25519"
    requires '\n' !in dir
    ensures !MatchesPublicKeyName(dir + "/id_" + algorithm)
    ensures !MatchesPrivateKeyName(dir + "/id_" + algorithm + ".pub")
  {
    var privatePath := dir + "/id_" + algorithm;
    var publicPath := privatePath + ".pub";
    assert '\n' !in privatePath;
    assert '\n' !in publicPath;
    assert publicPath[|publicPath| - 4..] == ".pub";
    PubPathIsNotPrivateKeyName(publicPath);
    assert privatePath[|privatePath| - 1] == algorithm[|algorithm| - 1];
    NonPubPathIsNotPublicKeyName(privatePath);
  }

  /** The listing of a directory holding only `id_<algorithm>` and
      `id_<algorithm>.pub`, in that order, both regular and readable. */
  function ConventionalListing(dir: string, algorithm: string, privateText: string, publicText: string): seq<Entry> {
    [Entry(dir + "/id_" + algorithm, true, true, privateText),
     Entry(dir + "/id_" + algorithm + ".pub", true, true, publicText)]
  }

  /** In the conventional listing the private key is read from the first
      file and the public key from the second. */
  lemma ConventionalListingLoads(c: Suite, dir: string, algorithm: string, privateText: string, publicText: string)
    requires algorithm == "rsa" || algorithm == "dsa" || algorithm == "ecdsa" || algorithm == "ed25519"
    requires '\n' !in dir
    ensures LoadPrivateKey(c, ConventionalListing(dir, algorithm, privateText, publicText))
      == ReadPrivateKey(c, Entry(dir + "/id_" + algorithm, true, true, privateText))
    ensures LoadPublicKey(ConventionalListing(dir, algorithm, privateText, publicText)) == Ok(Strip(publicText))
  {
    var listing := ConventionalListing(dir, algorithm, privateText, publicText);
    ConventionalNamesMatch(dir, algorithm);
    ConventionalNamesDistinct(dir, algorithm);
    assert IsFirst(listing, IsPrivateKeyFile, 0);
    assert IsFirst(listing, IsPublicKeyFile, 1);
    forall k | IsFirst(listing, IsPrivateKeyFile, k) ensures k == 0 {
      IsFirstUnique(listing, IsPrivateKeyFile, k, 0);
    }
    forall k | IsFirst(listing, IsPublicKeyFile, k) ensures k == 1 {
      IsFirstUnique(listing, IsPublicKeyFile, k, 1);
    }
  }

  /** Ruby's `$` also matches before a line feed, so a path with a line feed
      after the key stem is a private-key name even though it ends in `.pub`. */
  lemma LineFeedPathIsPrivateKeyName()
    ensures MatchesPrivateKeyName("id_rsa\n.pub")
  {
    var p := "id_rsa\n.pub";
    assert LineEndAt(p, 6) && p[..6] == "id_rsa";
  }

  /** The `.` before `pub` is unescaped, so `id_rsa_pub` is a public-key
      name. */
  lemma UnescapedDotMatchesAnyCharacter()
    ensures MatchesPublicKeyName("id_rsa_pub")
  {
    var p := "id_rsa_pub";
    assert p[..|p|] == p && p[..|p| - 4] == "id_rsa";
    assert LineEndAt(p, |p|);
  }
}
