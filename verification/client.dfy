/** Construction of a Mixin API client: choosing the request signer and the
    response verifier from a keystore, an access token or an OAuth keystore.
    Key parsing itself lives outside this model; its three entry points and the
    compact-key decoder are passed in as a `KeyLoaders` value. */
module MixinClient {
  import opened Wrappers

  /** The PEM marker whose presence selects the RSA scheme. */
  const RsaMarker: string := "RSA PRIVATE KEY"

  /** The error a keystore whose key has neither recognised format yields. */
  const UnexpectedKeyFormat: string := "unexpected private key format"

  const RsaKeystorePrefix: string := "RSA keystore"
  const Ed25519KeystorePrefix: string := "ed25519 keystore"

  datatype Keystore = Keystore(clientID: string, sessionID: string, privateKey: string, pinToken: string)

  datatype OauthKeystore = OauthKeystore(clientID: string, authID: string, scope: string, privateKey: string, verifyKey: string)

  datatype KeyScheme = Rsa | Ed25519

  /** Opaque signing state built by the key parsers (a parsed key bound to a session). */
  datatype KeystoreAuth = KeystoreAuth(clientID: string, sessionID: string, key: string)

  /** Opaque OAuth state: it both signs requests and verifies responses. */
  datatype OauthAuth = OauthAuth(clientID: string, authID: string, key: string)

  datatype Signer =
    | KeystoreSigner(scheme: KeyScheme, auth: KeystoreAuth)
    | AccessTokenSigner(token: string)
    | OauthSigner(oauth: OauthAuth)

  datatype Verifier = NopVerifier | OauthVerifier(oauth: OauthAuth)

  datatype Client = Client(signer: Signer, verifier: Verifier, clientID: string)

  /** The key-handling calls the constructors depend on, each of which may fail. */
  datatype KeyLoaders = KeyLoaders(
    rsaAuth: Keystore -> Result<KeystoreAuth, Error>,       // AuthFromKeystore
    ed25519Decodes: string -> bool,                          // ed25519Encoding.DecodeString succeeds
    ed25519Auth: Keystore -> Result<KeystoreAuth, Error>,   // AuthEd25519FromKeystore
    oauthAuth: OauthKeystore -> Result<OauthAuth, Error>)   // AuthFromOauthKeystore

  /** `sub` occurs in `s` starting at index `i`. */
  predicate OccursAt(s: string, sub: string, i: nat)
  {
    i + |sub| <= |s| && s[i..i + |sub|] == sub
  }

  /** `sub` occurs somewhere in `s` as a contiguous block. */
  ghost predicate HasSubstring(s: string, sub: string)
  {
    exists i: nat :: OccursAt(s, sub, i)
  }

  /** Dropping a first character that cannot start an occurrence keeps every other occurrence. */
  lemma {:induction false} HasSubstringTail(s: string, sub: string)
    requires s != [] && !OccursAt(s, sub, 0)
    ensures HasSubstring(s, sub) <==> HasSubstring(s[1..], sub)
  {
    if HasSubstring(s, sub) {
      var i: nat :| OccursAt(s, sub, i);
      assert i > 0;
      assert s[1..][i - 1..i - 1 + |sub|] == s[i..i + |sub|];
      assert OccursAt(s[1..], sub, i - 1);
    }
    if HasSubstring(s[1..], sub) {
      var i: nat :| OccursAt(s[1..], sub, i);
      assert s[i + 1..i + 1 + |sub|] == s[1..][i..i + |sub|];
      assert OccursAt(s, sub, i + 1);
    }
  }

  /** `strings.Contains`: scan every start position for `sub`. */
  function Contains(s: string, sub: string): (b: bool)
    decreases |s|
    ensures b <==> HasSubstring(s, sub)
  {
    if sub <= s then
      assert OccursAt(s, sub, 0);
      true
    else if s == [] then
      false
    else
      HasSubstringTail(s, sub);
      Contains(s[1..], sub)
  }

  /** The ordered format sniffing of `NewFromKeystore`: the RSA marker is
      looked for first, then the compact encoding is tried. */
  function SelectScheme(privateKey: string, decodes: string -> bool): (s: Option<KeyScheme>)
    ensures s == Some(Rsa) <==> HasSubstring(privateKey, RsaMarker)
    ensures s == Some(Ed25519) <==> !HasSubstring(privateKey, RsaMarker) && decodes(privateKey)
    ensures s == None <==> !HasSubstring(privateKey, RsaMarker) && !decodes(privateKey)
  {
    if Contains(privateKey, RsaMarker) then Some(Rsa)
    else if decodes(privateKey) then Some(Ed25519)
    else None
  }

  /** Signer and verifier are paired: the OAuth auth object plays both roles,
      every other signer comes with the no-op verifier. */
  predicate WellWired(c: Client)
  {
    match c.signer
    case OauthSigner(a) => c.verifier == OauthVerifier(a)
    case _ => c.verifier == NopVerifier
  }

  function NewFromKeystore(keystore: Keystore, loaders: KeyLoaders): (r: Result<Client, Error>)
    // a successful client signs with the chosen scheme, never verifies, and keeps the keystore's id
    ensures r.Ok? ==> WellWired(r.value) && r.value.signer.KeystoreSigner? && r.value.clientID == keystore.clientID
    ensures r.Ok? ==> Some(r.value.signer.scheme) == SelectScheme(keystore.privateKey, loaders.ed25519Decodes)
    // the RSA marker wins, whether or not the key would also decode
    ensures HasSubstring(keystore.privateKey, RsaMarker) ==>
      match loaders.rsaAuth(keystore)
      case Ok(a) => r == Ok(Client(KeystoreSigner(Rsa, a), NopVerifier, keystore.clientID))
      case Err(e) => r.Err? && r.error == Wrapped(RsaKeystorePrefix, e)
    ensures !HasSubstring(keystore.privateKey, RsaMarker) && loaders.ed25519Decodes(keystore.privateKey) ==>
      match loaders.ed25519Auth(keystore)
      case Ok(a) => r == Ok(Client(KeystoreSigner(Ed25519, a), NopVerifier, keystore.clientID))
      case Err(e) => r.Err? && r.error == Wrapped(Ed25519KeystorePrefix, e)
    ensures !HasSubstring(keystore.privateKey, RsaMarker) && !loaders.ed25519Decodes(keystore.privateKey) ==>
      r == Err(Message(UnexpectedKeyFormat))
  {
    match SelectScheme(keystore.privateKey, loaders.ed25519Decodes)
    case Some(Rsa) =>
      (match loaders.rsaAuth(keystore)
       case Err(e) => Err(Wrapped(RsaKeystorePrefix, e))
       case Ok(a) => Ok(Client(KeystoreSigner(Rsa, a), NopVerifier, keystore.clientID)))
    case Some(Ed25519) =>
      (match loaders.ed25519Auth(keystore)
       case Err(e) => Err(Wrapped(Ed25519KeystorePrefix, e))
       case Ok(a) => Ok(Client(KeystoreSigner(Ed25519, a), NopVerifier, keystore.clientID)))
    case None => Err(Message(UnexpectedKeyFormat))
  }

  /** A failed keystore construction is explained by exactly one cause:
      the chosen parser's own error (recoverable with `Unwrap`, text prefixed
      by the scheme), or the format error, which wraps nothing. */
  lemma {:induction false} KeystoreErrorCause(keystore: Keystore, loaders: KeyLoaders)
    requires NewFromKeystore(keystore, loaders).Err?
    ensures var e := NewFromKeystore(keystore, loaders).error;
      var scheme := SelectScheme(keystore.privateKey, loaders.ed25519Decodes);
      (scheme == Some(Rsa) && Unwrap(e) == Some(loaders.rsaAuth(keystore).error)
        && Text(e) == RsaKeystorePrefix + ": " + Text(loaders.rsaAuth(keystore).error))
      || (scheme == Some(Ed25519) && Unwrap(e) == Some(loaders.ed25519Auth(keystore).error)
        && Text(e) == Ed25519KeystorePrefix + ": " + Text(loaders.ed25519Auth(keystore).error))
      || (scheme == None && Unwrap(e) == None && Text(e) == UnexpectedKeyFormat)
  {
  }

  function NewFromAccessToken(accessToken: string): (c: Client)
    ensures WellWired(c) && c.verifier == NopVerifier
    ensures c.signer == AccessTokenSigner(accessToken) && c.clientID == ""
  {
    Client(AccessTokenSigner(accessToken), NopVerifier, "")
  }

  function NewFromOauthKeystore(keystore: OauthKeystore, loaders: KeyLoaders): (r: Result<Client, Error>)
    ensures r.Ok? <==> loaders.oauthAuth(keystore).Ok?
    // the parser's error is passed on as it is, without a prefix
    ensures r.Err? ==> r.error == loaders.oauthAuth(keystore).error
    // one auth object is both the signer and the verifier
    ensures r.Ok? ==>
      WellWired(r.value) && r.value.signer == OauthSigner(loaders.oauthAuth(keystore).value) && r.value.clientID == keystore.clientID
  {
    match loaders.oauthAuth(keystore)
    case Err(e) => Err(e)
    case Ok(a) => Ok(Client(OauthSigner(a), OauthVerifier(a), keystore.clientID))
  }
}
