/** The credential vault (crypto_store.py): credential ids and public keys
    are kept encrypted at rest with AES-256-GCM under associated data that
    names their owner, and credentials are looked up by the SHA-256 of their
    id. The cipher, the hash and the random nonces come from outside: the
    cipher and the hash are functions the vault is given, with the properties
    the code relies on stated as hypotheses, and nonces are parameters. */
module CryptoStore {
  import opened Wrappers
  import opened Octets
  import opened Text
  import opened Json
  import opened Db

  /** The relying party identifier (config.py's default). */
  const RP_ID: string := "localhost"

  /** Length of the random nonce at the head of every blob. */
  const NONCE_LENGTH: nat := 12

  /** Length of the AES-256 key config.py insists on. */
  const KEY_LENGTH: nat := 32

  type Key = k: Bytes | |k| == KEY_LENGTH witness seq(32, _ => 0)

  type Nonce = n: Bytes | |n| == NONCE_LENGTH witness seq(12, _ => 0)

  /** An authenticated cipher: `seal(key, nonce, plaintext, aad)` is the
      ciphertext with its tag, and `open(key, nonce, ciphertext, aad)` is the
      plaintext, or `None` where the library raises. */
  datatype Aead = Aead(
    seal: (Bytes, Bytes, Bytes, Bytes) -> Bytes,
    open: (Bytes, Bytes, Bytes, Bytes) -> Option<Bytes>)

  /** Opening with the key, nonce and associated data used to seal gives the
      plaintext back. */
  ghost predicate OpensWhatItSeals(a: Aead) {
    forall key, nonce, plaintext, aad ::
      a.open(key, nonce, a.seal(key, nonce, plaintext, aad), aad) == Some(plaintext)
  }

  /** A ciphertext opens under at most one associated data. */
  ghost predicate BindsAssociatedData(a: Aead) {
    forall key, nonce, ciphertext, aad1, aad2 ::
      a.open(key, nonce, ciphertext, aad1).Some? && a.open(key, nonce, ciphertext, aad2).Some? ==> aad1 == aad2
  }

  /** Distinct inputs hash to distinct digests. */
  ghost predicate CollisionFree(hash: Bytes -> Bytes) {
    forall x, y :: hash(x) == hash(y) ==> x == y
  }

  /** What crypto_store.py reaches through its imports: `ENC_KEY`, AES-GCM and
      `hashlib.sha256`. */
  datatype Vault = Vault(key: Key, aead: Aead, sha256: Bytes -> Bytes)

  /** `_aad`: the UTF-8 bytes of `RP_ID|user_id`. */
  function Aad(userId: nat): Bytes {
    Utf8(RP_ID + "|" + Decimal(userId))
  }

  /** `encrypt_blob` with the nonce it draws: the nonce followed by the
      ciphertext. */
  function EncryptBlob(v: Vault, plaintext: Bytes, aad: Bytes, nonce: Nonce): Bytes {
    nonce + v.aead.seal(v.key, nonce, plaintext, aad)
  }

  /** `decrypt_blob`: the first (at most) twelve octets are the nonce, the
      rest the ciphertext; `None` where the library raises. */
  function DecryptBlob(v: Vault, blob: Bytes, aad: Bytes): Option<Bytes> {
    var split := if |blob| < NONCE_LENGTH then |blob| else NONCE_LENGTH;
    v.aead.open(v.key, blob[..split], blob[split..], aad)
  }

  /** `decrypt_credential_id`: the associated data comes from the row's own
      owner. */
  function DecryptCredentialId(v: Vault, row: CredentialRow): Option<Bytes> {
    DecryptBlob(v, row.credentialIdEnc, Aad(row.userId))
  }

  /** `decrypt_public_key`: the associated data comes from the row's own
      owner. */
  function DecryptPublicKey(v: Vault, row: CredentialRow): Option<Bytes> {
    DecryptBlob(v, row.publicKeyEnc, Aad(row.userId))
  }

  /** `json.dumps(transports or [])`, before it is turned into text. */
  function TransportsColumn(transports: Json): Json {
    if Truthy(transports) then transports else JArr([])
  }

  /** The row values `save_credential` hands to `insert_or_replace_credential`,
      with the two nonces `encrypt_blob` draws. */
  function Sealed(
    v: Vault, userId: nat, credentialId: Bytes, publicKey: Bytes, signCount: int,
    transports: Json, deviceType: Option<string>, backedUp: bool,
    idNonce: Nonce, keyNonce: Nonce): NewCredential
  {
    var aad := Aad(userId);
    NewCredential(
      userId, v.sha256(credentialId),
      EncryptBlob(v, credentialId, aad, idNonce), EncryptBlob(v, publicKey, aad, keyNonce),
      signCount, TransportsColumn(transports), deviceType, backedUp)
  }

  // ---------------------------------------------------------------------
  // Properties
  // ---------------------------------------------------------------------

  /** Distinct owners have distinct associated data. */
  lemma AadInjective(a: nat, b: nat)
    requires Aad(a) == Aad(b)
    ensures a == b
  {
    var s := RP_ID + "|" + Decimal(a);
    var t := RP_ID + "|" + Decimal(b);
    assert IsAscii(s) && IsAscii(t);
    Utf8AsciiInjective(s, t);
    assert Decimal(a) == s[|RP_ID| + 1..] == t[|RP_ID| + 1..] == Decimal(b);
    DecimalInjective(a, b);
  }

  /** A blob is the nonce followed by the ciphertext, and `decrypt_blob`
      with the same associated data returns the plaintext. */
  lemma DecryptEncrypted(v: Vault, plaintext: Bytes, aad: Bytes, nonce: Nonce)
    requires OpensWhatItSeals(v.aead)
    ensures var blob := EncryptBlob(v, plaintext, aad, nonce);
      && |blob| == NONCE_LENGTH + |v.aead.seal(v.key, nonce, plaintext, aad)|
      && blob[..NONCE_LENGTH] == nonce
      && DecryptBlob(v, blob, aad) == Some(plaintext)
  {
    var blob := EncryptBlob(v, plaintext, aad, nonce);
    assert blob[..NONCE_LENGTH] == nonce;
    assert blob[NONCE_LENGTH..] == v.aead.seal(v.key, nonce, plaintext, aad);
  }

  /** A blob sealed under one associated data does not open under another. */
  lemma DecryptOtherAadFails(v: Vault, plaintext: Bytes, aad: Bytes, other: Bytes, nonce: Nonce)
    requires OpensWhatItSeals(v.aead) && BindsAssociatedData(v.aead)
    requires aad != other
    ensures DecryptBlob(v, EncryptBlob(v, plaintext, aad, nonce), other) == None
  {
    DecryptEncrypted(v, plaintext, aad, nonce);
    var blob := EncryptBlob(v, plaintext, aad, nonce);
    assert blob[..NONCE_LENGTH] == nonce && blob[NONCE_LENGTH..] == v.aead.seal(v.key, nonce, plaintext, aad);
  }

  /** A row claiming an owner other than the one the blobs were sealed for
      decrypts neither the credential id nor the public key. */
  lemma OtherOwnerCannotDecrypt(v: Vault, owner: nat, row: CredentialRow, credentialId: Bytes, publicKey: Bytes, idNonce: Nonce, keyNonce: Nonce)
    requires OpensWhatItSeals(v.aead) && BindsAssociatedData(v.aead)
    requires row.userId != owner
    requires row.credentialIdEnc == EncryptBlob(v, credentialId, Aad(owner), idNonce)
    requires row.publicKeyEnc == EncryptBlob(v, publicKey, Aad(owner), keyNonce)
    ensures DecryptCredentialId(v, row) == None && DecryptPublicKey(v, row) == None
  {
    if Aad(row.userId) == Aad(owner) {
      AadInjective(row.userId, owner);
    }
    DecryptOtherAadFails(v, credentialId, Aad(owner), Aad(row.userId), idNonce);
    DecryptOtherAadFails(v, publicKey, Aad(owner), Aad(row.userId), keyNonce);
  }

  /** After `save_credential`, looking the credential up by the SHA-256 of
      its id finds a row of the owner whose blobs decrypt to the id and the
      public key, with the counter, device type and backup flag given, and
      `transports or []` in the transports column. */
  lemma SavedCredentialReadsBack(
    t: Tables, v: Vault, userId: nat, credentialId: Bytes, publicKey: Bytes, signCount: int,
    transports: Json, deviceType: Option<string>, backedUp: bool, idNonce: Nonce, keyNonce: Nonce)
    requires WellFormed(t) && OpensWhatItSeals(v.aead)
    ensures var t' := CredentialUpserted(t, Sealed(v, userId, credentialId, publicKey, signCount,
                                                   transports, deviceType, backedUp, idNonce, keyNonce));
      var found := FindCredentialByHash(t', v.sha256(credentialId));
      && WellFormed(t')
      && found.Some?
      && found.value.userId == userId
      && DecryptCredentialId(v, found.value) == Some(credentialId)
      && DecryptPublicKey(v, found.value) == Some(publicKey)
      && found.value.signCount == signCount
      && (Truthy(transports) ==> found.value.transports == transports)
      && (!Truthy(transports) ==> found.value.transports == JArr([]))
      && found.value.deviceType == deviceType
      && found.value.backedUp == (if backedUp then 1 else 0)
  {
    var c := Sealed(v, userId, credentialId, publicKey, signCount, transports, deviceType, backedUp, idNonce, keyNonce);
    CredentialUpsertedEffect(t, c);
    DecryptEncrypted(v, credentialId, Aad(userId), idNonce);
    DecryptEncrypted(v, publicKey, Aad(userId), keyNonce);
  }

  /** With a collision-free hash, a lookup by the hash of another id does not
      find the credential just saved. */
  lemma SavedCredentialOnlyUnderItsId(
    t: Tables, v: Vault, userId: nat, credentialId: Bytes, publicKey: Bytes, signCount: int,
    transports: Json, deviceType: Option<string>, backedUp: bool, idNonce: Nonce, keyNonce: Nonce,
    otherId: Bytes)
    requires WellFormed(t) && CollisionFree(v.sha256) && otherId != credentialId
    ensures var t' := CredentialUpserted(t, Sealed(v, userId, credentialId, publicKey, signCount,
                                                   transports, deviceType, backedUp, idNonce, keyNonce));
      FindCredentialByHash(t', v.sha256(otherId)) == FindCredentialByHash(t, v.sha256(otherId))
  {
    var c := Sealed(v, userId, credentialId, publicKey, signCount, transports, deviceType, backedUp, idNonce, keyNonce);
    var t' := CredentialUpserted(t, c);
    var h := v.sha256(otherId);
    CredentialUpsertedEffect(t, c);
    assert h != c.credentialIdHash;
    match FindCredentialByHash(t, h)
    case Some(r) => FindCredentialUnique(t', r);
    case None =>
  }

  // ---------------------------------------------------------------------
  // The operations that write
  // ---------------------------------------------------------------------

  /** `save_credential`: hash the id, encrypt id and public key under the
      owner's associated data, and upsert the row. */
  method SaveCredential(
    store: Store, v: Vault, userId: nat, credentialId: Bytes, publicKey: Bytes, signCount: int,
    transports: Json, deviceType: Option<string>, backedUp: bool, idNonce: Nonce, keyNonce: Nonce)
    requires store.Valid()
    modifies store
    ensures store.Valid()
    ensures store.State() == CredentialUpserted(old(store.State()),
      Sealed(v, userId, credentialId, publicKey, signCount, transports, deviceType, backedUp, idNonce, keyNonce))
  {
    var credHash := v.sha256(credentialId);
    var aad := Aad(userId);
    var credentialIdEnc := EncryptBlob(v, credentialId, aad, idNonce);
    var publicKeyEnc := EncryptBlob(v, publicKey, aad, keyNonce);
    store.InsertOrReplaceCredential(NewCredential(
      userId, credHash, credentialIdEnc, publicKeyEnc, signCount,
      TransportsColumn(transports), deviceType, backedUp));
  }

  /** `update_sign_count`: the arguments go to the store unchanged. */
  method UpdateSignCount(store: Store, credHash: Bytes, newSignCount: int, deviceType: Option<string>, backedUp: bool)
    requires store.Valid()
    modifies store
    ensures store.Valid()
    ensures store.State() == SignCountUpdated(old(store.State()), credHash, newSignCount, deviceType, backedUp)
  {
    store.UpdateCredentialSignCount(credHash, newSignCount, deviceType, backedUp);
  }

  /** `constant_work_padding`: one decryption of random bytes under the
      associated data `pad`, whose outcome is discarded. */
  method ConstantWorkPadding(v: Vault, fakeNonce: Nonce, fakeCiphertext: Bytes)
  {
    var _ := v.aead.open(v.key, fakeNonce, fakeCiphertext, Utf8("pad"));
  }
}
