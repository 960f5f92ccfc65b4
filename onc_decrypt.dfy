/**
 * Decrypt (onc_utils.cc): the gates an encrypted ONC envelope must pass and the
 * fixed order of the decryption steps. The primitives themselves (base64,
 * PBKDF2, HMAC-SHA1, AES-256-CBC, the JSON reader) are parameters.
 */
module OncDecrypt {
  import opened Wrappers
  import opened OncValues
  import opened OncSchema

  const MaxIterationCount: int := 500000

  /** The foreign calls Decrypt makes, in the order it makes them. */
  datatype Crypto = Crypto(
    // base::Base64Decode
    base64Decode: Bytes -> Option<Bytes>,
    // SymmetricKey::DeriveKeyFromPassword(AES, passphrase, salt, iterations, 256)
    deriveKey: (Bytes, Bytes, int) -> Bytes,
    // HMAC(SHA1): Init(key) followed by Verify(ciphertext, hmac)
    hmacSha1Verify: (Bytes, Bytes, Bytes) -> bool,
    // Encryptor: Init(key, CBC, iv) followed by Decrypt(ciphertext)
    aesCbcDecrypt: (Bytes, Bytes, Bytes) -> Option<Bytes>,
    // ReadDictionaryFromJson: None when the text is not a JSON dictionary
    readJson: Bytes -> Option<Entries>)

  /** Why Decrypt returned null; each corresponds to one of its log lines. */
  datatype DecryptError =
    | Malformed
    | UnsupportedScheme
    | ZeroIterations
    | IterationsOutOfRange
    | Undecodable(field: Bytes)
    | IntegrityFailure
    | DecryptFailure
    | PlaintextMalformed

  /** The nine envelope fields, once read with their expected types. */
  datatype Envelope = Envelope(
    ciphertext: Bytes, cipher: Bytes, hmac: Bytes, hmacMethod: Bytes,
    iv: Bytes, iterations: Int32, salt: Bytes, stretch: Bytes)

  /** The first gate: every field present with its type, and Type is EncryptedConfiguration. */
  function ReadEnvelope(root: Entries): Option<Envelope>
  {
    if && GetString(root, CiphertextKey).Some?
       && GetString(root, CipherKey).Some?
       && GetString(root, HmacKey).Some?
       && GetString(root, HmacMethodKey).Some?
       && GetString(root, IvKey).Some?
       && GetInteger(root, IterationsKey).Some?
       && GetString(root, SaltKey).Some?
       && GetString(root, StretchKey).Some?
       && GetString(root, TypeKey) == Some(EncryptedConfiguration)
    then Some(Envelope(
      GetString(root, CiphertextKey).value, GetString(root, CipherKey).value,
      GetString(root, HmacKey).value, GetString(root, HmacMethodKey).value,
      GetString(root, IvKey).value, GetInteger(root, IterationsKey).value,
      GetString(root, SaltKey).value, GetString(root, StretchKey).value))
    else None
  }

  /** The one supported scheme: HMAC SHA1, cipher AES256, stretch PBKDF2. */
  predicate SupportedScheme(env: Envelope)
  {
    env.hmacMethod == Sha1 && env.cipher == Aes256 && env.stretch == Pbkdf2
  }

  function Decrypt(c: Crypto, passphrase: Bytes, root: Entries): Result<Entries, DecryptError>
  {
    match ReadEnvelope(root)
    case None => Failure(Malformed)
    case Some(env) =>
      if !SupportedScheme(env) then Failure(UnsupportedScheme)
      else if env.iterations == 0 then Failure(ZeroIterations)
      else if env.iterations < 0 || env.iterations > MaxIterationCount then Failure(IterationsOutOfRange)
      else DecryptEnvelope(c, passphrase, env)
  }

  /** The steps after the gates: salt, key derivation, IV, ciphertext, HMAC, decryption, parsing. */
  function DecryptEnvelope(c: Crypto, passphrase: Bytes, env: Envelope): Result<Entries, DecryptError>
  {
    match c.base64Decode(env.salt)
    case None => Failure(Undecodable(SaltKey))
    case Some(salt) =>
      var key := c.deriveKey(passphrase, salt, env.iterations);
      match (c.base64Decode(env.iv), c.base64Decode(env.ciphertext), c.base64Decode(env.hmac))
      case (None, _, _) => Failure(Undecodable(IvKey))
      case (Some(_), None, _) => Failure(Undecodable(CiphertextKey))
      case (Some(_), Some(_), None) => Failure(Undecodable(HmacKey))
      case (Some(iv), Some(ciphertext), Some(hmac)) =>
        if !c.hmacSha1Verify(key, ciphertext, hmac) then Failure(IntegrityFailure)
        else match c.aesCbcDecrypt(key, iv, ciphertext)
          case None => Failure(DecryptFailure)
          case Some(plaintext) =>
            match c.readJson(plaintext)
            case None => Failure(PlaintextMalformed)
            case Some(doc) => Success(doc)
  }

  /** The eight string fields of an envelope. */
  const StringFields: seq<Bytes> :=
    [CiphertextKey, CipherKey, HmacKey, HmacMethodKey, IvKey, SaltKey, StretchKey, TypeKey]

  /** An envelope the first gate rejects: a field missing or mistyped, or the wrong Type. */
  predicate EnvelopeMalformed(root: Entries)
  {
    || (exists i :: 0 <= i < |StringFields| && GetString(root, StringFields[i]).None?)
    || GetInteger(root, IterationsKey).None?
    || GetString(root, TypeKey) != Some(EncryptedConfiguration)
  }

  /** Decrypt reports a malformed envelope exactly when one of the nine fields is missing or mistyped or Type is wrong. */
  lemma DecryptMalformedIff(c: Crypto, passphrase: Bytes, root: Entries)
    ensures Decrypt(c, passphrase, root) == Failure(Malformed) <==> EnvelopeMalformed(root)
  {
    if GetString(root, CiphertextKey).None? { assert GetString(root, StringFields[0]).None?; }
    if GetString(root, CipherKey).None? { assert GetString(root, StringFields[1]).None?; }
    if GetString(root, HmacKey).None? { assert GetString(root, StringFields[2]).None?; }
    if GetString(root, HmacMethodKey).None? { assert GetString(root, StringFields[3]).None?; }
    if GetString(root, IvKey).None? { assert GetString(root, StringFields[4]).None?; }
    if GetString(root, SaltKey).None? { assert GetString(root, StringFields[5]).None?; }
    if GetString(root, StretchKey).None? { assert GetString(root, StringFields[6]).None?; }
  }

  /** Past the first gate, only HMACMethod SHA1, Cipher AES256 and Stretch PBKDF2 get further. */
  lemma DecryptSchemeGate(c: Crypto, passphrase: Bytes, root: Entries)
    requires !EnvelopeMalformed(root)
    ensures Decrypt(c, passphrase, root) == Failure(UnsupportedScheme) <==>
      || GetString(root, HmacMethodKey) != Some(Sha1)
      || GetString(root, CipherKey) != Some(Aes256)
      || GetString(root, StretchKey) != Some(Pbkdf2)
  {
    DecryptMalformedIff(c, passphrase, root);
    assert ReadEnvelope(root).Some?;
  }

  /**
   * With a well-formed envelope and the supported scheme, an iteration count outside
   * 1..500000 is rejected, and it is rejected before any primitive is consulted: the
   * result is the same whatever the primitives and the passphrase are.
   */
  lemma DecryptIterationGate(c: Crypto, passphrase: Bytes, root: Entries, c': Crypto, passphrase': Bytes)
    requires ReadEnvelope(root).Some? && SupportedScheme(ReadEnvelope(root).value)
    ensures var n := GetInteger(root, IterationsKey).value;
      && (n == 0 <==> Decrypt(c, passphrase, root) == Failure(ZeroIterations))
      && ((n < 0 || n > MaxIterationCount) <==> Decrypt(c, passphrase, root) == Failure(IterationsOutOfRange))
      && (!(1 <= n <= MaxIterationCount) ==> Decrypt(c, passphrase, root) == Decrypt(c', passphrase', root))
      && (1 <= n <= MaxIterationCount ==>
            Decrypt(c, passphrase, root) == DecryptEnvelope(c, passphrase, ReadEnvelope(root).value))
  {
    var env := ReadEnvelope(root).value;
    if 1 <= env.iterations <= MaxIterationCount {
      var r := DecryptEnvelope(c, passphrase, env);
      assert r != Failure(ZeroIterations) && r != Failure(IterationsOutOfRange) by {
        match c.base64Decode(env.salt)
        case None =>
        case Some(salt) =>
      }
    }
  }

  /**
   * Decrypt yields a document exactly when every step succeeds, and the document is
   * the parse of the decrypted plaintext.
   */
  lemma DecryptSuccessIff(c: Crypto, passphrase: Bytes, root: Entries, doc: Entries)
    ensures Decrypt(c, passphrase, root) == Success(doc) <==>
      && ReadEnvelope(root).Some?
      && var env := ReadEnvelope(root).value;
      && SupportedScheme(env)
      && 1 <= env.iterations <= MaxIterationCount
      && c.base64Decode(env.salt).Some?
      && c.base64Decode(env.iv).Some?
      && c.base64Decode(env.ciphertext).Some?
      && c.base64Decode(env.hmac).Some?
      && var key := c.deriveKey(passphrase, c.base64Decode(env.salt).value, env.iterations);
      && c.hmacSha1Verify(key, c.base64Decode(env.ciphertext).value, c.base64Decode(env.hmac).value)
      && var plain := c.aesCbcDecrypt(key, c.base64Decode(env.iv).value, c.base64Decode(env.ciphertext).value);
      && plain.Some?
      && c.readJson(plain.value) == Some(doc)
  {
  }

  /** An envelope with the supported scheme and the given iteration count. */
  function SampleEnvelope(iterations: Int32): Entries
  {
    map[TypeKey := Str(EncryptedConfiguration), CipherKey := Str(Aes256),
        HmacMethodKey := Str(Sha1), StretchKey := Str(Pbkdf2),
        CiphertextKey := Str("Y2lwaGVy"), HmacKey := Str("aG1hYw=="),
        IvKey := Str("aXY="), SaltKey := Str("c2FsdA=="),
        IterationsKey := Integer(iterations)]
  }

  lemma ReadSampleEnvelope(iterations: Int32)
    ensures ReadEnvelope(SampleEnvelope(iterations)) ==
      Some(Envelope("Y2lwaGVy", Aes256, "aG1hYw==", Sha1, "aXY=", iterations, "c2FsdA==", Pbkdf2))
  {
    var e := SampleEnvelope(iterations);
    assert GetString(e, CiphertextKey) == Some("Y2lwaGVy");
    assert GetString(e, CipherKey) == Some(Aes256);
    assert GetString(e, HmacKey) == Some("aG1hYw==");
    assert GetString(e, HmacMethodKey) == Some(Sha1);
    assert GetString(e, IvKey) == Some("aXY=");
    assert GetInteger(e, IterationsKey) == Some(iterations);
    assert GetString(e, SaltKey) == Some("c2FsdA==");
    assert GetString(e, StretchKey) == Some(Pbkdf2);
    assert GetString(e, TypeKey) == Some(EncryptedConfiguration);
  }

  /** Iterations 0, -1 and 500001 are rejected; 500000 passes the iteration gate. */
  lemma IterationBoundaries(c: Crypto, passphrase: Bytes)
    ensures Decrypt(c, passphrase, SampleEnvelope(0)) == Failure(ZeroIterations)
    ensures Decrypt(c, passphrase, SampleEnvelope(500001)) == Failure(IterationsOutOfRange)
    ensures Decrypt(c, passphrase, SampleEnvelope(-1)) == Failure(IterationsOutOfRange)
    ensures Decrypt(c, passphrase, SampleEnvelope(500000)) ==
            DecryptEnvelope(c, passphrase, ReadEnvelope(SampleEnvelope(500000)).value)
  {
    ReadSampleEnvelope(0);
    ReadSampleEnvelope(500001);
    ReadSampleEnvelope(-1);
    ReadSampleEnvelope(500000);
  }
}
