/** The client's encryption layer (client_help.py): keys derived from a
    password, an HMAC over the slot id and the ciphertext, and the blob
    layout salt(16) || nonce(12) || ciphertext_with_tag || signature(32)
    that is sent to the server and parsed back.

    PBKDF2-HMAC-SHA-256, HMAC-SHA-256 and AES-256-GCM are library calls;
    they are the fields of a `Primitives` value, and the only thing assumed
    about them is `GcmInverts`, stated as a precondition where it is used.
    The random salt and nonce (os.urandom) are parameters. */
module ClientHelp {
  import opened Bytes

  const SaltLen: nat := 16
  const GcmNonceLen: nat := 12
  const DerivedLen: nat := 64
  const AesKeyLen: nat := 32
  const HmacKeyLen: nat := 32
  const HmacLen: nat := 32
  const KdfIters: nat := 200000
  /** The salt generate_key_from_password accepts at the least. */
  const MinSaltLen: nat := 8
  /** AES-GCM appends a 16-byte tag to the ciphertext. */
  const GcmTagLen: nat := 16
  /** The shortest blob decrypt_data parses: every fixed part plus one byte. */
  const MinBlobLen: nat := SaltLen + GcmNonceLen + HmacLen + 1

  /** Key material as PBKDF2 returns it with length=DERIVED_LEN. */
  type Material = s: seq<byte> | |s| == DerivedLen
    witness seq(64, _ => 0)

  /** HMAC-SHA-256 output. */
  type Mac = s: seq<byte> | |s| == HmacLen
    witness seq(32, _ => 0)

  /** The library primitives the layer calls.
      pbkdf2(password, salt, iterations) is PBKDF2HMAC(SHA256, 64, salt,
      iterations).derive(password) (client_help.py:41-48);
      hmac(key, message) is HMAC-SHA-256 (client_help.py:59-62);
      gcmEncrypt(key, nonce, data, aad) and gcmDecrypt(key, nonce, ct, aad)
      are AESGCM(key).encrypt and .decrypt, the latter `None` where the
      library raises InvalidTag (client_help.py:88-90, 113-116). */
  datatype Primitives = Primitives(
    pbkdf2: (seq<byte>, seq<byte>, nat) -> Material,
    hmac: (seq<byte>, seq<byte>) -> Mac,
    gcmEncrypt: (seq<byte>, seq<byte>, seq<byte>, seq<byte>) -> seq<byte>,
    gcmDecrypt: (seq<byte>, seq<byte>, seq<byte>, seq<byte>) -> Option<seq<byte>>)

  /** What AES-GCM guarantees and the round trip needs: the ciphertext is
      the data's length plus the tag, and decrypting with the same key,
      nonce and associated data gives the data back. */
  ghost predicate GcmInverts(p: Primitives) {
    forall key, nonce, data, aad ::
      && |p.gcmEncrypt(key, nonce, data, aad)| == |data| + GcmTagLen
      && p.gcmDecrypt(key, nonce, p.gcmEncrypt(key, nonce, data, aad), aad) == Some(data)
  }

  /** The exceptions the layer raises. The source raises ValueError for all
      but `IdOutOfRange`, which is the OverflowError of int.to_bytes. */
  datatype Error =
    | SaltTooShort    // client_help.py:38-39
    | IdOutOfRange    // file_id.to_bytes(3, "big") on a negative or too large id
    | BlobTooShort    // client_help.py:102-103
    | BadSignature    // client_help.py:110-111
    | DecryptFailed   // client_help.py:115-118

  datatype Result<T> = Success(value: T) | Failure(error: Error)

  /** One more than the largest id three bytes hold. */
  const IdLimit: int := 0x100_0000

  /** The value of three big-endian bytes. */
  function FromBigEndian(b: seq<byte>): (v: int)
    requires |b| == 3
  {
    (b[0] as int) * 0x1_0000 + (b[1] as int) * 0x100 + (b[2] as int)
  }

  /** file_id.to_bytes(3, "big") (client_help.py:58, 68, 89, 114): three
      bytes, most significant first, or OverflowError for an id that three
      unsigned bytes cannot hold. */
  function FileIdBytes(fileId: int): (r: Result<seq<byte>>)
    ensures r.Success? <==> 0 <= fileId < IdLimit
    ensures r.Success? ==> |r.value| == 3 && FromBigEndian(r.value) == fileId
  {
    if 0 <= fileId < IdLimit then
      Success([(fileId / 0x1_0000) as byte, (fileId / 0x100 % 0x100) as byte, (fileId % 0x100) as byte])
    else Failure(IdOutOfRange)
  }

  /** Distinct slots have distinct encodings, so the id prefix of the HMAC
      message and the associated data bind a blob to one slot. */
  lemma FileIdBytesInjective(a: int, b: int)
    requires FileIdBytes(a).Success? && FileIdBytes(b).Success?
    requires FileIdBytes(a).value == FileIdBytes(b).value
    ensures a == b
  {
  }

  /** The keys derived from a password: AES key first, HMAC key second. */
  datatype Keys = Keys(aesKey: seq<byte>, hmacKey: seq<byte>)

  /** generate_key_from_password(password, salt, iterations)
      (client_help.py:33-51). The password is taken as its UTF-8 bytes. A
      salt under 8 bytes is refused before anything is derived; otherwise
      the 64 bytes of material are split into two 32-byte keys that
      together are the whole material. */
  function GenerateKeyFromPassword(p: Primitives, password: seq<byte>, salt: seq<byte>, iterations: nat): (r: Result<Keys>)
    ensures r.Failure? <==> |salt| < MinSaltLen
    ensures r.Failure? ==> r.error == SaltTooShort
    ensures r.Success? ==>
      && |r.value.aesKey| == AesKeyLen && |r.value.hmacKey| == HmacKeyLen
      && r.value.aesKey + r.value.hmacKey == p.pbkdf2(password, salt, iterations)
  {
    if |salt| < MinSaltLen then Failure(SaltTooShort)
    else
      var material := p.pbkdf2(password, salt, iterations);
      Success(Keys(material[..AesKeyLen], material[AesKeyLen..AesKeyLen + HmacKeyLen]))
  }

  /** sign_data(hmac_key, file_id, ciphertext) (client_help.py:53-62): the
      HMAC of the id's three bytes followed by the ciphertext; two update
      calls feed the concatenation. */
  function SignData(p: Primitives, hmacKey: seq<byte>, fileId: int, ciphertext: seq<byte>): (r: Result<seq<byte>>)
    ensures r.Success? <==> 0 <= fileId < IdLimit
    ensures r.Success? ==> |r.value| == HmacLen
  {
    match FileIdBytes(fileId)
    case Failure(e) => Failure(e)
    case Success(idBytes) => Success(p.hmac(hmacKey, idBytes + ciphertext))
  }

  /** verify_signature(hmac_key, file_id, ciphertext, signature)
      (client_help.py:64-76): true exactly when the signature is the HMAC
      of the same message. Encoding the id happens outside the try block,
      so an id out of range raises rather than giving false. */
  function VerifySignature(p: Primitives, hmacKey: seq<byte>, fileId: int, ciphertext: seq<byte>,
                           signature: seq<byte>): (r: Result<bool>)
    ensures r.Success? <==> 0 <= fileId < IdLimit
  {
    match FileIdBytes(fileId)
    case Failure(e) => Failure(e)
    case Success(idBytes) => Success(p.hmac(hmacKey, idBytes + ciphertext) == signature)
  }

  /** verify_signature accepts a signature exactly when it is the one
      sign_data makes for the same key, slot and ciphertext. */
  lemma VerifyAcceptsExactlySigned(p: Primitives, hmacKey: seq<byte>, fileId: int, ciphertext: seq<byte>,
                                   signature: seq<byte>)
    requires 0 <= fileId < IdLimit
    ensures VerifySignature(p, hmacKey, fileId, ciphertext, signature) == Success(true)
        <==> SignData(p, hmacKey, fileId, ciphertext) == Success(signature)
  {
  }

  /** The four parts of a blob. */
  datatype BlobParts = BlobParts(salt: seq<byte>, nonce: seq<byte>, ciphertext: seq<byte>, signature: seq<byte>)

  /** The parts carry the lengths the layout fixes, and a ciphertext of at
      least one byte. */
  predicate WellSized(x: BlobParts) {
    |x.salt| == SaltLen && |x.nonce| == GcmNonceLen && |x.signature| == HmacLen && |x.ciphertext| >= 1
  }

  /** The blob encrypt_data returns (client_help.py:92). */
  function Frame(x: BlobParts): (blob: seq<byte>)
    ensures |blob| == |x.salt| + |x.nonce| + |x.ciphertext| + |x.signature|
  {
    x.salt + x.nonce + x.ciphertext + x.signature
  }

  /** The length check and the fixed-offset slicing of decrypt_data
      (client_help.py:102-107): salt first, nonce next, the signature the
      last 32 bytes, the ciphertext whatever lies between. */
  function ParseBlob(blob: seq<byte>): (r: Option<BlobParts>)
    ensures r.None? <==> |blob| < MinBlobLen
    ensures r.Some? ==> WellSized(r.value)
  {
    if |blob| < MinBlobLen then None
    else
      var sigStart := |blob| - HmacLen;
      Some(BlobParts(blob[..SaltLen], blob[SaltLen..SaltLen + GcmNonceLen],
                     blob[SaltLen + GcmNonceLen..sigStart], blob[sigStart..]))
  }

  /** Parsing inverts framing on well-sized parts. */
  lemma ParseFrame(x: BlobParts)
    requires WellSized(x)
    ensures ParseBlob(Frame(x)) == Some(x)
  {
    var blob := Frame(x);
    var sigStart := |blob| - HmacLen;
    assert blob[..SaltLen] == x.salt;
    assert blob[SaltLen..SaltLen + GcmNonceLen] == x.nonce;
    assert blob[SaltLen + GcmNonceLen..sigStart] == x.ciphertext;
    assert blob[sigStart..] == x.signature;
  }

  /** Framing inverts parsing: the parts always make up the whole blob. */
  lemma FrameParse(blob: seq<byte>)
    requires ParseBlob(blob).Some?
    ensures Frame(ParseBlob(blob).value) == blob
  {
  }

  /** encrypt_data(password, file_id, data) (client_help.py:78-93), with the
      salt and the nonce that os.urandom draws (lines 85, 87) as
      parameters. The blob parses back into that salt, that nonce, the
      AES-GCM ciphertext of the data under the slot's id and the signature
      over it, and is 60 bytes longer than the ciphertext. */
  function EncryptData(p: Primitives, password: seq<byte>, fileId: int, data: seq<byte>,
                       salt: seq<byte>, nonce: seq<byte>): (r: Result<seq<byte>>)
    requires |salt| == SaltLen && |nonce| == GcmNonceLen
    ensures r.Success? <==> 0 <= fileId < IdLimit
    ensures r.Success? ==>
      var keys := GenerateKeyFromPassword(p, password, salt, KdfIters).value;
      var ct := p.gcmEncrypt(keys.aesKey, nonce, data, FileIdBytes(fileId).value);
      && |r.value| == SaltLen + GcmNonceLen + |ct| + HmacLen
      && r.value[..SaltLen] == salt
      && r.value[SaltLen..SaltLen + GcmNonceLen] == nonce
      && r.value[SaltLen + GcmNonceLen..|r.value| - HmacLen] == ct
      && SignData(p, keys.hmacKey, fileId, ct) == Success(r.value[|r.value| - HmacLen..])
  {
    match GenerateKeyFromPassword(p, password, salt, KdfIters)
    case Failure(e) => Failure(e)
    case Success(keys) =>
      match FileIdBytes(fileId)
      case Failure(e) => Failure(e)
      case Success(associatedData) =>
        var ct := p.gcmEncrypt(keys.aesKey, nonce, data, associatedData);
        match SignData(p, keys.hmacKey, fileId, ct)
        case Failure(e) => Failure(e)
        case Success(signature) =>
          var x := BlobParts(salt, nonce, ct, signature);
          var blob := Frame(x);
          assert blob[..SaltLen] == salt;
          assert blob[SaltLen..SaltLen + GcmNonceLen] == nonce;
          assert blob[SaltLen + GcmNonceLen..|blob| - HmacLen] == ct;
          assert blob[|blob| - HmacLen..] == signature;
          Success(blob)
  }

  /** decrypt_data(password, file_id, blob) (client_help.py:95-119): parse,
      re-derive the keys from the blob's salt, check the HMAC and only then
      decrypt. Data is returned only when the signature is the HMAC of the
      slot id and the ciphertext under the derived key and AES-GCM accepts
      the ciphertext; every failure is an error, never partial data. */
  function DecryptData(p: Primitives, password: seq<byte>, fileId: int, blob: seq<byte>): (r: Result<seq<byte>>)
    ensures |blob| < MinBlobLen ==> r == Failure(BlobTooShort)
    ensures r.Success? ==>
      var x := ParseBlob(blob).value;
      var keys := GenerateKeyFromPassword(p, password, x.salt, KdfIters).value;
      && VerifySignature(p, keys.hmacKey, fileId, x.ciphertext, x.signature) == Success(true)
      && p.gcmDecrypt(keys.aesKey, x.nonce, x.ciphertext, FileIdBytes(fileId).value) == Some(r.value)
  {
    match ParseBlob(blob)
    case None => Failure(BlobTooShort)
    case Some(x) =>
      match GenerateKeyFromPassword(p, password, x.salt, KdfIters)
      case Failure(e) => Failure(e)
      case Success(keys) =>
        match VerifySignature(p, keys.hmacKey, fileId, x.ciphertext, x.signature)
        case Failure(e) => Failure(e)
        case Success(ok) =>
          if !ok then Failure(BadSignature)
          else
            match FileIdBytes(fileId)
            case Failure(e) => Failure(e)
            case Success(associatedData) =>
              match p.gcmDecrypt(keys.aesKey, x.nonce, x.ciphertext, associatedData)
              case None => Failure(DecryptFailed)
              case Some(data) => Success(data)
  }

  /** A blob whose signature is not the HMAC of the slot id and its
      ciphertext is refused before AES-GCM is called, whatever the
      decryption would give (client_help.py:110-111). */
  lemma BadSignatureRefused(p: Primitives, password: seq<byte>, fileId: int, blob: seq<byte>)
    requires ParseBlob(blob).Some? && 0 <= fileId < IdLimit
    requires
      var x := ParseBlob(blob).value;
      var keys := GenerateKeyFromPassword(p, password, x.salt, KdfIters).value;
      SignData(p, keys.hmacKey, fileId, x.ciphertext) != Success(x.signature)
    ensures DecryptData(p, password, fileId, blob) == Failure(BadSignature)
  {
  }

  /** Round trip (client_help.py:127-131): decrypting for the same slot and
      password what encrypt_data produced gives the data back, whatever
      salt and nonce were drawn. */
  lemma RoundTrip(p: Primitives, password: seq<byte>, fileId: int, data: seq<byte>,
                  salt: seq<byte>, nonce: seq<byte>)
    requires GcmInverts(p)
    requires |salt| == SaltLen && |nonce| == GcmNonceLen && 0 <= fileId < IdLimit
    ensures EncryptData(p, password, fileId, data, salt, nonce).Success?
    ensures DecryptData(p, password, fileId, EncryptData(p, password, fileId, data, salt, nonce).value)
         == Success(data)
  {
  }

  /** A blob made for one slot and handed back for another is refused
      unless the returned messages, which differ, have the same HMAC under
      the blob's key: the signed message starts with the slot id. */
  lemma WrongSlotNeedsMacCollision(p: Primitives, password: seq<byte>, fileId: int, otherId: int,
                                   data: seq<byte>, salt: seq<byte>, nonce: seq<byte>)
    returns (key: seq<byte>, m1: seq<byte>, m2: seq<byte>)
    requires |salt| == SaltLen && |nonce| == GcmNonceLen
    requires 0 <= fileId < IdLimit && 0 <= otherId < IdLimit && fileId != otherId
    ensures EncryptData(p, password, fileId, data, salt, nonce).Success?
    ensures || DecryptData(p, password, otherId, EncryptData(p, password, fileId, data, salt, nonce).value).Failure?
            || (m1 != m2 && p.hmac(key, m1) == p.hmac(key, m2))
  {
    var keys := GenerateKeyFromPassword(p, password, salt, KdfIters).value;
    var aad := FileIdBytes(fileId).value;
    var otherAad := FileIdBytes(otherId).value;
    var ct := p.gcmEncrypt(keys.aesKey, nonce, data, aad);
    var x := BlobParts(salt, nonce, ct, p.hmac(keys.hmacKey, aad + ct));
    key, m1, m2 := keys.hmacKey, aad + ct, otherAad + ct;
    if |ct| >= 1 {
      ParseFrame(x);
    }
    assert EncryptData(p, password, fileId, data, salt, nonce) == Success(Frame(x));
    if aad == otherAad {
      FileIdBytesInjective(fileId, otherId);
    }
    assert m1[..3] == aad && m2[..3] == otherAad;
  }
}
