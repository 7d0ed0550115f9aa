/** Note and export encryption (src/lib/crypto.ts): vault key and vault id
    generation, `encrypt`/`decrypt` under a vault key and
    `encryptWithPassword`/`decryptWithPassword` under an export password.

    Every blob is the unpadded base64url text of `salt(16) || iv(12) || ciphertext`.
    WebCrypto (PBKDF2, AES-GCM), `TextEncoder` and `TextDecoder` are not
    interpreted: they are the fields of a `Primitives` value, and the only thing
    assumed of them is `Sound`: decryption under the same key and IV inverts
    encryption, and UTF-8 decoding inverts UTF-8 encoding except that it drops a
    leading byte-order mark (U+FEFF), as `new TextDecoder()` does by default.
    The random salt, IV and key bytes are parameters. */
module Crypto {
  import opened Wrappers
  import opened Base64Url

  const SaltLength: nat := 16
  const IvLength: nat := 12
  /** Offset of the ciphertext in a combined buffer. */
  const HeaderLength: nat := SaltLength + IvLength
  const VaultKeyBytes: nat := 32
  const VaultIdBytes: nat := 16

  /** A derived AES-256-GCM key (PBKDF2, SHA-256, 100000 iterations); opaque here. */
  type AesKey = seq<byte>

  datatype Primitives = Primitives(
    /** `new TextEncoder().encode`: UTF-8. */
    textEncode: string -> seq<byte>,
    /** `new TextDecoder().decode`: UTF-8, never throws. */
    textDecode: seq<byte> -> string,
    /** `importKey('raw', material, 'PBKDF2')` then `deriveKey` with the salt. */
    pbkdf2: (seq<byte>, seq<byte>) -> AesKey,
    /** `crypto.subtle.encrypt({name: 'AES-GCM', iv}, key, data)`: ciphertext and tag. */
    seal: (AesKey, seq<byte>, seq<byte>) -> seq<byte>,
    /** `crypto.subtle.decrypt`: `None` when the tag does not authenticate. */
    open: (AesKey, seq<byte>, seq<byte>) -> Option<seq<byte>>)

  /** The byte-order mark that a default `TextDecoder` strips from the front. */
  const Bom: char := '\U{FEFF}'

  /** The text without one leading byte-order mark. */
  function StripBom(s: string): (r: string)
    ensures s != [] && s[0] == Bom ==> r == s[1..]
    ensures s == [] || s[0] != Bom ==> r == s
  {
    if s != [] && s[0] == Bom then s[1..] else s
  }

  /** The only assumption made about the primitives: AES-GCM opening inverts
      sealing, and decoding the UTF-8 of a text gives the text back, less a
      leading byte-order mark (`ignoreBOM` is false by default). */
  ghost predicate Sound(p: Primitives) {
    && (forall s :: p.textDecode(p.textEncode(s)) == StripBom(s))
    && (forall k, iv, m :: p.open(k, iv, p.seal(k, iv, m)) == Some(m))
  }

  /** Why an operation throws: `atob` rejects the blob, `atob` rejects the vault
      key inside `deriveKey`, or AES-GCM rejects the tag. */
  datatype CryptoError = MalformedBlob | MalformedVaultKey | AuthenticationFailed

  // ---------------------------------------------------------------------
  // Framing
  // ---------------------------------------------------------------------

  /** The combined buffer `salt || iv || ciphertext`. */
  function Frame(salt: seq<byte>, iv: seq<byte>, ciphertext: seq<byte>): (c: seq<byte>)
    requires |salt| == SaltLength && |iv| == IvLength
    ensures |c| == HeaderLength + |ciphertext|
    ensures c[..SaltLength] == salt
    ensures c[SaltLength..HeaderLength] == iv
    ensures c[HeaderLength..] == ciphertext
  {
    salt + iv + ciphertext
  }

  datatype Parts = Parts(salt: seq<byte>, iv: seq<byte>, ciphertext: seq<byte>)

  function Min(a: nat, b: nat): nat { if a <= b then a else b }

  /** `slice(0, 16)`, `slice(16, 28)`, `slice(28)`: typed-array slices clamp to
      the buffer, so a short buffer gives short (or empty) parts and no error. */
  function Unframe(c: seq<byte>): (p: Parts)
    ensures p.salt + p.iv + p.ciphertext == c
    ensures |c| >= HeaderLength ==> |p.salt| == SaltLength && |p.iv| == IvLength
    ensures |c| < HeaderLength ==> p.ciphertext == []
  {
    var n := |c|;
    Parts(c[..Min(SaltLength, n)], c[Min(SaltLength, n)..Min(HeaderLength, n)], c[Min(HeaderLength, n)..])
  }

  /** Splitting a combined buffer at the fixed offsets gives back exactly its parts. */
  lemma FramingRoundTrip(salt: seq<byte>, iv: seq<byte>, ciphertext: seq<byte>)
    requires |salt| == SaltLength && |iv| == IvLength
    ensures Unframe(Frame(salt, iv, ciphertext)) == Parts(salt, iv, ciphertext)
  {
  }

  /** `combined.set(src, offset)`: copies `src` into `dst` from `offset` on. */
  method SetAt(dst: array<byte>, src: seq<byte>, offset: nat)
    requires offset + |src| <= dst.Length
    modifies dst
    ensures dst[..] == old(dst[..offset]) + src + old(dst[offset + |src|..])
  {
    for i := 0 to |src|
      invariant forall k :: 0 <= k < offset ==> dst[k] == old(dst[k])
      invariant forall k :: 0 <= k < i ==> dst[offset + k] == src[k]
      invariant forall k :: offset + |src| <= k < dst.Length ==> dst[k] == old(dst[k])
    {
      dst[offset + i] := src[i];
    }
    assert dst[..] == old(dst[..offset]) + src + old(dst[offset + |src|..]);
  }

  /** Lines 52-55 / 136-139: allocate `salt.length + iv.length + ciphertext.byteLength`
      bytes and `set` the three parts at offsets 0, 16 and 28. */
  method Combine(salt: seq<byte>, iv: seq<byte>, ciphertext: seq<byte>) returns (combined: array<byte>)
    requires |salt| == SaltLength && |iv| == IvLength
    ensures combined[..] == Frame(salt, iv, ciphertext)
  {
    combined := new byte[|salt| + |iv| + |ciphertext|];
    SetAt(combined, salt, 0);
    SetAt(combined, iv, |salt|);
    SetAt(combined, ciphertext, |salt| + |iv|);
  }

  // ---------------------------------------------------------------------
  // Key derivation and the blob functions
  // ---------------------------------------------------------------------

  /** `deriveKey`: the vault key text is base64url-decoded to the PBKDF2 input,
      and that decoding may throw. */
  function DeriveKey(p: Primitives, vaultKey: string, salt: seq<byte>): (r: Result<AesKey, CryptoError>)
    ensures r.Failure? <==> Decode(vaultKey).None?
    ensures r.Failure? ==> r.error == MalformedVaultKey
  {
    match Decode(vaultKey)
    case None => Failure(MalformedVaultKey)
    case Some(material) => Success(p.pbkdf2(material, salt))
  }

  /** `deriveKeyFromPassword`: the password's UTF-8 bytes are the PBKDF2 input, in
      the same derivation `deriveKey` applies to a decoded vault key; it cannot fail. */
  function DeriveKeyFromPassword(p: Primitives, password: string, salt: seq<byte>): (k: AesKey)
    ensures forall vaultKey :: Decode(vaultKey) == Some(p.textEncode(password)) ==> DeriveKey(p, vaultKey, salt) == Success(k)
  {
    p.pbkdf2(p.textEncode(password), salt)
  }

  /** The blob for `plaintext` under the key derived with `salt`. */
  function SealBlob(p: Primitives, key: AesKey, plaintext: string, salt: seq<byte>, iv: seq<byte>): (blob: string)
    requires |salt| == SaltLength && |iv| == IvLength
    ensures Decode(blob) == Some(Frame(salt, iv, p.seal(key, iv, p.textEncode(plaintext))))
    ensures |blob| == (4 * (HeaderLength + |p.seal(key, iv, p.textEncode(plaintext))|) + 2) / 3
  {
    var combined := Frame(salt, iv, p.seal(key, iv, p.textEncode(plaintext)));
    DecodeEncode(combined);
    Encode(combined)
  }

  /** AES-GCM decryption of the parts of a combined buffer, then UTF-8 decoding. */
  function OpenParts(p: Primitives, key: AesKey, parts: Parts): Result<string, CryptoError>
  {
    match p.open(key, parts.iv, parts.ciphertext)
    case None => Failure(AuthenticationFailed)
    case Some(m) => Success(p.textDecode(m))
  }

  /** What `encrypt(plaintext, vaultKey)` returns for the given random salt and IV. */
  function EncryptResult(p: Primitives, plaintext: string, vaultKey: string, salt: seq<byte>, iv: seq<byte>)
    : (r: Result<string, CryptoError>)
    requires |salt| == SaltLength && |iv| == IvLength
    ensures r.Failure? <==> Decode(vaultKey).None?
  {
    match DeriveKey(p, vaultKey, salt)
    case Failure(e) => Failure(e)
    case Success(key) => Success(SealBlob(p, key, plaintext, salt, iv))
  }

  /** What `decrypt(blob, vaultKey)` returns: the blob is decoded first, the
      vault key inside `deriveKey` second, and AES-GCM decides the rest. */
  function DecryptResult(p: Primitives, blob: string, vaultKey: string): (r: Result<string, CryptoError>)
    ensures Decode(blob).None? ==> r == Failure(MalformedBlob)
    ensures Decode(blob).Some? && Decode(vaultKey).None? ==> r == Failure(MalformedVaultKey)
  {
    match Decode(blob)
    case None => Failure(MalformedBlob)
    case Some(combined) =>
      var parts := Unframe(combined);
      match DeriveKey(p, vaultKey, parts.salt)
      case Failure(e) => Failure(e)
      case Success(key) => OpenParts(p, key, parts)
  }

  /** What `encryptWithPassword(plaintext, password)` returns; it cannot fail. */
  function EncryptWithPasswordResult(p: Primitives, plaintext: string, password: string, salt: seq<byte>, iv: seq<byte>)
    : string
    requires |salt| == SaltLength && |iv| == IvLength
  {
    SealBlob(p, DeriveKeyFromPassword(p, password, salt), plaintext, salt, iv)
  }

  /** What `decryptWithPassword(blob, password)` returns. */
  function DecryptWithPasswordResult(p: Primitives, blob: string, password: string): (r: Result<string, CryptoError>)
    ensures Decode(blob).None? ==> r == Failure(MalformedBlob)
    ensures r.Failure? ==> r.error != MalformedVaultKey
  {
    match Decode(blob)
    case None => Failure(MalformedBlob)
    case Some(combined) =>
      var parts := Unframe(combined);
      OpenParts(p, DeriveKeyFromPassword(p, password, parts.salt), parts)
  }

  // ---------------------------------------------------------------------
  // Round trips
  // ---------------------------------------------------------------------

  lemma OpenSealed(p: Primitives, key: AesKey, plaintext: string, salt: seq<byte>, iv: seq<byte>)
    requires Sound(p)
    requires |salt| == SaltLength && |iv| == IvLength
    ensures Decode(SealBlob(p, key, plaintext, salt, iv)).Some?
    ensures Unframe(Decode(SealBlob(p, key, plaintext, salt, iv)).value).salt == salt
    ensures OpenParts(p, key, Unframe(Decode(SealBlob(p, key, plaintext, salt, iv)).value)) == Success(StripBom(plaintext))
  {
    var m := p.textEncode(plaintext);
    FramingRoundTrip(salt, iv, p.seal(key, iv, m));
    assert p.open(key, iv, p.seal(key, iv, m)) == Some(m);
    assert p.textDecode(m) == StripBom(plaintext);
  }

  /** `decrypt(encrypt(p, k), k) == p`, whenever `encrypt` does not throw, up to a
      leading byte-order mark, which does not come back. */
  lemma VaultKeyRoundTrip(p: Primitives, plaintext: string, vaultKey: string, salt: seq<byte>, iv: seq<byte>)
    requires Sound(p)
    requires |salt| == SaltLength && |iv| == IvLength
    requires EncryptResult(p, plaintext, vaultKey, salt, iv).Success?
    ensures DecryptResult(p, EncryptResult(p, plaintext, vaultKey, salt, iv).value, vaultKey) == Success(StripBom(plaintext))
  {
    var key := DeriveKey(p, vaultKey, salt).value;
    OpenSealed(p, key, plaintext, salt, iv);
  }

  /** A note that starts with U+FEFF loses it on the round trip: what comes back
      is different from what was encrypted. */
  lemma BomLostOnRoundTrip(p: Primitives, rest: string, vaultKey: string, salt: seq<byte>, iv: seq<byte>)
    requires Sound(p)
    requires |salt| == SaltLength && |iv| == IvLength
    requires EncryptResult(p, [Bom] + rest, vaultKey, salt, iv).Success?
    ensures DecryptResult(p, EncryptResult(p, [Bom] + rest, vaultKey, salt, iv).value, vaultKey) == Success(rest)
    ensures rest != [Bom] + rest
  {
    VaultKeyRoundTrip(p, [Bom] + rest, vaultKey, salt, iv);
    assert ([Bom] + rest)[1..] == rest;
    assert |rest| != |[Bom] + rest|;
  }

  /** `decryptWithPassword(encryptWithPassword(p, pw), pw) == p`: the password
      variants use the same framing, and lose a leading byte-order mark too. */
  lemma PasswordRoundTrip(p: Primitives, plaintext: string, password: string, salt: seq<byte>, iv: seq<byte>)
    requires Sound(p)
    requires |salt| == SaltLength && |iv| == IvLength
    ensures DecryptWithPasswordResult(p, EncryptWithPasswordResult(p, plaintext, password, salt, iv), password)
            == Success(StripBom(plaintext))
  {
    OpenSealed(p, DeriveKeyFromPassword(p, password, salt), plaintext, salt, iv);
  }

  // ---------------------------------------------------------------------
  // `encrypt`, `decrypt`, `encryptWithPassword`, `decryptWithPassword` and the generators
  // ---------------------------------------------------------------------

  /** Shared tail of `encrypt` and `encryptWithPassword`: AES-GCM, combine, encode. */
  method SealWithKey(p: Primitives, key: AesKey, plaintext: string, salt: seq<byte>, iv: seq<byte>)
    returns (blob: string)
    requires |salt| == SaltLength && |iv| == IvLength
    ensures blob == SealBlob(p, key, plaintext, salt, iv)
  {
    var ciphertext := p.seal(key, iv, p.textEncode(plaintext));
    var combined := Combine(salt, iv, ciphertext);
    blob := ArrayBufferToBase64Url(combined);
  }

  /** Shared tail of `decrypt` and `decryptWithPassword` once the key is known. */
  method OpenWithKey(p: Primitives, key: AesKey, parts: Parts) returns (r: Result<string, CryptoError>)
    ensures r == OpenParts(p, key, parts)
  {
    var decrypted := p.open(key, parts.iv, parts.ciphertext);
    if decrypted.None? {
      return Failure(AuthenticationFailed);
    }
    r := Success(p.textDecode(decrypted.value));
  }

  /** Base64url text of `combined`, split at the fixed offsets. */
  method DecodeParts(blob: string) returns (r: Option<Parts>)
    ensures r.None? <==> Decode(blob).None?
    ensures r.Some? ==> r.value == Unframe(Decode(blob).value)
  {
    var combined := Base64UrlToArrayBuffer(blob);
    if combined.None? {
      return None;
    }
    var c := combined.value;
    var salt := c[0..Min(16, c.Length)];
    var iv := c[Min(16, c.Length)..Min(28, c.Length)];
    var ciphertext := c[Min(28, c.Length)..];
    r := Some(Parts(salt, iv, ciphertext));
  }

  method Encrypt(p: Primitives, plaintext: string, vaultKey: string, salt: seq<byte>, iv: seq<byte>)
    returns (r: Result<string, CryptoError>)
    requires |salt| == SaltLength && |iv| == IvLength
    ensures r == EncryptResult(p, plaintext, vaultKey, salt, iv)
  {
    var key := DeriveKey(p, vaultKey, salt);
    if key.Failure? {
      return Failure(key.error);
    }
    var blob := SealWithKey(p, key.value, plaintext, salt, iv);
    r := Success(blob);
  }

  method Decrypt(p: Primitives, encryptedData: string, vaultKey: string) returns (r: Result<string, CryptoError>)
    ensures r == DecryptResult(p, encryptedData, vaultKey)
  {
    var parts := DecodeParts(encryptedData);
    if parts.None? {
      return Failure(MalformedBlob);
    }
    var key := DeriveKey(p, vaultKey, parts.value.salt);
    if key.Failure? {
      return Failure(key.error);
    }
    r := OpenWithKey(p, key.value, parts.value);
  }

  method EncryptWithPassword(p: Primitives, plaintext: string, password: string, salt: seq<byte>, iv: seq<byte>)
    returns (blob: string)
    requires |salt| == SaltLength && |iv| == IvLength
    ensures blob == EncryptWithPasswordResult(p, plaintext, password, salt, iv)
  {
    var key := DeriveKeyFromPassword(p, password, salt);
    blob := SealWithKey(p, key, plaintext, salt, iv);
  }

  method DecryptWithPassword(p: Primitives, encryptedData: string, password: string)
    returns (r: Result<string, CryptoError>)
    ensures r == DecryptWithPasswordResult(p, encryptedData, password)
  {
    var parts := DecodeParts(encryptedData);
    if parts.None? {
      return Failure(MalformedBlob);
    }
    var key := DeriveKeyFromPassword(p, password, parts.value.salt);
    r := OpenWithKey(p, key, parts.value);
  }

  /** Fills a fresh buffer from the random source, as `crypto.getRandomValues` does. */
  method RandomBuffer(random: seq<byte>) returns (buffer: array<byte>)
    ensures buffer[..] == random
  {
    buffer := new byte[|random|](i requires 0 <= i < |random| => random[i]);
  }

  /** `generateVaultKey`: 32 random bytes as base64url, 43 characters long. */
  method GenerateVaultKey(random: seq<byte>) returns (vaultKey: string)
    requires |random| == VaultKeyBytes
    ensures |vaultKey| == 43
    ensures forall i :: 0 <= i < |vaultKey| ==> IsUrlChar(vaultKey[i])
    ensures Decode(vaultKey) == Some(random)
  {
    var keyBytes := RandomBuffer(random);
    vaultKey := ArrayBufferToBase64Url(keyBytes);
    DecodeEncode(random);
  }

  /** `generateVaultId`: 16 random bytes as base64url, 22 characters long. */
  method GenerateVaultId(random: seq<byte>) returns (vaultId: string)
    requires |random| == VaultIdBytes
    ensures |vaultId| == 22
    ensures forall i :: 0 <= i < |vaultId| ==> IsUrlChar(vaultId[i])
    ensures Decode(vaultId) == Some(random)
  {
    var idBytes := RandomBuffer(random);
    vaultId := ArrayBufferToBase64Url(idBytes);
    DecodeEncode(random);
  }

  /** A key made by `generateVaultKey` is accepted by `deriveKey`, so `encrypt`
      under it never throws. */
  lemma GeneratedKeyEncrypts(p: Primitives, random: seq<byte>, plaintext: string, salt: seq<byte>, iv: seq<byte>)
    requires |random| == VaultKeyBytes && |salt| == SaltLength && |iv| == IvLength
    ensures EncryptResult(p, plaintext, Encode(random), salt, iv).Success?
  {
    DecodeEncode(random);
  }
}
