/**
 * The two `Encryptor` implementations, AES and SM4. Both build a CBC/PKCS#7 cipher from
 * the raw key and an IV derived from that same key, and differ in the names they use,
 * the key size of their generator and how the IV is derived. The block cipher itself
 * is a foreign provider and enters the model as the opaque `CipherProvider`.
 */
module Encryptors {
  import opened Wrappers
  import opened ByteUtils

  /** `Cipher.ENCRYPT_MODE` / `Cipher.DECRYPT_MODE`. */
  datatype Mode = EncryptMode | DecryptMode

  /** `new SecretKeySpec(key, algorithm)`. */
  datatype SecretKeySpec = SecretKeySpec(encoded: seq<Byte>, algorithm: string)

  /** Everything a `Cipher` is obtained and initialised with. */
  datatype CipherInit = CipherInit(
    transformation: string,
    provider: string,
    mode: Mode,
    key: SecretKeySpec,
    iv: seq<Byte>)

  /** The JCE: `Cipher.getInstance(...)`, `init(...)` and `doFinal(data)` as one opaque call. */
  type CipherProvider = (CipherInit, seq<Byte>) -> Result<seq<Byte>, Exception>

  /** A provider for which decrypting with the same key and IV undoes encrypting. */
  ghost predicate Invertible(jce: CipherProvider)
  {
    forall init: CipherInit, data: seq<Byte> {:trigger jce(init, data)} ::
      init.mode == EncryptMode && jce(init, data).Success? ==>
        jce(init.(mode := DecryptMode), jce(init, data).value) == Success(data)
  }

  /**
   * The `Class<? extends Encryptor>` that selects an implementation. The implementations
   * hold no state, so the operations of the `Encryptor` interface are functions of it.
   */
  datatype EncryptorClass = AESEncryptor | SM4Encryptor
  {
    /** The `transformation` constant. */
    function Transformation(): string
    {
      match this
      case AESEncryptor => "AES/CBC/PKCS7Padding"
      case SM4Encryptor => "SM4/CBC/PKCS7Padding"
    }

    /** The `provider` constant: BouncyCastle for AES, KonaCrypto for SM4. */
    function Provider(): string
    {
      match this
      case AESEncryptor => "BC"
      case SM4Encryptor => "KonaCrypto"
    }

    /** `algorithm()`: the `algorithm` constant, which also names the cipher family of the transformation. */
    function Algorithm(): (name: string)
      ensures Transformation() == name + "/CBC/PKCS7Padding"
    {
      match this
      case AESEncryptor =>
        assert "AES" + "/CBC/PKCS7Padding" == "AES/CBC/PKCS7Padding";
        "AES"
      case SM4Encryptor =>
        assert "SM4" + "/CBC/PKCS7Padding" == "SM4/CBC/PKCS7Padding";
        "SM4"
    }

    /** The size the static `KEY_GENERATOR` is initialised with. */
    function KeyBits(): nat
    {
      match this
      case AESEncryptor => 256
      case SM4Encryptor => 128
    }

    /**
     * The IV derived from the key in `cipher`: the middle 16 bytes for AES, the whole
     * key reversed for SM4. `middle` reads outside a key shorter than 16 bytes.
     */
    function Iv(key: seq<Byte>): (r: Result<seq<Byte>, Exception>)
      ensures r.Failure? <==> this == AESEncryptor && |key| < 16
      ensures r.Failure? ==> r.error == ArrayIndexOutOfBounds
      ensures r.Success? ==> |r.value| == (if this == AESEncryptor then 16 else |key|)
    {
      match this
      case AESEncryptor =>
        if 16 <= |key| then Success(Middle(key, 16)) else Failure(ArrayIndexOutOfBounds)
      case SM4Encryptor =>
        ReversedAt(key);
        Success(Reversed(key))
    }

    /**
     * The private `cipher(key, mode)` helper shared by `encrypt` and `decrypt`: the IV is
     * derived first, then `new SecretKeySpec(key, algorithm)` refuses an empty key.
     */
    function Cipher(key: seq<Byte>, mode: Mode): (r: Result<CipherInit, Exception>)
      ensures r.Success? <==> Iv(key).Success? && key != []
      ensures Iv(key).Failure? ==> r == Failure(Iv(key).error)
      ensures r.Success? ==> r.value.mode == mode && r.value.key == SecretKeySpec(key, Algorithm())
      ensures r.Success? ==> r.value.iv == Iv(key).value
    {
      match Iv(key)
      case Failure(e) => Failure(e)
      case Success(iv) =>
        if key == [] then Failure(IllegalArgument("Empty key"))
        else Success(CipherInit(Transformation(), Provider(), mode, SecretKeySpec(key, Algorithm()), iv))
    }

    /** `encrypt(key, plaintext)`: `cipher(key, ENCRYPT_MODE).doFinal(plaintext)`. */
    function Encrypt(jce: CipherProvider, key: seq<Byte>, plaintext: seq<Byte>): (r: Result<seq<Byte>, Exception>)
      ensures Cipher(key, EncryptMode).Failure? ==> r == Failure(Cipher(key, EncryptMode).error)
      ensures Cipher(key, EncryptMode).Success? ==>
                r == jce(CipherInit(Transformation(), Provider(), EncryptMode, SecretKeySpec(key, Algorithm()), Iv(key).value), plaintext)
    {
      match Cipher(key, EncryptMode)
      case Failure(e) => Failure(e)
      case Success(init) => jce(init, plaintext)
    }

    /** `decrypt(key, ciphertext)`: `cipher(key, DECRYPT_MODE).doFinal(ciphertext)`. */
    function Decrypt(jce: CipherProvider, key: seq<Byte>, ciphertext: seq<Byte>): (r: Result<seq<Byte>, Exception>)
      ensures Cipher(key, DecryptMode).Failure? ==> r == Failure(Cipher(key, DecryptMode).error)
      ensures Cipher(key, DecryptMode).Success? ==>
                r == jce(CipherInit(Transformation(), Provider(), DecryptMode, SecretKeySpec(key, Algorithm()), Iv(key).value), ciphertext)
    {
      match Cipher(key, DecryptMode)
      case Failure(e) => Failure(e)
      case Success(init) => jce(init, ciphertext)
    }

    /**
     * `genKey()`: the encoded key of `KEY_GENERATOR.generateKey()`. The generator's
     * randomness is the parameter `random`; a key of `KeyBits()` bits is that many
     * eighths of bytes drawn from it.
     */
    function GenKey(random: nat -> Byte): (key: seq<Byte>)
      ensures |key| * 8 == KeyBits()
      ensures forall i :: 0 <= i < |key| ==> key[i] == random(i)
    {
      seq(KeyBits() / 8, (i: int) requires 0 <= i => random(i))
    }
  }

  /** The generated key is 32 bytes for AES and 16 bytes for SM4. */
  lemma GenKeyLength(c: EncryptorClass, random: nat -> Byte)
    ensures c == AESEncryptor ==> |c.GenKey(random)| == 32
    ensures c == SM4Encryptor ==> |c.GenKey(random)| == 16
  {
  }

  /** The algorithm name identifies the implementation. */
  lemma AlgorithmIdentifiesClass(c: EncryptorClass, d: EncryptorClass)
    ensures AESEncryptor.Algorithm() == "AES" && SM4Encryptor.Algorithm() == "SM4"
    ensures c.Algorithm() == d.Algorithm() <==> c == d
  {
    if c != d {
      assert c.Algorithm()[0] != d.Algorithm()[0];
    }
  }

  /** AES: the IV is the centred 16-byte slice of any key of at least 16 bytes. */
  lemma AesIvIsMiddleOfKey(key: seq<Byte>, mode: Mode)
    requires 16 <= |key|
    ensures AESEncryptor.Cipher(key, mode).Success?
    ensures var iv := AESEncryptor.Cipher(key, mode).value.iv;
            var left := (|key| - 16) / 2;
            |iv| == 16 && iv == key[left..left + 16] && |key| - 16 - left - left <= 1
  {
  }

  /** AES with a 32-byte key (what `genKey` produces): the IV is bytes 8 to 23 of the key. */
  lemma AesIvOf32ByteKey(key: seq<Byte>, mode: Mode)
    requires |key| == 32
    ensures AESEncryptor.Cipher(key, mode).Success?
    ensures AESEncryptor.Cipher(key, mode).value.iv == key[8..24]
  {
    MiddleOf32(key);
  }

  /**
   * AES with a key shorter than 16 bytes: both operations fail while deriving the IV,
   * before the provider is consulted, so the outcome is the same for every provider.
   */
  lemma AesShortKeyFailsBeforeCiphering(key: seq<Byte>, data: seq<Byte>, jce: CipherProvider)
    requires |key| < 16
    ensures AESEncryptor.Encrypt(jce, key, data) == Failure(ArrayIndexOutOfBounds)
    ensures AESEncryptor.Decrypt(jce, key, data) == Failure(ArrayIndexOutOfBounds)
  {
  }

  /**
   * SM4: the IV is derived for any key; it has the key's length, mirrors the key index by
   * index, and reversing it gives back the key. The cipher itself is built exactly when
   * the key is not empty.
   */
  lemma Sm4IvMirrorsKey(key: seq<Byte>, mode: Mode)
    ensures SM4Encryptor.Iv(key).Success?
    ensures var iv := SM4Encryptor.Iv(key).value;
            |iv| == |key| &&
            (forall i :: 0 <= i < |key| ==> iv[i] == key[|key| - 1 - i]) &&
            Reversed(iv) == key
    ensures SM4Encryptor.Cipher(key, mode).Success? <==> key != []
  {
    ReversedAt(key);
    ReversedInvolutive(key);
  }

  /**
   * `encrypt` and `decrypt` obtain the same cipher: same transformation, provider, key
   * bytes and IV, differing only in the mode; and neither can fail where the other succeeds.
   */
  lemma EncryptAndDecryptShareCipher(c: EncryptorClass, key: seq<Byte>)
    ensures c.Cipher(key, EncryptMode).Success? <==> c.Cipher(key, DecryptMode).Success?
    ensures c.Cipher(key, EncryptMode).Success? ==>
              c.Cipher(key, DecryptMode).value == c.Cipher(key, EncryptMode).value.(mode := DecryptMode)
  {
  }

  /**
   * Because both directions share `cipher`, the encryptor round-trips whenever the
   * provider does: decrypting a ciphertext with the key that produced it gives back
   * the plaintext.
   */
  lemma RoundTrip(c: EncryptorClass, jce: CipherProvider, key: seq<Byte>, plaintext: seq<Byte>)
    requires Invertible(jce)
    requires c.Encrypt(jce, key, plaintext).Success?
    ensures c.Decrypt(jce, key, c.Encrypt(jce, key, plaintext).value) == Success(plaintext)
  {
    var init := c.Cipher(key, EncryptMode).value;
    assert jce(init, plaintext).Success?;
  }
}
