# Encrypted request/response bodies: a verified model

This project models the core of a Spring Boot starter that decrypts request bodies and
encrypts response bodies. It covers six pieces:

- the two byte helpers used to derive an IV (`middle`, `reverse`);
- the two `Encryptor` implementations, AES and SM4. For each one it models the names it
  uses, the size of its generated key, and how it derives the IV from the key;
- the `WebEncryptProperties` policy object: the enable flag, the selected encryptor
  class, and the per-class instance cache;
- the gatekeeping predicates of the body handler and its two paths. The request path
  decrypts the body and rewrites Content-Length. The response path serializes, encrypts,
  tags the algorithm and sets Content-Length;
- the list splicing that registers the handler in front of each default body processor;
- the de-duplicating merge of body-advice lists.

Modules: `ByteUtils` (byte_utils.dfy), `Encryptors` (encryptors.dfy), `Properties`
(web_encrypt_properties.dfy), `Headers` (http_headers.dfy), `ResolverHandler`
(resolver_handler.dfy) and `WebEncryptConfig` (web_encrypt_config.dfy). `Wrappers`
(wrappers.dfy) holds the `Result`/`Option` types and the `Exception` values that stand
for Java exceptions.

How the Java pieces are represented:

- A Java `byte` is the signed newtype `Byte`.
- `middle` and `reverse` are methods on arrays. Each is proved equal to a specification
  function on sequences (`Middle`, `Reversed`).
- The `Encryptor` interface and its two implementations become the closed datatype
  `EncryptorClass`. Its value is the `Class<? extends Encryptor>` that the properties
  select. Because the implementations hold no state, `encrypt`, `decrypt`, `algorithm`
  and `genKey` are functions of that value.
- An object created by `BeanUtils.instantiateClass` is an `EncryptorInstance`. Reference
  equality on it models "the identical cached instance".
- The JCE cipher (`Cipher.getInstance`, `init`, `doFinal`) is the opaque parameter
  `CipherProvider`. It receives a `CipherInit` record holding the transformation, the
  provider name, the mode, the key spec and the IV. What is verified is therefore which
  IV, which key and which names are used. No cipher is implemented. The round trip is
  proved only relative to the predicate `Invertible` on the provider.
- The key-extraction collaborator and Jackson's `ObjectMapper` are external. The key
  arrives as a `Result` parameter, which is the outcome of calling `key()`. The
  serializer is a function-typed field of the handler.
- `HttpHeaders` is a map from header name to its list of values.
- The inherited converter chain is not modelled. The request path returns the message it
  hands to that chain. The response path returns the payload it hands to
  `writeWithMessageConverters`, or `DelegatedToParent`.

Some behaviour of the code is easy to misread, and the model follows the code:

- The `@Ignored` marker only works in one direction per site. `supportsParameter` checks
  the marker on the parameter. `supportsReturnType` checks it on the method. A
  method-level `@Ignored` therefore does not stop request decryption, and a
  parameter-level one does not stop response encryption (`MarkersAreDirectional`).
- An AES key is refused by the code itself only when it is shorter than 16 bytes. In
  that case `middle` reads outside the key. Every other key length is passed to the
  provider, which may or may not accept it.
- An empty key is refused by `new SecretKeySpec` before the cipher is initialised. For
  SM4 this is the only key the code itself refuses.
- On the response path, `requestHandled` is set before the key is obtained. A failing key
  extraction therefore leaves the request marked as handled.
- Key extraction happens before the encryptor lookup on both paths. A failing key
  extraction leaves the encryptor cache untouched.

## Model

| member | source | states |
|---|---|---|
| `ByteUtils.MiddleArray` | src/main/java/com/github/codert96/web/utils/ByteUtils.java:8-13 | returns a freshly allocated array holding `Middle(input, length)`: exactly `length` bytes starting at `(|input| - length) / 2`; the input is not modified; requires `length <= |input|` |
| `ByteUtils.MiddleIsCentred` | src/main/java/com/github/codert96/web/utils/ByteUtils.java:9-11 | the middle slice has `length` bytes; the bytes dropped on the right equal those dropped on the left, or one more when the surplus is odd |
| `ByteUtils.MiddleOf32` | src/main/java/com/github/codert96/web/utils/ByteUtils.java:9-11 | for a 32-byte input, `middle(input, 16)` is `input[8..24)`, i.e. element i is `input[8 + i]` |
| `ByteUtils.ReverseArray` | src/main/java/com/github/codert96/web/utils/ByteUtils.java:15-22 | returns a freshly allocated array equal to `Reversed(bytes)`; the input is not modified |
| `ByteUtils.ReversedAt` | src/main/java/com/github/codert96/web/utils/ByteUtils.java:16-19 | reversal keeps the length, and element i of the result is `s[|s| - 1 - i]` |
| `ByteUtils.ReversedInvolutive` | src/main/java/com/github/codert96/web/utils/ByteUtils.java:18-19 | reversing twice gives back the original bytes |
| `ByteUtils.ReversedExample` | src/main/java/com/github/codert96/web/utils/ByteUtils.java:18-19 | `[1, 2, 3]` reverses to `[3, 2, 1]` |
| `Encryptors.EncryptorClass.Algorithm` | src/main/java/com/github/codert96/web/core/impl/AESEncryptor.java:49-51 | `algorithm()` returns the name that also heads the transformation `<name>/CBC/PKCS7Padding` |
| `Encryptors.EncryptorClass.Iv` | src/main/java/com/github/codert96/web/core/impl/AESEncryptor.java:55 | IV derivation fails, with an index-out-of-bounds error, exactly for an AES key shorter than 16 bytes; otherwise the IV has 16 bytes for AES and the key's length for SM4 |
| `Encryptors.EncryptorClass.Cipher` | src/main/java/com/github/codert96/web/core/impl/AESEncryptor.java:53-58 | the cipher is built exactly when the IV can be derived and the key is not empty; an IV failure propagates; once built, its mode is the requested one, its key is `SecretKeySpec(key, algorithm)` with the key bytes unchanged, and its IV is the derived one |
| `Encryptors.EncryptorClass.Encrypt` | src/main/java/com/github/codert96/web/core/impl/AESEncryptor.java:36-40 | a failure building the cipher propagates; otherwise the result is the provider applied to the plaintext in encrypt mode, with this class's transformation, provider, key spec and derived IV |
| `Encryptors.EncryptorClass.Decrypt` | src/main/java/com/github/codert96/web/core/impl/SM4Encryptor.java:42-46 | a failure building the cipher propagates; otherwise the result is the provider applied to the ciphertext in decrypt mode, with the same transformation, provider, key spec and IV as `encrypt` |
| `Encryptors.EncryptorClass.GenKey` | src/main/java/com/github/codert96/web/core/impl/AESEncryptor.java:62-65 | the generated key has `KeyBits()` bits and consists of bytes drawn from the generator's random source |
| `Encryptors.GenKeyLength` | src/main/java/com/github/codert96/web/core/impl/SM4Encryptor.java:30 | the AES generator (256 bits) yields 32-byte keys and the SM4 generator (128 bits) yields 16-byte keys |
| `Encryptors.AlgorithmIdentifiesClass` | src/main/java/com/github/codert96/web/core/impl/SM4Encryptor.java:19-21 | `algorithm()` is "AES" for the AES class and "SM4" for the SM4 class, and equal names mean the same class (both directions) |
| `Encryptors.AesIvIsMiddleOfKey` | src/main/java/com/github/codert96/web/core/impl/AESEncryptor.java:55-56 | for a key of at least 16 bytes, the AES cipher is built and its IV is the 16 bytes centred in the key |
| `Encryptors.AesIvOf32ByteKey` | src/main/java/com/github/codert96/web/core/impl/AESEncryptor.java:55 | for a 32-byte key, the AES IV is exactly `key[8..24)` |
| `Encryptors.AesShortKeyFailsBeforeCiphering` | src/main/java/com/github/codert96/web/core/impl/AESEncryptor.java:53-56 | with a key shorter than 16 bytes, AES `encrypt` and `decrypt` fail with an index-out-of-bounds error whatever the provider; no cipher is initialised and no data is ciphered |
| `Encryptors.Sm4IvMirrorsKey` | src/main/java/com/github/codert96/web/core/impl/SM4Encryptor.java:55-57 | the SM4 IV is derived for any key; it has the key's length, `iv[i] == key[|key| - 1 - i]`, and reversing it gives back the key; the cipher is built exactly when the key is not empty |
| `Encryptors.EncryptAndDecryptShareCipher` | src/main/java/com/github/codert96/web/core/impl/SM4Encryptor.java:36-46 | encrypt and decrypt obtain the same cipher (transformation, provider, key, IV) and differ only in mode; either both can be built or neither can |
| `Encryptors.RoundTrip` | src/main/java/com/github/codert96/web/core/impl/AESEncryptor.java:36-46 | for a provider that inverts itself under the same key and IV, decrypting the result of a successful encrypt with the same key gives back the plaintext |
| `Properties.EncryptorInstance.constructor` | src/main/java/com/github/codert96/web/bean/WebEncryptProperties.java:31 | a new instance is of the class it was instantiated from |
| `Properties.WebEncryptProperties.constructor` | src/main/java/com/github/codert96/web/bean/WebEncryptProperties.java:18-26 | defaults: `enable` false, SM4 selected, empty cache |
| `Properties.WebEncryptProperties.SetEnable` | src/main/java/com/github/codert96/web/bean/WebEncryptProperties.java:20-22 | sets the enable flag and nothing else |
| `Properties.WebEncryptProperties.SetEncryptor` | src/main/java/com/github/codert96/web/bean/WebEncryptProperties.java:24-26 | sets the selected class and nothing else |
| `Properties.WebEncryptProperties.Encryptor` | src/main/java/com/github/codert96/web/bean/WebEncryptProperties.java:29-32 | returns an instance of the selected class: the cached one if present, else a fresh one that is then cached under the selected class; no other entry, flag or selection changes; every cached instance stays of the class it is cached under |
| `Properties.SwitchAwayAndBack` | src/main/java/com/github/codert96/web/bean/WebEncryptProperties.java:31 | cache entries are never dropped: looking up, switching to another class and back, and looking up again returns the identical instance |
| `Headers.DecimalRoundTrip` | src/main/java/com/github/codert96/web/handler/EncryptRequestResponseResolverHandler.java:74 | a length rendered as a decimal header value parses back to the same length |
| `Headers.Add` | src/main/java/com/github/codert96/web/handler/EncryptRequestResponseResolverHandler.java:106 | `add` appends the value after the existing values of that header and leaves every other header unchanged |
| `Headers.SetContentLength` | src/main/java/com/github/codert96/web/handler/EncryptRequestResponseResolverHandler.java:107 | afterwards Content-Length reads back as the given length (as its single value), and every other header is unchanged |
| `ResolverHandler.DecryptedMessage` | src/main/java/com/github/codert96/web/handler/EncryptRequestResponseResolverHandler.java:72-86 | the downstream body is `decrypt(key, rawBody)`; its Content-Length is the decrypted length; every other header is as received; a decrypt failure propagates unchanged |
| `ResolverHandler.EncryptedResponseHeaders` | src/main/java/com/github/codert96/web/handler/EncryptRequestResponseResolverHandler.java:104-107 | the algorithm name is appended to `X-XSRF-Body-Encrypt`; Content-Length is the ciphertext length; every other header is unchanged |
| `ResolverHandler.EncryptRequestResponseResolverHandler.SupportsParameter` | src/main/java/com/github/codert96/web/handler/EncryptRequestResponseResolverHandler.java:53-56 | a parameter is claimed exactly when the inherited processor supports it, encryption is enabled and the parameter carries no `@Ignored` (both directions) |
| `ResolverHandler.EncryptRequestResponseResolverHandler.SupportsReturnType` | src/main/java/com/github/codert96/web/handler/EncryptRequestResponseResolverHandler.java:58-61 | a return type is claimed exactly when the inherited processor supports it, encryption is enabled and the method carries no `@Ignored` (both directions) |
| `ResolverHandler.EncryptRequestResponseResolverHandler.constructor` | src/main/java/com/github/codert96/web/handler/EncryptRequestResponseResolverHandler.java:41-50 | keeps the properties, the provider and the serializer it is given |
| `ResolverHandler.EncryptRequestResponseResolverHandler.ReadWithMessageConverters` | src/main/java/com/github/codert96/web/handler/EncryptRequestResponseResolverHandler.java:63-88 | a key-extraction failure propagates and the cache is untouched; otherwise the selected encryptor is looked up, an already cached instance staying in place and a missing one being added, and the message handed downstream is `DecryptedMessage` of the whole raw body |
| `ResolverHandler.EncryptRequestResponseResolverHandler.HandleReturnValue` | src/main/java/com/github/codert96/web/handler/EncryptRequestResponseResolverHandler.java:90-115 | a null or resource value is delegated to the parent, and this override does not mark the request handled before delegating; otherwise the request is marked handled, and key, serialization or encryption failures propagate; the encryptor lookup keeps an already cached instance; on success the ciphertext `encrypt(key, serialize(value))` is written with the algorithm header appended and Content-Length set to its length, without falling through to the parent |
| `ResolverHandler.EnabledClaimsUnmarked` | src/main/java/com/github/codert96/web/handler/EncryptRequestResponseResolverHandler.java:53-61 | with `enable` true, a parameter is claimed iff the base processor supports it and it has no parameter `@Ignored`, and a return type iff the base processor supports it and the method has no `@Ignored` |
| `ResolverHandler.DisabledClaimsNothing` | src/main/java/com/github/codert96/web/handler/EncryptRequestResponseResolverHandler.java:53-61 | with `enable` false, neither `supportsParameter` nor `supportsReturnType` holds, whatever the markers |
| `ResolverHandler.MarkersAreDirectional` | src/main/java/com/github/codert96/web/handler/EncryptRequestResponseResolverHandler.java:53-61 | a parameter `@Ignored` disables request decryption and a method `@Ignored` disables response encryption; neither marker affects the other decision |
| `ResolverHandler.RequestPathRecoversPlaintext` | src/main/java/com/github/codert96/web/handler/EncryptRequestResponseResolverHandler.java:66-87 | for an invertible provider, a body encrypted with the same encryptor and key reaches the converters as the original plaintext, with Content-Length equal to its length |
| `WebEncryptConfig.Set` | src/main/java/com/github/codert96/web/config/WebEncryptConfig.java:106-115 | the list handed to the consumer equals `Spliced(list)`, which is the handler followed by the element for each body processor and the element alone otherwise |
| `WebEncryptConfig.SplicedLength` | src/main/java/com/github/codert96/web/config/WebEncryptConfig.java:108-113 | output length = input length + number of body processors in the input |
| `WebEncryptConfig.UnsplicedSpliced` | src/main/java/com/github/codert96/web/config/WebEncryptConfig.java:108-112 | removing the inserted handlers gives back the original list in its original order |
| `WebEncryptConfig.HandlerPrecedesEveryProcessor` | src/main/java/com/github/codert96/web/config/WebEncryptConfig.java:108-111 | every body processor of the input appears in the output immediately preceded by the handler; every other element appears at its position without one |
| `WebEncryptConfig.NoProcessorNoChange` | src/main/java/com/github/codert96/web/config/WebEncryptConfig.java:108-114 | without body processors, the consumer receives a list equal to the input |
| `WebEncryptConfig.SpliceTwiceGrows` | src/main/java/com/github/codert96/web/config/WebEncryptConfig.java:109 | when the handler is itself a body processor, splicing a list that contains a processor a second time makes it longer again, so `set` is not idempotent |
| `WebEncryptConfig.NewList` | src/main/java/com/github/codert96/web/config/WebEncryptConfig.java:117-121 | the result holds exactly the elements of `first` and `second`, each once; its order is left unspecified, as a hash set's is |

## Left out

- The AES and SM4 block ciphers, CBC chaining and PKCS#7 padding are left out. They come
  from foreign providers (BouncyCastle, KonaCrypto) and are the opaque `CipherProvider`.
  Any round trip is conditional on `Invertible`, and key-size checks by the provider are
  part of that opaque call.
- The determinism of `encrypt` and `decrypt` in `(key, data)` is not a separate lemma.
  In the model it holds because they are functions of their arguments.
- `Cipher.getInstance(transformation, provider)` runs before the IV is derived. It is
  folded into `CipherProvider` and assumed to succeed once the provider is registered.
- The empty-key check of `new SecretKeySpec` is modelled. The provider's own checks of key
  and IV sizes are left to `CipherProvider`.
- Random key generation is left out. The generator's randomness is a parameter, and only
  the length of the key is modelled.
- Static provider registration (`Security.addProvider`) and the `KeyGenerator` setup in
  the static blocks are left out. They are global JVM state.
- The Spring wiring in `afterPropertiesSet` is left out: bean lookups, reflective access
  in `findRequestResponseBodyAdvice`, the loop over exception resolvers, and the
  `unmodifiableList` wrapper. Only the helpers `set` and `newList` are modelled.
- The inherited `supportsParameter`/`supportsReturnType`, `readWithMessageConverters`,
  `writeWithMessageConverters` and `handleReturnValue` are left out. They belong to the
  framework. The base checks are booleans of `MethodParameter`, and the converter chain
  and the parent handler are the points where the model stops.
- `isResourceType` is a boolean input.
- Jackson serialization, servlet request/response creation, reading the body stream,
  and debug logging with Base64 are left out, since they are I/O and library plumbing.
- Spring's `HttpHeaders` treats header names case-insensitively, and the model's header
  map does not.
- `new HttpHeaders(existing)` in Spring wraps the existing map rather than copying it.
  The model treats the request headers as a copied value, so the write-through to the
  original message is not captured.
- `ConcurrentHashMap` thread safety of the encryptor cache is left out. The cache is a
  sequential map, and concurrency is outside the model.
- `Encryptor.java` and `Ignored.java` are only declarations. The interface is the
  datatype `EncryptorClass`, and the marker is the two booleans of `MethodParameter`.
- `Properties.WebEncryptProperties.Encryptor` models `BeanUtils.instantiateClass` only
  for the two known classes. Other `Encryptor` implementations selected by configuration
  are not modelled.
