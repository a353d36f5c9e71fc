/**
 * The body interceptor: an argument resolver and return-value handler that decrypts
 * request bodies before they reach the message converters and encrypts serialized
 * return values before they are written.
 */
module ResolverHandler {
  import opened Wrappers
  import opened ByteUtils
  import opened Encryptors
  import opened Properties
  import opened Headers

  /** The response header naming the algorithm of an encrypted body. */
  const ENCRYPT_HEADER: string := "X-XSRF-Body-Encrypt"

  /**
   * What the handler asks of a `MethodParameter` (a handler-method parameter or its
   * return type): whether the inherited body processor would handle it, and where the
   * `@Ignored` marker is present.
   */
  datatype MethodParameter = MethodParameter(
    baseSupportsParameter: bool,   // super.supportsParameter(parameter)
    baseSupportsReturnType: bool,  // super.supportsReturnType(returnType)
    parameterIgnored: bool,        // hasParameterAnnotation(Ignored.class)
    methodIgnored: bool)           // hasMethodAnnotation(Ignored.class)

  /** A request body with its headers, as handed to the message converters. */
  datatype HttpInputMessage = HttpInputMessage(headers: Headers, body: seq<Byte>)

  /** A Java object returned by a handler method; only its identity matters here. */
  datatype JavaObject = JavaObject(identity: nat)

  /** `ObjectMapper.writeValueAsBytes`, a foreign serializer. */
  type Serializer = JavaObject -> Result<seq<Byte>, Exception>

  /** How `handleReturnValue` ends. */
  datatype ReturnOutcome =
    | DelegatedToParent             // super.handleReturnValue(...)
    | Written(body: seq<Byte>)      // writeWithMessageConverters(encrypt, ...)
    | Raised(error: Exception)      // an exception propagates to the caller

  /**
   * The message the request path hands downstream: the body is the decrypted raw body,
   * Content-Length is the decrypted length and every other header is as received.
   * A decryption failure is propagated as it is.
   */
  function DecryptedMessage(c: EncryptorClass, jce: CipherProvider, key: seq<Byte>, input: HttpInputMessage)
    : (r: Result<HttpInputMessage, Exception>)
    ensures c.Decrypt(jce, key, input.body).Failure? ==> r == Failure(c.Decrypt(jce, key, input.body).error)
    ensures c.Decrypt(jce, key, input.body).Success? ==>
              && r.Success?
              && r.value.body == c.Decrypt(jce, key, input.body).value
              && ContentLength(r.value.headers) == Some(|r.value.body|)
              && SameExcept(input.headers, r.value.headers, CONTENT_LENGTH)
  {
    match c.Decrypt(jce, key, input.body)
    case Failure(e) => Failure(e)
    case Success(decrypted) => Success(HttpInputMessage(SetContentLength(input.headers, |decrypted|), decrypted))
  }

  /**
   * The response headers on the encrypting path: the algorithm name is appended to the
   * values of `X-XSRF-Body-Encrypt`, Content-Length is the ciphertext length, and every
   * other header is as before.
   */
  function EncryptedResponseHeaders(headers: Headers, algorithm: string, ciphertextLength: nat): (r: Headers)
    ensures Values(r, ENCRYPT_HEADER) == Values(headers, ENCRYPT_HEADER) + [algorithm]
    ensures ContentLength(r) == Some(ciphertextLength)
    ensures forall k :: k != ENCRYPT_HEADER && k != CONTENT_LENGTH ==>
              (k in headers <==> k in r) && (k in headers ==> headers[k] == r[k])
  {
    var added := Add(headers, ENCRYPT_HEADER, algorithm);
    SetContentLength(added, ciphertextLength)
  }

  /** A resource or absent return value is left to the inherited handler. */
  predicate SkipsEncryption(returnValue: Option<JavaObject>, isResourceType: bool)
  {
    isResourceType || returnValue.None?
  }

  /** `ModelAndViewContainer`, reduced to the flag the handler sets. */
  class ModelAndViewContainer {
    var requestHandled: bool

    constructor ()
      ensures !requestHandled
    {
      requestHandled := false;
    }
  }

  /** The servlet response, reduced to its headers. */
  class ServletServerHttpResponse {
    var headers: Headers

    constructor (headers: Headers)
      ensures this.headers == headers
    {
      this.headers := headers;
    }
  }

  class EncryptRequestResponseResolverHandler {
    const properties: WebEncryptProperties
    const jce: CipherProvider
    const objectMapper: Serializer

    constructor (properties: WebEncryptProperties, jce: CipherProvider, objectMapper: Serializer)
      ensures this.properties == properties && this.jce == jce && this.objectMapper == objectMapper
    {
      this.properties := properties;
      this.jce := jce;
      this.objectMapper := objectMapper;
    }

    /** `supportsParameter`: a body parameter, encryption enabled, no `@Ignored` on the parameter. */
    predicate SupportsParameter(parameter: MethodParameter): (supported: bool)
      reads properties
      ensures supported ==> parameter.baseSupportsParameter && properties.enable
      ensures parameter.parameterIgnored ==> !supported
      ensures parameter.baseSupportsParameter && properties.enable && !parameter.parameterIgnored ==> supported
    {
      parameter.baseSupportsParameter && properties.enable && !parameter.parameterIgnored
    }

    /** `supportsReturnType`: a body return type, encryption enabled, no `@Ignored` on the method. */
    predicate SupportsReturnType(returnType: MethodParameter): (supported: bool)
      reads properties
      ensures supported ==> returnType.baseSupportsReturnType && properties.enable
      ensures returnType.methodIgnored ==> !supported
      ensures returnType.baseSupportsReturnType && properties.enable && !returnType.methodIgnored ==> supported
    {
      returnType.baseSupportsReturnType && properties.enable && !returnType.methodIgnored
    }

    /**
     * `readWithMessageConverters`: obtains the key, looks up the encryptor and returns the
     * message handed on to the inherited converter chain. A key-extraction failure
     * propagates before the encryptor cache is consulted.
     */
    method ReadWithMessageConverters(input: HttpInputMessage, key: Result<seq<Byte>, Exception>)
      returns (r: Result<HttpInputMessage, Exception>)
      requires properties.Valid()
      modifies properties`encryptorMap
      ensures properties.Valid()
      ensures key.Failure? ==> r == Failure(key.error) && properties.encryptorMap == old(properties.encryptorMap)
      ensures key.Success? ==>
                && properties.encryptor in properties.encryptorMap
                && properties.encryptorMap == old(properties.encryptorMap)[properties.encryptor := properties.encryptorMap[properties.encryptor]]
                && (old(properties.encryptor in properties.encryptorMap) ==> properties.encryptorMap == old(properties.encryptorMap))
                && r == DecryptedMessage(properties.encryptor, jce, key.value, input)
    {
      if key.Failure? {
        return Failure(key.error);
      }
      var body := input.body;
      var encryptor := properties.Encryptor();
      r := DecryptedMessage(encryptor.impl, jce, key.value, HttpInputMessage(input.headers, body));
    }

    /**
     * `handleReturnValue`: a resource or absent value goes to the inherited handler.
     * Otherwise the request is marked handled, and the key, the serialized value, the
     * encryptor and the ciphertext are obtained in that order, any failure propagating;
     * on success the algorithm header and Content-Length are set and the ciphertext is
     * written.
     */
    method HandleReturnValue(
      returnValue: Option<JavaObject>, isResourceType: bool,
      mavContainer: ModelAndViewContainer, response: ServletServerHttpResponse,
      key: Result<seq<Byte>, Exception>)
      returns (outcome: ReturnOutcome)
      requires properties.Valid()
      modifies mavContainer, response, properties`encryptorMap
      ensures properties.Valid()
      ensures SkipsEncryption(returnValue, isResourceType) ==>
                && outcome == DelegatedToParent
                && unchanged(mavContainer, response)
                && properties.encryptorMap == old(properties.encryptorMap)
      ensures !SkipsEncryption(returnValue, isResourceType) ==> mavContainer.requestHandled
      ensures !SkipsEncryption(returnValue, isResourceType) && key.Failure? ==>
                && outcome == Raised(key.error)
                && unchanged(response)
                && properties.encryptorMap == old(properties.encryptorMap)
      ensures !SkipsEncryption(returnValue, isResourceType) && key.Success? &&
              objectMapper(returnValue.value).Failure? ==>
                && outcome == Raised(objectMapper(returnValue.value).error)
                && unchanged(response)
                && properties.encryptorMap == old(properties.encryptorMap)
      ensures !SkipsEncryption(returnValue, isResourceType) && key.Success? &&
              objectMapper(returnValue.value).Success? ==>
                && properties.encryptor in properties.encryptorMap
                && properties.encryptorMap == old(properties.encryptorMap)[properties.encryptor := properties.encryptorMap[properties.encryptor]]
                && (old(properties.encryptor in properties.encryptorMap) ==> properties.encryptorMap == old(properties.encryptorMap))
                && var encrypted := properties.encryptor.Encrypt(jce, key.value, objectMapper(returnValue.value).value);
                   if encrypted.Failure? then
                     outcome == Raised(encrypted.error) && unchanged(response)
                   else
                     && outcome == Written(encrypted.value)
                     && response.headers == EncryptedResponseHeaders(
                          old(response.headers), properties.encryptor.Algorithm(), |encrypted.value|)
    {
      if SkipsEncryption(returnValue, isResourceType) {
        return DelegatedToParent;
      }
      mavContainer.requestHandled := true;
      if key.Failure? {
        return Raised(key.error);
      }
      var body := objectMapper(returnValue.value);
      if body.Failure? {
        return Raised(body.error);
      }
      var encryptor := properties.Encryptor();
      var encrypt := encryptor.impl.Encrypt(jce, key.value, body.value);
      if encrypt.Failure? {
        return Raised(encrypt.error);
      }
      response.headers := Add(response.headers, ENCRYPT_HEADER, encryptor.impl.Algorithm());
      response.headers := SetContentLength(response.headers, |encrypt.value|);
      outcome := Written(encrypt.value);
    }
  }

  /**
   * With encryption enabled, the handler claims exactly the unmarked parameters and return
   * types that the inherited body processor supports.
   */
  lemma EnabledClaimsUnmarked(handler: EncryptRequestResponseResolverHandler, p: MethodParameter)
    requires handler.properties.enable
    ensures handler.SupportsParameter(p) <==> p.baseSupportsParameter && !p.parameterIgnored
    ensures handler.SupportsReturnType(p) <==> p.baseSupportsReturnType && !p.methodIgnored
  {
  }

  /** With encryption disabled the handler claims no parameter and no return type. */
  lemma DisabledClaimsNothing(handler: EncryptRequestResponseResolverHandler, p: MethodParameter)
    requires !handler.properties.enable
    ensures !handler.SupportsParameter(p) && !handler.SupportsReturnType(p)
  {
  }

  /**
   * Each marker governs one direction only: `@Ignored` on a parameter does not stop the
   * response being encrypted, and `@Ignored` on the method does not stop the request body
   * being decrypted.
   */
  lemma MarkersAreDirectional(handler: EncryptRequestResponseResolverHandler, p: MethodParameter)
    ensures handler.SupportsParameter(p) == handler.SupportsParameter(p.(methodIgnored := !p.methodIgnored))
    ensures handler.SupportsReturnType(p) == handler.SupportsReturnType(p.(parameterIgnored := !p.parameterIgnored))
    ensures p.parameterIgnored ==> !handler.SupportsParameter(p)
    ensures p.methodIgnored ==> !handler.SupportsReturnType(p)
  {
  }

  /**
   * End to end: the body sent downstream on the request path is the plaintext whenever
   * the client encrypted it with the same encryptor and key and the provider inverts itself.
   */
  lemma RequestPathRecoversPlaintext(
    c: EncryptorClass, jce: CipherProvider, key: seq<Byte>, plaintext: seq<Byte>, headers: Headers)
    requires Invertible(jce)
    requires c.Encrypt(jce, key, plaintext).Success?
    ensures var r := DecryptedMessage(c, jce, key, HttpInputMessage(headers, c.Encrypt(jce, key, plaintext).value));
            r.Success? && r.value.body == plaintext && ContentLength(r.value.headers) == Some(|plaintext|)
  {
    RoundTrip(c, jce, key, plaintext);
  }
}
