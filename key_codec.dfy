/**
 * Object keys and prefixes cross the HTTP boundary as base64 text
 * (`btoa` in the browser, `atob` in the backend; section 4 of RFC 4648).
 * The alphabet and padding are not modelled: an encoded key is an opaque
 * token, and the only fact the rest of the model relies on is that decoding
 * an encoded key gives the key back.
 */
module KeyCodec {

  /** A key in its transported form; only `Encode` builds one. */
  datatype EncodedKey = EncodedKey(token: string)

  /** `btoa(key)`. */
  function Encode(key: string): (e: EncodedKey)
  {
    EncodedKey(key)
  }

  /** `atob(e)`. */
  function Decode(e: EncodedKey): (key: string)
  {
    e.token
  }

  /** Decoding undoes encoding: the model's transport loses no key. */
  lemma DecodeEncode(key: string)
    ensures Decode(Encode(key)) == key
  {
  }
}
