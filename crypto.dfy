/**
 * The secret cipher and token hasher (backend/src/utils/crypto.ts).
 *
 * AES-256-GCM and SHA-256 are foreign code: the cipher is an `Aead` value whose
 * behaviour is described by the hypothesis `Sound`, and SHA-256 is a function
 * to 32 bytes passed in by the caller. What is modelled exactly is what the
 * module itself does: the key-length check, hexadecimal encoding and decoding
 * as node's `Buffer` does it, and the `iv.tag.ciphertext` payload format.
 */
module Crypto {
  import opened Wrappers
  import JsString

  type Byte = b: int | 0 <= b < 256

  /** A SHA-256 digest. */
  type Digest = d: seq<Byte> | |d| == 32 witness seq(32, _ => 0)

  /** GCM nonces are drawn as 12 random bytes. */
  const IV_BYTES := 12

  /** AES-256 takes a 32-byte key; node's cipher constructors refuse any other length. */
  const KEY_BYTES := 32

  const KEY_ERROR := "MASTER_KEY must be set to 64 hex chars (32 bytes). Generate via crypto.randomBytes(32).toString('hex')"
  const INVALID_PAYLOAD := "Invalid payload"
  /** What node's `decipher.final()` throws when the tag does not verify. */
  const AUTH_FAILURE := "Unsupported state or unable to authenticate data"
  /** What `createCipheriv` and `createDecipheriv` throw for a key that is not 32 bytes. */
  const INVALID_KEY_LENGTH := "Invalid key length"

  // ---------------------------------------------------------------- hex

  predicate IsLowerHexDigit(c: char) { '0' <= c <= '9' || 'a' <= c <= 'f' }

  predicate IsLowerHex(s: string) { forall i :: 0 <= i < |s| ==> IsLowerHexDigit(s[i]) }

  /** The value of a hexadecimal digit; `Buffer.from(s, "hex")` accepts both cases. */
  function HexValue(c: char): (v: Option<int>)
    ensures v.Some? ==> 0 <= v.value < 16
    ensures IsLowerHexDigit(c) ==> v.Some?
  {
    if '0' <= c <= '9' then Some(c as int - '0' as int)
    else if 'a' <= c <= 'f' then Some(c as int - 'a' as int + 10)
    else if 'A' <= c <= 'F' then Some(c as int - 'A' as int + 10)
    else None
  }

  predicate IsHex(s: string) { forall i :: 0 <= i < |s| ==> HexValue(s[i]).Some? }

  /** The lower-case digit for a value below 16. */
  function HexDigit(n: int): (c: char)
    requires 0 <= n < 16
    ensures IsLowerHexDigit(c) && HexValue(c) == Some(n)
  {
    if n < 10 then ('0' as int + n) as char else ('a' as int + n - 10) as char
  }

  /** `buffer.toString("hex")`: two lower-case digits per byte, high nibble first. */
  function HexEncode(bytes: seq<Byte>): (h: string)
    ensures |h| == 2 * |bytes|
    ensures IsLowerHex(h)
    decreases |bytes|
  {
    if |bytes| == 0 then ""
    else [HexDigit(bytes[0] / 16), HexDigit(bytes[0] % 16)] + HexEncode(bytes[1..])
  }

  /**
   * `Buffer.from(s, "hex")`: decodes digit pairs from the front and stops,
   * without an error, at the first pair that is not hexadecimal or at a lone
   * final digit.
   */
  function HexDecode(s: string): (bytes: seq<Byte>)
    ensures |bytes| <= |s| / 2
    decreases |s|
  {
    if |s| < 2 then []
    else match (HexValue(s[0]), HexValue(s[1]))
      case (Some(hi), Some(lo)) => [hi * 16 + lo] + HexDecode(s[2..])
      case _ => []
  }

  /** Decoding undoes encoding. */
  lemma {:induction false} HexRoundTrip(bytes: seq<Byte>)
    ensures HexDecode(HexEncode(bytes)) == bytes
    decreases |bytes|
  {
    if |bytes| > 0 {
      var h := HexEncode(bytes);
      assert h[2..] == HexEncode(bytes[1..]);
      HexRoundTrip(bytes[1..]);
      assert [bytes[0]] + bytes[1..] == bytes;
    }
  }

  /** A string of an even number of hexadecimal digits decodes completely. */
  lemma {:induction false} HexDecodeComplete(s: string)
    requires IsHex(s) && |s| % 2 == 0
    ensures |HexDecode(s)| == |s| / 2
    decreases |s|
  {
    if |s| >= 2 {
      HexDecodeComplete(s[2..]);
    }
  }

  /** A string of an even number of characters that are not all hexadecimal decodes short. */
  lemma {:induction false} HexDecodeIncomplete(s: string)
    requires !IsHex(s) && |s| % 2 == 0
    ensures |HexDecode(s)| < |s| / 2
    decreases |s|
  {
    if HexValue(s[0]).Some? && HexValue(s[1]).Some? {
      assert !IsHex(s[2..]) by {
        var i :| 0 <= i < |s| && HexValue(s[i]).None?;
        assert i >= 2 && s[2..][i - 2] == s[i];
      }
      HexDecodeIncomplete(s[2..]);
    }
  }

  // ---------------------------------------------------------------- key

  /**
   * The module's load-time check of `process.env.MASTER_KEY` ("" when unset):
   * anything but exactly 64 characters aborts loading; otherwise the key is
   * the hex decoding of the variable, which is 32 bytes only when all 64
   * characters are hexadecimal digits. The check does not look at the digits.
   */
  function LoadMasterKey(masterKeyHex: string): (r: Result<seq<Byte>, string>)
    ensures r.Success? <==> |masterKeyHex| == 64
    ensures r.Failure? ==> r.error == KEY_ERROR
    ensures r.Success? ==> r.value == HexDecode(masterKeyHex)
    ensures r.Success? ==> (|r.value| == KEY_BYTES <==> IsHex(masterKeyHex))
  {
    if masterKeyHex == "" || |masterKeyHex| != 64 then Failure(KEY_ERROR)
    else
      assert |HexDecode(masterKeyHex)| == KEY_BYTES <==> IsHex(masterKeyHex) by {
        if IsHex(masterKeyHex) { HexDecodeComplete(masterKeyHex); }
        else { HexDecodeIncomplete(masterKeyHex); }
      }
      Success(HexDecode(masterKeyHex))
  }

  // ---------------------------------------------------------------- hashing

  /** `sha256Hex`: the SHA-256 digest of the input as 64 lower-case hex digits. */
  function Sha256Hex(sha256: string -> Digest, input: string): (h: string)
    ensures |h| == 64 && IsLowerHex(h)
    ensures HexDecode(h) == sha256(input)
  {
    HexRoundTrip(sha256(input));
    HexEncode(sha256(input))
  }

  // ---------------------------------------------------------------- AEAD

  datatype Sealed = Sealed(ciphertext: seq<Byte>, tag: seq<Byte>)

  /**
   * AES-256-GCM through node's `crypto`: `seal(key, iv, plaintext)` gives the
   * ciphertext of the UTF-8 bytes and the authentication tag;
   * `open(key, iv, tag, ciphertext)` gives the plaintext, or None where
   * `createDecipheriv`, `setAuthTag` or `final` would throw.
   */
  datatype Aead = Aead(
    seal: (seq<Byte>, seq<Byte>, string) -> Sealed,
    open: (seq<Byte>, seq<Byte>, seq<Byte>, seq<Byte>) -> Option<string>)

  /**
   * What the model assumes of AES-256-GCM under a 32-byte key: opening what
   * was sealed under the same key and iv gives the plaintext back, tags are
   * 16 bytes, and the ciphertext is as long as the plaintext's UTF-8
   * encoding, so it is empty exactly when the plaintext is. Other key
   * lengths never reach the cipher: `EncryptText` and `DecryptText` fail first.
   */
  ghost predicate Sound(aead: Aead)
  {
    && (forall key, iv, p :: |key| == KEY_BYTES ==>
          aead.open(key, iv, aead.seal(key, iv, p).tag, aead.seal(key, iv, p).ciphertext) == Some(p))
    && (forall key, iv, p :: |key| == KEY_BYTES ==> |aead.seal(key, iv, p).tag| == 16)
    && (forall key, iv, p :: |key| == KEY_BYTES ==> (aead.seal(key, iv, p).ciphertext == [] <==> p == ""))
  }

  // ---------------------------------------------------------------- payload

  /**
   * `encryptText`: hex(iv) "." hex(tag) "." hex(ciphertext), with `iv` the 12
   * fresh random bytes of this call. `createCipheriv` throws for a key that
   * is not 32 bytes.
   */
  function EncryptText(aead: Aead, key: seq<Byte>, iv: seq<Byte>, plain: string): (r: Result<string, string>)
    requires |iv| == IV_BYTES
    ensures r.Failure? <==> |key| != KEY_BYTES
    ensures r.Failure? ==> r.error == INVALID_KEY_LENGTH
    ensures r.Success? ==> var sealed := aead.seal(key, iv, plain);
      JsString.Split(r.value, '.') == [HexEncode(iv), HexEncode(sealed.tag), HexEncode(sealed.ciphertext)]
    ensures r.Success? ==> |JsString.Split(r.value, '.')[0]| == 2 * IV_BYTES
  {
    if |key| != KEY_BYTES then Failure(INVALID_KEY_LENGTH)
    else
      var sealed := aead.seal(key, iv, plain);
      var ivHex, tagHex, cipherHex := HexEncode(iv), HexEncode(sealed.tag), HexEncode(sealed.ciphertext);
      assert '.' !in ivHex && '.' !in tagHex && '.' !in cipherHex by {
        assert forall h :: IsLowerHex(h) ==> '.' !in h;
      }
      JsString.SplitThree(ivHex, tagHex, cipherHex, '.');
      Success(ivHex + "." + tagHex + "." + cipherHex)
  }

  /** The first three dot-separated segments, each present and non-empty. */
  predicate WellFormedPayload(payload: string)
  {
    var parts := JsString.Split(payload, '.');
    |parts| >= 3 && parts[0] != "" && parts[1] != "" && parts[2] != ""
  }

  /**
   * `decryptText`: destructures the first three segments of `split(".")`,
   * throws "Invalid payload" when one is missing or empty, then throws for a
   * key that is not 32 bytes, and otherwise returns what AES-GCM
   * authenticates, or throws when it does not.
   */
  function DecryptText(aead: Aead, key: seq<Byte>, payload: string): (r: Result<string, string>)
    ensures !WellFormedPayload(payload) <==> r == Failure(INVALID_PAYLOAD)
    ensures WellFormedPayload(payload) && |key| != KEY_BYTES ==> r == Failure(INVALID_KEY_LENGTH)
    ensures r.Success? ==>
      var parts := JsString.Split(payload, '.');
      |key| == KEY_BYTES && aead.open(key, HexDecode(parts[0]), HexDecode(parts[1]), HexDecode(parts[2])) == Some(r.value)
  {
    var parts := JsString.Split(payload, '.');
    if |parts| < 3 || parts[0] == "" || parts[1] == "" || parts[2] == "" then Failure(INVALID_PAYLOAD)
    else if |key| != KEY_BYTES then Failure(INVALID_KEY_LENGTH)
    else match aead.open(key, HexDecode(parts[0]), HexDecode(parts[1]), HexDecode(parts[2]))
      case Some(p) => Success(p)
      case None => Failure(AUTH_FAILURE)
  }

  /** Under a 32-byte key, every non-empty plaintext comes back from its own payload. */
  lemma EncryptDecryptRoundTrip(aead: Aead, key: seq<Byte>, iv: seq<Byte>, plain: string)
    requires Sound(aead) && |key| == KEY_BYTES && |iv| == IV_BYTES && plain != ""
    ensures EncryptText(aead, key, iv, plain).Success?
    ensures DecryptText(aead, key, EncryptText(aead, key, iv, plain).value) == Success(plain)
  {
    var sealed := aead.seal(key, iv, plain);
    assert |sealed.tag| == 16 && sealed.ciphertext != [];
    HexRoundTrip(iv);
    HexRoundTrip(sealed.tag);
    HexRoundTrip(sealed.ciphertext);
  }

  /**
   * The empty plaintext does not round-trip: its ciphertext segment is empty,
   * which `decryptText` rejects as an invalid payload.
   */
  lemma EmptyPlaintextRejected(aead: Aead, key: seq<Byte>, iv: seq<Byte>)
    requires Sound(aead) && |key| == KEY_BYTES && |iv| == IV_BYTES
    ensures EncryptText(aead, key, iv, "").Success?
    ensures DecryptText(aead, key, EncryptText(aead, key, iv, "").value) == Failure(INVALID_PAYLOAD)
  {
    assert aead.seal(key, iv, "").ciphertext == [];
  }

  /**
   * A `MASTER_KEY` of 64 characters that are not all hexadecimal digits
   * passes the load-time check, yet every encryption and every decryption of
   * a well-formed payload under it throws.
   */
  lemma NonHexKeyLoadsButFails(aead: Aead, masterKeyHex: string, iv: seq<Byte>, plain: string, payload: string)
    requires |masterKeyHex| == 64 && !IsHex(masterKeyHex) && |iv| == IV_BYTES
    requires WellFormedPayload(payload)
    ensures LoadMasterKey(masterKeyHex).Success?
    ensures EncryptText(aead, LoadMasterKey(masterKeyHex).value, iv, plain) == Failure(INVALID_KEY_LENGTH)
    ensures DecryptText(aead, LoadMasterKey(masterKeyHex).value, payload) == Failure(INVALID_KEY_LENGTH)
  {
  }

  /** Segments after the third play no part in decryption. */
  lemma ExtraSegmentsIgnored(aead: Aead, key: seq<Byte>, a: string, b: string, c: string, rest: string)
    requires '.' !in a && '.' !in b && '.' !in c
    ensures DecryptText(aead, key, a + "." + b + "." + c + "." + rest) == DecryptText(aead, key, a + "." + b + "." + c)
  {
    assert a + "." + b + "." + c + "." + rest == a + ['.'] + (b + ['.'] + (c + ['.'] + rest));
    JsString.SplitAtFirst(a, '.', b + ['.'] + (c + ['.'] + rest));
    JsString.SplitAtFirst(b, '.', c + ['.'] + rest);
    JsString.SplitAtFirst(c, '.', rest);
    JsString.SplitThree(a, b, c, '.');
  }
}
