/** The collaborators the handlers call but whose insides are not modelled:
    AES encryption of question payloads (CryptoJS), `JSON.parse`,
    `JSON.stringify` and JavaScript's number-to-string conversion. They are
    passed around as a `Runtime` value, and the laws the model relies on are
    stated as predicates that lemmas take as preconditions. */
module Codec {
  import opened Js

  /** CryptoJS prints a ciphertext as Base64 of OpenSSL's `Salted__` header
      followed by salt and data; its first ten characters are always these. */
  const CipherPrefix: string := "U2FsdGVkX1"

  datatype Runtime = Runtime(
    encrypt: string -> string,          // encrypt(data) with the process-wide key
    encryptOther: Json -> string,       // encrypt(v) for a number or boolean v, which CryptoJS does not expect
    decrypt: string -> Option<string>,  // decrypt(cipher) with the same key; None when it throws
    parse: string -> Option<Json>,      // JSON.parse; None when it throws
    stringify: Json -> string,          // JSON.stringify
    numberText: real -> string)         // String(n) for a number n

  /** The heuristic `createExam` uses to recognise a value that is already a ciphertext. */
  predicate LooksEncrypted(s: string) {
    StartsWith(s, CipherPrefix)
  }

  /** Decryption undoes encryption, and every ciphertext carries the prefix. */
  ghost predicate SoundCipher(rt: Runtime) {
    forall s :: rt.decrypt(rt.encrypt(s)) == Some(s) && LooksEncrypted(rt.encrypt(s))
  }

  /** Every stored question decrypts. `toString(CryptoJS.enc.Utf8)` throws
      "Malformed UTF-8 data" when the decrypted bytes are not UTF-8, as they
      are under a different key or for a prefixed string that is no
      ciphertext. */
  predicate Decrypts(rt: Runtime, stored: seq<string>) {
    forall i :: 0 <= i < |stored| ==> rt.decrypt(stored[i]).Some?
  }

  /** `JSON.parse(JSON.stringify(v))` gives `v` back. */
  ghost predicate SoundJson(rt: Runtime) {
    forall v :: rt.parse(rt.stringify(v)) == Some(v)
  }
}
