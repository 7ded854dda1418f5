// How a password is put into, and taken out of, its encrypted text: a version
// byte, a nonce and the sealed password, in unpadded base64url.
module Envelope {
  import opened Wrappers
  import opened Bytes
  import opened Text

  const NONCE_SIZE := 12
  const KEY_SIZE := 32
  const VERSION: byte := 1

  // AES-GCM (key, nonce, text, additional data) and the unpadded base64url
  // encoding of section 5 of RFC 4648, known by their laws only.
  datatype Suite = Suite(
    seal: (seq<byte>, seq<byte>, seq<byte>, seq<byte>) -> seq<byte>,
    unseal: (seq<byte>, seq<byte>, seq<byte>, seq<byte>) -> Option<seq<byte>>,
    encode: seq<byte> -> string,
    decode: string -> Option<seq<byte>>)

  ghost predicate Lawful(s: Suite) {
    && (forall k, n, p, a :: |k| == KEY_SIZE && |n| == NONCE_SIZE ==> s.unseal(k, n, s.seal(k, n, p, a), a) == Some(p))
    && (forall b :: s.decode(s.encode(b)) == Some(b))
    && (forall b :: Solid(s.encode(b)))
    && s.encode([]) == ""
  }

  lemma EncodedTrims(s: Suite, b: seq<byte>)
    requires Lawful(s)
    ensures TrimSpace(s.encode(b)) == s.encode(b)
    ensures TrimSpace(s.encode(b) + "\n") == s.encode(b)
  {
    var e := s.encode(b);
    TrimSpaceOfSolid(e);
  }

  lemma EncodedNotEmpty(s: Suite, b: seq<byte>)
    requires Lawful(s) && b != []
    ensures s.encode(b) != ""
  {
    assert s.decode(s.encode(b)) == Some(b) && s.decode(s.encode([])) == Some([]);
  }

  function Sealed(s: Suite, key: seq<byte>, nonce: seq<byte>, password: seq<byte>): string {
    s.encode([VERSION] + nonce + s.seal(key, nonce, password, [VERSION]))
  }

  // encryptMSSQLPassword, once the key is at hand.
  method Encrypt(s: Suite, key: seq<byte>, nonce: seq<byte>, password: seq<byte>) returns (encoded: string)
    ensures encoded == s.encode([1] + nonce + s.seal(key, nonce, password, [1]))
    ensures encoded == Sealed(s, key, nonce, password)
  {
    var ciphertext := s.seal(key, nonce, password, [VERSION]);
    var envelope := new byte[1 + |nonce| + |ciphertext|];
    envelope[0] := VERSION;
    forall i | 0 <= i < |nonce| {
      envelope[1 + i] := nonce[i];
    }
    forall i | 0 <= i < |ciphertext| {
      envelope[1 + |nonce| + i] := ciphertext[i];
    }
    assert envelope[..] == [VERSION] + nonce + ciphertext;
    encoded := s.encode(envelope[..]);
  }

  // The version, nonce and ciphertext of an envelope taken apart and opened.
  function Opened(s: Suite, key: seq<byte>, envelope: seq<byte>): Option<seq<byte>> {
    if |envelope| < 1 + NONCE_SIZE || envelope[0] != VERSION then None
    else s.unseal(key, envelope[1..1 + NONCE_SIZE], envelope[1 + NONCE_SIZE..], [VERSION])
  }

  // decryptMSSQLPassword; None is any of its errors, a missing key among them.
  function Decrypted(s: Suite, key: Option<seq<byte>>, encoded: string): Option<seq<byte>> {
    var envelope := s.decode(TrimSpace(encoded));
    if envelope.None? || key.None? then None else Opened(s, key.value, envelope.value)
  }

  // What decrypts: the encoding of a version byte 1, a nonce of 12 bytes and a
  // ciphertext that the key opens, with white space around it.
  lemma DecryptedExactly(s: Suite, key: Option<seq<byte>>, encoded: string, password: seq<byte>)
    ensures Decrypted(s, key, encoded) == Some(password) <==>
      key.Some? && exists nonce, ciphertext :: EnvelopeOf(s, encoded, nonce, ciphertext)
                     && s.unseal(key.value, nonce, ciphertext, [1]) == Some(password)
  {
    if Decrypted(s, key, encoded) == Some(password) {
      var envelope := s.decode(TrimSpace(encoded)).value;
      assert envelope == [1] + envelope[1..13] + envelope[13..];
      assert EnvelopeOf(s, encoded, envelope[1..13], envelope[13..]);
    }
    forall nonce: seq<byte>, ciphertext: seq<byte> | key.Some? && EnvelopeOf(s, encoded, nonce, ciphertext)
      ensures Decrypted(s, key, encoded) == s.unseal(key.value, nonce, ciphertext, [1])
    {
      var envelope := [1] + nonce + ciphertext;
      assert envelope[1..13] == nonce && envelope[13..] == ciphertext;
    }
  }

  predicate EnvelopeOf(s: Suite, encoded: string, nonce: seq<byte>, ciphertext: seq<byte>) {
    |nonce| == 12 && s.decode(TrimSpace(encoded)) == Some([1] + nonce + ciphertext)
  }

  lemma OpenedOfEnvelope(s: Suite, key: seq<byte>, nonce: seq<byte>, password: seq<byte>)
    requires Lawful(s) && |key| == KEY_SIZE && |nonce| == NONCE_SIZE
    ensures Opened(s, key, [VERSION] + nonce + s.seal(key, nonce, password, [VERSION])) == Some(password)
  {
    var ciphertext := s.seal(key, nonce, password, [VERSION]);
    var envelope := [VERSION] + nonce + ciphertext;
    assert envelope[1..1 + NONCE_SIZE] == nonce && envelope[1 + NONCE_SIZE..] == ciphertext;
  }

  lemma DecryptedOfSealed(s: Suite, key: seq<byte>, nonce: seq<byte>, password: seq<byte>)
    requires Lawful(s) && |key| == 32 && |nonce| == 12
    ensures Decrypted(s, Some(key), Sealed(s, key, nonce, password)) == Some(password)
    ensures Sealed(s, key, nonce, password) != ""
  {
    var envelope := [VERSION] + nonce + s.seal(key, nonce, password, [VERSION]);
    DecodesBack(s, envelope);
    OpenedOfEnvelope(s, key, nonce, password);
  }

  lemma DecodesBack(s: Suite, b: seq<byte>)
    requires Lawful(s) && b != []
    ensures s.decode(TrimSpace(s.encode(b))) == Some(b) && s.encode(b) != ""
  {
    EncodedTrims(s, b);
    EncodedNotEmpty(s, b);
  }
}
