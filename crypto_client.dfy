/**
 * The browser's end-to-end encryption of chat messages: a NaCl box
 * (Curve25519, XSalsa20-Poly1305) from the sender's secret key to the
 * recipient's public key, shipped as base64 of the 24-byte nonce followed
 * by the box.
 *
 * The box primitive itself is a parameter, a `BoxScheme`. What the
 * envelope relies on is stated as the predicate `Sound`: with 32-byte
 * keys and a 24-byte nonce, sealing succeeds, and opening with the other
 * party's key pair gives the message back. It is a hypothesis of the
 * round-trip lemma, not an axiom; `ToySchemeIsSound` shows that it can be
 * met. `None` from `seal` stands for nacl.box throwing (bad key or nonce
 * size); `None` from `open` stands for nacl.box.open returning null or
 * throwing.
 */
module CryptoClient {
  import opened Wrappers
  import B64 = Base64
  import Utf8

  /** nacl.box.nonceLength */
  const NonceLength := 24
  /** nacl.box.secretKeyLength and nacl.box.publicKeyLength */
  const KeyLength := 32
  /** nacl.box.overheadLength: the Poly1305 tag. */
  const Overhead := 16

  type Seal = (seq<byte>, seq<byte>, seq<byte>, seq<byte>) -> Option<seq<byte>>
  type Open = (seq<byte>, seq<byte>, seq<byte>, seq<byte>) -> Option<seq<byte>>

  /**
   * `seal(message, nonce, theirPublic, mySecret)` is nacl.box,
   * `open(box, nonce, theirPublic, mySecret)` is nacl.box.open, and
   * `publicOf(secret)` the public half of a key pair.
   */
  datatype BoxScheme = BoxScheme(seal: Seal, open: Open, publicOf: seq<byte> -> seq<byte>)

  /** Opening, by B, what A sealed to B's public key gives A's message back. */
  ghost predicate Sound(s: BoxScheme)
  {
    forall m, n, skA, skB ::
      |n| == NonceLength && |skA| == KeyLength && |skB| == KeyLength ==>
        && s.seal(m, n, s.publicOf(skB), skA).Some?
        && |s.seal(m, n, s.publicOf(skB), skA).value| == |m| + Overhead
        && s.open(s.seal(m, n, s.publicOf(skB), skA).value, n, s.publicOf(skA), skB) == Some(m)
  }

  /** Why a call rejects; in the source each of these is a thrown Error. */
  datatype CryptoError =
    | InvalidEncoding   // a key or the ciphertext is not base64
    | BoxFailed         // nacl.box threw on a key of the wrong size
    | DecryptionFailed  // nacl.box.open gave null: wrong keys or tampered data
    | InvalidUtf8       // the opened bytes are not UTF-8

  /**
   * The bytes encryptForRecipient encodes: the nonce, then the box of the
   * plaintext's UTF-8 bytes; or the first step that throws.
   */
  function Envelope(scheme: BoxScheme, senderSecretB64: string, recipPublicB64: string,
                    plaintext: string, nonce: seq<byte>): (r: Result<seq<byte>, CryptoError>)
    ensures r.Success? ==> |r.value| >= |nonce| && r.value[..|nonce|] == nonce
    ensures (B64.Decode(senderSecretB64).None? || B64.Decode(recipPublicB64).None?) <==>
            r == Failure(InvalidEncoding)
  {
    match (B64.Decode(senderSecretB64), B64.Decode(recipPublicB64))
    case (Some(secret), Some(recipPub)) =>
      (match scheme.seal(Utf8.Encode(plaintext), nonce, recipPub, secret)
       case None => Failure(BoxFailed)
       case Some(boxed) => assert (nonce + boxed)[..|nonce|] == nonce; Success(nonce + boxed))
    case _ => Failure(InvalidEncoding)
  }

  /**
   * TypedArray.prototype.set: `src` is copied into `a` from `offset` on, and
   * the rest of `a` is left as it was.
   */
  method SetAt(a: array<byte>, src: seq<byte>, offset: nat)
    requires offset + |src| <= a.Length
    modifies a
    ensures a[..] == old(a[..offset]) + src + old(a[offset + |src|..])
  {
    var i := 0;
    while i < |src|
      invariant 0 <= i <= |src|
      invariant a[..offset] == old(a[..offset])
      invariant a[offset..offset + i] == src[..i]
      invariant a[offset + |src|..] == old(a[offset + |src|..])
    {
      a[offset + i] := src[i];
      i := i + 1;
      assert a[offset..offset + i] == a[offset..offset + i - 1] + [src[i - 1]];
      assert src[..i] == src[..i - 1] + [src[i - 1]];
    }
    assert a[..] == a[..offset] + a[offset..offset + |src|] + a[offset + |src|..];
  }

  /**
   * encryptForRecipient, with `nonce` the bytes nacl.randomBytes returned:
   * a zero-filled buffer receives the nonce at 0 and the box after it, and
   * is returned in base64.
   */
  method EncryptForRecipient(scheme: BoxScheme, senderSecretB64: string, recipPublicB64: string,
                             plaintext: string, nonce: seq<byte>)
    returns (r: Result<string, CryptoError>)
    requires |nonce| == NonceLength
    ensures Envelope(scheme, senderSecretB64, recipPublicB64, plaintext, nonce).Failure? ==>
      r == Failure(Envelope(scheme, senderSecretB64, recipPublicB64, plaintext, nonce).error)
    ensures Envelope(scheme, senderSecretB64, recipPublicB64, plaintext, nonce).Success? ==>
      r == Success(B64.Encode(Envelope(scheme, senderSecretB64, recipPublicB64, plaintext, nonce).value))
  {
    var senderSecret := B64.Decode(senderSecretB64);
    var recipPub := B64.Decode(recipPublicB64);
    if senderSecret.None? || recipPub.None? {
      return Failure(InvalidEncoding);
    }
    var message := Utf8.Encode(plaintext);
    var boxed := scheme.seal(message, nonce, recipPub.value, senderSecret.value);
    if boxed.None? {
      return Failure(BoxFailed);
    }
    var combined := new byte[|nonce| + |boxed.value|](_ => 0);
    SetAt(combined, nonce, 0);
    SetAt(combined, boxed.value, |nonce|);
    assert combined[..] == nonce + boxed.value;
    r := Success(B64.Encode(combined[..]));
  }

  /** The base64 text encryptForRecipient returns, or `None` where it throws. */
  function Ciphertext(scheme: BoxScheme, senderSecretB64: string, recipPublicB64: string,
                      plaintext: string, nonce: seq<byte>): Option<string>
  {
    match Envelope(scheme, senderSecretB64, recipPublicB64, plaintext, nonce)
    case Success(combined) => Some(B64.Encode(combined))
    case Failure(_) => None
  }

  /**
   * `combined.slice(0, 24)` and `combined.slice(24)`: slices clamp, so a
   * short input gives a short nonce and an empty box.
   */
  function Split(combined: seq<byte>): (parts: (seq<byte>, seq<byte>))
    ensures parts.0 + parts.1 == combined
    ensures |parts.0| == if |combined| < NonceLength then |combined| else NonceLength
  {
    var k := if |combined| < NonceLength then |combined| else NonceLength;
    (combined[..k], combined[k..])
  }

  /** Splitting an envelope gives back the nonce and the box it was built from. */
  lemma SplitInvertsJoin(nonce: seq<byte>, boxed: seq<byte>)
    requires |nonce| == NonceLength
    ensures Split(nonce + boxed) == (nonce, boxed)
  {
    assert (nonce + boxed)[..NonceLength] == nonce;
    assert (nonce + boxed)[NonceLength..] == boxed;
  }

  /**
   * decryptWithSecretKey: decode the keys and the envelope, open the box
   * with the nonce in front of it, and read the result as UTF-8.
   */
  function DecryptWithSecretKey(scheme: BoxScheme, secretB64: string, senderPublicB64: string,
                                ciphertextB64: string): (r: Result<string, CryptoError>)
    ensures (B64.Decode(secretB64).None? || B64.Decode(senderPublicB64).None? || B64.Decode(ciphertextB64).None?)
            <==> r == Failure(InvalidEncoding)
    ensures r.Success? ==>
      var combined := B64.Decode(ciphertextB64).value;
      var (nonce, boxed) := Split(combined);
      && scheme.open(boxed, nonce, B64.Decode(senderPublicB64).value, B64.Decode(secretB64).value).Some?
      && Utf8.Decode(scheme.open(boxed, nonce, B64.Decode(senderPublicB64).value, B64.Decode(secretB64).value).value)
         == Some(r.value)
  {
    match (B64.Decode(secretB64), B64.Decode(senderPublicB64), B64.Decode(ciphertextB64))
    case (Some(secret), Some(senderPub), Some(combined)) =>
      var (nonce, boxed) := Split(combined);
      (match scheme.open(boxed, nonce, senderPub, secret)
       case None => Failure(DecryptionFailed)
       case Some(message) =>
         (match Utf8.Decode(message)
          case None => Failure(InvalidUtf8)
          case Some(text) => Success(text)))
    case _ => Failure(InvalidEncoding)
  }

  /**
   * What A encrypts for B with A's secret key and B's public key, B
   * decrypts with B's secret key and A's public key, for every plaintext.
   */
  lemma RoundTrip(scheme: BoxScheme, skA: seq<byte>, skB: seq<byte>, plaintext: string, nonce: seq<byte>)
    requires Sound(scheme)
    requires |skA| == KeyLength && |skB| == KeyLength && |nonce| == NonceLength
    ensures
      var sent := Envelope(scheme, B64.Encode(skA), B64.Encode(scheme.publicOf(skB)), plaintext, nonce);
      && sent.Success?
      && |sent.value| == NonceLength + |Utf8.Encode(plaintext)| + Overhead
      && DecryptWithSecretKey(scheme, B64.Encode(skB), B64.Encode(scheme.publicOf(skA)), B64.Encode(sent.value))
         == Success(plaintext)
  {
    var pkA, pkB := scheme.publicOf(skA), scheme.publicOf(skB);
    var m := Utf8.Encode(plaintext);
    SoundAt(scheme, m, nonce, skA, skB);
    var boxed := scheme.seal(m, nonce, pkB, skA).value;
    SentEnvelope(scheme, skA, pkB, plaintext, nonce);
    Utf8.RoundTrip(plaintext);
    OpenedEnvelope(scheme, skB, pkA, nonce, boxed, m);
  }

  /** `Sound` at one message, nonce and pair of keys. */
  lemma SoundAt(s: BoxScheme, m: seq<byte>, n: seq<byte>, skA: seq<byte>, skB: seq<byte>)
    requires Sound(s)
    requires |n| == NonceLength && |skA| == KeyLength && |skB| == KeyLength
    ensures s.seal(m, n, s.publicOf(skB), skA).Some?
    ensures |s.seal(m, n, s.publicOf(skB), skA).value| == |m| + Overhead
    ensures s.open(s.seal(m, n, s.publicOf(skB), skA).value, n, s.publicOf(skA), skB) == Some(m)
  {
  }

  /** With well-encoded keys the envelope is the nonce followed by the box. */
  lemma SentEnvelope(scheme: BoxScheme, sk: seq<byte>, pk: seq<byte>, plaintext: string, nonce: seq<byte>)
    requires scheme.seal(Utf8.Encode(plaintext), nonce, pk, sk).Some?
    ensures Envelope(scheme, B64.Encode(sk), B64.Encode(pk), plaintext, nonce)
         == Success(nonce + scheme.seal(Utf8.Encode(plaintext), nonce, pk, sk).value)
  {
    B64.RoundTrip(sk);
    B64.RoundTrip(pk);
  }

  /** Decrypting an envelope whose box opens to well-formed UTF-8. */
  lemma OpenedEnvelope(scheme: BoxScheme, sk: seq<byte>, pk: seq<byte>, nonce: seq<byte>, boxed: seq<byte>,
                       m: seq<byte>)
    requires |nonce| == NonceLength
    requires scheme.open(boxed, nonce, pk, sk) == Some(m) && Utf8.Decode(m).Some?
    ensures DecryptWithSecretKey(scheme, B64.Encode(sk), B64.Encode(pk), B64.Encode(nonce + boxed))
         == Success(Utf8.Decode(m).value)
  {
    B64.RoundTrip(sk);
    B64.RoundTrip(pk);
    B64.RoundTrip(nonce + boxed);
    SplitInvertsJoin(nonce, boxed);
  }

  // ---------------------------------------------------------------------------
  // A scheme that meets `Sound`, so the hypothesis is not vacuous

  /** A transparent "box": a zero tag in front of the message, keys checked for size only. */
  function ToyScheme(): BoxScheme
  {
    BoxScheme(
      (m: seq<byte>, n: seq<byte>, pk: seq<byte>, sk: seq<byte>) =>
        if |n| == NonceLength && |pk| == KeyLength && |sk| == KeyLength
        then Some(seq(Overhead, _ => 0) + m) else None,
      (c: seq<byte>, n: seq<byte>, pk: seq<byte>, sk: seq<byte>) =>
        if |n| == NonceLength && |pk| == KeyLength && |sk| == KeyLength && |c| >= Overhead
        then Some(c[Overhead..]) else None,
      (sk: seq<byte>) => sk)
  }

  lemma ToySchemeIsSound()
    ensures Sound(ToyScheme())
  {
    var s := ToyScheme();
    forall m, n, skA, skB | |n| == NonceLength && |skA| == KeyLength && |skB| == KeyLength
      ensures s.seal(m, n, s.publicOf(skB), skA).Some?
      ensures |s.seal(m, n, s.publicOf(skB), skA).value| == |m| + Overhead
      ensures s.open(s.seal(m, n, s.publicOf(skB), skA).value, n, s.publicOf(skA), skB) == Some(m)
    {
      var c := seq(Overhead, _ => 0) + m;
      assert s.seal(m, n, s.publicOf(skB), skA) == Some(c);
      assert c[Overhead..] == m;
    }
  }
}
