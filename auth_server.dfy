/**
 * The backend's request handlers over its two in-memory maps, `nonces`
 * (wallet to the challenge it must sign) and `publicKeys` (wallet to its
 * registered encryption key), and the Socket.IO rooms it relays through.
 *
 * Each handler is one method. Its response is a status and a body; 200 is
 * Express's default when a handler calls `res.send` without a status. A
 * request field that is absent and one that is the empty string are both
 * falsy in JavaScript and take the same branch, so both are "" here.
 * Randomness (`crypto.randomBytes`), JWT signing and signer recovery are
 * parameters.
 */
module AuthServer {
  import opened Wrappers
  import opened JsString
  import opened Hex
  import opened Signature
  import opened Messaging

  /** `randomBytes(16)` makes the nonce, `randomBytes(18)` the upload id. */
  const NonceBytes := 16
  const UploadIdBytes := 18

  datatype Body =
    | NonceIssued(nonce: string)
    | TokenIssued(token: string)
    | KeyStored
    | KeyFound(pubKey: string)
    | Uploaded(ipfsHash: string)
    | Error(error: string)

  datatype Response = Response(status: int, body: Body)

  /** A connected socket. */
  type SocketId = nat

  /** `jwt.sign({ wallet }, JWT_SECRET, { expiresIn: '7d' })`, as a function of the wallet it embeds. */
  type TokenSigner = string -> string

  /** A nonce as stored: 32 lower-case hex digits. */
  predicate IsNonce(n: string)
  {
    |n| == 2 * NonceBytes && AllHexDigits(n)
  }

  /**
   * The stub content id: "Qm" and 36 hex digits, made from random bytes
   * only, so it says nothing about the uploaded ciphertext.
   */
  function UploadId(random: seq<byte>): (id: string)
    requires |random| == UploadIdBytes
    ensures |id| == 2 + 2 * UploadIdBytes
    ensures id[..2] == "Qm" && AllHexDigits(id[2..])
  {
    "Qm" + BytesToHex(random)
  }

  class Server {
    /** `nonces`: lower-cased wallet to its outstanding challenge. */
    var nonces: map<string, string>
    /** `publicKeys`: lower-cased wallet to its registered public key. */
    var publicKeys: map<string, string>
    /** Socket.IO rooms: room name to the sockets that joined it. */
    var rooms: map<string, set<SocketId>>

    /** Keys are stored lower-cased; stored nonces and keys are never falsy. */
    ghost predicate Valid()
      reads this
    {
      && (forall w | w in nonces :: ToLower(w) == w && IsNonce(nonces[w]))
      && (forall w | w in publicKeys :: ToLower(w) == w && publicKeys[w] != "")
      && (forall r | r in rooms :: ToLower(r) == r)
    }

    /** The sockets in a room; a room nobody joined is empty. */
    function Members(room: string): set<SocketId>
      reads this
    {
      if room in rooms then rooms[room] else {}
    }

    constructor ()
      ensures Valid()
      ensures nonces == map[] && publicKeys == map[] && rooms == map[]
    {
      nonces, publicKeys, rooms := map[], map[], map[];
    }

    /**
     * POST /auth/nonce: 400 without a wallet; otherwise a fresh 32-digit hex
     * nonce, stored under the lower-cased wallet in place of any earlier one.
     */
    method IssueNonce(wallet: string, random: seq<byte>) returns (resp: Response)
      requires Valid()
      requires |random| == NonceBytes
      modifies this`nonces
      ensures Valid()
      ensures wallet == "" ==> resp == Response(400, Error("wallet required")) && nonces == old(nonces)
      ensures wallet != "" ==>
        && resp == Response(200, NonceIssued(BytesToHex(random)))
        && IsNonce(BytesToHex(random))
        && nonces == old(nonces)[ToLower(wallet) := BytesToHex(random)]
    {
      if wallet == "" {
        return Response(400, Error("wallet required"));
      }
      var nonce := BytesToHex(random);
      ToLowerIdempotent(wallet);
      nonces := nonces[ToLower(wallet) := nonce];
      resp := Response(200, NonceIssued(nonce));
    }

    /**
     * POST /auth/verify, checked in this order: 400 without a wallet or a
     * signature; 400 "nonce not found" when no nonce is stored for the
     * wallet in any casing; 401 when the signature does not recover to the
     * wallet, keeping the nonce for another try; otherwise a token for the
     * wallet as given, and the nonce is deleted.
     */
    method Verify(wallet: string, signature: string, recover: Recover, sign: TokenSigner)
      returns (resp: Response)
      requires Valid()
      modifies this`nonces
      ensures Valid()
      ensures wallet == "" || signature == "" ==>
        resp == Response(400, Error("wallet and signature required")) && nonces == old(nonces)
      ensures wallet != "" && signature != "" && ToLower(wallet) !in old(nonces) ==>
        resp == Response(400, Error("nonce not found")) && nonces == old(nonces)
      ensures wallet != "" && signature != "" && ToLower(wallet) in old(nonces) ==>
        var nonce := old(nonces)[ToLower(wallet)];
        if VerifySignature(recover, wallet, nonce, signature) then
          resp == Response(200, TokenIssued(sign(wallet))) && nonces == old(nonces) - {ToLower(wallet)}
        else
          resp == Response(401, Error("invalid signature")) && nonces == old(nonces)
    {
      if wallet == "" || signature == "" {
        return Response(400, Error("wallet and signature required"));
      }
      var key := ToLower(wallet);
      if key !in nonces || nonces[key] == "" {
        return Response(400, Error("nonce not found"));
      }
      var nonce := nonces[key];
      var valid := VerifySignature(recover, wallet, nonce, signature);
      if !valid {
        return Response(401, Error("invalid signature"));
      }
      var token := sign(wallet);
      nonces := nonces - {key};
      resp := Response(200, TokenIssued(token));
    }

    /**
     * POST /profile/publicKey: 400 without a wallet or a key; otherwise the
     * key replaces whatever the lower-cased wallet had.
     */
    method RegisterKey(wallet: string, pubKey: string) returns (resp: Response)
      requires Valid()
      modifies this`publicKeys
      ensures Valid()
      ensures wallet == "" || pubKey == "" ==>
        resp == Response(400, Error("wallet and pubKey required")) && publicKeys == old(publicKeys)
      ensures wallet != "" && pubKey != "" ==>
        resp == Response(200, KeyStored) && publicKeys == old(publicKeys)[ToLower(wallet) := pubKey]
    {
      if wallet == "" || pubKey == "" {
        return Response(400, Error("wallet and pubKey required"));
      }
      ToLowerIdempotent(wallet);
      publicKeys := publicKeys[ToLower(wallet) := pubKey];
      resp := Response(200, KeyStored);
    }

    /**
     * GET /profile/:wallet/publicKey: the key registered under the wallet in
     * any casing, or 404.
     */
    method LookupKey(wallet: string) returns (resp: Response)
      requires Valid()
      ensures ToLower(wallet) in publicKeys ==> resp == Response(200, KeyFound(publicKeys[ToLower(wallet)]))
      ensures ToLower(wallet) !in publicKeys ==> resp == Response(404, Error("not found"))
    {
      var key := ToLower(wallet);
      if key !in publicKeys || publicKeys[key] == "" {
        return Response(404, Error("not found"));
      }
      resp := Response(200, KeyFound(publicKeys[key]));
    }

    /**
     * POST /messages/upload: 400 without a ciphertext; otherwise a fake
     * content id that does not depend on the ciphertext. Nothing is stored.
     */
    method Upload(ciphertextBase64: string, random: seq<byte>) returns (resp: Response)
      requires |random| == UploadIdBytes
      ensures ciphertextBase64 == "" ==> resp == Response(400, Error("ciphertextBase64 required"))
      ensures ciphertextBase64 != "" ==> resp.status == 200 && resp.body.Uploaded?
      ensures ciphertextBase64 != "" ==>
        var id := resp.body.ipfsHash;
        |id| == 38 && id[..2] == "Qm" && AllHexDigits(id[2..]) && id == UploadId(random)
    {
      if ciphertextBase64 == "" {
        return Response(400, Error("ciphertextBase64 required"));
      }
      resp := Response(200, Uploaded(UploadId(random)));
    }

    /** Socket event 'join': the socket enters the room named by the lower-cased wallet. */
    method Join(socket: SocketId, wallet: string)
      requires Valid()
      modifies this`rooms
      ensures Valid()
      ensures rooms == old(rooms)[ToLower(wallet) := old(Members(ToLower(wallet))) + {socket}]
    {
      ToLowerIdempotent(wallet);
      var room := ToLower(wallet);
      rooms := rooms[room := Members(room) + {socket}];
    }

    /**
     * Socket event 'message': the payload, unchanged, goes to every socket in
     * the room of the lower-cased recipient, and to no one else. The sender's
     * own room is addressed only when the recipient is the sender's own
     * address up to case.
     */
    method Relay(payload: Payload) returns (deliveries: set<(SocketId, Payload)>)
      ensures forall s, p :: (s, p) in deliveries <==> p == payload && s in Members(ToLower(payload.to))
    {
      var room := ToLower(payload.to);
      deliveries := set s | s in Members(room) :: (s, payload);
    }
  }

  // ---------------------------------------------------------------------------
  // Scenarios over several requests

  /**
   * A nonce serves one login: a good signature gets a token, and the same
   * request again finds no nonce until a new one is issued.
   */
  method NonceIsSingleUse(s: Server, wallet: string, signature: string, random: seq<byte>,
                          recover: Recover, sign: TokenSigner)
    returns (first: Response, second: Response)
    requires s.Valid() && wallet != "" && signature != "" && |random| == NonceBytes
    requires VerifySignature(recover, wallet, BytesToHex(random), signature)
    modifies s
    ensures s.Valid()
    ensures first == Response(200, TokenIssued(sign(wallet)))
    ensures second == Response(400, Error("nonce not found"))
  {
    var issued := s.IssueNonce(wallet, random);
    first := s.Verify(wallet, signature, recover, sign);
    second := s.Verify(wallet, signature, recover, sign);
  }

  /**
   * A wrong signature leaves the nonce in place: a later correct signature
   * for the same nonce still logs in.
   */
  method FailedVerifyKeepsNonce(s: Server, wallet: string, bad: string, good: string, random: seq<byte>,
                                recover: Recover, sign: TokenSigner)
    returns (first: Response, second: Response)
    requires s.Valid() && wallet != "" && bad != "" && good != "" && |random| == NonceBytes
    requires !VerifySignature(recover, wallet, BytesToHex(random), bad)
    requires VerifySignature(recover, wallet, BytesToHex(random), good)
    modifies s
    ensures first == Response(401, Error("invalid signature"))
    ensures second == Response(200, TokenIssued(sign(wallet)))
  {
    var issued := s.IssueNonce(wallet, random);
    first := s.Verify(wallet, bad, recover, sign);
    second := s.Verify(wallet, good, recover, sign);
  }

  /**
   * A nonce requested as "0xAAA" is found when verifying as "0xaaa"; the
   * token carries the wallet as the verify request spelled it.
   */
  method NonceFoundInAnyCasing(s: Server, signature: string, random: seq<byte>,
                               recover: Recover, sign: TokenSigner)
    returns (resp: Response)
    requires s.Valid() && signature != "" && |random| == NonceBytes
    requires VerifySignature(recover, "0xaaa", BytesToHex(random), signature)
    modifies s
    ensures resp == Response(200, TokenIssued(sign("0xaaa")))
  {
    var issued := s.IssueNonce("0xAAA", random);
    assert ToLower("0xAAA") == ToLower("0xaaa") == "0xaaa";
    resp := s.Verify("0xaaa", signature, recover, sign);
  }

  /**
   * Key directory: nothing before registration, then the last registered
   * key under any casing of the wallet.
   */
  method KeyDirectoryScenario() returns (before: Response, after: Response, replaced: Response)
    ensures before == Response(404, Error("not found"))
    ensures after == Response(200, KeyFound("PK1"))
    ensures replaced == Response(200, KeyFound("PK2"))
  {
    var s := new Server();
    before := s.LookupKey("0xaaa");
    var stored := s.RegisterKey("0xAAA", "PK1");
    assert ToLower("0xAAA") == ToLower("0xaaa") == ToLower("0XAAA") == "0xaaa";
    after := s.LookupKey("0xaaa");
    stored := s.RegisterKey("0xaaa", "PK2");
    replaced := s.LookupKey("0XAAA");
  }

  /**
   * Relay: the sender's socket joined under the sender's address and the
   * recipient's socket under the recipient's, spelled in any casing; when the
   * two addresses differ, the message reaches the recipient's socket only.
   */
  method RelayScenario(p: Payload, recipientJoinedAs: string) returns (deliveries: set<(SocketId, Payload)>)
    requires SameAddress(p.to, recipientJoinedAs) && !SameAddress(p.from, p.to)
    ensures deliveries == {(2, p)}
  {
    var s := new Server();
    s.Join(1, p.from);
    s.Join(2, recipientJoinedAs);
    assert s.Members(ToLower(p.to)) == {2};
    deliveries := s.Relay(p);
    assert forall d | d in deliveries :: d == (2, p);
    assert (2, p) in deliveries;
  }

  /**
   * Relay of a message to oneself: the recipient's room is the sender's own,
   * so the sender's socket receives the payload back.
   */
  method SelfMessageScenario(p: Payload) returns (deliveries: set<(SocketId, Payload)>)
    requires SameAddress(p.from, p.to)
    ensures deliveries == {(1, p)}
  {
    var s := new Server();
    s.Join(1, p.from);
    assert s.Members(ToLower(p.to)) == {1};
    deliveries := s.Relay(p);
    assert forall d | d in deliveries :: d == (1, p);
    assert (1, p) in deliveries;
  }
}
