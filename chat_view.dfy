/**
 * The plain chat screen: a recipient field, a draft and an inbox listed
 * newest first. Its `send` has no guard on the draft and no try/catch: a
 * failed key lookup, encryption or upload rejects the call and leaves the
 * screen as it was, and a successful one emits the payload, without its
 * plaintext and without adding it to the inbox, and clears the draft.
 *
 * As in the conversation pane, the HTTP replies, the stored private key,
 * the box's nonce and the clock are parameters.
 */
module ChatView {
  import opened Wrappers
  import opened Messaging
  import CC = CryptoClient

  /** How a call of `send` ends. */
  datatype SendOutcome =
    | NoPrivateKey        // alert('no private key')
    | Rejected            // an awaited request or the encryption threw
    | Sent(emitted: Payload)

  class Chat {
    /** The signed-in wallet. */
    const wallet: string
    /** The recipient field, as typed. */
    var to: string
    /** The draft. */
    var message: string
    /** Received payloads, the latest first. */
    var inbox: seq<Payload>

    constructor (wallet: string)
      ensures this.wallet == wallet && to == "" && message == "" && inbox == []
    {
      this.wallet := wallet;
      to, message, inbox := "", "", [];
    }

    /** The recipient field's `onChange`. */
    method SetTo(typed: string)
      modifies this`to
      ensures to == typed
    {
      to := typed;
    }

    /** The message field's `onChange`. */
    method SetMessage(typed: string)
      modifies this`message
      ensures message == typed
    {
      message := typed;
    }

    /** The socket 'message' handler: the payload goes in front. */
    method Receive(payload: Payload)
      modifies this`inbox
      ensures inbox == [payload] + old(inbox)
    {
      inbox := [payload] + inbox;
    }

    /**
     * `send`: look up the recipient's key, read the private key, encrypt
     * the draft, upload it and emit a payload naming `to` as typed and the
     * wallet as sender; then clear the draft and keep the recipient.
     */
    method Send(keyLookup: Option<string>, storedKey: string, scheme: CC.BoxScheme, nonce: seq<byte>,
                upload: string -> Option<string>, now: int)
      returns (outcome: SendOutcome)
      requires |nonce| == CC.NonceLength
      modifies this`message
      ensures outcome == NoPrivateKey <==> keyLookup.Some? && storedKey == ""
      ensures outcome == Rejected <==>
        || keyLookup.None?
        || (&& storedKey != ""
            && (|| CC.Ciphertext(scheme, storedKey, keyLookup.value, old(message), nonce).None?
                || upload(CC.Ciphertext(scheme, storedKey, keyLookup.value, old(message), nonce).value).None?))
      ensures outcome.Sent? <==>
        && keyLookup.Some? && storedKey != ""
        && CC.Ciphertext(scheme, storedKey, keyLookup.value, old(message), nonce).Some?
        && upload(CC.Ciphertext(scheme, storedKey, keyLookup.value, old(message), nonce).value).Some?
      ensures outcome.Sent? ==>
        && outcome.emitted == Payload(to, wallet, ConversationId(wallet, to),
             upload(CC.Ciphertext(scheme, storedKey, keyLookup.value, old(message), nonce).value).value,
             None, now)
        && message == ""
      ensures !outcome.Sent? ==> message == old(message)
    {
      if keyLookup.None? {
        return Rejected;
      }
      if storedKey == "" {
        return NoPrivateKey;
      }
      var sealed := CC.EncryptForRecipient(scheme, storedKey, keyLookup.value, message, nonce);
      if sealed.Failure? {
        return Rejected;
      }
      var hash := upload(sealed.value);
      if hash.None? {
        return Rejected;
      }
      var payload := Payload(to, wallet, ConversationId(wallet, to), hash.value, None, now);
      message := "";
      outcome := Sent(payload);
    }
  }

  /** Two payloads arriving one after the other are listed latest first. */
  method TwoArrivals(c: Chat, first: Payload, second: Payload)
    modifies c
    ensures c.inbox == [second, first] + old(c.inbox)
    ensures c.inbox[0] == second && c.inbox[1] == first
  {
    c.Receive(first);
    c.Receive(second);
  }

  /**
   * Typing a recipient and a message, then sending: the payload names the
   * recipient as typed and the id both parties share, the draft is cleared
   * and the recipient field keeps its value.
   */
  method TypeThenSend(wallet: string, recipient: string, text: string, keyLookup: Option<string>,
                      storedKey: string, scheme: CC.BoxScheme, nonce: seq<byte>,
                      upload: string -> Option<string>, now: int)
    returns (outcome: SendOutcome)
    requires |nonce| == CC.NonceLength
    ensures outcome.Sent? ==>
      && outcome.emitted.to == recipient && outcome.emitted.from == wallet
      && outcome.emitted.conversationId == ConversationId(recipient, wallet)
      && outcome.emitted.content.None?
  {
    var c := new Chat(wallet);
    c.SetTo(recipient);
    c.SetMessage(text);
    outcome := c.Send(keyLookup, storedKey, scheme, nonce, upload, now);
    ConversationIdSymmetric(wallet, recipient);
  }
}
