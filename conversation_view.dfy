/**
 * The conversation pane: one peer, a draft, and the list of payloads seen,
 * in arrival order. `send` encrypts the draft for the peer, uploads it,
 * emits the payload and echoes it locally; the pane shows the entries of
 * this conversation, each as its own text or as a stand-in for the blob.
 *
 * The HTTP replies and the stored private key are parameters: the key
 * lookup's `pubKey` (`None` when the request fails, a 404 included), the
 * value of localStorage's 'privKeyBase64' ("" when absent), and the
 * upload's `ipfsHash` for a given ciphertext (`None` when it fails). Any
 * of those failing, or the encryption throwing, lands in the catch block,
 * which alerts and changes nothing.
 */
module ConversationView {
  import opened Wrappers
  import opened JsString
  import opened Messaging
  import CC = CryptoClient
  import Signature

  /** An inbox entry: a payload, marked `isSelf` when it is the local echo of a send. */
  datatype Entry = Entry(payload: Payload, isSelf: bool)

  /** How a call of `send` ends. */
  datatype SendOutcome =
    | Skipped             // the draft is blank
    | NoPrivateKey        // alert('No private key found in storage')
    | Failed              // the catch block: alert('Failed to send message. ...')
    | Sent(emitted: Payload)

  /**
   * The filter of the message list: the payload's conversation id contains
   * the peer, or the peer is its recipient or its sender, all compared
   * case-sensitively.
   */
  function Shown(e: Entry, peer: string): (r: bool)
    ensures e.payload.to == peer || e.payload.from == peer ==> r
  {
    Includes(e.payload.conversationId, peer) || e.payload.to == peer || e.payload.from == peer
  }

  /** A payload filed under a conversation id the peer is part of is listed, whoever sent it. */
  lemma ConversationIdShown(e: Entry, other: string, peer: string)
    requires e.payload.conversationId == ConversationId(other, peer)
    ensures Shown(e, peer)
  {
    var id := e.payload.conversationId;
    if id == other + ":" + peer {
      assert OccursAt(id, peer, |other| + 1);
    } else {
      assert OccursAt(id, peer, 0);
    }
  }

  /** The entries on screen, in inbox order. */
  function Visible(inbox: seq<Entry>, peer: string): (r: seq<Entry>)
    ensures |r| <= |inbox|
    ensures forall e :: e in r <==> e in inbox && Shown(e, peer)
  {
    if inbox == [] then []
    else (if Shown(inbox[0], peer) then [inbox[0]] else []) + Visible(inbox[1..], peer)
  }

  lemma ConcatAssociative(x: seq<Entry>, y: seq<Entry>, z: seq<Entry>)
    ensures x + (y + z) == (x + y) + z
  {
  }

  /** The filter looks at the first entry, then at the rest. */
  lemma VisibleCons(e: Entry, rest: seq<Entry>, peer: string)
    ensures Visible([e] + rest, peer) == (if Shown(e, peer) then [e] else []) + Visible(rest, peer)
  {
    assert ([e] + rest)[0] == e;
    assert ([e] + rest)[1..] == rest;
  }

  /** Filtering a longer inbox filters each part and keeps their order. */
  lemma {:induction false} VisibleAppend(a: seq<Entry>, b: seq<Entry>, peer: string)
    ensures Visible(a + b, peer) == Visible(a, peer) + Visible(b, peer)
  {
    if a == [] {
      assert a + b == b;
    } else {
      var head := if Shown(a[0], peer) then [a[0]] else [];
      assert a == [a[0]] + a[1..];
      assert a + b == [a[0]] + (a[1..] + b);
      VisibleCons(a[0], a[1..], peer);
      VisibleCons(a[0], a[1..] + b, peer);
      VisibleAppend(a[1..], b, peer);
      ConcatAssociative(head, Visible(a[1..], peer), Visible(b, peer));
    }
  }

  /** A new entry appears at the bottom of the list exactly when it passes the filter. */
  lemma VisibleAfterArrival(inbox: seq<Entry>, e: Entry, peer: string)
    ensures Visible(inbox + [e], peer) == Visible(inbox, peer) + (if Shown(e, peer) then [e] else [])
  {
    VisibleAppend(inbox, [e], peer);
    assert [e][1..] == [];
  }

  /** An entry is drawn on the right: its sender is the wallet ignoring case, or it is a local echo. */
  function IsMe(e: Entry, wallet: string): (r: bool)
    ensures e.isSelf ==> r
    ensures !e.isSelf ==> (r <==> Signature.SameAddress(e.payload.from, wallet))
  {
    ToLower(e.payload.from) == ToLower(wallet) || e.isSelf
  }

  /** A payload from an address other than the wallet is drawn on the left unless it is an echo. */
  lemma OthersAreNotMe(e: Entry, wallet: string)
    requires !e.isSelf && !Signature.SameAddress(e.payload.from, wallet)
    ensures !IsMe(e, wallet)
  {
  }

  /** What a bubble says: the content when it is non-empty, else the first 10 characters of the id. */
  function DisplayText(e: Entry): (r: string)
    ensures e.payload.content.Some? && e.payload.content.value != "" ==> r == e.payload.content.value
    ensures !(e.payload.content.Some? && e.payload.content.value != "") ==>
      && |r| == 19 + (if |e.payload.ipfsHash| < 10 then |e.payload.ipfsHash| else 10)
      && r[..16] == "Encrypted Blob: " && r[|r| - 3..] == "..."
      && r[16..|r| - 3] == e.payload.ipfsHash[..|r| - 19]
  {
    if e.payload.content.Some? && e.payload.content.value != "" then e.payload.content.value
    else "Encrypted Blob: " + Substring(e.payload.ipfsHash, 0, 10) + "..."
  }

  /** The header: "Chat with " and the first six characters of the peer. */
  function Header(peer: string): (r: string)
    ensures |peer| >= 6 ==> r == "Chat with " + peer[..6] + "..."
    ensures |peer| < 6 ==> r == "Chat with " + peer + "..."
  {
    assert peer[..|peer|] == peer;
    "Chat with " + Substring(peer, 0, 6) + "..."
  }

  class Conversation {
    /** The signed-in wallet. */
    const wallet: string
    /** The peer's address (the component's `conversationId` prop). */
    const peer: string
    /** The draft in the input box. */
    var message: string
    /** Every payload received or sent while the pane is mounted, oldest first. */
    var inbox: seq<Entry>

    constructor (wallet: string, peer: string)
      ensures this.wallet == wallet && this.peer == peer
      ensures message == "" && inbox == []
    {
      this.wallet, this.peer := wallet, peer;
      message, inbox := "", [];
    }

    /** The text input's change handler. */
    method Type(text: string)
      modifies this`message
      ensures message == text
    {
      message := text;
    }

    /** The socket 'message' handler: the payload is appended as it came. */
    method Receive(payload: Payload)
      modifies this`inbox
      ensures inbox == old(inbox) + [Entry(payload, false)]
    {
      inbox := inbox + [Entry(payload, false)];
    }

    /**
     * `send`, with `nonce` the random bytes for the box and `now` the clock.
     * A blank draft does nothing. Otherwise the draft as typed is
     * encrypted, uploaded and emitted with its plaintext as `content`, and
     * the payload is echoed at the end of the inbox and the draft cleared;
     * every failure leaves the pane as it was.
     */
    method Send(keyLookup: Option<string>, storedKey: string, scheme: CC.BoxScheme, nonce: seq<byte>,
                upload: string -> Option<string>, now: int)
      returns (outcome: SendOutcome)
      requires |nonce| == CC.NonceLength
      modifies this`message, this`inbox
      ensures outcome == Skipped <==> Trim(old(message)) == ""
      ensures outcome == NoPrivateKey <==> Trim(old(message)) != "" && keyLookup.Some? && storedKey == ""
      ensures outcome == Failed <==>
        && Trim(old(message)) != ""
        && (|| keyLookup.None?
            || (&& storedKey != ""
                && (|| CC.Ciphertext(scheme, storedKey, keyLookup.value, old(message), nonce).None?
                    || upload(CC.Ciphertext(scheme, storedKey, keyLookup.value, old(message), nonce).value).None?)))
      ensures outcome.Sent? <==>
        && Trim(old(message)) != "" && keyLookup.Some? && storedKey != ""
        && CC.Ciphertext(scheme, storedKey, keyLookup.value, old(message), nonce).Some?
        && upload(CC.Ciphertext(scheme, storedKey, keyLookup.value, old(message), nonce).value).Some?
      ensures outcome.Sent? ==>
        && outcome.emitted == Payload(peer, wallet, ConversationId(wallet, peer),
             upload(CC.Ciphertext(scheme, storedKey, keyLookup.value, old(message), nonce).value).value,
             Some(old(message)), now)
        && inbox == old(inbox) + [Entry(outcome.emitted, true)]
        && message == ""
        && Shown(Entry(outcome.emitted, true), peer) && IsMe(Entry(outcome.emitted, true), wallet)
      ensures !outcome.Sent? ==> inbox == old(inbox) && message == old(message)
    {
      if Trim(message) == "" {
        return Skipped;
      }
      if keyLookup.None? {
        return Failed;
      }
      if storedKey == "" {
        return NoPrivateKey;
      }
      var sealed := CC.EncryptForRecipient(scheme, storedKey, keyLookup.value, message, nonce);
      if sealed.Failure? {
        return Failed;
      }
      var hash := upload(sealed.value);
      if hash.None? {
        return Failed;
      }
      var payload := Payload(peer, wallet, ConversationId(wallet, peer), hash.value, Some(message), now);
      inbox := inbox + [Entry(payload, true)];
      message := "";
      outcome := Sent(payload);
    }
  }

  /** Two entries that pass the filter appear, in order, at the bottom of the list. */
  lemma VisibleAfterTwo(inbox: seq<Entry>, first: Entry, second: Entry, peer: string)
    requires Shown(first, peer) && Shown(second, peer)
    ensures Visible(inbox + [first] + [second], peer) == Visible(inbox, peer) + [first, second]
  {
    VisibleAfterArrival(inbox, first, peer);
    VisibleAfterArrival(inbox + [first], second, peer);
  }

  /**
   * A send followed by the peer's reply: the echo and then the reply, at
   * the end of the inbox, both on screen.
   */
  method SendThenReply(c: Conversation, keyLookup: Option<string>, storedKey: string, scheme: CC.BoxScheme,
                       nonce: seq<byte>, upload: string -> Option<string>, now: int, reply: Payload)
    returns (outcome: SendOutcome)
    requires |nonce| == CC.NonceLength && reply.from == c.peer
    modifies c
    ensures outcome.Sent? ==>
      && c.inbox == old(c.inbox) + [Entry(outcome.emitted, true), Entry(reply, false)]
      && Visible(c.inbox, c.peer) == Visible(old(c.inbox), c.peer) + [Entry(outcome.emitted, true), Entry(reply, false)]
  {
    outcome := c.Send(keyLookup, storedKey, scheme, nonce, upload, now);
    c.Receive(reply);
    if outcome.Sent? {
      VisibleAfterTwo(old(c.inbox), Entry(outcome.emitted, true), Entry(reply, false), c.peer);
      assert old(c.inbox) + [Entry(outcome.emitted, true)] + [Entry(reply, false)]
          == old(c.inbox) + [Entry(outcome.emitted, true), Entry(reply, false)];
    }
  }
}
