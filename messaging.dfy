/**
 * What the two chat components send over the socket: the message payload and
 * the canonical conversation id both parties derive from their addresses.
 */
module Messaging {
  import opened Wrappers
  import opened JsString

  /**
   * The object emitted on the socket's 'message' event (`meta.ts` flattened
   * to `ts`). `content` is present only in the payloads the conversation view
   * sends, where it carries the plaintext for the sender's own echo.
   */
  datatype Payload = Payload(
    to: string,
    from: string,
    conversationId: string,
    ipfsHash: string,
    content: Option<string>,
    ts: int)

  /**
   * `[a, b].sort()` with the default comparator: the two strings in ascending
   * UTF-16 code-unit order; the sort is stable, so equal strings stay put.
   */
  function SortPair(a: string, b: string): (r: (string, string))
    ensures r == (a, b) || r == (b, a)
    ensures !Less(r.1, r.0)
  {
    LessTotal(a, b);
    if Less(b, a) then (b, a) else (a, b)
  }

  /** `[a, b].sort().join(':')`: both addresses, the smaller first. */
  function ConversationId(a: string, b: string): (id: string)
    ensures id == a + ":" + b || id == b + ":" + a
    ensures |id| == |a| + |b| + 1
  {
    var (x, y) := SortPair(a, b);
    x + ":" + y
  }

  /** Both parties compute the same id, whichever of them is `wallet`. */
  lemma ConversationIdSymmetric(a: string, b: string)
    ensures ConversationId(a, b) == ConversationId(b, a)
  {
    LessTotal(a, b);
  }
}
