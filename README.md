# arc-chat, modelled in Dafny

arc-chat is a wallet-based chat with end-to-end encryption. A user signs a
server-issued nonce with an Ethereum wallet to log in, and registers a NaCl
public key in the backend's key directory. Messages are boxed in the
browser for the recipient, uploaded as base64 to an upload stub that returns
a fake content id, and announced over Socket.IO. The relay forwards each
payload to the recipient's room only. A dashboard shows whether a paid chat
session is running. It pays for another hour of session through a Circle
wallet or on chain, with a USDC fee, and records the new expiry in
localStorage.

The model covers:

- **Backend (`AuthServer`).** A class over the backend's two maps (nonces and
  public keys) and its socket rooms. It has one method per request handler,
  and each returns a status and a body.
- **Signature check (`Signature`).** `verifySignature`, over an abstract
  signer recovery.
- **Encryption envelope (`CryptoClient`).** This builds base64 of the nonce
  followed by the box. Base64 (`Base64`) and UTF-8 (`Utf8`) are written out
  and proved to round-trip. The box primitive is a parameter constrained by a
  stated hypothesis, `Sound`.
- **Chat screens (`ConversationView`, `ChatView`).** The two components'
  `send` procedures, inbox updates and display rules. `Messaging` holds the
  shared payload and conversation id.
- **Sidebar (`Sidebar`).** Address shortening and the contact rows.
- **Dashboard (`Dashboard`, `ChainConfig`).** The session merge, the payment
  paths, the fee arithmetic and the chain constants.

The JavaScript built-ins these rely on are modelled with their JavaScript
meaning (`JsString`, `Hex`):

- `toLowerCase`;
- `trim` with JavaScript's white-space set;
- `substring` with its clamping and swapping, counted in characters (see "## Left out");
- `includes`;
- the default `sort` order (UTF-16 code units);
- `parseInt` and `toString`;
- `Buffer#toString('hex')`.

Some behaviours worth knowing, all as the code has them:

- The nonce is deleted only after a successful verify. A failed signature
  check returns 401 and leaves the nonce valid for a retry
  (`AuthServer.FailedVerifyKeepsNonce`).
- The relay addresses only the recipient's room. The sender's own sockets get
  the payload too when the recipient is the sender's own address up to case,
  as when a user messages themselves (`AuthServer.SelfMessageScenario`;
  `AuthServer.RelayScenario` has the distinct case).
- The conversation pane emits the plaintext in the payload's `content` field,
  next to the encrypted upload. The relay and the recipient therefore see
  it. `ConversationView.Conversation.Send` states this.
- The chat screen's payload carries no `content`.
- On the on-chain payment path, a fee paid on chain whose backend sync then
  fails is reported as a failed payment, and no expiry is recorded
  (`Dashboard.PaidButNotSynced`).

## Model

| member | source | states |
|---|---|---|
| `AuthServer.UploadId` | backend/src/index.ts:69 | the fake content id is "Qm" followed by 36 lower-case hex digits (38 characters), built from the random bytes alone |
| `AuthServer.Server.constructor` | backend/src/index.ts:23-48 | the server starts with no nonces, no keys and no rooms, and its invariant holds: lower-cased keys, 32-hex-digit nonces, non-empty public keys |
| `AuthServer.Server.IssueNonce` | backend/src/index.ts:25-31 | without a wallet: 400 and `nonces` unchanged; otherwise 200 with a nonce of 32 hex digits from 16 random bytes, stored under the lower-cased wallet in place of any earlier one |
| `AuthServer.Server.Verify` | backend/src/index.ts:33-45 | checks run in order: 400 for a missing wallet or signature; 400 "nonce not found" when no nonce is stored under the lower-cased wallet; 401 on a bad signature, with the nonce kept; otherwise 200 with a token for the wallet as given, and the nonce deleted |
| `AuthServer.Server.RegisterKey` | backend/src/index.ts:49-54 | 400 when the wallet or the key is missing; otherwise the key is upserted under the lower-cased wallet |
| `AuthServer.Server.LookupKey` | backend/src/index.ts:56-61 | the key stored under the lower-cased wallet, or 404; nothing changes |
| `AuthServer.Server.Upload` | backend/src/index.ts:64-71 | 400 without a ciphertext; otherwise 200 with a "Qm"+hex id that does not depend on the ciphertext; nothing is stored |
| `AuthServer.Server.Join` | backend/src/index.ts:76-78 | the socket is added to the room named by the lower-cased wallet; other rooms are unchanged |
| `AuthServer.Server.Relay` | backend/src/index.ts:79-83 | the payload, unchanged, reaches exactly the sockets in the room of the lower-cased recipient |
| `AuthServer.NonceIsSingleUse` | backend/src/index.ts:36-43 | after a successful verify, the same verify again gets 400 "nonce not found" |
| `AuthServer.FailedVerifyKeepsNonce` | backend/dist/index.js:39-43 | a 401 leaves the nonce in place, and a later correct signature for it gets a token |
| `AuthServer.NonceFoundInAnyCasing` | backend/dist/index.js:29-36 | a nonce requested as "0xAAA" is found when verifying as "0xaaa" |
| `AuthServer.KeyDirectoryScenario` | backend/dist/index.js:48-61 | 404 before registration, then "PK1" after registering as "0xAAA", then "PK2" after re-registering, looked up in any casing |
| `AuthServer.RelayScenario` | backend/dist/index.js:75-82 | with distinct sender and recipient addresses, joined in any casing, the recipient's socket gets the payload and the sender's socket does not |
| `AuthServer.SelfMessageScenario` | backend/src/index.ts:79-83 | when `to` is the sender's own address up to case, the sender's socket, joined under `from`, receives the payload |
| `Signature.VerifySignature` | backend/src/utils/crypto.ts:5-13 | true iff the signer recovered from the nonce itself equals the wallet ignoring case; false when recovery fails |
| `Signature.OtherSignerRejected` | backend/dist/utils/crypto.js:8-9 | a signature that recovers to another address is refused |
| `Signature.CaseInsensitive` | backend/src/utils/crypto.ts:9 | two spellings of a wallet that agree once lower-cased get the same verdict |
| `Signature.UpperCaseWalletSameVerdict` | backend/dist/utils/crypto.js:9 | an upper-cased wallet gets the same verdict as the lower-cased one |
| `JsString.ToLower` | backend/src/index.ts:29 | `toLowerCase` keeps the length and folds each character on its own |
| `JsString.ToLowerIdempotent` | backend/src/index.ts:57 | lower-casing a stored (lower-case) key again changes nothing |
| `JsString.ToLowerOfToUpper` | backend/src/utils/crypto.ts:9 | lower-casing forgets any upper-casing |
| `JsString.TrimStart` | frontend/src/components/ui/Conversation.tsx:29 | removes exactly the leading white space: the result is a suffix that starts with a non-space |
| `JsString.TrimEnd` | frontend/src/components/ui/Conversation.tsx:29 | removes exactly the trailing white space: the result is a prefix that ends with a non-space |
| `JsString.Trim` | frontend/src/components/ui/Conversation.tsx:29 | `trim()` is the piece of the input left once exactly the white space before and after it is removed: only white space lies on either side of it, and it neither starts nor ends with white space |
| `JsString.TrimEmptyIffBlank` | frontend/src/components/ui/Conversation.tsx:29 | `trim()` is empty exactly when the draft is all white space |
| `JsString.Includes` | frontend/src/components/ui/Conversation.tsx:79 | `includes` holds iff the substring occurs at some position |
| `JsString.Substring` | frontend/src/components/ui/Conversation.tsx:88 | the result is a piece of the input: the slice between the two indices once each is clamped into the string's bounds, taken in ascending order when the start is past the end; in-range indices give that slice, and indices covering the whole string give it all |
| `JsString.Less` | frontend/src/components/ui/Conversation.tsx:51 | the `<` used by `sort` never holds between equal strings |
| `JsString.LessTotal` | frontend/src/components/ui/Conversation.tsx:51 | the default sort order on strings is total, asymmetric and irreflexive |
| `JsString.NatDigits` | frontend/src/components/Dashboard.tsx:111 | `toString` of a non-negative integer writes decimal digits whose value is that integer |
| `JsString.DecimalString` | frontend/src/components/Dashboard.tsx:111 | `toString` of an integer: a leading "-" exactly for negatives, then the digits of its magnitude |
| `JsString.ParseInt` | frontend/src/components/Dashboard.tsx:99 | NaN (None) unless the text holds a digit; a plain run of digits reads as its decimal value |
| `JsString.ParseIntOfDecimalString` | frontend/src/components/Dashboard.tsx:99 | `parseInt(n.toString(), 10)` gives back n |
| `Hex.BytesToHex` | backend/src/index.ts:28 | two lower-case hex digits per byte |
| `Hex.HexRoundTrip` | backend/dist/index.js:28 | the hex text of the random bytes determines them: reading it back gives the same bytes |
| `Hex.NatToHex` | frontend/src/components/chainConfig.ts:13 | the reference hex rendering of a number: hex digits whose value is the number, with no leading zero; `ChainConfig.ChainIdHexAgrees` checks the hand-written `CHAIN_ID_HEX` literal against it |
| `Base64.IndexOf` | frontend/src/utils/cryptoClient.ts:4 | decoding a character inverts the RFC 4648 alphabet, and '=' and other characters are not in it |
| `Base64.Encode` | frontend/src/utils/cryptoClient.ts:5 | four characters for every started group of three bytes |
| `Base64.Decode` | frontend/src/utils/cryptoClient.ts:4 | a length that is not a multiple of four is an error; 4k characters decode to between 3k-2 and 3k bytes |
| `Base64.DecodeIff` | frontend/src/utils/cryptoClient.ts:4 | `decodeBase64` succeeds exactly on well-formed text: whole groups of four alphabet characters, only the last of which may end in "=" or "=="; everything else is the "invalid encoding" error |
| `Base64.EncodeKnownAnswers` | frontend/src/utils/cryptoClient.ts:5 | the test vectors of section 10 of RFC 4648: "f", "fo", "foo" and "foobar" encode to "Zg==", "Zm8=", "Zm9v" and "Zm9vYmFy" |
| `Base64.DecodeGroupsOfEncode` | frontend/src/utils/cryptoClient.ts:4-5 | decoding the groups of an encoding gives back the bytes, padding included |
| `Base64.RoundTrip` | frontend/src/utils/cryptoClient.ts:4-5 | `decodeBase64(encodeBase64(b)) == b` for every byte string |
| `Utf8.EncodeChar` | frontend/src/utils/cryptoClient.ts:12 | a character takes one to four bytes |
| `Utf8.EncodeCharKnownAnswers` | frontend/src/utils/cryptoClient.ts:12 | "$", U+00A3, U+20AC and U+10348 encode to the one-, two-, three- and four-byte sequences of RFC 3629 |
| `Utf8.Encode` | frontend/src/utils/cryptoClient.ts:12 | `decodeUTF8` gives one to four bytes per character |
| `Utf8.DecodeChar` | frontend/src/utils/cryptoClient.ts:28 | a decoded character never reads past the input, and takes at most four bytes |
| `Utf8.EncodeOfDecodeChar` | frontend/src/utils/cryptoClient.ts:28 | the bytes a decoded character consumed are exactly that character's encoding, so overlong forms, surrogates and values past U+10FFFF are refused |
| `Utf8.Decode` | frontend/src/utils/cryptoClient.ts:28 | text read from well-formed bytes has at most one character per byte and at least one per four bytes |
| `Utf8.EncodeOfDecode` | frontend/src/utils/cryptoClient.ts:28 | whatever `encodeUTF8` accepts is the encoding of the text it returns |
| `Utf8.DecodeIff` | frontend/src/utils/cryptoClient.ts:28 | `encodeUTF8` succeeds exactly on byte strings that are the encoding of some string; on all others it throws |
| `Utf8.DecodeCharOfEncode` | frontend/src/utils/cryptoClient.ts:28 | the first character of an encoding is read back whole, with its exact length |
| `Utf8.RoundTrip` | frontend/src/utils/cryptoClient.ts:12-28 | the plaintext survives `decodeUTF8` followed by `encodeUTF8` |
| `CryptoClient.Envelope` | frontend/src/utils/cryptoClient.ts:9-16 | the encrypted bytes start with the nonce; a key that is not base64 is an encoding error, and the only one |
| `CryptoClient.SetAt` | frontend/src/utils/cryptoClient.ts:14-16 | `TypedArray#set` copies the source in at the offset and leaves the rest of the buffer as it was |
| `CryptoClient.EncryptForRecipient` | frontend/src/utils/cryptoClient.ts:8-18 | the zero-filled buffer filled in place holds exactly nonce then box, and its base64 is returned; each failure is reported as the envelope's error |
| `CryptoClient.Split` | frontend/src/utils/cryptoClient.ts:24-25 | the two slices rejoin to the input, and the first is min(24, length) long |
| `CryptoClient.SplitInvertsJoin` | frontend/src/utils/cryptoClient.ts:14-25 | splitting an envelope at 24 gives back the nonce and the box it was built from |
| `CryptoClient.DecryptWithSecretKey` | frontend/src/utils/cryptoClient.ts:20-29 | returns text only when the box opened and its bytes are UTF-8 of that text; a non-base64 input is an encoding error, and the only one |
| `CryptoClient.RoundTrip` | frontend/src/utils/cryptoClient.ts:8-28 | under `Sound`, what A encrypts for B with 32-byte keys, B decrypts to the same plaintext, and the envelope is 24 + UTF-8 length + 16 bytes |
| `CryptoClient.ToySchemeIsSound` | frontend/src/utils/cryptoClient.ts:13-26 | the box/open hypothesis `Sound` can be met, so the round trip is not vacuous |
| `Messaging.SortPair` | frontend/src/components/ui/Conversation.tsx:51 | `[a, b].sort()` is a permutation of the pair in ascending UTF-16 order |
| `Messaging.ConversationId` | frontend/src/components/Chat.tsx:32 | the id is one address, ':' and the other |
| `Messaging.ConversationIdSymmetric` | frontend/src/components/ui/Conversation.tsx:51 | both parties derive the same id |
| `ConversationView.Visible` | frontend/src/components/ui/Conversation.tsx:79 | an entry is listed iff its conversation id contains the peer, or its `to` or `from` equals the peer (case-sensitive) |
| `ConversationView.Shown` | frontend/src/components/ui/Conversation.tsx:79 | a payload the peer sent or received is always listed, whatever its conversation id |
| `ConversationView.ConversationIdShown` | frontend/src/components/ui/Conversation.tsx:79 | a payload filed under the id of a pair that includes the peer is listed, whoever sent it |
| `ConversationView.VisibleAppend` | frontend/src/components/ui/Conversation.tsx:79 | the filter keeps inbox order |
| `ConversationView.VisibleAfterArrival` | frontend/src/components/ui/Conversation.tsx:18-19 | a new arrival shows at the bottom exactly when it passes the filter |
| `ConversationView.OthersAreNotMe` | frontend/src/components/ui/Conversation.tsx:80 | an entry that is not an echo and whose sender differs from the wallet ignoring case is not drawn as the wallet's |
| `ConversationView.IsMe` | frontend/src/components/ui/Conversation.tsx:80 | an echo is drawn as the wallet's; any other entry exactly when its sender is the wallet ignoring case |
| `ConversationView.DisplayText` | frontend/src/components/ui/Conversation.tsx:88 | the content when non-empty; otherwise "Encrypted Blob: ", the first 10 characters of the id (fewer when shorter) and "..." |
| `ConversationView.Header` | frontend/src/components/ui/Conversation.tsx:74 | the header shows the first six characters of the peer |
| `ConversationView.Conversation.constructor` | frontend/src/components/ui/Conversation.tsx:9-11 | an empty draft and an empty inbox |
| `ConversationView.Conversation.Type` | frontend/src/components/ui/Conversation.tsx:106 | the draft becomes what was typed |
| `ConversationView.Conversation.Receive` | frontend/src/components/ui/Conversation.tsx:18-19 | an incoming payload is appended |
| `ConversationView.Conversation.Send` | frontend/src/components/ui/Conversation.tsx:28-68 | each outcome is stated as an iff: Skipped exactly for a blank draft; NoPrivateKey exactly when the key lookup succeeded but no private key is stored; Failed exactly when the lookup, the encryption or the upload fails. Sent iff all three succeed: the payload to the peer, with the sorted id and the plaintext, is emitted and echoed once at the end, and the draft is cleared. Otherwise nothing changes |
| `ConversationView.SendThenReply` | frontend/src/components/ui/Conversation.tsx:57-61 | after a send and a reply from the peer, both are shown at the bottom, echo first |
| `ChatView.Chat.constructor` | frontend/src/components/Chat.tsx:8-11 | empty recipient, draft and inbox |
| `ChatView.Chat.Receive` | frontend/src/components/Chat.tsx:15-16 | an incoming payload is prepended |
| `ChatView.Chat.SetTo` | frontend/src/components/Chat.tsx:41 | the recipient field becomes what was typed |
| `ChatView.Chat.SetMessage` | frontend/src/components/Chat.tsx:42 | the draft becomes what was typed |
| `ChatView.Chat.Send` | frontend/src/components/Chat.tsx:21-35 | no draft guard; each outcome is stated as an iff: NoPrivateKey exactly when the lookup succeeded but no private key is stored; Rejected exactly when the lookup, the encryption or the upload fails. Sent iff all three succeed: a payload with `to` as typed, the wallet as sender and no content; the draft is cleared, and the recipient and inbox are kept |
| `ChatView.TwoArrivals` | frontend/src/components/Chat.tsx:15-16 | payloads are listed newest first |
| `ChatView.TypeThenSend` | frontend/src/components/Chat.tsx:21-42 | a send after typing names the typed recipient and the wallet, files the payload under the id both parties derive, and carries no plaintext |
| `Sidebar.Short` | frontend/src/components/ui/Sidebar.tsx:10-13 | "" for ""; otherwise the first min(6, n) characters, "..." and the characters from max(0, n-4) |
| `Sidebar.ShortOfLongAddress` | frontend/src/components/ui/Sidebar.tsx:12 | for at least 10 characters: 13 characters, the first six, "..." and the last four |
| `Sidebar.ShortOfTinyAddress` | frontend/src/components/ui/Sidebar.tsx:12 | an address under four characters appears whole on both sides |
| `Sidebar.ShortDropsMiddle` | frontend/src/components/ui/Sidebar.tsx:12 | everything between the first six and the last four characters is dropped |
| `Sidebar.AliceShortened` | frontend/src/components/ui/Sidebar.tsx:5 | the first demo contact is shown as "0x7099...79C8" |
| `Sidebar.RowOf` | frontend/src/components/ui/Sidebar.tsx:41-45 | the badge is shown iff unread > 0, and then shows the count |
| `Sidebar.Rows` | frontend/src/components/ui/Sidebar.tsx:31-47 | one row per contact, in order |
| `Sidebar.Select` | frontend/src/components/ui/Sidebar.tsx:34 | clicking row i hands contact i's address to `onSelect` |
| `Sidebar.DemoSidebar` | frontend/src/components/ui/Sidebar.tsx:34 | clicking a row selects its contact's address; only the first demo row has a badge |
| `Dashboard.EffectiveId` | frontend/src/components/Dashboard.tsx:25 | the Circle wallet id when set, else the wallet; empty iff both are |
| `Dashboard.ExpiryKeyIgnoresCase` | frontend/src/components/Dashboard.tsx:89 | every casing of the wallet names the same localStorage key |
| `Dashboard.ExpiryKey` | frontend/src/components/Dashboard.tsx:89 | the key is "sessionExpiry_" followed by as many characters as the wallet has |
| `Dashboard.ExpiryKeySharedIffSameAddress` | frontend/src/components/Dashboard.tsx:89 | two wallets share an expiry exactly when they are the same address up to case |
| `Dashboard.MergeSession` | frontend/src/components/Dashboard.tsx:97-112 | an active server status stands; an inactive one is replaced by active with `exp - now` (> 0) when the stored expiry parses and lies in the future, and otherwise stands |
| `Dashboard.StoredExpiryCounts` | frontend/src/components/Dashboard.tsx:99-105 | an expiry written with `toString` counts for exactly the time left before it, and not after |
| `Dashboard.ApprovalAmount` | frontend/src/components/Dashboard.tsx:177-182 | approval is requested iff the allowance is below one fee, and then for 100 fees |
| `Dashboard.CircleExpiry` | frontend/src/components/Dashboard.tsx:147 | the backend's `newExpiry` when truthy, else now + 3,600,000 |
| `Dashboard.RemainingMinutes` | frontend/src/components/Dashboard.tsx:234 | `Math.floor(ms / 60000)`: the largest m with m * 60000 <= ms |
| `Dashboard.Dashboard.constructor` | frontend/src/components/Dashboard.tsx:13 | the status starts inactive with 0 ms |
| `Dashboard.Dashboard.FetchData` | frontend/src/components/Dashboard.tsx:57-119 | nothing without an id, and nothing when a Circle user without an injected wallet cannot read the backend balance (the throw skips the session check); otherwise the status becomes the merge of the server status (inactive when unreachable) with the stored expiry, and an active server session is written back as now + remainingMs |
| `Dashboard.Dashboard.ExtendSession` | frontend/src/components/Dashboard.tsx:121-232 | not confirmed: nothing. Circle path iff a wallet id is set. On chain: stops at no wallet, wrong network, refused approval (asked only below one fee) or a failed payment or sync. On success the expiry (Circle's, or now + 1 h) is stored under the wallet's key; on failure nothing is stored |
| `Dashboard.PayThenPoll` | frontend/src/components/Dashboard.tsx:205-216 | after an on-chain payment, a poll that finds no server session shows the rest of the hour from the stored expiry, and inactive once it has passed |
| `Dashboard.PaidButNotSynced` | frontend/src/components/Dashboard.tsx:197-223 | a fee paid on chain whose backend sync fails is reported as a failed payment and leaves no expiry |
| `ChainConfig.ChainIdHexAgrees` | frontend/src/components/chainConfig.ts:12-15 | "0x" + hex of 5042002 is "0x4cef52", and the network parameters use it |
| `ChainConfig.HourlyRateAgrees` | frontend/src/components/chainConfig.ts:7-9 | "0.001" at 6 decimals is 1000 base units |
| `ChainConfig.DeploymentAgrees` | frontend/src/components/chainConfig.ts:3-12 | the chain id matches the Hardhat `arc_testnet` entry, and the addresses and fee match the session script |

## Left out

- Cryptographic primitives are not modelled:
  - the NaCl box (X25519, XSalsa20-Poly1305) is a parameter of type `BoxScheme`;
  - secp256k1/EIP-191 signer recovery is a parameter of type `Recover`;
  - JWT signing is a function of the wallet.
  tweetnacl's box, ethers and jsonwebtoken are not part of this model. The four tweetnacl-util conversions (base64 and UTF-8, both ways) are modelled (`Base64`, `Utf8`).
- CryptoClient.RoundTrip: proved under the hypothesis `Sound` (sealing with 32-byte keys and a 24-byte nonce succeeds and opening inverts it), which the real primitive is trusted to meet.
- CryptoClient.DecryptWithSecretKey: nacl.box.open returning null and nacl.box.open throwing on a bad key or nonce size are both `DecryptionFailed`.
- AuthServer.Server.Verify: the token is a function of the wallet only; its secret and its seven-day expiry are not modelled.
- Randomness (`randomBytes`, `nacl.randomBytes`) and the clock (`Date.now()`) are parameters. `fetchData` reads the clock once, in one of two branches, which is the `now` parameter.
- Transport is reduced to the values exchanged: HTTP routing, CORS, Socket.IO delivery, React rendering, effects, timers, scrolling, `alert` and `confirm`.
- Connection handling: socket disconnection and `socket.off` on unmount.
- Concurrency: interleaving between the `await` points of `send`, `fetchData` and `extendSession`.
- Request fields that are not strings (where `toLowerCase` would throw) are not modelled. An absent field and an empty one are both "".
- JsString.ToLower: folds the ASCII letters only, which covers hex addresses; JavaScript also folds other scripts.
- ConversationView.Visible: a payload without a `conversationId` is modelled with "" there; the source's `?.` then skips `includes`, which differs only for an empty peer.
- Dashboard.MergeSession: `parseInt` is exact on integers; JavaScript rounds numbers past 2^53.
- JsString.Substring, Sidebar.Short, ConversationView.DisplayText, ConversationView.Header: indices and lengths count Unicode scalar values. JavaScript counts UTF-16 code units, so the two differ for text with characters above U+FFFF. Example: `short` of "😀abcdefghij" is "😀abcd...ghij" in JavaScript and "😀abcde...ghij" here. These functions are applied to hex addresses and content ids, where the two agree.
- Utf8.Decode, CryptoClient.EncryptForRecipient: a JavaScript string can hold a lone surrogate, on which `encodeURIComponent` inside `decodeUTF8` throws URIError so that `send` takes its catch path; a Dafny `string` cannot hold one, so that input is not modelled.
- JsString.NatDigits: `toString` of numbers from 10^21 up, which switches to exponent notation, is not modelled.
- Dashboard.Dashboard.FetchData: the balance itself (wallet RPC, `formatUnits`, `parseFloat(...).toFixed(4)`, the backend balance fallback) is not modelled. Only whether the backend fallback fails is a parameter, because that failure skips the session check.
- Dashboard.Dashboard.ExtendSession: `checkAndSwitchNetwork`, the allowance call, approval, payment and sync are reduced to their outcomes. A throw from `provider.getSigner()` or from the `allowance` read is not a separate outcome; its effect, nothing stored, is that of any other failure. The alert texts, the loading flag and the status message are not modelled. The unawaited `fetchData()` after success is not modelled; a later poll is modelled as a separate call (see `Dashboard.PayThenPoll`).
- The "contract address missing" alert is left out. The address is a non-empty constant default (`ChainConfig.SessionContractAddress`), so that branch cannot run.
- The Circle reply's `newExpiry` is taken to be a number; 0 stands for a missing one.
- The backend's `/session` and `/payment` endpoints are not part of this model. Their replies are parameters.
