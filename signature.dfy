/**
 * The backend's `verifySignature(wallet, nonce, signature)`: recover the
 * address that signed the nonce and compare it with the claimed wallet,
 * ignoring letter case. Signer recovery (EIP-191 personal-message hashing and
 * secp256k1 public-key recovery, done inside ethers) is a parameter: a
 * partial function from (message, signature) to an address, where `None`
 * stands for ethers throwing on a malformed or unrecoverable signature.
 */
module Signature {
  import opened Wrappers
  import opened JsString

  /** ethers.utils.verifyMessage(message, signature), or `None` when it throws. */
  type Recover = (string, string) -> Option<string>

  /** Two addresses that are equal once lower-cased. */
  predicate SameAddress(a: string, b: string)
  {
    ToLower(a) == ToLower(b)
  }

  /**
   * True exactly when the signer recovered from the nonce itself (no prefix
   * or other text added here) is the wallet, ignoring case; a recovery that
   * throws yields false instead of an exception.
   */
  function VerifySignature(recover: Recover, wallet: string, nonce: string, signature: string): (valid: bool)
    ensures valid <==> (recover(nonce, signature).Some? && SameAddress(recover(nonce, signature).value, wallet))
    ensures recover(nonce, signature).None? ==> !valid
  {
    match recover(nonce, signature)
    case None => false
    case Some(signer) => ToLower(signer) == ToLower(wallet)
  }

  /** A signature that recovers to a different address is refused. */
  lemma OtherSignerRejected(recover: Recover, wallet: string, nonce: string, signature: string)
    requires recover(nonce, signature).Some?
    requires !SameAddress(recover(nonce, signature).value, wallet)
    ensures !VerifySignature(recover, wallet, nonce, signature)
  {
  }

  /** The verdict only depends on the wallet's lower-cased form. */
  lemma CaseInsensitive(recover: Recover, w1: string, w2: string, nonce: string, signature: string)
    requires SameAddress(w1, w2)
    ensures VerifySignature(recover, w1, nonce, signature) == VerifySignature(recover, w2, nonce, signature)
  {
  }

  /** In particular, a wallet typed in capitals verifies exactly as the lower-case one does. */
  lemma UpperCaseWalletSameVerdict(recover: Recover, wallet: string, nonce: string, signature: string)
    ensures VerifySignature(recover, ToUpper(wallet), nonce, signature)
         == VerifySignature(recover, ToLower(wallet), nonce, signature)
  {
    ToLowerOfToUpper(wallet);
    ToLowerIdempotent(wallet);
  }
}
