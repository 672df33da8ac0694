/**
 * The dashboard's session bookkeeping: the displayed session status,
 * reconciled from the backend's answer and an expiry time the browser
 * keeps in localStorage, and the two ways of paying for another hour,
 * through the Circle wallet or on chain, each of which records the new
 * expiry locally.
 *
 * The backend replies, the wallet's answers and the clock are parameters;
 * localStorage is a map from key to text in which a missing key reads as
 * "" (both are falsy where the component tests them).
 */
module Dashboard {
  import opened Wrappers
  import opened JsString
  import ChainConfig

  /** One hour, the session a payment buys. */
  const SessionMs := 60 * 60 * 1000
  const MsPerMinute := 60000

  /** Whether a session runs, and for how many more milliseconds. */
  datatype SessionStatus = SessionStatus(active: bool, remainingMs: int)

  /** The status assumed when the backend cannot be asked. */
  const Inactive := SessionStatus(false, 0)

  /** The Circle payment endpoint's reply; a `newExpiry` of 0 stands for a missing one. */
  datatype CircleReply = CircleReply(success: bool, newExpiry: int)

  /** Where an extension stopped; each is an alert in the source. */
  datatype Stage = CirclePayment | NoWallet | Network | Approval | Payment

  datatype ExtendOutcome =
    | Cancelled
    | Failed(stage: Stage)
    | Extended(expiry: int, approved: Option<int>)

  /** `walletId || wallet`: the id the backend knows the user by. */
  function EffectiveId(walletId: string, wallet: string): (id: string)
    ensures id == "" <==> walletId == "" && wallet == ""
    ensures walletId != "" ==> id == walletId
  {
    if walletId != "" then walletId else wallet
  }

  /** The localStorage key of a wallet's expiry, the same for every casing of the address. */
  function ExpiryKey(wallet: string): (key: string)
    ensures |key| == 14 + |wallet| && key[..14] == "sessionExpiry_"
  {
    "sessionExpiry_" + ToLower(wallet)
  }

  /** Two wallets share an expiry exactly when they are the same address in different casings. */
  lemma ExpiryKeySharedIffSameAddress(a: string, b: string)
    ensures ExpiryKey(a) == ExpiryKey(b) <==> ToLower(a) == ToLower(b)
  {
    if ExpiryKey(a) == ExpiryKey(b) {
      assert ExpiryKey(a)[14..] == ToLower(a);
      assert ExpiryKey(b)[14..] == ToLower(b);
    }
  }

  lemma ExpiryKeyIgnoresCase(wallet: string)
    ensures ExpiryKey(ToUpper(wallet)) == ExpiryKey(wallet)
  {
    ToLowerOfToUpper(wallet);
  }

  function Stored(storage: map<string, string>, key: string): string
  {
    if key in storage then storage[key] else ""
  }

  /**
   * The status shown after a poll: a backend that reports no session is
   * overruled by a stored expiry still in the future; otherwise the
   * backend's status stands.
   */
  function MergeSession(server: SessionStatus, localExpiry: string, now: int): (r: SessionStatus)
    ensures server.active ==> r == server
    ensures !server.active && ParseInt(localExpiry).Some? && ParseInt(localExpiry).value > now ==>
      r == SessionStatus(true, ParseInt(localExpiry).value - now) && r.remainingMs > 0
    ensures !server.active && !(ParseInt(localExpiry).Some? && ParseInt(localExpiry).value > now) ==>
      r == server
  {
    if !server.active && localExpiry != "" then
      match ParseInt(localExpiry)
      case Some(exp) => if exp > now then SessionStatus(true, exp - now) else server
      case None => server
    else server
  }

  /** A stored expiry `e` reads back as `e`, so it counts for exactly the time left before `e`. */
  lemma StoredExpiryCounts(server: SessionStatus, expiry: int, now: int)
    requires !server.active
    ensures expiry > now ==> MergeSession(server, DecimalString(expiry), now) == SessionStatus(true, expiry - now)
    ensures expiry <= now ==> MergeSession(server, DecimalString(expiry), now) == server
  {
    ParseIntOfDecimalString(expiry);
  }

  /** The approval asked for before paying: a hundred fees' worth, and only when the allowance is short of one fee. */
  function ApprovalAmount(allowance: int): (r: Option<int>)
    ensures r.Some? <==> allowance < ChainConfig.HourlyRateUnits
    ensures r.Some? ==> r.value == 100 * ChainConfig.HourlyRateUnits
  {
    if allowance < ChainConfig.HourlyRateUnits then Some(ChainConfig.HourlyRateUnits * 100) else None
  }

  /** The expiry recorded after a Circle payment: the backend's, or an hour from now when it sent none. */
  function CircleExpiry(newExpiry: int, now: int): (e: int)
    ensures newExpiry != 0 ==> e == newExpiry
    ensures newExpiry == 0 ==> e == now + SessionMs
  {
    if newExpiry != 0 then newExpiry else now + SessionMs
  }

  /** `Math.floor(remainingMs / 60000)`: whole minutes, rounding down. */
  function RemainingMinutes(ms: int): (m: int)
    ensures m * MsPerMinute <= ms < (m + 1) * MsPerMinute
  {
    ms / MsPerMinute
  }

  class Dashboard {
    const wallet: string
    /** The Circle wallet id, "" for a user signed in with an external wallet. */
    const walletId: string
    /** localStorage. */
    var storage: map<string, string>
    /** The `sessionStatus` state. */
    var sessionStatus: SessionStatus

    constructor (wallet: string, walletId: string, storage: map<string, string>)
      ensures this.wallet == wallet && this.walletId == walletId
      ensures this.storage == storage && sessionStatus == Inactive
    {
      this.wallet, this.walletId := wallet, walletId;
      this.storage, sessionStatus := storage, Inactive;
    }

    /**
     * The session part of `fetchData`: nothing without an id. Without an
     * injected wallet, a Circle user's balance comes from the backend, and
     * a failure there (`balanceFailed`) throws past the session check, so
     * nothing changes either. Otherwise the backend's status (`None` when
     * the request fails) is merged with the stored expiry, and a
     * backend-reported session is written back as an expiry
     * `now + remainingMs`. A failed read through the injected wallet is
     * caught on the spot and does not stop the session check.
     */
    method FetchData(hasProvider: bool, balanceFailed: bool, server: Option<SessionStatus>, now: int)
      modifies this`storage, this`sessionStatus
      ensures EffectiveId(walletId, wallet) == "" ==>
        storage == old(storage) && sessionStatus == old(sessionStatus)
      ensures !hasProvider && walletId != "" && balanceFailed ==>
        storage == old(storage) && sessionStatus == old(sessionStatus)
      ensures EffectiveId(walletId, wallet) != "" && !(!hasProvider && walletId != "" && balanceFailed) ==>
        var reported := if server.Some? then server.value else Inactive;
        && sessionStatus == MergeSession(reported, Stored(old(storage), ExpiryKey(wallet)), now)
        && storage == (if reported.active
                       then old(storage)[ExpiryKey(wallet) := DecimalString(now + reported.remainingMs)]
                       else old(storage))
    {
      if EffectiveId(walletId, wallet) == "" {
        return;
      }
      if !hasProvider && walletId != "" && balanceFailed {
        return;
      }
      var key := ExpiryKey(wallet);
      var localExpiry := Stored(storage, key);
      var sessionData := Inactive;
      if server.Some? {
        sessionData := server.value;
      }
      if !sessionData.active && localExpiry != "" {
        var exp := ParseInt(localExpiry);
        if exp.Some? && exp.value > now {
          sessionData := SessionStatus(true, exp.value - now);
        }
      } else if sessionData.active {
        storage := storage[key := DecimalString(now + sessionData.remainingMs)];
      }
      sessionStatus := sessionData;
    }

    /**
     * `extendSession`. A user who does not confirm pays nothing. With a
     * Circle wallet id the backend pays and its expiry is recorded; the
     * on-chain path needs a wallet on the right network, approves a
     * hundred fees when the allowance is short of one, pays the fee, tells
     * the backend, and records an expiry an hour from now. A failure at any
     * step records nothing.
     */
    method ExtendSession(confirmed: bool, circle: Option<CircleReply>, hasProvider: bool, networkOk: bool,
                         allowance: int, approvalOk: bool, paymentOk: bool, syncOk: bool, now: int)
      returns (outcome: ExtendOutcome)
      modifies this`storage
      ensures !confirmed ==> outcome == Cancelled
      ensures confirmed && walletId != "" ==>
        if circle.Some? && circle.value.success
        then outcome == Extended(CircleExpiry(circle.value.newExpiry, now), None)
        else outcome == Failed(CirclePayment)
      ensures confirmed && walletId == "" ==>
        outcome ==
          if !hasProvider then Failed(NoWallet)
          else if !networkOk then Failed(Network)
          else if ApprovalAmount(allowance).Some? && !approvalOk then Failed(Approval)
          else if !paymentOk || !syncOk then Failed(Payment)
          else Extended(now + SessionMs, ApprovalAmount(allowance))
      ensures outcome.Extended? ==> storage == old(storage)[ExpiryKey(wallet) := DecimalString(outcome.expiry)]
      ensures !outcome.Extended? ==> storage == old(storage)
    {
      if !confirmed {
        return Cancelled;
      }
      if walletId != "" {
        if circle.None? || !circle.value.success {
          return Failed(CirclePayment);
        }
        var newExpiry := CircleExpiry(circle.value.newExpiry, now);
        storage := storage[ExpiryKey(wallet) := DecimalString(newExpiry)];
        return Extended(newExpiry, None);
      }
      if !hasProvider {
        return Failed(NoWallet);
      }
      if !networkOk {
        return Failed(Network);
      }
      var approval := ApprovalAmount(allowance);
      if approval.Some? && !approvalOk {
        return Failed(Approval);
      }
      if !paymentOk || !syncOk {
        return Failed(Payment);
      }
      var expiry := now + SessionMs;
      storage := storage[ExpiryKey(wallet) := DecimalString(expiry)];
      outcome := Extended(expiry, approval);
    }
  }

  /**
   * Paying on chain and polling later while the backend has forgotten the
   * session: the stored expiry keeps it active for what is left of the hour.
   */
  method PayThenPoll(d: Dashboard, allowance: int, paidAt: int, polledAt: int)
    returns (outcome: ExtendOutcome)
    requires d.walletId == "" && d.wallet != "" && paidAt <= polledAt
    modifies d
    ensures outcome == Extended(paidAt + SessionMs, ApprovalAmount(allowance))
    ensures polledAt < paidAt + SessionMs ==>
      d.sessionStatus == SessionStatus(true, paidAt + SessionMs - polledAt)
    ensures polledAt >= paidAt + SessionMs ==> d.sessionStatus == Inactive
  {
    outcome := d.ExtendSession(true, None, true, true, allowance, true, true, true, paidAt);
    d.FetchData(true, false, Some(Inactive), polledAt);
    StoredExpiryCounts(Inactive, paidAt + SessionMs, polledAt);
  }

  /**
   * The fee is taken on chain but the backend cannot be told: the call
   * reports a payment failure and no expiry is recorded.
   */
  method PaidButNotSynced(d: Dashboard, allowance: int, now: int) returns (outcome: ExtendOutcome)
    requires d.walletId == ""
    modifies d
    ensures outcome == Failed(Payment)
    ensures d.storage == old(d.storage)
  {
    outcome := d.ExtendSession(true, None, true, true, allowance, true, true, false, now);
  }
}
