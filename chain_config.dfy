/**
 * The client's settings for the Arc testnet: contract addresses, the
 * hourly session fee, and the network description handed to the wallet.
 * The hex chain id and the fee in token units are written out by hand
 * next to the values they derive from; the lemmas here check that they
 * agree, and that they agree with the Hardhat network entry and the
 * session script.
 */
module ChainConfig {
  import opened Wrappers
  import opened JsString
  import opened Hex

  /** The defaults used when no VITE_* override is set. */
  const UsdcAddress := "0x3600000000000000000000000000000000000000"
  const SessionContractAddress := "0x7AC7B17410641853C369874536a9248D0CD14947"

  /** The hourly fee, as shown to the user and in token base units. */
  const HourlyRateUsdc := "0.001"
  const HourlyRateUnits := 1000
  const UsdcDecimals := 6

  const ChainIdDecimal := 5042002
  const ChainIdHex := "0x4cef52"

  datatype NativeCurrency = NativeCurrency(name: string, symbol: string, decimals: nat)

  /** The `wallet_addEthereumChain` parameters. */
  datatype NetworkParams = NetworkParams(
    chainId: string,
    chainName: string,
    nativeCurrency: NativeCurrency,
    rpcUrls: seq<string>,
    blockExplorerUrls: seq<string>)

  const Network := NetworkParams(
    "0x4cef52",
    "Arc Testnet",
    NativeCurrency("USDC", "USDC", 18),
    ["https://rpc.testnet.arc.network"],
    ["https://testnet.arcscan.app"])

  /** The `arc_testnet` chain id in the Hardhat configuration. */
  const HardhatArcChainId := 5042002

  /** The addresses and fee the session-verification script uses. */
  const ScriptSessionManagerAddress := "0x7AC7B17410641853C369874536a9248D0CD14947"
  const ScriptUsdcAddress := "0x3600000000000000000000000000000000000000"
  const ScriptFeeAmount := 1000

  function Pow10(n: nat): nat
  {
    if n == 0 then 1 else 10 * Pow10(n - 1)
  }

  /**
   * A decimal amount in base units, as ethers' `parseUnits(text, decimals)`
   * reads the plain form the configuration uses: digits, optionally a '.'
   * and one to `decimals` more digits. Other forms ethers also accepts
   * (a sign, ".5", "1.", trailing zeros past `decimals`) give `None` here.
   */
  function ParseUnits(text: string, decimals: nat): Option<nat>
  {
    var k := DigitPrefixLength(text);
    var whole, rest := text[..k], text[k..];
    if whole == [] then None
    else if rest == [] then Some(DigitsValue(whole) * Pow10(decimals))
    else
      var frac := rest[1..];
      if rest[0] != '.' || frac == [] || !AllDigits(frac) || |frac| > decimals then None
      else Some(DigitsValue(whole) * Pow10(decimals) + DigitsValue(frac) * Pow10(decimals - |frac|))
  }

  /** "0x" and Number#toString(16) of the decimal id give the hex id, and the network entry uses it. */
  lemma ChainIdHexAgrees()
    ensures "0x" + NatToHex(ChainIdDecimal) == ChainIdHex
    ensures Network.chainId == ChainIdHex
  {
    assert NatToHex(4) == "4";
    assert NatToHex(76) == NatToHex(4) + [HexDigit(12)] == "4c";
    assert NatToHex(1230) == NatToHex(76) + [HexDigit(14)] == "4ce";
    assert NatToHex(19695) == NatToHex(1230) + [HexDigit(15)] == "4cef";
    assert NatToHex(315125) == NatToHex(19695) + [HexDigit(5)];
    assert NatToHex(5042002) == NatToHex(315125) + [HexDigit(2)];
  }

  /** "0.001" at six decimals is 1000 base units: the hand-written fee is right. */
  lemma HourlyRateAgrees()
    ensures ParseUnits(HourlyRateUsdc, UsdcDecimals) == Some(HourlyRateUnits)
  {
    var text := HourlyRateUsdc;
    assert DigitPrefixLength(text) == 1;
    assert text[..1] == "0" && text[1..] == ".001";
    assert DigitsValue("0") == 0;
    assert DigitsValue("001") == 1;
    assert Pow10(6) == 1000000 && Pow10(3) == 1000;
  }

  /** The client, the Hardhat network and the session script name the same chain, contracts and fee. */
  lemma DeploymentAgrees()
    ensures ChainIdDecimal == HardhatArcChainId
    ensures SessionContractAddress == ScriptSessionManagerAddress
    ensures UsdcAddress == ScriptUsdcAddress
    ensures HourlyRateUnits == ScriptFeeAmount
  {
  }
}
