/** The network gate of `login`: the wallet must exist, and the chain id it
    reports, written in decimal, must be on the allow-list. */
module Network {
  import opened Text

  /** The supported chains: a local node, Sepolia and Holesky. */
  const ALLOWED_CHAIN_IDS: seq<string> := ["31337", "11155111", "17000"]

  /** `ALLOWED_CHAIN_IDS.includes(chainId.toString())`: the list admits
      exactly the chains 31337, 11155111 and 17000. */
  predicate IsSupportedChain(chainId: nat)
    ensures IsSupportedChain(chainId) <==> chainId == 31337 || chainId == 11155111 || chainId == 17000
  {
    var text := NatToString(chainId);
    ListedChainTexts();
    NatToStringInjective(chainId, 31337);
    NatToStringInjective(chainId, 11155111);
    NatToStringInjective(chainId, 17000);
    assert text in ALLOWED_CHAIN_IDS <==> text == "31337" || text == "11155111" || text == "17000";
    text in ALLOWED_CHAIN_IDS
  }

  /** The decimal texts of the three listed chain ids. */
  lemma ListedChainTexts()
    ensures NatToString(31337) == "31337"
    ensures NatToString(11155111) == "11155111"
    ensures NatToString(17000) == "17000"
  {
    LocalChainText();
    SepoliaChainText();
    HoleskyChainText();
  }

  lemma LocalChainText()
    ensures NatToString(31337) == "31337"
  {
    assert NatToString(313) == "313";
  }

  lemma SepoliaChainText()
    ensures NatToString(11155111) == "11155111"
  {
    assert NatToString(111) == "111";
    assert NatToString(11155) == "11155";
    assert NatToString(1115511) == "1115511";
  }

  lemma HoleskyChainText()
    ensures NatToString(17000) == "17000"
  {
    assert NatToString(170) == "170";
  }

  /** How `login` gets past its first two checks. */
  datatype LoginGate = NoWallet | UnsupportedNetwork | Proceed

  /** `login`'s early exits: no injected wallet, then a chain off the list. */
  function CheckLogin(hasWallet: bool, chainId: nat): (r: LoginGate)
    ensures r == NoWallet <==> !hasWallet
    ensures r == UnsupportedNetwork <==>
      hasWallet && chainId != 31337 && chainId != 11155111 && chainId != 17000
    ensures r == Proceed <==>
      hasWallet && (chainId == 31337 || chainId == 11155111 || chainId == 17000)
  {
    if !hasWallet then NoWallet
    else if !IsSupportedChain(chainId) then UnsupportedNetwork
    else Proceed
  }
}
