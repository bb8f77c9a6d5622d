/** Which chain a node or the wallet is on, as `pecu-chain/src/network.rs` reads it. */
module Network {
  import opened Wrappers
  import opened Text

  datatype Network = Mainnet | Testnet | Other(name: string)

  const SHIPPED_PBAAS: seq<string> := ["vARRR", "CHIPS", "vDEX"]

  /** The first shipped spelling `name` matches whatever its case, or `name` itself. */
  function Canonical(name: string, shipped: seq<string>): string {
    if shipped == [] then name
    else if EqIgnoreAsciiCase(name, shipped[0]) then shipped[0]
    else Canonical(name, shipped[1..])
  }

  function FromChainName(name: string): Network {
    if name == "VRSC" then Mainnet
    else if name == "VRSCTEST" then Testnet
    else Other(Canonical(name, SHIPPED_PBAAS))
  }

  function ChainName(n: Network): string {
    match n
    case Mainnet => "VRSC"
    case Testnet => "VRSCTEST"
    case Other(name) => name
  }

  /** The currency id pinned for a chain, for the two chains that pin one. */
  function ChainId(n: Network): Option<string> {
    match n
    case Mainnet => Some("i5w5MuNik5NtLcYmNzcvaoixooEebB6MGV")
    case Testnet => Some("iJhCezBExJHvtyH3fGhNnt2NhU4Ztkf2yq")
    case Other(_) => None
  }

  predicate MayBeRealMoney(n: Network) {
    !n.Testnet?
  }

  lemma {:induction false} CanonicalIsStable(name: string, shipped: seq<string>)
    ensures EqIgnoreAsciiCase(name, Canonical(name, shipped))
    ensures Canonical(name, shipped) == name || Canonical(name, shipped) in shipped
    ensures Canonical(Canonical(name, shipped), shipped) == Canonical(name, shipped)
  {
    if shipped != [] && !EqIgnoreAsciiCase(name, shipped[0]) {
      CanonicalIsStable(name, shipped[1..]);
    }
  }

  /** A name read, spelled back and read again is the same chain: the two spellings cannot drift. */
  lemma ReadingIsStable(name: string)
    ensures FromChainName(ChainName(FromChainName(name))) == FromChainName(name)
  {
    CanonicalIsStable(name, SHIPPED_PBAAS);
  }

  /** Only the exact name of the faucet chain can reach the one chain that is never guarded. */
  lemma OnlyVrsctestIsUnguarded(name: string)
    ensures !MayBeRealMoney(FromChainName(name)) <==> name == "VRSCTEST"
  {}
}
