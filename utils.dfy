/**
 * The network constants, the address resolver and the two RPC reads of
 * src/utils.ts. The RPC endpoints themselves are oracles: a provider is a
 * value whose fields answer each query, either with a number or by throwing.
 */
module Utils {
  import opened Wrappers

  const ARB: string := "ARBITRUM"
  const OPT: string := "OPTIMISM"
  const L1_OPTIMISM_ESCROW: string := "0x467194771dAe2967Aef3ECbEDD3Bf9a310C76C65"
  const L1_ARBITRUM_ESCROW: string := "0xA10c7CE4b876998858b1a9E12b10092229539400"
  const L1_DAI: string := "0x6B175474E89094C44Da98b954EedeAC495271d0F"
  const L2_DAI: string := "0xDA10009cBd5D07dd0CeCc66161FC93D7c9000da1"

  /** A monitored L2 network: its name and the L1 escrow that backs it. */
  datatype Network = Network(name: string, escrow: string)

  const ArbObject: Network := Network(ARB, L1_ARBITRUM_ESCROW)
  const OptObject: Network := Network(OPT, L1_OPTIMISM_ESCROW)

  /** The answer of one awaited RPC call: a value, or a rejected promise. */
  datatype Reply<+T> = Returned(value: T) | Threw

  /** The L1 node: `balanceOf(account, {blockTag})` on the L1 DAI contract. */
  datatype L1Provider = L1Provider(balanceOf: (string, int) -> Reply<nat>)

  /**
   * An L2 node: `getBlockNumber()` and `totalSupply({blockTag})` on the L2 DAI
   * contract. The latest block moves over time, so `blockNumber(i)` is what the
   * node answers when asked while the i-th transfer of a batch is handled.
   */
  datatype L2Provider = L2Provider(blockNumber: nat -> Reply<nat>, totalSupply: int -> Reply<nat>)

  /** The guard of the transaction handler: `to` is one of the two escrows. */
  predicate IsMonitored(to: string)
  {
    to == ArbObject.escrow || to == OptObject.escrow
  }

  /** The two networks are told apart by both their escrow and their name. */
  lemma NetworksDistinct()
    ensures ArbObject.escrow != OptObject.escrow
    ensures ArbObject.name != OptObject.name
  {
    assert ArbObject.escrow[2] != OptObject.escrow[2];
    assert ArbObject.name[0] != OptObject.name[0];
  }

  /**
   * `checkToAddress`: the Arbitrum record for the Arbitrum escrow, the Optimism
   * record for every other address. It never reports "not monitored".
   */
  function CheckToAddress(toAddress: string): (r: (string, string))
    ensures r == (ArbObject.escrow, ArbObject.name) || r == (OptObject.escrow, OptObject.name)
    ensures r.1 == ARB <==> toAddress == L1_ARBITRUM_ESCROW
    ensures r.0 == L1_ARBITRUM_ESCROW <==> r.1 == ARB
    ensures IsMonitored(toAddress) ==> r.0 == toAddress
  {
    NetworksDistinct();
    var address := if toAddress == L1_ARBITRUM_ESCROW then L1_ARBITRUM_ESCROW else L1_OPTIMISM_ESCROW;
    var name := if toAddress == L1_ARBITRUM_ESCROW then ARB else OPT;
    (address, name)
  }

  /** Without the caller's guard the resolver is unsound: a stranger resolves to Optimism. */
  lemma UnmonitoredResolvesToOptimism(toAddress: string)
    requires !IsMonitored(toAddress)
    ensures CheckToAddress(toAddress) == (L1_OPTIMISM_ESCROW, OPT)
    ensures CheckToAddress(toAddress).0 != toAddress
  {
  }

  /** A `try { v = await q } catch { }` around one query: a throw leaves `undefined`. */
  function Caught(reply: Reply<nat>): (r: Option<nat>)
    ensures r.Some? <==> reply.Returned?
    ensures r.Some? ==> r.value == reply.value
  {
    match reply
    case Returned(v) => Some(v)
    case Threw => None
  }

  /**
   * `checkEscrowBalance`: the escrow's L1 DAI balance at exactly the given
   * block tag; a failed query is caught and yields `undefined`.
   */
  function CheckEscrowBalance(address: string, provider: L1Provider, block: int): (r: Option<nat>)
    ensures r.Some? <==> provider.balanceOf(address, block).Returned?
    ensures r.Some? ==> r.value == provider.balanceOf(address, block).value
  {
    Caught(provider.balanceOf(address, block))
  }

  /**
   * `checkL2DaiBalance`: the L2 total supply one block below the node's latest
   * block. Neither the block-number read nor the supply query is caught.
   */
  function CheckL2DaiBalance(provider: L2Provider, i: nat): (r: Reply<nat>)
    ensures r.Returned? <==>
      provider.blockNumber(i).Returned? && provider.totalSupply(provider.blockNumber(i).value - 1).Returned?
    ensures r.Returned? ==> r.value == provider.totalSupply(provider.blockNumber(i).value - 1).value
  {
    match provider.blockNumber(i)
    case Threw => Threw
    case Returned(block) => provider.totalSupply(block - 1)
  }
}
