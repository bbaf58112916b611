# MakerDAO DAI bridge escrow monitor — a Dafny model

The system is a Forta bot. It watches DAI `Transfer` events into the two L1
bridge escrows, the Arbitrum escrow and the Optimism escrow. For each one it
checks the bridge-safety rule: the escrow's L1 DAI balance must not be less
than the DAI total supply on the matching L2.

This project models four parts of the bot:

- the transaction handler (`Agent`);
- the address resolver and the two RPC reads (`Utils`);
- the two memoising fetcher classes (`L1Fetcher`, `L2Fetcher`);
- the bounded LRU cache those classes own (`Lru`).

`DecimalText` models `BigNumber.toString()`, which renders a transfer's value.
`Wrappers` holds `Option` (`None` is JavaScript's `undefined`) and `Result`.

RPC nodes are oracles:

- An L1 node is a function from (account, block tag) to a reply. A reply is a number, or `Threw` for a rejected promise.
- An L2 node has a `blockNumber` oracle and a `totalSupply` oracle. Its latest block can move while a batch is handled. So `blockNumber(i)` is the node's answer while the i-th transfer of the batch is handled.
- The fetchers get their node as an argument on each call, so one call can fail and a later call on the same block can succeed.
- Each fetcher keeps a ghost log, `Queries`, of the block tags it has queried. The contracts "exactly one query" and "no query" are stated against that log.

A finding's metadata is a record with one constructor per finding kind. `Agent.Metadata.ToMap` gives the string map the finding carries, and `Agent.MetadataMaps` states its keys and values.

The handler is an imperative method, `Agent.HandleTransaction`, with the source's loop and early returns. It is proved equal to the specification function `Agent.Handle`. The lemmas about the handler are stated about `Agent.Handle`.

The model follows the code as written, including these behaviours a reader may not expect:

- `checkToAddress` never reports "not monitored". Every address other than the Arbitrum escrow resolves to Optimism. Only the handler's guard at src/agent.ts:21 keeps this sound (`Utils.UnmonitoredResolvesToOptimism`).
- The first transfer to an unmonitored address ends the whole batch. The model does not skip it and carry on.
- The handler does not degrade a failed read to "unknown". If the L2 read throws, the handler rejects. If the L1 read is caught and gives `undefined`, the handler also rejects, because `undefined.lt(...)` throws. The model returns these as `Failure(L2ReadThrew)` and `Failure(L1BalanceUndefined)`. When both reads fail, the result is `L2ReadThrew`. The L1 read runs first, but its failure is caught and only gives `undefined` (src/utils.ts:61-65). The L2 throw (src/utils.ts:72-73) then rejects at src/agent.ts:45, before `.lt` runs at src/agent.ts:47.
- The violation finding has High severity and metadata `{address, name}`. It has no balance fields.
- The handler calls `checkEscrowBalance` and `checkL2DaiBalance` directly. It does not use the fetcher classes. So the fetchers are modelled as separate components.

## Model

| member | source | states |
|---|---|---|
| `Utils.NetworksDistinct` | src/utils.ts:7-10 | The two escrow addresses differ, and so do the two network names. |
| `Utils.CheckToAddress` | src/utils.ts:50-56 | The result is always the Arbitrum record or the Optimism record, never "not monitored". The name is `ARBITRUM` iff the input is the Arbitrum escrow. The address is the Arbitrum escrow iff the name is `ARBITRUM`. A monitored input resolves to itself. |
| `Utils.UnmonitoredResolvesToOptimism` | src/utils.ts:52-53 | Any unmonitored address resolves to (Optimism escrow, `OPTIMISM`), an address different from the input. |
| `Utils.IsMonitored` | src/agent.ts:21 | The handler's guard: a destination is handled iff it is the Arbitrum escrow or the Optimism escrow. |
| `Utils.Caught` | src/utils.ts:61-67 | A `try`/`catch` around one query gives the value when the query returns, and `undefined` when it throws. |
| `Utils.CheckEscrowBalance` | src/utils.ts:58-68 | Queries `balanceOf(address)` at exactly the given block tag. A failure gives `undefined`, never a throw. |
| `Utils.CheckL2DaiBalance` | src/utils.ts:70-76 | Succeeds iff both the latest-block read and `totalSupply` at latest − 1 return. It then gives that supply. Errors are not caught. |
| `DecimalText.Render` | src/agent.ts:36 | The decimal rendering is non-empty, all digits, and has no leading zero. It is one digit exactly for values below 10. |
| `DecimalText.ParseRender` | src/agent.ts:36 | Parsing the rendering of n gives n back, so the `value` string is exact. |
| `DecimalText.RenderInjective` | src/agent.ts:36 | Different amounts have different renderings. |
| `Lru.Empty` | src/l1BalanceFetcher.ts:17-19 | A new cache is valid, has the given capacity, and holds no entries. |
| `Lru.Cache.Size` | src/l2SupplyFetcher.ts:11-13 | A valid cache never holds more entries than its capacity. |
| `Lru.WithoutAt` | src/l1BalanceFetcher.ts:27 | Taking a listed key out of the recency order closes its gap and keeps the other keys in order. So a `get` hit, and a `set` of a key already held, move only that key to the most recent end. |
| `Lru.Cache.Touch` | src/l1BalanceFetcher.ts:27 | A `get` hit changes no entry. It makes the key the most recently used. |
| `Lru.Cache.Set` | src/l1BalanceFetcher.ts:37 | After `set`, the key holds the new value and is the most recently used. No other key changes its value. The other keys keep their recency order: an existing key is taken out and re-appended, a new key below capacity is appended, and a new key at capacity drops exactly the least recently used key. Otherwise no key leaves the cache. |
| `Lru.SetThenGet` | src/l2SupplyFetcher.ts:20-30 | A stored value survives a later `set` of another key when the capacity is above one. |
| `L1Fetcher.L1BalanceFetcher.constructor` | src/l1BalanceFetcher.ts:10-22 | The fetcher starts with an empty cache of capacity 10000 and records its escrow address. |
| `L1Fetcher.L1BalanceFetcher.FetchEscrowBalance` | src/l1BalanceFetcher.ts:24-40 | On a hit, it returns the cached value and issues no query. On a miss, it issues exactly one `balanceOf(escrow)` query at `block - 1`. It stores the caught outcome, including `undefined`, under `block` and returns it. It never throws. The cache stays within 10000 entries. |
| `L1Fetcher.PoisonedBlockIsNotRetried` | src/l1BalanceFetcher.ts:27-39 | After a failed query for a block, a second call returns `undefined` with no new query. This holds even when the node would now answer. |
| `L1Fetcher.RepeatedBlockQueriedOnce` | src/l1BalanceFetcher.ts:24-39 | Two calls for one block return the same value. Together they issue at most one query, and none if the block was already cached. |
| `L2Fetcher.L2SupplyFetcher.constructor` | src/l2SupplyFetcher.ts:9-15 | The fetcher starts with an empty cache of capacity 10000. |
| `L2Fetcher.L2SupplyFetcher.FetchTotalSupply` | src/l2SupplyFetcher.ts:17-33 | The key is the latest block, read first, and a failure of that read propagates. On a hit, it returns the cached value with no query. On a miss, it issues exactly one `totalSupply` query at `key - 1`. It stores the caught outcome and returns it. The cache stays within 10000 entries. |
| `L2Fetcher.SameLatestBlockQueriedOnce` | src/l2SupplyFetcher.ts:18-25 | Two calls that see the same uncached latest block return the same value and issue one query. |
| `Lru.SetKeepsOthersAbsent` | src/l2SupplyFetcher.ts:20-30 | Storing one key adds no other key. So a block not yet cached stays uncached, and a later call that sees it as the latest block misses and queries anew. |
| `Agent.TransferFinding` | src/agent.ts:25-39 | The info finding for a transfer to `address` on network `name`. Its name is `DAI Transfer Event Emission to monitored Escrow`. Its description is `DAI Transfer Event Emission to NAME escrow at: ADDRESS`. Its alert id is `NAME-TRANSFER-1`. Severity and type are both Info. Its metadata is `{from, to, escrow: NAME, value: the decimal rendering of the amount}`. |
| `Agent.ViolationFinding` | src/agent.ts:47-60 | The exploit finding for escrow `address` on network `name`. Its name is `DAI total supply exceeds balance`. Its description is `L2 NAME total supply of DAI exceeds and violates balance at L1 NAME Escrow, at DAI contract address: L2_DAI` followed by two spaces. Its alert id is `NAME-BAL-1`. Severity is High and type is Exploit. Its metadata is `{address, name}`. |
| `Agent.AnnouncedValueIsExact` | src/agent.ts:32-37 | A transfer finding's `value` metadata is a digit string that parses back to the transfer amount. |
| `Agent.MetadataMaps` | src/agent.ts:32-58 | A transfer finding's map has exactly the keys `from`, `to`, `escrow` and `value`. They hold the sender, the escrow, the network name and the decimal rendering of the amount. A violation finding's map has exactly the keys `address` and `name`, and `name` is the network name. |
| `Agent.AlertIdsDistinct` | src/agent.ts:29-52 | Two transfer findings share an alert id iff they go to the same escrow. A transfer alert id never equals a violation alert id. |
| `Agent.HandleTransfer` | src/agent.ts:23-61 | For one monitored transfer, the L1 balance is read for the transfer's own escrow at `blockNumber - 1`. The L2 supply is read from the Arbitrum node iff the escrow is Arbitrum's. An L2 throw, or else an `undefined` L1 balance, rejects. Otherwise the step yields the transfer finding of that network, then a violation finding iff balance < supply strictly. |
| `Agent.Process` | src/agent.ts:18-62 | The findings of the transfers from position `i` on. The batch ends with no further findings at its end or at the first unmonitored transfer. A monitored transfer's step comes before the findings of the rest of the batch. A step fault rejects the whole batch with that fault. |
| `Agent.Handle` | src/agent.ts:12-65 | What the handler returns for a batch: `Process` from the first transfer. Each monitored transfer's step is placed before the rest of the batch. A step fault rejects the whole batch. The first unmonitored transfer ends it. |
| `Agent.HandleTransaction` | src/agent.ts:12-65 | The imperative handler returns exactly `Handle` of its inputs. An empty batch gives no findings. |
| `Agent.LeadingMonitored` | src/agent.ts:18-21 | The number of transfers handled before the batch stops. All of them are monitored, and the transfer right after them, if any, is not. |
| `Agent.StopsAtUnmonitored` | src/agent.ts:21 | At any unmonitored transfer, the result equals that of the batch cut just before it. |
| `Agent.LaterTransfersNotExamined` | src/agent.ts:18-21 | Two batches that agree up to an unmonitored transfer give the same result, whatever follows it. |
| `Agent.HandledShape` | src/agent.ts:25-60 | A successful step gives one or two findings. The first is the transfer's info finding. A second one is an exploit finding for the same escrow and network. |
| `Agent.TransferAlertsInEventOrder` | src/agent.ts:18-39 | In a successful run, the info findings are exactly one per handled transfer, in event order. Each has alert id `NAME-TRANSFER-1`, Info severity and type, and metadata `{from, to, escrow, value}`. |
| `Agent.FindingCountBounds` | src/agent.ts:18-62 | A successful run over m handled transfers gives between m and 2m findings. |
| `Agent.ViolationFollowsItsTransfer` | src/agent.ts:47-60 | Every exploit finding comes directly after the transfer finding of the same escrow and network. |
| `Agent.FaultIff` | src/agent.ts:41-47 | The handler rejects iff some handled transfer's step faults. |
| `Agent.TwoViolatingEscrows` | src/agent.spec.ts:231-271 | A batch of two transfers, to the Optimism and then the Arbitrum escrow, both short of their L2 supply, gives four findings in this order: transfer, violation, transfer, violation. |
| `Agent.EqualBalanceIsSafe` | src/agent.ts:47 | When the L1 balance equals the L2 supply, a lone transfer gives only its transfer finding. |

## Left out

- RPC plumbing: ethers `Contract`, the `JsonRpcProvider` instances, `dotenv` and the endpoint constants (src/utils.ts:3, 11-18). The oracles stand in for them. The fetchers' stored `provider` and `tokenContract` become the oracle argument of each call.
- `txEvent.filterLog` ABI and topic decoding (src/agent.ts:16). The handler starts from the decoded `{from, to, value}` records of DAI transfers.
- `Finding.fromObject` formatting. Findings are a datatype with the same fields.
- async/await: the code runs sequentially, and so does the model.
- `lru-cache` internals. Recency is a simple order: a `get` hit or a `set` makes a key the most recent. Eviction drops the least recent key. Storing `undefined` is modelled as an ordinary stored value. Whether the library instead deletes the key is not modelled.
- Console logging (src/utils.ts:64, src/l1BalanceFetcher.ts:34, src/l2SupplyFetcher.ts:27).
- The default export wiring (src/agent.ts:67-69).
- The test file's expected violation finding (suffix " on NAME", Critical severity, `protocol`, balance metadata). It differs from src/agent.ts, which is the version modelled.
- Block numbers and block tags are modelled as unbounded `int`. A JavaScript `number` is an IEEE-754 double and holds integers exactly only up to 2^53. Real block numbers stay far below that, so nothing observable is lost. `block - 1` at block 0 is the tag −1, passed through unchanged.
