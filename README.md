# Decentraland marketplace test harness: fixture scan and purchase checks

This project models two pieces of decision logic from the Tasit SDK's
Decentraland integration test, which runs against a forked Ropsten chain.

- **Fixture scan** (module `FixtureScan`). The suite's `before` hook walks
  the open sell orders in the order they are returned. It keeps one Land
  order and one Estate order as fixtures for the later test cases. An order
  is classified by comparing its `nftAddress` with the Land and Estate
  contract addresses. A Land order is kept whatever its expiry. An Estate
  order is kept only if it has not expired. An order that is neither Land
  nor Estate fails the hook. At the top of each iteration, before the
  current order is classified, the loop stops if both fixtures are set. The
  assignments overwrite, so each fixture is the last match seen before the
  loop stops. The hook fails on an empty list. After the loop it fails if
  the Estate fixture, then the Land fixture, is missing.
  `SelectFixtures` is that loop as a method. It is proved equal to `Select`,
  a declarative definition. `Select` is built from the stopping index
  (`StopIndex`), the first unknown order (`FirstUnknown`) and the last order
  of each kind (`LastTaken`). The lemmas state what the hook promises in
  terms of the order list itself.
- **Purchase checks** (module `Purchase`). Before it submits a purchase,
  the "should buy an estate" case checks three things, in this order:
  - the clock is strictly before the order's expiry;
  - the buyer's MANA balance is strictly greater than the price;
  - the marketplace may transfer the Estate. This holds when the asset's
    approved address is the marketplace, or when the seller approved the
    marketplace for all assets.

  `CheckPurchase` returns the first check that fails.

The chain reads are parameters:
- the order list;
- the balance and the two approval results;
- the clock: `clock(i)` is the value `Date.now()` returns on the iteration
  that examines order `i`, and `now` is its value in the purchase case.

The helper `addressesAreEqual` is not part of this model. It is the
parameter `sameAddress`, an arbitrary total function on addresses. The
contract addresses (Land, Estate, marketplace) come from an address file
that is not part of this model, so they are parameters too.

Two consequences of the code are worth stating:
- Each fixture is the last match before the loop stops, not the first,
  because the assignments at lines 86-87 overwrite (`SelectedFixtures`).
- An Estate order whose `expiresAt` equals the clock reading is kept,
  because line 83 tests `<`. The purchase case's strict test at line 182
  then rejects it (`ScanKeepsWhatPurchaseRejects`).

The "should buy an estate" case is disabled in the source (`it.skip` at
line 170; line 169 notes that its transaction reverts for an unknown
reason). The model states the checks that case would make.

## Model

| member | source | states |
|---|---|---|
| FixtureScan.SelectFixtures | packages/tasit-sdk/src/Decentraland.forkedRopsten.test.js:72-97 | The hook's loop, with its early stop, overwriting assignments and unknown-order failure, plus the two checks after it, ends exactly as the declarative `Select` says |
| FixtureScan.LastTaken | packages/tasit-sdk/src/Decentraland.forkedRopsten.test.js:86-87 | The index a run of overwriting assignments keeps: an order of the wanted kind with none after it in the prefix; none exactly when the prefix holds no such order |
| FixtureScan.LastOrder | packages/tasit-sdk/src/Decentraland.forkedRopsten.test.js:86-87 | The fixture a prefix of examined orders leaves set is the element of that prefix that qualifies for the kind with no qualifying element after it; it is unset exactly when the prefix holds no order of that kind |
| FixtureScan.FirstUnknown | packages/tasit-sdk/src/Decentraland.forkedRopsten.test.js:89-93 | The first order that matches neither contract address, with every earlier one matching; none exactly when all match |
| FixtureScan.StopFrom | packages/tasit-sdk/src/Decentraland.forkedRopsten.test.js:79 | The least prefix length at or after k whose orders set both fixtures, or the whole list when there is none |
| FixtureScan.StopIndex | packages/tasit-sdk/src/Decentraland.forkedRopsten.test.js:75-79 | The number of orders examined when none is unknown: the first prefix that sets both fixtures, since the stop check runs before classification |
| FixtureScan.Select | packages/tasit-sdk/src/Decentraland.forkedRopsten.test.js:72-97 | Declarative outcome of the whole hook: it fails with NoOpenOrders exactly on the empty list, and on success both fixtures are elements of the list, the land at the Land address and the estate at the Estate address |
| FixtureScan.StopIndexUnique | packages/tasit-sdk/src/Decentraland.forkedRopsten.test.js:79 | The stopping index is the only index with its defining property |
| FixtureScan.LastOrderStep | packages/tasit-sdk/src/Decentraland.forkedRopsten.test.js:86-87 | Examining order i sets the fixture to that order when it qualifies, and otherwise leaves it unchanged |
| FixtureScan.UnknownAssetFails | packages/tasit-sdk/src/Decentraland.forkedRopsten.test.js:89-93 | An unknown order reached before both fixtures are set, with all earlier orders known, fails the hook with its index |
| FixtureScan.ScanEndsAt | packages/tasit-sdk/src/Decentraland.forkedRopsten.test.js:96-97 | When the loop ends after n known orders, the outcome is the Estate check, then the Land check, on the fixtures those n orders set |
| FixtureScan.EmptyOrdersFail | packages/tasit-sdk/src/Decentraland.forkedRopsten.test.js:72 | An empty order list fails setup, and it is the only list that fails this way |
| FixtureScan.UnknownAssetIff | packages/tasit-sdk/src/Decentraland.forkedRopsten.test.js:79-93 | Setup fails on order i for not being Land or Estate if and only if i is the first such order and it is reached before both fixtures are set |
| FixtureScan.SelectSucceedsIff | packages/tasit-sdk/src/Decentraland.forkedRopsten.test.js:75-97 | Setup succeeds if and only if some prefix of the list has only Land or Estate orders and holds a Land order and a non-expired Estate order |
| FixtureScan.MissingFixtureIff | packages/tasit-sdk/src/Decentraland.forkedRopsten.test.js:96-97 | With no unknown order, a missing Estate is reported if and only if the whole list has no usable Estate order. A missing Land is reported if and only if there is a usable Estate order but no Land order |
| FixtureScan.SelectedFixtures | packages/tasit-sdk/src/Decentraland.forkedRopsten.test.js:75-87 | The kept fixtures are unmodified elements examined before the stop. The land is the last Land order among them, whatever its expiry. The estate is the last Estate order among them with the clock at or before its expiry |
| FixtureScan.StopsOnceBothFound | packages/tasit-sdk/src/Decentraland.forkedRopsten.test.js:75-79 | Once a prefix sets both fixtures, the rest of the list is never examined: replacing it, even with unknown orders, leaves the outcome unchanged |
| Purchase.CheckPurchase | packages/tasit-sdk/src/Decentraland.forkedRopsten.test.js:181-200 | The purchase checks pass iff now < expiresAt, price < balance, and the approved address is the marketplace or approved-for-all holds. Expiry fails first, then balance |
| Purchase.EqualBalanceInsufficient | packages/tasit-sdk/src/Decentraland.forkedRopsten.test.js:184-189 | A balance equal to the price fails the balance check; one unit more passes |
| Purchase.EitherApprovalSuffices | packages/tasit-sdk/src/Decentraland.forkedRopsten.test.js:191-200 | Either approval route alone passes the approval check; with neither, the purchase fails as not approved |
| Purchase.CheckPurchaseMonotone | packages/tasit-sdk/src/Decentraland.forkedRopsten.test.js:181-189 | Checks that pass still pass at an earlier time and with a larger balance |
| Purchase.ScanKeepsWhatPurchaseRejects | packages/tasit-sdk/src/Decentraland.forkedRopsten.test.js:181-182 | The selected Estate was not expired at its scan reading, and the purchase's strict expiry test at that same reading fails exactly when the estate expires at that instant (the scan's test at line 83 keeps it) |

## Left out

- The network check and provider construction (lines 50-58): network I/O.
- `getOpenSellOrders` and its event-log scan (lines 65-69): the order list is an input sequence.
- Snapshot creation and revert (lines 103, 133): fork-specific RPC calls.
- Wallet setup, ether and MANA faucets, and `confirmBalances` (lines 105-113, 202, 216): foreign contract calls.
- The MANA `approve`/`allowance` step, `getFingerprint`, `safeExecuteOrder` and `waitForNonceToUpdate` (lines 115-128, 204-214): on-chain execution and asynchronous nonce polling.
- The Land and Estate metadata, coordinate and size queries under `Promise.all` (lines 136-167): foreign calls run concurrently.
- The empty skipped "should buy a land" case (line 220).
- The "should buy an estate" case is itself skipped (line 170); only its precondition checks are modelled, not the purchase it would submit.
- `addressesAreEqual`: its definition is not part of this model. It is an arbitrary parameter, so nothing assumes it is an equivalence or that the Land and Estate addresses differ. An order that matches both sets the Land fixture, and also the Estate fixture unless it has expired.
- `Number(expiresAt)` and `bigNumberify`: expiry, price and balance are exact integers. The loss of precision that `Number` suffers above 2^53 is not modelled.
- A failed expectation ends the hook or the case. The model returns the first failed expectation as an error value.
