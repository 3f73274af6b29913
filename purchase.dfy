/**
 * The checks the "should buy an estate" case makes on the Estate fixture
 * before it submits the purchase: the order has not expired, the buyer holds
 * more MANA than the price, and the marketplace may transfer the Estate.
 * The chain reads they need are taken as values.
 */
module Purchase {
  import opened Wrappers
  import opened Orders
  import FixtureScan

  /** The failed expectations of the purchase case, in the order it checks them. */
  datatype PurchaseError =
    | OrderExpired           // the clock is not strictly before the expiry
    | InsufficientMana       // the buyer's balance does not exceed the price
    | MarketplaceNotApproved // neither approval route names the marketplace

  /** The values the case has fetched when it makes its checks. */
  datatype PurchaseFacts = PurchaseFacts(
    now: int,                 // Date.now()
    manaBalance: nat,         // MANA balance of the buyer (the ephemeral wallet)
    approvedForAsset: Address, // Estate getApproved(assetId)
    approvedForAll: bool)      // Estate isApprovedForAll(seller, marketplace)

  /** The approval check: the asset's approved address is the marketplace, or the seller approved it for all. */
  predicate MarketplaceApproved(sameAddress: (Address, Address) -> bool, marketplace: Address, fetched: PurchaseFacts) {
    sameAddress(fetched.approvedForAsset, marketplace) || fetched.approvedForAll
  }

  /** The three checks in the order the case makes them; the first that fails ends it. */
  function CheckPurchase(
    sameAddress: (Address, Address) -> bool,
    marketplace: Address,
    order: SellOrder,
    fetched: PurchaseFacts): (r: Outcome<PurchaseError>)
    ensures r.Pass? <==>
      && fetched.now < order.expiresAt
      && order.priceInWei < fetched.manaBalance
      && MarketplaceApproved(sameAddress, marketplace, fetched)
    ensures r == Fail(OrderExpired) <==> order.expiresAt <= fetched.now
    ensures r == Fail(InsufficientMana) <==> fetched.now < order.expiresAt && fetched.manaBalance <= order.priceInWei
  {
    if !(fetched.now < order.expiresAt) then Fail(OrderExpired)
    else if !(fetched.manaBalance > order.priceInWei) then Fail(InsufficientMana)
    else if !MarketplaceApproved(sameAddress, marketplace, fetched) then Fail(MarketplaceNotApproved)
    else Pass
  }

  /** A balance equal to the price is not enough; one unit more is, other checks passing. */
  lemma EqualBalanceInsufficient(
    sameAddress: (Address, Address) -> bool,
    marketplace: Address,
    order: SellOrder,
    fetched: PurchaseFacts)
    requires fetched.now < order.expiresAt
    requires MarketplaceApproved(sameAddress, marketplace, fetched)
    ensures CheckPurchase(sameAddress, marketplace, order, fetched.(manaBalance := order.priceInWei))
      == Fail(InsufficientMana)
    ensures CheckPurchase(sameAddress, marketplace, order, fetched.(manaBalance := order.priceInWei + 1))
      == Pass
  {
  }

  /** Either approval route alone lets the approval check pass. */
  lemma EitherApprovalSuffices(
    sameAddress: (Address, Address) -> bool,
    marketplace: Address,
    order: SellOrder,
    fetched: PurchaseFacts)
    requires fetched.now < order.expiresAt && order.priceInWei < fetched.manaBalance
    ensures sameAddress(fetched.approvedForAsset, marketplace) ==>
      CheckPurchase(sameAddress, marketplace, order, fetched.(approvedForAll := false)) == Pass
    ensures CheckPurchase(sameAddress, marketplace, order, fetched.(approvedForAll := true)) == Pass
    ensures !sameAddress(fetched.approvedForAsset, marketplace) ==>
      CheckPurchase(sameAddress, marketplace, order, fetched.(approvedForAll := false)) == Fail(MarketplaceNotApproved)
  {
  }

  /** A check that passes keeps passing earlier in time and with a larger balance. */
  lemma CheckPurchaseMonotone(
    sameAddress: (Address, Address) -> bool,
    marketplace: Address,
    order: SellOrder,
    fetched: PurchaseFacts,
    earlier: int,
    richer: nat)
    requires CheckPurchase(sameAddress, marketplace, order, fetched) == Pass
    requires earlier <= fetched.now && fetched.manaBalance <= richer
    ensures CheckPurchase(sameAddress, marketplace, order, fetched.(now := earlier, manaBalance := richer)) == Pass
  {
  }

  /**
   * The scan keeps an Estate order that expires exactly when it is examined
   * (its expiry test is strict), but the purchase case, reading the same
   * clock value, rejects that order as expired (its test is strict the other
   * way round). For the Estate fixture the scan selects, this boundary is the
   * only way the expiry check can fail at the scan's own clock reading.
   */
  lemma ScanKeepsWhatPurchaseRejects(
    ctx: FixtureScan.ScanContext,
    orders: seq<SellOrder>,
    f: FixtureScan.Fixtures,
    marketplace: Address,
    fetched: PurchaseFacts)
    requires FixtureScan.Select(ctx, orders) == Success(f)
    ensures exists i ::
      && 0 <= i < |orders|
      && orders[i] == f.estate
      && ctx.clock(i) <= f.estate.expiresAt
      && (CheckPurchase(ctx.sameAddress, marketplace, f.estate, fetched.(now := ctx.clock(i))) == Fail(OrderExpired)
          <==> f.estate.expiresAt == ctx.clock(i))
  {
    FixtureScan.SelectedFixtures(ctx, orders, f);
  }
}
