/** The values of an open sell order on the Decentraland marketplace, as the test reads them. */
module Orders {

  /** A hexadecimal account or contract address. */
  type Address = string

  /**
   * The `values` of an order-created event. Amounts are exact integers
   * (the source turns them into big numbers); `expiresAt` is compared with
   * the wall clock in milliseconds.
   */
  datatype SellOrder = SellOrder(
    assetId: nat,
    nftAddress: Address,
    seller: Address,
    priceInWei: nat,
    expiresAt: int)
}
