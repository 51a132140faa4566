/** The order and trade records exchanged with the market back end. */
module Orders {

  /**
   * A resting or incoming order. `pcode` is the participant code of the
   * trader who submitted it; prices are integers in scaled currency units.
   */
  datatype Order = Order(pcode: string, assetName: string, isBid: bool, price: int, volume: int)

  /** A trade: the resting orders it matched and the order that took them. */
  datatype Trade = Trade(makingOrders: seq<Order>, takingOrder: Order)

  /** True when the order belongs to the trader with participant code `pcode`. */
  predicate OwnedBy(o: Order, pcode: string) {
    o.pcode == pcode
  }
}
