/**
 * One market cell of the trading screen (`AssetCell`): how a trade is
 * labelled for this trader, and the order record built when the trader
 * presses Buy or Sell.
 */
module AssetCell {
  import opened Orders

  /** Does the trader own a bid (`bid` true) or an ask (`bid` false) among `orders`? */
  function OwnsSide(orders: seq<Order>, pcode: string, bid: bool): (r: bool)
    ensures r <==> exists i :: 0 <= i < |orders| && OwnedBy(orders[i], pcode) && orders[i].isBid == bid
    decreases |orders|
  {
    if |orders| == 0 then false
    else if orders[0].pcode == pcode && orders[0].isBid == bid then true
    else
      var r := OwnsSide(orders[1..], pcode, bid);
      assert r ==> exists i :: 0 <= i < |orders| && OwnedBy(orders[i], pcode) && orders[i].isBid == bid by {
        if r {
          var i :| 0 <= i < |orders[1..]| && OwnedBy(orders[1..][i], pcode) && orders[1..][i].isBid == bid;
          assert orders[i + 1] == orders[1..][i];
        }
      }
      r
  }

  /** Every order of a trade: the making orders followed by the taking order. */
  function AllOrders(trade: Trade): seq<Order> {
    trade.makingOrders + [trade.takingOrder]
  }

  /** The buy/sell indicator: ' BS' if the trader bought and sold, ' B' or ' S' for one side, '' otherwise. */
  function BuySellIndicator(trade: Trade, pcode: string): (r: string)
    ensures var orders := AllOrders(trade);
      var bought := exists i :: 0 <= i < |orders| && OwnedBy(orders[i], pcode) && orders[i].isBid;
      var sold := exists i :: 0 <= i < |orders| && OwnedBy(orders[i], pcode) && !orders[i].isBid;
      && (r == " BS" <==> bought && sold)
      && (r == " B" <==> bought && !sold)
      && (r == " S" <==> !bought && sold)
      && (r == "" <==> !bought && !sold)
  {
    var orders := AllOrders(trade);
    var bought := OwnsSide(orders, pcode, true);
    var sold := OwnsSide(orders, pcode, false);
    if bought && sold then " BS"
    else if bought then " B"
    else if sold then " S"
    else ""
  }

  /** A trade with none of the trader's orders carries no indicator. */
  lemma ForeignTradeUnmarked(trade: Trade, pcode: string)
    requires forall i :: 0 <= i < |AllOrders(trade)| ==> !OwnedBy(AllOrders(trade)[i], pcode)
    ensures BuySellIndicator(trade, pcode) == ""
  {
  }

  /**
   * `tradeDisplayFormat`: '$', the first making order's price in human
   * units, then the indicator. The price conversion is a parameter.
   */
  function TradeDisplayFormat(trade: Trade, pcode: string, toHumanReadable: int -> string): (r: string)
    requires |trade.makingOrders| > 0
    ensures var price := toHumanReadable(trade.makingOrders[0].price);
      && |r| >= 1 + |price|
      && r[0] == '$'
      && r[1..1 + |price|] == price
      && r[1 + |price|..] == BuySellIndicator(trade, pcode)
  {
    "$" + toHumanReadable(trade.makingOrders[0].price) + BuySellIndicator(trade, pcode)
  }

  /** The order handed on by the `order-entered` event (it carries no trader code). */
  datatype EnteredOrder = EnteredOrder(price: int, volume: int, isBid: bool, assetName: string)

  /**
   * `_enter_order`: the pressed button says bid or ask; the price is read from
   * that side's input and scaled to integer units (both parameters here);
   * the volume is always one unit of the cell's asset.
   */
  function EnterOrder<F>(buttonValue: string, bidPriceInput: string, askPriceInput: string,
                         assetName: string, parseFloat: string -> F, fromHumanReadable: F -> int)
    : (r: EnteredOrder)
    ensures r.isBid <==> buttonValue == "bid"
    ensures r.price == fromHumanReadable(parseFloat(if buttonValue == "bid" then bidPriceInput else askPriceInput))
    ensures r.volume == 1
    ensures r.assetName == assetName
  {
    var isBid := buttonValue == "bid";
    var price := parseFloat(if isBid then bidPriceInput else askPriceInput);
    EnteredOrder(fromHumanReadable(price), 1, isBid, assetName)
  }
}
