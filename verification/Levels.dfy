// The two intrusive records of a limit order book.  A price level is at once a
// node of a parent-linked AVL tree and the head of a doubly linked list of
// orders.  A level's price and an order's identity never change after
// construction, so they are constants here.
module Levels {
  import opened MarketData

  class PriceLevel {
    const price: i64
    var orderCount: int
    var totalQuantity: int

    var parent: PriceLevel?
    var left: PriceLevel?
    var right: PriceLevel?
    var height: int

    var front: OrderEntry?
    var back: OrderEntry?

    constructor (price: i64)
      ensures this.price == price
      ensures orderCount == 0 && totalQuantity == 0
      ensures parent == null && left == null && right == null && height == 1
      ensures front == null && back == null
    {
      this.price := price;
      orderCount, totalQuantity := 0, 0;
      parent, left, right, height := null, null, null, 1;
      front, back := null, null;
    }
  }

  class OrderEntry {
    const orderId: u64
    const side: Side
    const price: i64
    const entryTime: i64
    var quantity: int
    var lastUpdate: i64

    var next: OrderEntry?
    var prev: OrderEntry?
    const level: PriceLevel

    constructor (orderId: u64, side: Side, price: i64, quantity: int, time: i64, level: PriceLevel)
      ensures this.orderId == orderId && this.side == side && this.price == price
      ensures this.entryTime == time && this.lastUpdate == time
      ensures this.quantity == quantity && this.level == level
      ensures next == null && prev == null
    {
      this.orderId, this.side, this.price := orderId, side, price;
      this.entryTime, this.lastUpdate := time, time;
      this.quantity, this.level := quantity, level;
      next, prev := null, null;
    }
  }
}
