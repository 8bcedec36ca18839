// The event record that every component passes around, with the widths of its
// integer fields.  Only the fields the modelled components read are kept.
module MarketData {

  type u32 = x: int | 0 <= x < 0x1_0000_0000
  type u64 = x: int | 0 <= x < 0x1_0000_0000_0000_0000
  type i64 = x: int | -0x8000_0000_0000_0000 <= x < 0x8000_0000_0000_0000

  // A null price is the largest signed 64-bit value.
  const UNDEF_PRICE: i64 := 0x7FFF_FFFF_FFFF_FFFF

  // Bits of the flag byte that mark an event as unusable for a book.
  const BAD_TS_RECV: bv8 := 8
  const MAYBE_BAD_BOOK: bv8 := 4

  datatype Side = NoSide | Buy | Sell

  datatype Action = Add | Modify | Cancel | Clear | Trade | Fill | NoAction

  datatype Event = Event(
    tsRecv: i64,
    tsEvent: i64,
    orderId: u64,
    price: i64,
    instrumentId: u32,
    size: u32,
    side: Side,
    flags: bv8,
    action: Action
  ) {
    predicate PriceDefined() {
      price != UNDEF_PRICE
    }

    // Whether the event is flagged as unusable for a limit order book.
    predicate Skipped() {
      flags & BAD_TS_RECV != 0 || flags & MAYBE_BAD_BOOK != 0
    }
  }
}
