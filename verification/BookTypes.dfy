/** The vocabulary the order books share (src/order_book/types.h, book_view.h).

    Prices, quantities and order ids are strong integer types in the source; here they are plain
    integers. Prices are only compared, quantities are only summed and compared. */
module BookTypes {

  datatype Option<+T> = None | Some(value: T)

  datatype Side = Bid | Ask

  type OrderId = nat

  datatype BookEntry = BookEntry(price: int, quantity: int)

  datatype IntegrityIssue = Gap | ChecksumMismatch | CrossedBook | UnknownOrder | UnknownLevel

  datatype Readiness = Uninitialized | Ready | Desynced

  /** One touched price level's new state; no quantity means the level was deleted. */
  datatype LevelChange = LevelChange(side: Side, price: int, quantity: Option<int>)

  datatype OrderEventKind = Added | Modified | Deleted

  datatype OrderEvent = OrderEvent(kind: OrderEventKind, id: OrderId, side: Side, price: int, quantity: int)

  /** The first issue is the most specific one, so it is kept. */
  function ReportIssue(slot: Option<IntegrityIssue>, issue: IntegrityIssue): Option<IntegrityIssue> {
    if slot.Some? then slot else Some(issue)
  }

  /** The engine's transition: any reported issue desyncs the book. */
  function AfterIssue(readiness: Readiness, issue: Option<IntegrityIssue>): Readiness {
    if issue.Some? then Desynced else readiness
  }

  predicate IsCrossed(bestBid: Option<BookEntry>, bestAsk: Option<BookEntry>) {
    bestBid.Some? && bestAsk.Some? && bestBid.value.price >= bestAsk.value.price
  }

  /** Position of a price on its side, best first: bids descend, asks ascend. */
  function Rank(side: Side, price: int): int {
    match side
    case Bid => -price
    case Ask => price
  }

  /** Aggregate quantity per occupied price level, both sides together. */
  type LevelTotals = map<(Side, int), int>

  /** What a level listener holds after being told `changes` one by one. */
  function FollowLevels(totals: LevelTotals, changes: seq<LevelChange>): LevelTotals {
    if changes == [] then totals
    else
      var before := FollowLevels(totals, changes[..|changes| - 1]);
      var last := changes[|changes| - 1];
      match last.quantity
      case None => before - {(last.side, last.price)}
      case Some(quantity) => before[(last.side, last.price) := quantity]
  }

  lemma FollowLevelsOne(totals: LevelTotals, changes: seq<LevelChange>, change: LevelChange)
    ensures FollowLevels(totals, changes + [change]) ==
            if change.quantity.None? then FollowLevels(totals, changes) - {(change.side, change.price)}
            else FollowLevels(totals, changes)[(change.side, change.price) := change.quantity.value]
  {
    assert (changes + [change])[..|changes|] == changes;
  }

  lemma EmptyMeansNoMember(s: set<int>)
    ensures s != {} ==> exists x :: x in s
  {
    if forall x :: x !in s {
      assert forall x :: x in s <==> x in {};
      assert s == {};
    }
  }
}
