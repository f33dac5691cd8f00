/** What the engine tells its listener about one message (Notify in src/order_book/engine.h). */
module Engines {
  import opened BookTypes

  datatype Notice =
    | TopOfBook(side: Side, best: Option<BookEntry>)
    | LevelNotice(change: LevelChange)
    | OrderNotice(event: OrderEvent)
    | CheckFailed(issue: IntegrityIssue)

  function LevelNotices(changes: seq<LevelChange>): seq<Notice> {
    if changes == [] then [] else LevelNotices(changes[..|changes| - 1]) + [LevelNotice(changes[|changes| - 1])]
  }

  function OrderNotices(events: seq<OrderEvent>): seq<Notice> {
    if events == [] then [] else OrderNotices(events[..|events| - 1]) + [OrderNotice(events[|events| - 1])]
  }

  /** Tops of book that changed, then levels, then orders, then an integrity failure. */
  function Notices(bidTop: bool, askTop: bool, bestBid: Option<BookEntry>, bestAsk: Option<BookEntry>,
                   changes: seq<LevelChange>, events: seq<OrderEvent>, issue: Option<IntegrityIssue>): seq<Notice> {
    (if bidTop then [TopOfBook(Bid, bestBid)] else []) + (if askTop then [TopOfBook(Ask, bestAsk)] else [])
    + LevelNotices(changes) + OrderNotices(events) + if issue.Some? then [CheckFailed(issue.value)] else []
  }

  method TellLevels(changes: seq<LevelChange>) returns (notices: seq<Notice>)
    ensures notices == LevelNotices(changes)
  {
    notices := [];
    for i := 0 to |changes|
      invariant notices == LevelNotices(changes[..i])
    {
      assert changes[..i + 1][..i] == changes[..i];
      notices := notices + [LevelNotice(changes[i])];
    }
    assert changes[..|changes|] == changes;
  }

  method TellOrders(events: seq<OrderEvent>) returns (notices: seq<Notice>)
    ensures notices == OrderNotices(events)
  {
    notices := [];
    for i := 0 to |events|
      invariant notices == OrderNotices(events[..i])
    {
      assert events[..i + 1][..i] == events[..i];
      notices := notices + [OrderNotice(events[i])];
    }
    assert events[..|events|] == events;
  }

  method Notify(bidTop: bool, askTop: bool, bestBid: Option<BookEntry>, bestAsk: Option<BookEntry>,
                changes: seq<LevelChange>, events: seq<OrderEvent>, issue: Option<IntegrityIssue>)
    returns (notices: seq<Notice>)
    ensures notices == Notices(bidTop, askTop, bestBid, bestAsk, changes, events, issue)
    ensures Tells(notices, changes, events, if issue.Some? then [issue.value] else [])
  {
    hide LevelNotices, OrderNotices, Tells;
    NoticesTell(bidTop, askTop, bestBid, bestAsk, changes, events, issue);
    notices := [];
    if bidTop {
      notices := notices + [TopOfBook(Bid, bestBid)];
    }
    if askTop {
      notices := notices + [TopOfBook(Ask, bestAsk)];
    }
    var levels := TellLevels(changes);
    var orders := TellOrders(events);
    notices := notices + levels + orders;
    if issue.Some? {
      notices := notices + [CheckFailed(issue.value)];
    }
  }

  // ------------------------------------------------------------------------------- what a listener knows

  /** The top of a side a listener was last told; none before it was told one. */
  function Told(heard: seq<Notice>, side: Side): Option<BookEntry> {
    if heard == [] then None
    else
      var last := heard[|heard| - 1];
      if last.TopOfBook? && last.side == side then last.best else Told(heard[..|heard| - 1], side)
  }

  lemma ToldOne(heard: seq<Notice>, notice: Notice, side: Side)
    ensures Told(heard + [notice], side) ==
            if notice.TopOfBook? && notice.side == side then notice.best else Told(heard, side)
  {
    assert (heard + [notice])[..|heard|] == heard;
  }

  lemma {:induction false} ToldLevels(heard: seq<Notice>, changes: seq<LevelChange>, side: Side)
    ensures Told(heard + LevelNotices(changes), side) == Told(heard, side)
  {
    if changes == [] {
      assert heard + [] == heard;
    } else {
      var front, last := changes[..|changes| - 1], changes[|changes| - 1];
      ToldLevels(heard, front, side);
      ToldOne(heard + LevelNotices(front), LevelNotice(last), side);
      assert heard + LevelNotices(changes) == (heard + LevelNotices(front)) + [LevelNotice(last)];
    }
  }

  lemma {:induction false} ToldOrders(heard: seq<Notice>, events: seq<OrderEvent>, side: Side)
    ensures Told(heard + OrderNotices(events), side) == Told(heard, side)
  {
    if events == [] {
      assert heard + [] == heard;
    } else {
      var front, last := events[..|events| - 1], events[|events| - 1];
      ToldOrders(heard, front, side);
      ToldOne(heard + OrderNotices(front), OrderNotice(last), side);
      assert heard + OrderNotices(events) == (heard + OrderNotices(front)) + [OrderNotice(last)];
    }
  }

  lemma ToldRest(heard: seq<Notice>, changes: seq<LevelChange>, events: seq<OrderEvent>, issue: Option<IntegrityIssue>, side: Side)
    ensures var failed := if issue.Some? then [CheckFailed(issue.value)] else [];
            Told(heard + LevelNotices(changes) + OrderNotices(events) + failed, side) == Told(heard, side)
  {
    hide Told, LevelNotices, OrderNotices;
    var levels := heard + LevelNotices(changes);
    var orders := levels + OrderNotices(events);
    ToldLevels(heard, changes, side);
    ToldOrders(levels, events, side);
    if issue.Some? {
      ToldOne(orders, CheckFailed(issue.value), side);
    } else {
      assert orders + [] == orders;
    }
  }

  /** After a message the listener knows the tops it was told, and otherwise what it knew. */
  lemma ToldAfter(heard: seq<Notice>, bidTop: bool, askTop: bool, bestBid: Option<BookEntry>, bestAsk: Option<BookEntry>,
                  changes: seq<LevelChange>, events: seq<OrderEvent>, issue: Option<IntegrityIssue>)
    ensures var after := heard + Notices(bidTop, askTop, bestBid, bestAsk, changes, events, issue);
            && Told(after, Bid) == (if bidTop then bestBid else Told(heard, Bid))
            && Told(after, Ask) == if askTop then bestAsk else Told(heard, Ask)
  {
    hide Told, LevelNotices, OrderNotices;
    var bid, ask := if bidTop then [TopOfBook(Bid, bestBid)] else [], if askTop then [TopOfBook(Ask, bestAsk)] else [];
    var failed := if issue.Some? then [CheckFailed(issue.value)] else [];
    var h1, h2 := heard + bid, heard + bid + ask;
    assert heard + Notices(bidTop, askTop, bestBid, bestAsk, changes, events, issue)
        == h2 + LevelNotices(changes) + OrderNotices(events) + failed;
    assert heard + [] == heard && h1 + [] == h1;
    ToldRest(h2, changes, events, issue, Bid);
    ToldRest(h2, changes, events, issue, Ask);
    ToldOne(heard, TopOfBook(Bid, bestBid), Bid);
    ToldOne(heard, TopOfBook(Bid, bestBid), Ask);
    ToldOne(h1, TopOfBook(Ask, bestAsk), Bid);
    ToldOne(h1, TopOfBook(Ask, bestAsk), Ask);
  }

  function LevelsTold(notices: seq<Notice>): seq<LevelChange> {
    if notices == [] then []
    else
      var last := notices[|notices| - 1];
      LevelsTold(notices[..|notices| - 1]) + if last.LevelNotice? then [last.change] else []
  }

  function OrdersTold(notices: seq<Notice>): seq<OrderEvent> {
    if notices == [] then []
    else
      var last := notices[|notices| - 1];
      OrdersTold(notices[..|notices| - 1]) + if last.OrderNotice? then [last.event] else []
  }

  function FailuresTold(notices: seq<Notice>): seq<IntegrityIssue> {
    if notices == [] then []
    else
      var last := notices[|notices| - 1];
      FailuresTold(notices[..|notices| - 1]) + if last.CheckFailed? then [last.issue] else []
  }

  lemma ToldOneMore(notices: seq<Notice>, notice: Notice)
    ensures LevelsTold(notices + [notice]) == LevelsTold(notices) + if notice.LevelNotice? then [notice.change] else []
    ensures OrdersTold(notices + [notice]) == OrdersTold(notices) + if notice.OrderNotice? then [notice.event] else []
    ensures FailuresTold(notices + [notice]) == FailuresTold(notices) + if notice.CheckFailed? then [notice.issue] else []
  {
    assert (notices + [notice])[..|notices|] == notices;
  }

  /** These level changes, order events and failures, and no others, are in the notices. */
  predicate Tells(notices: seq<Notice>, changes: seq<LevelChange>, events: seq<OrderEvent>, issues: seq<IntegrityIssue>) {
    LevelsTold(notices) == changes && OrdersTold(notices) == events && FailuresTold(notices) == issues
  }

  lemma {:induction false} TellsLevels(notices: seq<Notice>, changes: seq<LevelChange>)
    requires Tells(notices, [], [], [])
    ensures Tells(notices + LevelNotices(changes), changes, [], [])
  {
    hide LevelsTold, OrdersTold, FailuresTold;
    if changes == [] {
      assert notices + [] == notices;
    } else {
      var front, last := changes[..|changes| - 1], changes[|changes| - 1];
      TellsLevels(notices, front);
      ToldOneMore(notices + LevelNotices(front), LevelNotice(last));
      assert notices + LevelNotices(changes) == (notices + LevelNotices(front)) + [LevelNotice(last)];
    }
  }

  lemma {:induction false} TellsOrders(notices: seq<Notice>, changes: seq<LevelChange>, events: seq<OrderEvent>)
    requires Tells(notices, changes, [], [])
    ensures Tells(notices + OrderNotices(events), changes, events, [])
  {
    hide LevelsTold, OrdersTold, FailuresTold;
    if events == [] {
      assert notices + [] == notices;
    } else {
      var front, last := events[..|events| - 1], events[|events| - 1];
      TellsOrders(notices, changes, front);
      ToldOneMore(notices + OrderNotices(front), OrderNotice(last));
      assert notices + OrderNotices(events) == (notices + OrderNotices(front)) + [OrderNotice(last)];
    }
  }

  lemma TopsTellNothingElse(bidTop: bool, askTop: bool, bestBid: Option<BookEntry>, bestAsk: Option<BookEntry>)
    ensures Tells((if bidTop then [TopOfBook(Bid, bestBid)] else []) + (if askTop then [TopOfBook(Ask, bestAsk)] else []), [], [], [])
  {
    var bid := if bidTop then [TopOfBook(Bid, bestBid)] else [];
    assert [] + [TopOfBook(Bid, bestBid)] == [TopOfBook(Bid, bestBid)];
    ToldOneMore([], TopOfBook(Bid, bestBid));
    assert Tells(bid, [], [], []);
    ToldOneMore(bid, TopOfBook(Ask, bestAsk));
    assert bid + [] == bid;
  }

  /** A listener hears every level change, every order event and the failure, once each and in order. */
  lemma NoticesTell(bidTop: bool, askTop: bool, bestBid: Option<BookEntry>, bestAsk: Option<BookEntry>,
                    changes: seq<LevelChange>, events: seq<OrderEvent>, issue: Option<IntegrityIssue>)
    ensures Tells(Notices(bidTop, askTop, bestBid, bestAsk, changes, events, issue), changes, events,
                  if issue.Some? then [issue.value] else [])
  {
    hide LevelNotices, OrderNotices, LevelsTold, OrdersTold, FailuresTold;
    var bid, ask := if bidTop then [TopOfBook(Bid, bestBid)] else [], if askTop then [TopOfBook(Ask, bestAsk)] else [];
    var tops := bid + ask;
    TopsTellNothingElse(bidTop, askTop, bestBid, bestAsk);
    TellsLevels(tops, changes);
    TellsOrders(tops + LevelNotices(changes), changes, events);
    var all := tops + LevelNotices(changes) + OrderNotices(events);
    if issue.Some? {
      ToldOneMore(all, CheckFailed(issue.value));
    } else {
      assert all + [] == all;
    }
  }
}
