/** Kraken's level3 checksum (src/order_book/kraken_checksum.cpp): a CRC-32 over the decimal price
    and quantity of every order in the ten best levels of each side, asks first. */
module KrakenChecksum {
  import opened BookTypes
  import opened LevelMaps
  import opened L3List
  import opened L3Levels
  import opened L3View
  import opened Bytes
  import Decimal
  import Crc32

  const CHECKSUM_LEVELS: nat := 10

  function Token(entry: BookEntry): bytes {
    Decimal.Render(entry.price) + Decimal.Render(entry.quantity)
  }

  function Tokens(entries: seq<BookEntry>): bytes {
    if entries == [] then [] else Tokens(entries[..|entries| - 1]) + Token(entries[|entries| - 1])
  }

  /** How many times the price changes along the entries, the first one included. */
  function Runs(entries: seq<BookEntry>): nat {
    if entries == [] then 0
    else if |entries| == 1 then 1
    else Runs(entries[..|entries| - 1])
         + if entries[|entries| - 1].price == entries[|entries| - 2].price then 0 else 1
  }

  /** The longest prefix of at most `limit` price levels. */
  function TopPart(entries: seq<BookEntry>, limit: nat): seq<BookEntry> {
    if Runs(entries) <= limit then entries else TopPart(entries[..|entries| - 1], limit)
  }

  /** The checksum of a view, as a function of its entries. */
  function Checksum(bids: seq<BookEntry>, asks: seq<BookEntry>): bv32 {
    Crc32.Of(Tokens(TopPart(asks, CHECKSUM_LEVELS)) + Tokens(TopPart(bids, CHECKSUM_LEVELS)))
  }

  /** The checksum of a book, from the whole of its two sides. */
  function BookChecksum(orders: seq<Order>): bv32 {
    Checksum(Entries(SideView(orders, Bid)), Entries(SideView(orders, Ask)))
  }

  lemma {:induction false} RunsGrow(entries: seq<BookEntry>, n: nat)
    requires n <= |entries|
    ensures Runs(entries[..n]) <= Runs(entries)
    decreases |entries| - n
  {
    if n == |entries| {
      assert entries[..n] == entries;
    } else {
      RunsGrow(entries, n + 1);
      assert entries[..n + 1][..n] == entries[..n];
    }
  }

  lemma {:induction false} TopPartAt(entries: seq<BookEntry>, limit: nat, n: nat)
    requires n < |entries| && Runs(entries[..n]) <= limit < Runs(entries[..n + 1])
    ensures TopPart(entries, limit) == entries[..n]
    decreases |entries|
  {
    RunsGrow(entries, n + 1);
    var front := entries[..|entries| - 1];
    if n == |front| {
      assert TopPart(front, limit) == front;
    } else {
      assert front[..n] == entries[..n] && front[..n + 1] == entries[..n + 1];
      TopPartAt(front, limit, n);
    }
  }

  lemma EmptyPrefix()
    ensures Runs([]) == 0 && Tokens([]) == []
  {
  }

  lemma TopPartWhole(entries: seq<BookEntry>, limit: nat)
    requires Runs(entries) <= limit
    ensures TopPart(entries, limit) == entries
  {
  }

  lemma PrefixStep(entries: seq<BookEntry>, i: nat)
    requires i < |entries|
    ensures Tokens(entries[..i + 1]) == Tokens(entries[..i]) + Token(entries[i])
    ensures Runs(entries[..i + 1]) ==
            Runs(entries[..i]) + if i > 0 && entries[i].price == entries[i - 1].price then 0 else 1
  {
    assert entries[..i + 1][..i] == entries[..i];
  }

  method AppendTopLevels(out: bytes, entries: seq<BookEntry>) returns (result: bytes)
    ensures result == out + Tokens(TopPart(entries, CHECKSUM_LEVELS))
  {
    hide Runs, Tokens, TopPart, Decimal.Render;
    result := out;
    assert entries[..0] == [];
    EmptyPrefix();
    var levelsSeen := 0;
    var currentPrice: Option<int> := None;
    for i := 0 to |entries|
      invariant levelsSeen == Runs(entries[..i]) <= CHECKSUM_LEVELS
      invariant currentPrice == if i == 0 then None else Some(entries[i - 1].price)
      invariant result == out + Tokens(entries[..i])
    {
      PrefixStep(entries, i);
      if currentPrice.None? || entries[i].price != currentPrice.value {
        levelsSeen := levelsSeen + 1;
        if levelsSeen > CHECKSUM_LEVELS {
          TopPartAt(entries, CHECKSUM_LEVELS, i);
          return;
        }
        currentPrice := Some(entries[i].price);
      }
      result := result + Decimal.Render(entries[i].price);
      result := result + Decimal.Render(entries[i].quantity);
    }
    assert entries[..|entries|] == entries;
    TopPartWhole(entries, CHECKSUM_LEVELS);
  }

  /** The numbers of the entries as text: each entry's price, then its quantity. */
  function Numbers(entries: seq<BookEntry>): seq<bytes> {
    if entries == [] then []
    else [Decimal.Render(entries[0].price), Decimal.Render(entries[0].quantity)] + Numbers(entries[1..])
  }

  lemma {:induction false} NumbersAt(entries: seq<BookEntry>, i: nat)
    requires i < |entries|
    ensures |Numbers(entries)| == 2 * |entries|
    ensures Numbers(entries)[2 * i] == Decimal.Render(entries[i].price)
    ensures Numbers(entries)[2 * i + 1] == Decimal.Render(entries[i].quantity)
  {
    hide Decimal.Render;
    var rest := entries[1..];
    if i > 0 {
      NumbersAt(rest, i - 1);
      assert entries[i] == rest[i - 1];
    } else if rest != [] {
      NumbersAt(rest, 0);
    }
  }

  lemma {:induction false} ConcatAppend(a: seq<bytes>, b: seq<bytes>)
    ensures Concat(a + b) == Concat(a) + Concat(b)
  {
    if b == [] {
      assert a + b == a;
    } else {
      ConcatAppend(a, b[..|b| - 1]);
      assert (a + b)[..|a + b| - 1] == a + b[..|b| - 1];
    }
  }

  lemma {:induction false} NumbersStep(entries: seq<BookEntry>)
    requires entries != []
    ensures var last := entries[|entries| - 1];
            Numbers(entries) ==
            Numbers(entries[..|entries| - 1]) + [Decimal.Render(last.price)] + [Decimal.Render(last.quantity)]
  {
    hide Decimal.Render;
    var n := |entries| - 1;
    if n == 0 {
      assert entries[1..] == [] && entries[..0] == [];
    } else {
      NumbersStep(entries[1..]);
      assert entries[1..][..n - 1] == entries[..n][1..];
    }
  }

  lemma ConcatTwo(texts: seq<bytes>, a: bytes, b: bytes)
    ensures Concat(texts + [a] + [b]) == Concat(texts) + (a + b)
  {
    assert (texts + [a] + [b])[..|texts| + 1] == texts + [a];
    assert (texts + [a])[..|texts|] == texts;
    assert Concat(texts) + a + b == Concat(texts) + (a + b);
  }

  lemma {:induction false} TokensAreNumbers(entries: seq<BookEntry>)
    ensures Tokens(entries) == Concat(Numbers(entries))
  {
    hide Decimal.Render, Concat, Numbers;
    if entries == [] {
      NoNumbers();
    } else {
      var front, last := entries[..|entries| - 1], entries[|entries| - 1];
      TokensAreNumbers(front);
      NumbersStep(entries);
      ConcatTwo(Numbers(front), Decimal.Render(last.price), Decimal.Render(last.quantity));
    }
  }

  lemma NoNumbers()
    ensures Concat(Numbers([])) == []
  {
  }

  /** What is checked: the asks' numbers, best level first and price before quantity, then the bids'. */
  lemma ChecksumOfNumbers(bids: seq<BookEntry>, asks: seq<BookEntry>)
    ensures Checksum(bids, asks) ==
            Crc32.Of(Concat(Numbers(TopPart(asks, CHECKSUM_LEVELS)) + Numbers(TopPart(bids, CHECKSUM_LEVELS))))
  {
    hide Tokens, Numbers, Concat, Crc32.Of, TopPart;
    var a, b := TopPart(asks, CHECKSUM_LEVELS), TopPart(bids, CHECKSUM_LEVELS);
    TokensAreNumbers(a);
    TokensAreNumbers(b);
    ConcatAppend(Numbers(a), Numbers(b));
  }

  method KrakenL3Checksum(bids: seq<BookEntry>, asks: seq<BookEntry>) returns (checksum: bv32)
    ensures checksum == Checksum(bids, asks)
    ensures checksum == Crc32.Of(Concat(Numbers(TopPart(asks, CHECKSUM_LEVELS)) + Numbers(TopPart(bids, CHECKSUM_LEVELS))))
  {
    ChecksumOfNumbers(bids, asks);
    hide Numbers, Concat;
    var buffer := AppendTopLevels([], asks);
    buffer := AppendTopLevels(buffer, bids);
    assert [] + Tokens(TopPart(asks, CHECKSUM_LEVELS)) == Tokens(TopPart(asks, CHECKSUM_LEVELS));
    checksum := Crc32.Compute(buffer);
  }

  // ---------------------------------------------------------------------- windows of a sorted book

  /** The entries of a side's `n` best levels. */
  ghost function Window(side: Side, levels: OrderLevels, orders: seq<Order>, n: nat): seq<BookEntry>
    requires n <= |levels|
  {
    Entries(LevelOrders(side, levels, orders, n))
  }

  lemma {:induction false} RunsOfUniform(prefix: seq<BookEntry>, level: seq<BookEntry>, price: int)
    requires level != [] && forall i :: 0 <= i < |level| ==> level[i].price == price
    requires prefix != [] ==> prefix[|prefix| - 1].price != price
    ensures Runs(prefix + level) == Runs(prefix) + 1
  {
    var all := prefix + level;
    assert all[..|all| - 1] == prefix + level[..|level| - 1];
    if |level| == 1 {
      assert prefix + level[..0] == prefix;
    } else {
      RunsOfUniform(prefix, level[..|level| - 1], price);
    }
  }

  lemma LevelOf(side: Side, levels: OrderLevels, orders: seq<Order>, n: nat)
    requires Match(side, levels, orders) && n < |levels|
    ensures AtLevel(orders, side, levels[n].price) != []
    ensures forall o :: o in AtLevel(orders, side, levels[n].price) ==> o.price == levels[n].price
  {
    PositionUnique(side, levels, levels[n].price, n);
    assert LevelOk(side, levels, orders, levels[n].price);
    AtLevelMembers(orders, side, levels[n].price);
  }

  /** A window of n levels has n price runs and ends on the n-th price. */
  lemma {:induction false} RunsOfWindow(side: Side, levels: OrderLevels, orders: seq<Order>, n: nat)
    requires Match(side, levels, orders) && n <= |levels|
    ensures Runs(Window(side, levels, orders, n)) == n
    ensures n > 0 ==> LevelOrders(side, levels, orders, n) != [] &&
                      (var w := LevelOrders(side, levels, orders, n); w[|w| - 1].price == levels[n - 1].price)
  {
    hide AtLevel, Match, Runs;
    if n == 0 {
      EmptyPrefix();
    } else {
      RunsOfWindow(side, levels, orders, n - 1);
      LevelOf(side, levels, orders, n - 1);
      var front := LevelOrders(side, levels, orders, n - 1);
      var level := AtLevel(orders, side, levels[n - 1].price);
      assert level[|level| - 1] in level;
      assert Entries(front + level) == Entries(front) + Entries(level);
      if n > 1 {
        AdjacentPrices(side, levels, orders, n - 1);
      }
      RunsOfUniform(Entries(front), Entries(level), levels[n - 1].price);
    }
  }

  lemma {:induction false} TopPartOfWindow(side: Side, levels: OrderLevels, orders: seq<Order>, n: nat, limit: nat)
    requires Match(side, levels, orders) && limit <= n <= |levels|
    ensures TopPart(Window(side, levels, orders, n), limit) == Window(side, levels, orders, limit)
  {
    hide Runs, TopPart;
    RunsOfWindow(side, levels, orders, n);
    if n == limit {
      TopPartWhole(Window(side, levels, orders, n), limit);
    } else {
      TopPartOfWindow(side, levels, orders, n - 1, limit);
      TopPartOneLess(side, levels, orders, n, limit);
    }
  }

  /** The n-th level is beyond the limit, so it does not show. */
  lemma TopPartOneLess(side: Side, levels: OrderLevels, orders: seq<Order>, n: nat, limit: nat)
    requires Match(side, levels, orders) && limit < n <= |levels|
    ensures TopPart(Window(side, levels, orders, n), limit) == TopPart(Window(side, levels, orders, n - 1), limit)
  {
    hide Runs, TopPart, Match, AtLevel;
    RunsOfWindow(side, levels, orders, n - 1);
    LevelOf(side, levels, orders, n - 1);
    var front := LevelOrders(side, levels, orders, n - 1);
    var level := AtLevel(orders, side, levels[n - 1].price);
    assert Entries(front + level) == Entries(front) + Entries(level);
    if n > 1 {
      AdjacentPrices(side, levels, orders, n - 1);
    }
    TopPartSkipsLevel(Entries(front), Entries(level), levels[n - 1].price, limit);
  }

  lemma AdjacentPrices(side: Side, levels: OrderLevels, orders: seq<Order>, n: nat)
    requires Match(side, levels, orders) && 0 < n < |levels|
    ensures levels[n - 1].price != levels[n].price
  {
    assert Rank(side, levels[n - 1].price) < Rank(side, levels[n].price);
  }

  lemma {:induction false} TopPartSkipsLevel(prefix: seq<BookEntry>, level: seq<BookEntry>, price: int, limit: nat)
    requires Runs(prefix) >= limit
    requires forall i :: 0 <= i < |level| ==> level[i].price == price
    requires prefix != [] ==> prefix[|prefix| - 1].price != price
    ensures TopPart(prefix + level, limit) == TopPart(prefix, limit)
  {
    if level == [] {
      assert prefix + level == prefix;
    } else {
      RunsOfUniform(prefix, level, price);
      TopPartSkipsLevel(prefix, level[..|level| - 1], price, limit);
      assert (prefix + level)[..|prefix + level| - 1] == prefix + level[..|level| - 1];
    }
  }

  /** Any window of at least ten levels has the same top part as the whole side. */
  lemma WindowSuffices(side: Side, levels: OrderLevels, orders: seq<Order>, n: nat)
    requires Match(side, levels, orders)
    requires n <= |levels| && (n >= CHECKSUM_LEVELS || n == |levels|)
    ensures TopPart(Window(side, levels, orders, n), CHECKSUM_LEVELS) ==
            TopPart(Entries(SideView(orders, side)), CHECKSUM_LEVELS)
  {
    LevelsAreSideView(side, levels, orders);
    if n >= CHECKSUM_LEVELS {
      TopPartOfWindow(side, levels, orders, n, CHECKSUM_LEVELS);
      TopPartOfWindow(side, levels, orders, |levels|, CHECKSUM_LEVELS);
    }
  }
}
