/**
 The merging scenario of the repository's `should_merge` test, stated over
 the model: Bitstamp quotes bids 10, 9, ..., 1 and asks 11, ..., 20 at
 amount 1; Binance quotes bids 10.5, ..., 1.5 and asks 11.5, ..., 20.5 at
 amount 2. The merged view interleaves the two exchanges' prices.
 */
module Scenarios {
  import opened SortedKeys
  import opened PriceMaps
  import opened OrderBook

  function BitstampBid(i: int): real { 10.0 - i as real }
  function BinanceBid(i: int): real { 10.5 - i as real }
  function BitstampAsk(i: int): real { 11.0 + i as real }
  function BinanceAsk(i: int): real { 11.5 + i as real }

  function BitstampTick(): Tick {
    Tick(Bitstamp,
      seq(10, i => Level(BitstampBid(i), 1.0)),
      seq(10, i => Level(BitstampAsk(i), 1.0)))
  }

  function BinanceTick(): Tick {
    Tick(Binance,
      seq(10, i => Level(BinanceBid(i), 2.0)),
      seq(10, i => Level(BinanceAsk(i), 2.0)))
  }

  /** The book after adding the Bitstamp tick, then the Binance tick, to a new book. */
  function ShouldMergeBook(): MainOrderBook {
    Add(Add(NewMainOrderBook(), BitstampTick()), BinanceTick())
  }

  /** `p` is a whole number. */
  predicate Whole(p: real) {
    p.Floor as real == p
  }

  /** A number is never both whole and a whole number plus a half. */
  lemma WholeOrHalf(p: real)
    ensures !(Whole(p) && Whole(p - 0.5))
  {
  }

  /** The bid prices Bitstamp quotes in the scenario: whole numbers from 1 to 10. */
  predicate IsBitstampBid(p: real) { Whole(p) && 1.0 <= p <= 10.0 }
  /** The bid prices Binance quotes in the scenario: half numbers from 1.5 to 10.5. */
  predicate IsBinanceBid(p: real) { Whole(p - 0.5) && 1.5 <= p <= 10.5 }
  /** The ask prices Bitstamp quotes in the scenario: whole numbers from 11 to 20. */
  predicate IsBitstampAsk(p: real) { Whole(p) && 11.0 <= p <= 20.0 }
  /** The ask prices Binance quotes in the scenario: half numbers from 11.5 to 20.5. */
  predicate IsBinanceAsk(p: real) { Whole(p - 0.5) && 11.5 <= p <= 20.5 }

  /** `m` quotes the ten Bitstamp bids of the scenario, each at amount 1, and nothing else. */
  predicate BitstampBidShape(m: PriceMap) {
    && (forall i :: 0 <= i < 10 ==> BitstampBid(i) in m)
    && (forall p :: p in m ==> m[p] == 1.0 && IsBitstampBid(p))
  }

  /** `m` quotes the ten Binance bids of the scenario, each at amount 2, and nothing else. */
  predicate BinanceBidShape(m: PriceMap) {
    && (forall i :: 0 <= i < 10 ==> BinanceBid(i) in m)
    && (forall p :: p in m ==> m[p] == 2.0 && IsBinanceBid(p))
  }

  /** `t` quotes the twenty bids of both exchanges, each at its own exchange's amount, and nothing else. */
  predicate MergedBidShape(t: PriceMap) {
    && (forall i :: 0 <= i < 10 ==> BitstampBid(i) in t && t[BitstampBid(i)] == 1.0)
    && (forall i :: 0 <= i < 10 ==> BinanceBid(i) in t && t[BinanceBid(i)] == 2.0)
    && (forall p :: p in t ==> IsBitstampBid(p) || IsBinanceBid(p))
  }

  /** `m` quotes the ten Bitstamp asks of the scenario, each at amount 1, and nothing else. */
  predicate BitstampAskShape(m: PriceMap) {
    && (forall i :: 0 <= i < 10 ==> BitstampAsk(i) in m)
    && (forall p :: p in m ==> m[p] == 1.0 && IsBitstampAsk(p))
  }

  /** `m` quotes the ten Binance asks of the scenario, each at amount 2, and nothing else. */
  predicate BinanceAskShape(m: PriceMap) {
    && (forall i :: 0 <= i < 10 ==> BinanceAsk(i) in m)
    && (forall p :: p in m ==> m[p] == 2.0 && IsBinanceAsk(p))
  }

  /** `t` quotes the twenty asks of both exchanges, each at its own exchange's amount, and nothing else. */
  predicate MergedAskShape(t: PriceMap) {
    && (forall i :: 0 <= i < 10 ==> BitstampAsk(i) in t && t[BitstampAsk(i)] == 1.0)
    && (forall i :: 0 <= i < 10 ==> BinanceAsk(i) in t && t[BinanceAsk(i)] == 2.0)
    && (forall p :: p in t ==> IsBitstampAsk(p) || IsBinanceAsk(p))
  }

  /** The `i`-th scenario price of each exchange and side lies in its price set. */
  lemma BitstampBidIs(i: int)
    requires 0 <= i < 10
    ensures IsBitstampBid(BitstampBid(i))
  {
  }

  lemma BinanceBidIs(i: int)
    requires 0 <= i < 10
    ensures IsBinanceBid(BinanceBid(i))
  {
  }

  lemma BitstampAskIs(i: int)
    requires 0 <= i < 10
    ensures IsBitstampAsk(BitstampAsk(i))
  {
  }

  lemma BinanceAskIs(i: int)
    requires 0 <= i < 10
    ensures IsBinanceAsk(BinanceAsk(i))
  {
  }

  /** A tick side quoting each price once, all at amount `a`, collects into a map holding `a` everywhere. */
  lemma DistinctToMap(levels: seq<Level>, a: real)
    requires forall i, j :: 0 <= i < j < |levels| ==> levels[i].price != levels[j].price
    requires forall i :: 0 <= i < |levels| ==> levels[i].amount == a
    ensures forall p :: p in ToMap(levels) ==> ToMap(levels)[p] == a
  {
    forall p | p in ToMap(levels)
      ensures ToMap(levels)[p] == a
    {
      var i :| 0 <= i < |levels| && levels[i].price == p;
      assert LastOccurrence(levels, i);
    }
  }

  /** Bitstamp's bids collect into the map of its scenario prices at amount 1. */
  lemma BitstampBidMap()
    ensures BitstampBidShape(ToMap(BitstampTick().bids))
  {
    var s := BitstampTick().bids;
    DistinctToMap(s, 1.0);
    forall i | 0 <= i < 10
      ensures BitstampBid(i) in ToMap(s)
    {
      assert s[i].price == BitstampBid(i);
    }
    forall p | p in ToMap(s)
      ensures IsBitstampBid(p)
    {
      var i :| 0 <= i < |s| && s[i].price == p;
      assert p == BitstampBid(i);
      BitstampBidIs(i);
    }
  }

  /** Binance's bids collect into the map of its scenario prices at amount 2. */
  lemma BinanceBidMap()
    ensures BinanceBidShape(ToMap(BinanceTick().bids))
  {
    var s := BinanceTick().bids;
    DistinctToMap(s, 2.0);
    forall i | 0 <= i < 10
      ensures BinanceBid(i) in ToMap(s)
    {
      assert s[i].price == BinanceBid(i);
    }
    forall p | p in ToMap(s)
      ensures IsBinanceBid(p)
    {
      var i :| 0 <= i < |s| && s[i].price == p;
      assert p == BinanceBid(i);
      BinanceBidIs(i);
    }
  }

  /** Merging the two exchanges' scenario bids keeps every amount as it was. */
  lemma BidSum(m1: PriceMap, m2: PriceMap)
    requires BitstampBidShape(m1) && BinanceBidShape(m2)
    ensures MergedBidShape(Merge(m1, m2))
  {
    BidKeysApart(m1, m2);
    BidSumAmounts(m1, m2);
  }

  /** Each exchange's scenario prices keep their amounts in the merge. */
  lemma BidSumAmounts(m1: PriceMap, m2: PriceMap)
    requires BitstampBidShape(m1) && BinanceBidShape(m2)
    requires forall i :: 0 <= i < 10 ==> BitstampBid(i) !in m2 && BinanceBid(i) !in m1
    ensures forall i :: 0 <= i < 10 ==> BitstampBid(i) in Merge(m1, m2) && Merge(m1, m2)[BitstampBid(i)] == 1.0
    ensures forall i :: 0 <= i < 10 ==> BinanceBid(i) in Merge(m1, m2) && Merge(m1, m2)[BinanceBid(i)] == 2.0
  {
  }

  /** No scenario price of one exchange is quoted by the other. */
  lemma BidKeysApart(m1: PriceMap, m2: PriceMap)
    requires BitstampBidShape(m1) && BinanceBidShape(m2)
    ensures forall i :: 0 <= i < 10 ==> BitstampBid(i) !in m2 && BinanceBid(i) !in m1
  {
    forall i | 0 <= i < 10
      ensures BitstampBid(i) !in m2 && BinanceBid(i) !in m1
    {
      WholeOrHalf(BitstampBid(i));
      WholeOrHalf(BinanceBid(i));
    }
  }

  /** Bitstamp's asks collect into the map of its scenario prices at amount 1. */
  lemma BitstampAskMap()
    ensures BitstampAskShape(ToMap(BitstampTick().asks))
  {
    var s := BitstampTick().asks;
    DistinctToMap(s, 1.0);
    forall i | 0 <= i < 10
      ensures BitstampAsk(i) in ToMap(s)
    {
      assert s[i].price == BitstampAsk(i);
    }
    forall p | p in ToMap(s)
      ensures IsBitstampAsk(p)
    {
      var i :| 0 <= i < |s| && s[i].price == p;
      assert p == BitstampAsk(i);
      BitstampAskIs(i);
    }
  }

  /** Binance's asks collect into the map of its scenario prices at amount 2. */
  lemma BinanceAskMap()
    ensures BinanceAskShape(ToMap(BinanceTick().asks))
  {
    var s := BinanceTick().asks;
    DistinctToMap(s, 2.0);
    forall i | 0 <= i < 10
      ensures BinanceAsk(i) in ToMap(s)
    {
      assert s[i].price == BinanceAsk(i);
    }
    forall p | p in ToMap(s)
      ensures IsBinanceAsk(p)
    {
      var i :| 0 <= i < |s| && s[i].price == p;
      assert p == BinanceAsk(i);
      BinanceAskIs(i);
    }
  }

  /** Merging the two exchanges' scenario asks keeps every amount as it was. */
  lemma AskSum(m1: PriceMap, m2: PriceMap)
    requires BitstampAskShape(m1) && BinanceAskShape(m2)
    ensures MergedAskShape(Merge(m1, m2))
  {
    AskKeysApart(m1, m2);
    AskSumAmounts(m1, m2);
  }

  /** Each exchange's scenario prices keep their amounts in the merge. */
  lemma AskSumAmounts(m1: PriceMap, m2: PriceMap)
    requires BitstampAskShape(m1) && BinanceAskShape(m2)
    requires forall i :: 0 <= i < 10 ==> BitstampAsk(i) !in m2 && BinanceAsk(i) !in m1
    ensures forall i :: 0 <= i < 10 ==> BitstampAsk(i) in Merge(m1, m2) && Merge(m1, m2)[BitstampAsk(i)] == 1.0
    ensures forall i :: 0 <= i < 10 ==> BinanceAsk(i) in Merge(m1, m2) && Merge(m1, m2)[BinanceAsk(i)] == 2.0
  {
  }

  /** No scenario price of one exchange is quoted by the other. */
  lemma AskKeysApart(m1: PriceMap, m2: PriceMap)
    requires BitstampAskShape(m1) && BinanceAskShape(m2)
    ensures forall i :: 0 <= i < 10 ==> BitstampAsk(i) !in m2 && BinanceAsk(i) !in m1
  {
    forall i | 0 <= i < 10
      ensures BitstampAsk(i) !in m2 && BinanceAsk(i) !in m1
    {
      WholeOrHalf(BitstampAsk(i));
      WholeOrHalf(BinanceAsk(i));
    }
  }

  /** A falling list of entries of `m` is no longer than `m`. */
  lemma {:induction false} FallingEntriesFit(r: seq<Level>, m: PriceMap)
    requires EntriesOf(r, m) && PricesFall(r)
    ensures |r| <= |m|
    decreases |r|
  {
    if |r| > 0 {
      var top := r[0].price;
      var rest := m - {top};
      assert rest.Keys == m.Keys - {top};
      assert |rest| == |m| - 1;
      FallingEntriesFit(r[1..], rest);
    }
  }

  /** A rising list of entries of `m` is no longer than `m`. */
  lemma {:induction false} RisingEntriesFit(r: seq<Level>, m: PriceMap)
    requires EntriesOf(r, m) && PricesRise(r)
    ensures |r| <= |m|
    decreases |r|
  {
    if |r| > 0 {
      var bottom := r[0].price;
      var rest := m - {bottom};
      assert rest.Keys == m.Keys - {bottom};
      assert |rest| == |m| - 1;
      RisingEntriesFit(r[1..], rest);
    }
  }

  /** The bids the test expects: 10.5 at 2, 10 at 1, 9.5 at 2, ..., 6 at 1. */
  function ExpectedBids(): seq<Bid> {
    seq(10, k => Level(10.5 - 0.5 * k as real, if k % 2 == 0 then 2.0 else 1.0))
  }

  /** The asks the test expects: 11 at 1, 11.5 at 2, 12 at 1, ..., 15.5 at 2. */
  function ExpectedAsks(): seq<Ask> {
    seq(10, k => Level(11.0 + 0.5 * k as real, if k % 2 == 0 then 1.0 else 2.0))
  }

  /** Given the merged bids, the expected list is their bid side. */
  lemma ExpectedBidsAreBidSide(t: PriceMap)
    requires MergedBidShape(t)
    ensures ExpectedBids() == BidSide(t)
  {
    var r := ExpectedBids();
    forall k | 0 <= k < 10
      ensures r[k].price in t && r[k].amount == t[r[k].price]
    {
      if k % 2 == 0 {
        assert r[k].price == BinanceBid(k / 2);
      } else {
        assert r[k].price == BitstampBid(k / 2);
      }
    }
    assert EntriesOf(r, t) && PricesFall(r);
    forall p | p in t && p >= 6.0
      ensures Quotes(r, p)
    {
      var k;
      if IsBitstampBid(p) {
        var f := p.Floor;
        k := 2 * (10 - f) + 1;
      } else {
        var f := (p - 0.5).Floor;
        k := 2 * (10 - f);
      }
      assert r[k].price == p;
      QuotesAt(r, k);
    }
    assert KeepsHighest(r, t);
    FallingEntriesFit(r, t);
    BidSideUnique(t, r);
  }

  /** Given the merged asks, the expected list is their ask side. */
  lemma ExpectedAsksAreAskSide(t: PriceMap)
    requires MergedAskShape(t)
    ensures ExpectedAsks() == AskSide(t)
  {
    var r := ExpectedAsks();
    forall k | 0 <= k < 10
      ensures r[k].price in t && r[k].amount == t[r[k].price]
    {
      if k % 2 == 0 {
        assert r[k].price == BitstampAsk(k / 2);
      } else {
        assert r[k].price == BinanceAsk(k / 2);
      }
    }
    assert EntriesOf(r, t) && PricesRise(r);
    forall p | p in t && p <= 15.5
      ensures Quotes(r, p)
    {
      var k;
      if IsBitstampAsk(p) {
        var f := p.Floor;
        k := 2 * (f - 11);
      } else {
        var f := (p - 0.5).Floor;
        k := 2 * (f - 11) + 1;
      }
      assert r[k].price == p;
      QuotesAt(r, k);
    }
    assert KeepsLowest(r, t);
    RisingEntriesFit(r, t);
    AskSideUnique(t, r);
  }

  /** The expected bid list, written out as the test writes it. */
  lemma ExpectedBidsListed()
    ensures ExpectedBids() ==
      [Level(10.5, 2.0), Level(10.0, 1.0), Level(9.5, 2.0), Level(9.0, 1.0), Level(8.5, 2.0),
       Level(8.0, 1.0), Level(7.5, 2.0), Level(7.0, 1.0), Level(6.5, 2.0), Level(6.0, 1.0)]
  {
  }

  /** The expected ask list, written out as the test writes it. */
  lemma ExpectedAsksListed()
    ensures ExpectedAsks() ==
      [Level(11.0, 1.0), Level(11.5, 2.0), Level(12.0, 1.0), Level(12.5, 2.0), Level(13.0, 1.0),
       Level(13.5, 2.0), Level(14.0, 1.0), Level(14.5, 2.0), Level(15.0, 1.0), Level(15.5, 2.0)]
  {
  }

  /** After both ticks, the view's bid side is the expected bid list. */
  lemma ShouldMergeBids()
    ensures BidSide(BidTotals(ShouldMergeBook())) == ExpectedBids()
  {
    var b := ShouldMergeBook();
    assert b.bitstamp.bids == ToMap(BitstampTick().bids);
    assert b.binance.bids == ToMap(BinanceTick().bids);
    BitstampBidMap();
    BinanceBidMap();
    BidSum(b.bitstamp.bids, b.binance.bids);
    ExpectedBidsAreBidSide(BidTotals(b));
  }

  /** After both ticks, the view's ask side is the expected ask list. */
  lemma ShouldMergeAsks()
    ensures AskSide(AskTotals(ShouldMergeBook())) == ExpectedAsks()
  {
    var b := ShouldMergeBook();
    assert b.bitstamp.asks == ToMap(BitstampTick().asks);
    assert b.binance.asks == ToMap(BinanceTick().asks);
    BitstampAskMap();
    BinanceAskMap();
    AskSum(b.bitstamp.asks, b.binance.asks);
    ExpectedAsksAreAskSide(AskTotals(b));
  }

  /** After both ticks, the view is the expected bids and asks with spread 0.5. */
  lemma ShouldMergeView()
    ensures Merged(ShouldMergeBook()) == View(0.5, ExpectedBids(), ExpectedAsks())
  {
    var b := ShouldMergeBook();
    ShouldMergeBids();
    ShouldMergeAsks();
    var v := Merged(b);
    assert v.bids == ExpectedBids() && v.asks == ExpectedAsks();
    assert v.bids[0].price == 10.5 && v.asks[0].price == 11.0;
  }

  /**
   `should_merge`: after adding the Bitstamp tick and then the Binance tick
   to a new book, the merged view has spread 0.5 and interleaves the two
   exchanges' ten best bids and ten best asks.
   */
  lemma ShouldMerge()
    ensures Merged(ShouldMergeBook()) == View(0.5,
      [Level(10.5, 2.0), Level(10.0, 1.0), Level(9.5, 2.0), Level(9.0, 1.0), Level(8.5, 2.0),
       Level(8.0, 1.0), Level(7.5, 2.0), Level(7.0, 1.0), Level(6.5, 2.0), Level(6.0, 1.0)],
      [Level(11.0, 1.0), Level(11.5, 2.0), Level(12.0, 1.0), Level(12.5, 2.0), Level(13.0, 1.0),
       Level(13.5, 2.0), Level(14.0, 1.0), Level(14.5, 2.0), Level(15.0, 1.0), Level(15.5, 2.0)])
  {
    ShouldMergeView();
    ExpectedBidsListed();
    ExpectedAsksListed();
  }
}
