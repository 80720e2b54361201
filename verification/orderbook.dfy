/**
 The two-exchange order book of `src/orderbook.rs`: each exchange keeps the
 bids and asks of its latest tick as price-to-amount maps, and the merged
 view sums both exchanges' amounts per price, lists the ten best bids and
 asks, and reports the spread between the best ask and the best bid.
 */
module OrderBook {
  import opened SortedKeys
  import opened PriceMaps

  /** The exchanges the book aggregates. */
  datatype Exchange = Bitstamp | Binance

  /** A price level; `Bid` and `Ask` carry the same two fields. */
  datatype Level = Level(price: real, amount: real)
  type Bid = Level
  type Ask = Level

  /** One exchange's full depth at one moment, as its adapter delivers it. */
  datatype Tick = Tick(exchange: Exchange, bids: seq<Bid>, asks: seq<Ask>)

  /** One exchange's stored depth. */
  datatype Book = Book(bids: PriceMap, asks: PriceMap)

  /** `MainOrderBook`: one `Book` per exchange. */
  datatype MainOrderBook = MainOrderBook(bitstamp: Book, binance: Book)

  /** The merged view handed to consumers. */
  datatype View = View(spread: real, bids: seq<Bid>, asks: seq<Ask>)

  /** Number of levels kept on each side of the merged view. */
  const Depth: nat := 10

  /** `OrderBook::new`: no bids, no asks. */
  function EmptyBook(): Book {
    Book(map[], map[])
  }

  /** `MainOrderBook::new`: both exchanges empty. */
  function NewMainOrderBook(): (r: MainOrderBook)
    ensures forall e :: BookOf(r, e).bids == map[] && BookOf(r, e).asks == map[]
  {
    MainOrderBook(EmptyBook(), EmptyBook())
  }

  function BookOf(b: MainOrderBook, e: Exchange): Book {
    match e
    case Bitstamp => b.bitstamp
    case Binance => b.binance
  }

  function Other(e: Exchange): Exchange {
    match e
    case Bitstamp => Binance
    case Binance => Bitstamp
  }

  // ---------------------------------------------------------------------------
  // Collecting a tick into maps

  /** Position `i` holds the last level of `levels` at its price. */
  ghost predicate LastOccurrence(levels: seq<Level>, i: int) {
    && 0 <= i < |levels|
    && forall j :: i < j < |levels| ==> levels[j].price != levels[i].price
  }

  /**
   Collecting `(price, amount)` pairs into a `BTreeMap`: the last pair at
   each price wins. The model folds the pairs in from the front, which
   yields the same map.
   */
  function ToMap(levels: seq<Level>): (m: PriceMap)
    ensures forall i :: 0 <= i < |levels| ==> levels[i].price in m
    ensures forall p :: p in m ==> exists i :: 0 <= i < |levels| && levels[i].price == p
    ensures forall i :: LastOccurrence(levels, i) ==> m[levels[i].price] == levels[i].amount
    decreases |levels|
  {
    if |levels| == 0 then map[]
    else
      var init := levels[..|levels| - 1];
      var last := levels[|levels| - 1];
      var m := ToMap(init)[last.price := last.amount];
      ToMapStep(levels, ToMap(init), m);
      m
  }

  /** Inserting the last level on top of the map of all earlier ones. */
  lemma ToMapStep(levels: seq<Level>, prev: PriceMap, m: PriceMap)
    requires |levels| > 0
    requires var init := levels[..|levels| - 1];
      && (forall i :: 0 <= i < |init| ==> init[i].price in prev)
      && (forall p :: p in prev ==> exists i :: 0 <= i < |init| && init[i].price == p)
      && (forall i :: LastOccurrence(init, i) ==> prev[init[i].price] == init[i].amount)
    requires m == prev[levels[|levels| - 1].price := levels[|levels| - 1].amount]
    ensures forall i :: 0 <= i < |levels| ==> levels[i].price in m
    ensures forall p :: p in m ==> exists i :: 0 <= i < |levels| && levels[i].price == p
    ensures forall i :: LastOccurrence(levels, i) ==> m[levels[i].price] == levels[i].amount
  {
    var n := |levels|;
    var init := levels[..n - 1];
    forall i | 0 <= i < n
      ensures levels[i].price in m
    {
      if i < n - 1 {
        assert init[i] == levels[i];
      }
    }
    forall p | p in m
      ensures exists i :: 0 <= i < n && levels[i].price == p
    {
      if p == levels[n - 1].price {
        assert levels[n - 1].price == p;
      } else {
        var i :| 0 <= i < |init| && init[i].price == p;
        assert levels[i].price == p;
      }
    }
    forall i | LastOccurrence(levels, i)
      ensures m[levels[i].price] == levels[i].amount
    {
      if i < n - 1 {
        assert levels[i].price != levels[n - 1].price;
        assert init[i] == levels[i];
        forall j | i < j < |init|
          ensures init[j].price != init[i].price
        {
          assert init[j] == levels[j];
        }
        assert LastOccurrence(init, i);
      }
    }
  }

  /** The maps a tick's bids and asks collect into. */
  function FromTick(t: Tick): Book {
    Book(ToMap(t.bids), ToMap(t.asks))
  }

  // ---------------------------------------------------------------------------
  // `add`

  /**
   `MainOrderBook::add`: the addressed exchange's bids and asks are replaced
   wholesale by the maps collected from the tick; the other exchange keeps
   its book.
   */
  function Add(b: MainOrderBook, t: Tick): (r: MainOrderBook)
    ensures BookOf(r, t.exchange).bids == ToMap(t.bids)
    ensures BookOf(r, t.exchange).asks == ToMap(t.asks)
    ensures BookOf(r, Other(t.exchange)) == BookOf(b, Other(t.exchange))
  {
    var book := FromTick(t);
    match t.exchange
    case Bitstamp => b.(bitstamp := book)
    case Binance => b.(binance := book)
  }

  /**
   A tick that quotes a price twice on one side leaves one entry at that
   price, holding the amount of its later occurrence.
   */
  lemma AddLaterDuplicateWins(b: MainOrderBook, t: Tick, i: int, j: int)
    requires 0 <= i < j < |t.bids|
    requires t.bids[i].price == t.bids[j].price
    requires forall k :: j < k < |t.bids| ==> t.bids[k].price != t.bids[j].price
    ensures BookOf(Add(b, t), t.exchange).bids[t.bids[i].price] == t.bids[j].amount
  {
    assert LastOccurrence(t.bids, j);
  }

  /** Adding a tick to a new book fills the addressed exchange and leaves the other one empty. */
  lemma AddToNewBook(t: Tick)
    ensures BookOf(Add(NewMainOrderBook(), t), t.exchange) == FromTick(t)
    ensures BookOf(Add(NewMainOrderBook(), t), Other(t.exchange)) == EmptyBook()
  {
  }

  /** Applying the same tick twice leaves the book as applying it once. */
  lemma AddIdempotent(b: MainOrderBook, t: Tick)
    ensures Add(Add(b, t), t) == Add(b, t)
  {
  }

  /**
   A later tick for the same exchange overwrites everything the earlier one
   stored, so a shrinking book leaves no stale levels behind.
   */
  lemma AddOverwrites(b: MainOrderBook, t1: Tick, t2: Tick)
    requires t1.exchange == t2.exchange
    ensures Add(Add(b, t1), t2) == Add(b, t2)
  {
  }

  /** Ticks from different exchanges touch disjoint state, so their order does not matter. */
  lemma AddCommutes(b: MainOrderBook, t1: Tick, t2: Tick)
    requires t1.exchange != t2.exchange
    ensures Add(Add(b, t1), t2) == Add(Add(b, t2), t1)
  {
  }

  /** Feeding a stream of ticks to `add`, oldest first. */
  function AddAll(b: MainOrderBook, ticks: seq<Tick>): MainOrderBook
    decreases |ticks|
  {
    if |ticks| == 0 then b
    else Add(AddAll(b, ticks[..|ticks| - 1]), ticks[|ticks| - 1])
  }

  /** After a stream of ticks, an exchange's book is the one collected from its latest tick. */
  lemma {:induction false} AddAllLatestWins(b: MainOrderBook, ticks: seq<Tick>, i: int)
    requires 0 <= i < |ticks|
    requires forall j :: i < j < |ticks| ==> ticks[j].exchange != ticks[i].exchange
    ensures BookOf(AddAll(b, ticks), ticks[i].exchange) == FromTick(ticks[i])
    decreases |ticks|
  {
    var n := |ticks|;
    var e := ticks[i].exchange;
    if i < n - 1 {
      var init := ticks[..n - 1];
      forall j | i < j < |init|
        ensures init[j].exchange != init[i].exchange
      {
        assert init[j] == ticks[j];
      }
      AddAllLatestWins(b, init, i);
      assert init[i] == ticks[i];
      assert e == Other(ticks[n - 1].exchange);
    }
  }

  /** A stream holding no tick for an exchange leaves that exchange's book as it was. */
  lemma {:induction false} AddAllUntouched(b: MainOrderBook, ticks: seq<Tick>, e: Exchange)
    requires forall j :: 0 <= j < |ticks| ==> ticks[j].exchange != e
    ensures BookOf(AddAll(b, ticks), e) == BookOf(b, e)
    decreases |ticks|
  {
    var n := |ticks|;
    if n > 0 {
      var init := ticks[..n - 1];
      forall j | 0 <= j < |init|
        ensures init[j].exchange != e
      {
        assert init[j] == ticks[j];
      }
      AddAllUntouched(b, init, e);
      assert e == Other(ticks[n - 1].exchange);
    }
  }

  // ---------------------------------------------------------------------------
  // `merged`

  /** The first `n` entries of `s`, or all of them if there are fewer (`Iterator::take`). */
  function Take(s: seq<real>, n: nat): seq<real> {
    s[..Min(n, |s|)]
  }

  /** Every price of `ps` is a key of `m`. */
  predicate AllIn(ps: seq<real>, m: PriceMap) {
    forall i :: 0 <= i < |ps| ==> ps[i] in m
  }

  /** The entries of `m` at the prices `ps`, in the order of `ps`. */
  function LevelsAt(m: PriceMap, ps: seq<real>): seq<Level>
    requires AllIn(ps, m)
  {
    seq(|ps|, i requires 0 <= i < |ps| => Level(ps[i], m[ps[i]]))
  }

  /**
   Some level of `levels` is at price `p`. Written by recursion, not as
   `exists k :: levels[k].price == p`: under the quantifiers of `KeepsLowest`
   and `KeepsHighest` an existential would be skolemised into fresh index
   terms that re-trigger them, a matching loop. `QuotesAt` and
   `QuotesWitness` connect it to indices where a proof needs one.
   */
  predicate Quotes(levels: seq<Level>, p: real)
    decreases |levels|
  {
    |levels| > 0 && (levels[0].price == p || Quotes(levels[1..], p))
  }

  /** Each level of `r` is an entry of `m`: a price `m` holds, at the amount it holds there. */
  predicate EntriesOf(r: seq<Level>, m: PriceMap) {
    forall i :: 0 <= i < |r| ==> r[i].price in m && r[i].amount == m[r[i].price]
  }

  /** Prices strictly rise along `r`. */
  predicate PricesRise(r: seq<Level>) {
    forall i, j :: 0 <= i < j < |r| ==> r[i].price < r[j].price
  }

  /** Prices strictly fall along `r`. */
  predicate PricesFall(r: seq<Level>) {
    forall i, j :: 0 <= i < j < |r| ==> r[i].price > r[j].price
  }

  /** `r` holds the lowest prices of `m`: no price of `m` missing from `r` is below one on it. */
  predicate KeepsLowest(r: seq<Level>, m: PriceMap) {
    forall i, p :: 0 <= i < |r| && p in m && !Quotes(r, p) ==> r[i].price < p
  }

  /** `r` holds the highest prices of `m`: no price of `m` missing from `r` is above one on it. */
  predicate KeepsHighest(r: seq<Level>, m: PriceMap) {
    forall i, p :: 0 <= i < |r| && p in m && !Quotes(r, p) ==> r[i].price > p
  }

  /** Each level of `r` is at a price `m1` or `m2` holds, with the amounts both hold there added. */
  predicate SumsOf(r: seq<Level>, m1: PriceMap, m2: PriceMap) {
    forall i :: 0 <= i < |r| ==>
      && (r[i].price in m1 || r[i].price in m2)
      && r[i].amount == AmountAt(m1, r[i].price) + AmountAt(m2, r[i].price)
  }

  /** A list of levels quotes the price at each of its positions. */
  lemma {:induction false} QuotesAt(levels: seq<Level>, k: int)
    requires 0 <= k < |levels|
    ensures Quotes(levels, levels[k].price)
    decreases k
  {
    if k > 0 {
      QuotesAt(levels[1..], k - 1);
      assert levels[1..][k - 1] == levels[k];
    }
  }

  /** A quoted price sits at some position of the list. */
  lemma {:induction false} QuotesWitness(levels: seq<Level>, p: real)
    requires Quotes(levels, p)
    ensures exists k :: 0 <= k < |levels| && levels[k].price == p
    decreases |levels|
  {
    if levels[0].price != p {
      QuotesWitness(levels[1..], p);
      var k :| 0 <= k < |levels[1..]| && levels[1..][k].price == p;
      assert levels[k + 1].price == p;
    }
  }

  /**
   The ask side of the view: the entries of `m` in ascending price order,
   at most `Depth` of them. They are the lowest prices of `m`: no price left
   out is below one kept.
   */
  function AskSide(m: PriceMap): (r: seq<Ask>)
    ensures |r| == Min(Depth, |m|)
    ensures EntriesOf(r, m)
    ensures PricesRise(r)
    ensures KeepsLowest(r, m)
  {
    AskSideListing(m);
    LevelsAt(m, Take(Ascending(m.Keys), Depth))
  }

  /** The first `Depth` keys of the ascending listing of `m`, with their amounts, form the ask side. */
  lemma AskSideListing(m: PriceMap)
    ensures AllIn(Take(Ascending(m.Keys), Depth), m)
    ensures var r := LevelsAt(m, Take(Ascending(m.Keys), Depth));
      && |r| == Min(Depth, |m|)
      && EntriesOf(r, m)
      && PricesRise(r)
      && KeepsLowest(r, m)
  {
    var ks := Ascending(m.Keys);
    AscendingKeys(m);
    AskSideFacts(m, ks, LevelsAt(m, Take(ks, Depth)));
  }

  /** The ascending listing of the keys of `m` lists each key of `m` once. */
  lemma AscendingKeys(m: PriceMap)
    ensures var ks := Ascending(m.Keys);
      && StrictlyAscending(ks)
      && |ks| == |m|
      && (forall i :: 0 <= i < |ks| ==> ks[i] in m)
      && (forall p :: p in m ==> p in ks)
  {
    var ks := Ascending(m.Keys);
    assert |m| == |m.Keys|;
    forall i | 0 <= i < |ks|
      ensures ks[i] in m
    {
      var x := ks[i];
      assert x in ks;
    }
  }

  /** The first `Depth` keys of an ascending listing of `m`, with their amounts, form the ask side. */
  lemma AskSideFacts(m: PriceMap, ks: seq<real>, r: seq<Ask>)
    requires StrictlyAscending(ks) && |ks| == |m|
    requires forall i :: 0 <= i < |ks| ==> ks[i] in m
    requires forall p :: p in m ==> p in ks
    requires AllIn(Take(ks, Depth), m) && r == LevelsAt(m, Take(ks, Depth))
    ensures |r| == Min(Depth, |m|)
    ensures EntriesOf(r, m)
    ensures PricesRise(r)
    ensures KeepsLowest(r, m)
  {
    AskSideBest(m, ks, r);
  }

  /** No key of `m` missing from the ask side is below one on it. */
  lemma AskSideBest(m: PriceMap, ks: seq<real>, r: seq<Ask>)
    requires StrictlyAscending(ks)
    requires forall p :: p in m ==> p in ks
    requires |r| <= |ks|
    requires forall i :: 0 <= i < |r| ==> r[i].price == ks[i]
    ensures KeepsLowest(r, m)
  {
    forall i, p | 0 <= i < |r| && p in m && p <= r[i].price
      ensures Quotes(r, p)
    {
      AskKept(ks, r, i, p);
    }
  }

  /** A key no higher than a kept ask is itself kept. */
  lemma AskKept(ks: seq<real>, r: seq<Ask>, i: int, p: real)
    requires StrictlyAscending(ks)
    requires |r| <= |ks|
    requires forall i :: 0 <= i < |r| ==> r[i].price == ks[i]
    requires 0 <= i < |r| && p in ks && p <= r[i].price
    ensures Quotes(r, p)
  {
    var j :| 0 <= j < |ks| && ks[j] == p;
    assert ks[i] == r[i].price;
    IndexOrder(ks, j, i);
    assert r[j].price == p;
    QuotesAt(r, j);
  }

  /**
   The bid side of the view: the entries of `m` in descending price order
   (ascending iteration reversed), at most `Depth` of them. They are the
   highest prices of `m`: no price left out is above one kept.
   */
  function BidSide(m: PriceMap): (r: seq<Bid>)
    ensures |r| == Min(Depth, |m|)
    ensures EntriesOf(r, m)
    ensures PricesFall(r)
    ensures KeepsHighest(r, m)
  {
    BidSideListing(m);
    LevelsAt(m, Take(Descending(m.Keys), Depth))
  }

  /** The first `Depth` keys of the descending listing of `m`, with their amounts, form the bid side. */
  lemma BidSideListing(m: PriceMap)
    ensures AllIn(Take(Descending(m.Keys), Depth), m)
    ensures var r := LevelsAt(m, Take(Descending(m.Keys), Depth));
      && |r| == Min(Depth, |m|)
      && EntriesOf(r, m)
      && PricesFall(r)
      && KeepsHighest(r, m)
  {
    var ks := Descending(m.Keys);
    DescendingKeys(m);
    BidSideFacts(m, ks, LevelsAt(m, Take(ks, Depth)));
  }

  /** The descending listing of the keys of `m` lists each key of `m` once. */
  lemma DescendingKeys(m: PriceMap)
    ensures var ks := Descending(m.Keys);
      && StrictlyDescending(ks)
      && |ks| == |m|
      && (forall i :: 0 <= i < |ks| ==> ks[i] in m)
      && (forall p :: p in m ==> p in ks)
  {
    var ks := Descending(m.Keys);
    assert |m| == |m.Keys|;
    forall i | 0 <= i < |ks|
      ensures ks[i] in m
    {
      var x := ks[i];
      assert x in ks;
    }
  }

  /** The first `Depth` keys of a descending listing of `m`, with their amounts, form the bid side. */
  lemma BidSideFacts(m: PriceMap, ks: seq<real>, r: seq<Bid>)
    requires StrictlyDescending(ks) && |ks| == |m|
    requires forall i :: 0 <= i < |ks| ==> ks[i] in m
    requires forall p :: p in m ==> p in ks
    requires AllIn(Take(ks, Depth), m) && r == LevelsAt(m, Take(ks, Depth))
    ensures |r| == Min(Depth, |m|)
    ensures EntriesOf(r, m)
    ensures PricesFall(r)
    ensures KeepsHighest(r, m)
  {
    BidSideBest(m, ks, r);
  }

  /** No key of `m` missing from the bid side is above one on it. */
  lemma BidSideBest(m: PriceMap, ks: seq<real>, r: seq<Bid>)
    requires StrictlyDescending(ks)
    requires forall p :: p in m ==> p in ks
    requires |r| <= |ks|
    requires forall i :: 0 <= i < |r| ==> r[i].price == ks[i]
    ensures KeepsHighest(r, m)
  {
    forall i, p | 0 <= i < |r| && p in m && p >= r[i].price
      ensures Quotes(r, p)
    {
      BidKept(ks, r, i, p);
    }
  }

  /** A key no lower than a kept bid is itself kept. */
  lemma BidKept(ks: seq<real>, r: seq<Bid>, i: int, p: real)
    requires StrictlyDescending(ks)
    requires |r| <= |ks|
    requires forall i :: 0 <= i < |r| ==> r[i].price == ks[i]
    requires 0 <= i < |r| && p in ks && p >= r[i].price
    ensures Quotes(r, p)
  {
    var j :| 0 <= j < |ks| && ks[j] == p;
    assert ks[i] == r[i].price;
    IndexOrderDescending(ks, j, i);
    assert r[j].price == p;
    QuotesAt(r, j);
  }

  /**
   A rising list of entries of `m` that keeps the lowest prices of `m`
   holds, at each position `i`, the key at position `i` of the ascending
   listing of `m`.
   */
  lemma {:induction false} LowestAt(m: PriceMap, ks: seq<real>, r: seq<Level>, i: int)
    requires StrictlyAscending(ks)
    requires forall j :: 0 <= j < |ks| ==> ks[j] in m
    requires forall p :: p in m ==> p in ks
    requires EntriesOf(r, m) && PricesRise(r) && KeepsLowest(r, m)
    requires 0 <= i < |r| && i < |ks|
    ensures r[i].price == ks[i]
    decreases i
  {
    if i > 0 {
      LowestAt(m, ks, r, i - 1);
    }
    var x, y := r[i].price, ks[i];
    assert x in m;
    var j :| 0 <= j < |ks| && ks[j] == x;
    assert i <= j;
    assert y in m && y <= x;
    assert Quotes(r, y);
    QuotesWitness(r, y);
    var k :| 0 <= k < |r| && r[k].price == y;
    assert i <= k;
  }

  /** The ask side is the only rising list of entries of `m`, as long as it, that keeps the lowest prices. */
  lemma AskSideUnique(m: PriceMap, r: seq<Ask>)
    requires |r| == Min(Depth, |m|)
    requires EntriesOf(r, m) && PricesRise(r) && KeepsLowest(r, m)
    ensures r == AskSide(m)
  {
    var a := AskSide(m);
    var ks := Ascending(m.Keys);
    AscendingKeys(m);
    forall i | 0 <= i < |r|
      ensures r[i] == a[i]
    {
      LowestAt(m, ks, r, i);
      LowestAt(m, ks, a, i);
    }
  }

  /**
   A falling list of entries of `m` that keeps the highest prices of `m`
   holds, at each position `i`, the key at position `i` of the descending
   listing of `m`.
   */
  lemma {:induction false} HighestAt(m: PriceMap, ks: seq<real>, r: seq<Level>, i: int)
    requires StrictlyDescending(ks)
    requires forall j :: 0 <= j < |ks| ==> ks[j] in m
    requires forall p :: p in m ==> p in ks
    requires EntriesOf(r, m) && PricesFall(r) && KeepsHighest(r, m)
    requires 0 <= i < |r| && i < |ks|
    ensures r[i].price == ks[i]
    decreases i
  {
    if i > 0 {
      HighestAt(m, ks, r, i - 1);
    }
    var x, y := r[i].price, ks[i];
    assert x in m;
    var j :| 0 <= j < |ks| && ks[j] == x;
    assert i <= j;
    assert y in m && y >= x;
    assert Quotes(r, y);
    QuotesWitness(r, y);
    var k :| 0 <= k < |r| && r[k].price == y;
    assert i <= k;
  }

  /** The bid side is the only falling list of entries of `m`, as long as it, that keeps the highest prices. */
  lemma BidSideUnique(m: PriceMap, r: seq<Bid>)
    requires |r| == Min(Depth, |m|)
    requires EntriesOf(r, m) && PricesFall(r) && KeepsHighest(r, m)
    ensures r == BidSide(m)
  {
    var a := BidSide(m);
    var ks := Descending(m.Keys);
    DescendingKeys(m);
    forall i | 0 <= i < |r|
      ensures r[i] == a[i]
    {
      HighestAt(m, ks, r, i);
      HighestAt(m, ks, a, i);
    }
  }

  /** The bids of both exchanges, amounts summed per price. */
  function BidTotals(b: MainOrderBook): PriceMap {
    Merge(b.bitstamp.bids, b.binance.bids)
  }

  /** The asks of both exchanges, amounts summed per price. */
  function AskTotals(b: MainOrderBook): PriceMap {
    Merge(b.bitstamp.asks, b.binance.asks)
  }

  /**
   `MainOrderBook::merged`: both exchanges' bids and asks are merged with
   amounts summed per price; the view lists at most `Depth` bids, in
   descending price order, and at most `Depth` asks, in ascending price
   order, and the spread is the first ask's price minus the first bid's,
   or zero when a side is empty. Ordering, amounts and the choice of the
   best prices are stated by the lemmas that follow.
   */
  function Merged(b: MainOrderBook): (v: View)
    ensures |v.bids| == Min(Depth, |b.bitstamp.bids.Keys + b.binance.bids.Keys|)
    ensures |v.asks| == Min(Depth, |b.bitstamp.asks.Keys + b.binance.asks.Keys|)
    ensures |v.bids| > 0 && |v.asks| > 0 ==> v.spread == v.asks[0].price - v.bids[0].price
    ensures |v.bids| == 0 || |v.asks| == 0 ==> v.spread == 0.0
  {
    MergeSize(b.bitstamp.bids, b.binance.bids);
    MergeSize(b.bitstamp.asks, b.binance.asks);
    ViewOf(BidTotals(b), AskTotals(b))
  }

  /** The view of the merged maps: the two sides and the spread between their first levels. */
  function ViewOf(bidTotals: PriceMap, askTotals: PriceMap): View {
    var bids := BidSide(bidTotals);
    var asks := AskSide(askTotals);
    var spread := if |bids| > 0 && |asks| > 0 then asks[0].price - bids[0].price else 0.0;
    View(spread, bids, asks)
  }

  /** The merged map has one entry per price quoted by either map. */
  lemma MergeSize(m1: PriceMap, m2: PriceMap)
    ensures |Merge(m1, m2)| == |m1.Keys + m2.Keys|
  {
    var t := Merge(m1, m2);
    assert |t| == |t.Keys|;
  }

  /** Bids in the view strictly fall in price and asks strictly rise: no price appears twice. */
  lemma MergedOrdered(b: MainOrderBook)
    ensures var v := Merged(b);
      PricesFall(v.bids)
    ensures var v := Merged(b);
      PricesRise(v.asks)
  {
    var v := Merged(b);
    assert v.bids == BidSide(BidTotals(b));
    assert v.asks == AskSide(AskTotals(b));
  }

  /**
   Each level of the view is at a price one of the exchanges quotes, and
   carries the two exchanges' amounts at that price added together.
   */
  lemma MergedSumsAmounts(b: MainOrderBook)
    ensures SumsOf(Merged(b).bids, b.bitstamp.bids, b.binance.bids)
    ensures SumsOf(Merged(b).asks, b.bitstamp.asks, b.binance.asks)
  {
    var v := Merged(b);
    assert v.bids == BidSide(BidTotals(b));
    assert v.asks == AskSide(AskTotals(b));
    SummedBids(b.bitstamp.bids, b.binance.bids);
    SummedAsks(b.bitstamp.asks, b.binance.asks);
  }

  /** The bid side of the merged map quotes, at each price, the two maps' amounts added. */
  lemma SummedBids(m1: PriceMap, m2: PriceMap)
    ensures SumsOf(BidSide(Merge(m1, m2)), m1, m2)
  {
    SummedSide(m1, m2, BidSide(Merge(m1, m2)));
  }

  /** The ask side of the merged map quotes, at each price, the two maps' amounts added. */
  lemma SummedAsks(m1: PriceMap, m2: PriceMap)
    ensures SumsOf(AskSide(Merge(m1, m2)), m1, m2)
  {
    SummedSide(m1, m2, AskSide(Merge(m1, m2)));
  }

  /** A side read off the merged map quotes, at each price, the two exchanges' amounts added. */
  lemma SummedSide(m1: PriceMap, m2: PriceMap, r: seq<Level>)
    requires EntriesOf(r, Merge(m1, m2))
    ensures SumsOf(r, m1, m2)
  {
    var t := Merge(m1, m2);
    forall i | 0 <= i < |r|
      ensures r[i].price in m1 || r[i].price in m2
      ensures r[i].amount == AmountAt(m1, r[i].price) + AmountAt(m2, r[i].price)
    {
      var p := r[i].price;
      assert p in t.Keys;
    }
  }

  /**
   The view keeps the best prices: no bid price quoted by either exchange
   but left out of the view is above a bid in it, and no ask price left out
   is below an ask in it.
   */
  lemma MergedKeepsBestPrices(b: MainOrderBook)
    ensures var v := Merged(b);
      KeepsHighest(v.bids, b.bitstamp.bids) && KeepsHighest(v.bids, b.binance.bids)
    ensures var v := Merged(b);
      KeepsLowest(v.asks, b.bitstamp.asks) && KeepsLowest(v.asks, b.binance.asks)
  {
    var v := Merged(b);
    assert v.bids == BidSide(BidTotals(b));
    assert v.asks == AskSide(AskTotals(b));
    HighestOfBoth(b.bitstamp.bids, b.binance.bids);
    LowestOfBoth(b.bitstamp.asks, b.binance.asks);
  }

  /** The bid side of the merged map holds the highest prices of each of the two maps. */
  lemma HighestOfBoth(m1: PriceMap, m2: PriceMap)
    ensures KeepsHighest(BidSide(Merge(m1, m2)), m1) && KeepsHighest(BidSide(Merge(m1, m2)), m2)
  {
    var t := Merge(m1, m2);
    HighestOfPart(BidSide(t), t, m1);
    HighestOfPart(BidSide(t), t, m2);
  }

  /** The ask side of the merged map holds the lowest prices of each of the two maps. */
  lemma LowestOfBoth(m1: PriceMap, m2: PriceMap)
    ensures KeepsLowest(AskSide(Merge(m1, m2)), m1) && KeepsLowest(AskSide(Merge(m1, m2)), m2)
  {
    var t := Merge(m1, m2);
    LowestOfPart(AskSide(t), t, m1);
    LowestOfPart(AskSide(t), t, m2);
  }

  /** Holding the highest prices of a map means holding the highest prices of any part of it. */
  lemma HighestOfPart(r: seq<Level>, t: PriceMap, m: PriceMap)
    requires KeepsHighest(r, t)
    requires m.Keys <= t.Keys
    ensures KeepsHighest(r, m)
  {
  }

  /** Holding the lowest prices of a map means holding the lowest prices of any part of it. */
  lemma LowestOfPart(r: seq<Level>, t: PriceMap, m: PriceMap)
    requires KeepsLowest(r, t)
    requires m.Keys <= t.Keys
    ensures KeepsLowest(r, m)
  {
  }

  /**
   The first bid of the view is the highest bid price either exchange
   quotes; the bid side is empty exactly when neither exchange has a bid.
   */
  lemma BestBid(b: MainOrderBook)
    ensures var v := Merged(b);
      |v.bids| == 0 <==> b.bitstamp.bids == map[] && b.binance.bids == map[]
    ensures var v := Merged(b);
      |v.bids| > 0 ==> forall p :: p in b.bitstamp.bids || p in b.binance.bids ==> p <= v.bids[0].price
  {
    var t := BidTotals(b);
    assert Merged(b).bids == BidSide(t);
    BidSideTop(t);
    if t == map[] {
      assert t.Keys == {};
    }
  }

  /** The bid side is empty only for an empty map, and otherwise starts at the map's highest price. */
  lemma BidSideTop(t: PriceMap)
    ensures |BidSide(t)| == 0 <==> t == map[]
    ensures |BidSide(t)| > 0 ==> forall p :: p in t ==> p <= BidSide(t)[0].price
  {
    var r := BidSide(t);
    if |r| > 0 {
      forall p | p in t
        ensures p <= r[0].price
      {
        if Quotes(r, p) {
          QuotesWitness(r, p);
          var i :| 0 <= i < |r| && r[i].price == p;
          assert i == 0 || r[0].price > r[i].price;
        }
      }
    } else {
      assert |t| == 0;
    }
  }

  /**
   The first ask of the view is the lowest ask price either exchange
   quotes; the ask side is empty exactly when neither exchange has an ask.
   */
  lemma BestAsk(b: MainOrderBook)
    ensures var v := Merged(b);
      |v.asks| == 0 <==> b.bitstamp.asks == map[] && b.binance.asks == map[]
    ensures var v := Merged(b);
      |v.asks| > 0 ==> forall p :: p in b.bitstamp.asks || p in b.binance.asks ==> v.asks[0].price <= p
  {
    var t := AskTotals(b);
    assert Merged(b).asks == AskSide(t);
    AskSideTop(t);
    if t == map[] {
      assert t.Keys == {};
    }
  }

  /** The ask side is empty only for an empty map, and otherwise starts at the map's lowest price. */
  lemma AskSideTop(t: PriceMap)
    ensures |AskSide(t)| == 0 <==> t == map[]
    ensures |AskSide(t)| > 0 ==> forall p :: p in t ==> AskSide(t)[0].price <= p
  {
    var r := AskSide(t);
    if |r| > 0 {
      forall p | p in t
        ensures r[0].price <= p
      {
        if Quotes(r, p) {
          QuotesWitness(r, p);
          var i :| 0 <= i < |r| && r[i].price == p;
          assert i == 0 || r[0].price < r[i].price;
        }
      }
    } else {
      assert |t| == 0;
    }
  }

  /** A side whose top price is `p` starts with the level at `p`. */
  lemma TopOfBidSide(t: PriceMap, p: real)
    requires p in t
    requires forall q :: q in t ==> q <= p
    ensures |BidSide(t)| > 0 && BidSide(t)[0] == Level(p, t[p])
  {
    var r := BidSide(t);
    assert |t.Keys| > 0;
    assert r[0].price <= p;
    QuotesWitness(r, p);
    var k :| 0 <= k < |r| && r[k].price == p;
    assert k == 0;
  }

  /** A side whose bottom price is `p` starts with the level at `p`. */
  lemma TopOfAskSide(t: PriceMap, p: real)
    requires p in t
    requires forall q :: q in t ==> p <= q
    ensures |AskSide(t)| > 0 && AskSide(t)[0] == Level(p, t[p])
  {
    var r := AskSide(t);
    assert |t.Keys| > 0;
    assert r[0].price >= p;
    QuotesWitness(r, p);
    var k :| 0 <= k < |r| && r[k].price == p;
    assert k == 0;
  }

  /**
   When `p` is the highest bid price either exchange quotes, the view's first
   bid is `p` with both exchanges' amounts at `p` added.
   */
  lemma TopBid(b: MainOrderBook, p: real)
    requires p in b.bitstamp.bids || p in b.binance.bids
    requires forall q :: q in b.bitstamp.bids || q in b.binance.bids ==> q <= p
    ensures |Merged(b).bids| > 0
    ensures Merged(b).bids[0] == Level(p, AmountAt(b.bitstamp.bids, p) + AmountAt(b.binance.bids, p))
  {
    var t := BidTotals(b);
    assert Merged(b).bids == BidSide(t);
    assert p in t.Keys;
    assert t[p] == AmountAt(b.bitstamp.bids, p) + AmountAt(b.binance.bids, p);
    TopOfBidSide(t, p);
  }

  /**
   When `p` is the lowest ask price either exchange quotes, the view's first
   ask is `p` with both exchanges' amounts at `p` added.
   */
  lemma TopAsk(b: MainOrderBook, p: real)
    requires p in b.bitstamp.asks || p in b.binance.asks
    requires forall q :: q in b.bitstamp.asks || q in b.binance.asks ==> p <= q
    ensures |Merged(b).asks| > 0
    ensures Merged(b).asks[0] == Level(p, AmountAt(b.bitstamp.asks, p) + AmountAt(b.binance.asks, p))
  {
    var t := AskTotals(b);
    assert Merged(b).asks == AskSide(t);
    assert p in t.Keys;
    assert t[p] == AmountAt(b.bitstamp.asks, p) + AmountAt(b.binance.asks, p);
    TopOfAskSide(t, p);
  }

  /** A fresh book merges into an empty view with a zero spread. */
  lemma NewBookViewIsEmpty()
    ensures Merged(NewMainOrderBook()) == View(0.0, [], [])
  {
    var v := Merged(NewMainOrderBook());
    assert |v.bids| == 0 && |v.asks| == 0;
  }

  /** Which exchange holds which levels does not change the view. */
  lemma MergedIgnoresExchangeOrder(b: MainOrderBook)
    ensures Merged(MainOrderBook(b.binance, b.bitstamp)) == Merged(b)
  {
    var swapped := MainOrderBook(b.binance, b.bitstamp);
    MergeCommutes(b.bitstamp.bids, b.binance.bids);
    MergeCommutes(b.bitstamp.asks, b.binance.asks);
    MergedDependsOnTotals(swapped, b);
  }

  /** The view is a function of the two merged maps alone. */
  lemma MergedDependsOnTotals(b1: MainOrderBook, b2: MainOrderBook)
    requires BidTotals(b1) == BidTotals(b2)
    requires AskTotals(b1) == AskTotals(b2)
    ensures Merged(b1) == Merged(b2)
  {
    assert Merged(b1) == ViewOf(BidTotals(b1), AskTotals(b1));
    assert Merged(b2) == ViewOf(BidTotals(b2), AskTotals(b2));
  }
}
