/**
 * The two classes of the tracker: a stock, whose price is updated in place, and a
 * portfolio, whose ledger and allocation its methods update in place. Each method
 * is proved against the value-level definitions of modules Ledger and Rebalance.
 */
module Classes {
  import opened Wrappers
  import opened Ledger
  import opened Rebalance

  /** A stock: a symbol and a current price. */
  class Stock {
    const symbol: string
    var price: real

    /** Stores the price as given, a negative one included. */
    constructor (symbol: string, price: real)
      ensures this.symbol == symbol && this.price == price
    {
      this.symbol := symbol;
      this.price := price;
    }

    /** Updates the price; a negative price is refused and the old one kept. */
    method CurrentPrice(newPrice: real) returns (r: Outcome<Error>)
      modifies this
      ensures newPrice < 0.0 ==> r == Fail(NegativePrice) && price == old(price)
      ensures newPrice >= 0.0 ==> r == Pass && price == newPrice
    {
      if newPrice < 0.0 {
        return Fail(NegativePrice);
      }
      price := newPrice;
      r := Pass;
    }
  }

  /**
   * A portfolio: the shares held of each stock, and the target percentage of each
   * allocated stock in the order the allocation was given.
   */
  class Portfolio {
    var stocks: Holdings
    var allocatedStocks: Allocation

    /** No holding is negative, and no stock is allocated twice. */
    ghost predicate Valid()
      reads this
    {
      NonNegative(stocks) && DistinctSymbols(allocatedStocks)
    }

    constructor ()
      ensures Valid() && stocks == map[] && allocatedStocks == []
    {
      stocks := map[];
      allocatedStocks := [];
    }

    /** Adds `shares` shares of `symbol`; zero or fewer shares are refused. */
    method AddStock(symbol: string, shares: real) returns (r: Outcome<Error>)
      requires Valid()
      modifies this
      ensures Valid() && allocatedStocks == old(allocatedStocks)
      ensures match Added(old(stocks), symbol, shares)
        case Success(h) => r == Pass && stocks == h
        case Failure(e) => r == Fail(e) && stocks == old(stocks)
    {
      if shares <= 0.0 {
        return Fail(NonPositiveShares);
      }
      if symbol in stocks {
        stocks := stocks[symbol := stocks[symbol] + shares];
      } else {
        stocks := stocks[symbol := shares];
      }
      r := Pass;
    }

    /**
     * Sells `shares` shares of `symbol`, refusing a stock not held, zero or fewer
     * shares, and more shares than are held; a holding that reaches zero is removed.
     */
    method SellStock(symbol: string, shares: real) returns (r: Outcome<Error>)
      requires Valid()
      modifies this
      ensures Valid() && allocatedStocks == old(allocatedStocks)
      ensures match Sold(old(stocks), symbol, shares)
        case Success(h) => r == Pass && stocks == h
        case Failure(e) => r == Fail(e) && stocks == old(stocks)
    {
      if symbol !in stocks {
        return Fail(StockNotHeld);
      }
      if shares <= 0.0 {
        return Fail(NonPositiveShares);
      }
      if shares > stocks[symbol] {
        return Fail(InsufficientShares);
      }
      stocks := stocks[symbol := stocks[symbol] - shares];
      if stocks[symbol] == 0.0 {
        stocks := stocks - {symbol};
      }
      r := Pass;
    }

    /**
     * Replaces the allocation by `targets` when their percentages sum to exactly
     * 100 and every stock they name is held; otherwise keeps the old allocation.
     */
    method SetAllocation(targets: Allocation) returns (r: Outcome<Error>)
      requires Valid() && DistinctSymbols(targets)
      modifies this
      ensures Valid() && stocks == old(stocks)
      ensures r == AllocationCheck(targets, stocks)
      ensures allocatedStocks == if r.Pass? then targets else old(allocatedStocks)
    {
      if PctSum(targets) != 100.0 {
        return Fail(AllocationNotFull);
      }
      var i := 0;
      while i < |targets|
        invariant 0 <= i <= |targets|
        invariant FirstUnheld(targets, stocks) == FirstUnheld(targets[i..], stocks)
      {
        if targets[i].0 !in stocks {
          return Fail(AllocationStockNotHeld(targets[i].0));
        }
        assert targets[i..][1..] == targets[i + 1..];
        i := i + 1;
      }
      allocatedStocks := targets;
      r := Pass;
    }

    /** The sum over all holdings of price times shares; 0.0 for an empty portfolio. */
    method TotalValue(prices: PriceTable) returns (total: real)
      requires stocks.Keys <= prices.Keys
      ensures total == SumValue(stocks, prices)
    {
      total := 0.0;
      var rest := stocks;
      while rest != map[]
        invariant rest.Keys <= stocks.Keys
        invariant total + SumValue(rest, prices) == SumValue(stocks, prices)
        decreases |rest|
      {
        var s :| s in rest;
        SumValueRemove(rest, prices, s);
        total := total + prices[s] * rest[s];
        assert (rest - {s}).Keys == rest.Keys - {s};
        rest := rest - {s};
      }
    }

    /**
     * The rebalance report: for each allocated stock in order, the trade that
     * closes a gap above the threshold or "no action needed"; it stops at the
     * first allocated stock that is not held, whose lookup fails.
     */
    method Rebalance(prices: PriceTable, threshold: real) returns (decisions: seq<Decision>, missing: Option<string>)
      requires stocks.Keys <= prices.Keys && SumValue(stocks, prices) != 0.0
      requires Priced(allocatedStocks, prices)
      ensures (decisions, missing) == StrictReport(allocatedStocks, stocks, prices, SumValue(stocks, prices), threshold)
    {
      var total := TotalValue(prices);
      decisions, missing := [], None;
      var i := 0;
      assert allocatedStocks[i..] == allocatedStocks;
      assert decisions + StrictReport(allocatedStocks, stocks, prices, total, threshold).0
        == StrictReport(allocatedStocks, stocks, prices, total, threshold).0;
      while i < |allocatedStocks|
        invariant 0 <= i <= |allocatedStocks|
        invariant StrictReport(allocatedStocks, stocks, prices, total, threshold).0 ==
          decisions + StrictReport(allocatedStocks[i..], stocks, prices, total, threshold).0
        invariant StrictReport(allocatedStocks, stocks, prices, total, threshold).1 ==
          StrictReport(allocatedStocks[i..], stocks, prices, total, threshold).1
        invariant missing == None
      {
        var (s, pct) := allocatedStocks[i];
        assert allocatedStocks[i..][0] == (s, pct);
        var targetValue := (pct / 100.0) * total;
        if s !in stocks {
          missing := Some(s);
          assert decisions + [] == decisions;
          return;
        }
        var currentValue := prices[s] * stocks[s];
        var difference := targetValue - currentValue;
        assert difference == Difference(pct, Held(stocks, s), prices[s], total);
        if Abs(difference) / total > threshold {
          decisions := decisions + [Trade(Action(s, difference / prices[s]))];
        } else {
          decisions := decisions + [NoActionNeeded(s)];
        }
        assert allocatedStocks[i..][1..] == allocatedStocks[i + 1..];
        i := i + 1;
      }
      assert allocatedStocks[i..] == [];
      assert decisions + [] == decisions;
    }
  }
}
