/**
 * The command-line driver's logic without its console: the interactive rebalance
 * (suggest, then apply on confirmation), and the directory of named portfolios
 * with its current selection.
 */
module Manager {
  import opened Wrappers
  import opened Ledger
  import opened Rebalance
  import opened Classes

  // ---------------------------------------------------------------------------
  // Interactive rebalance

  /** How an interactive rebalance ends. */
  datatype RebalanceOutcome =
    | EmptyPortfolio                  // the portfolio is worth zero: nothing is computed
    | NoAllocation                    // no target allocation is set
    | AllWithinThreshold              // no allocated stock is off by more than the threshold
    | Applied(actions: seq<Action>)   // the trades were confirmed and applied
    | Cancelled(actions: seq<Action>) // the trades were shown but not confirmed

  /**
   * The suggestion phase: one trade per allocated stock whose gap exceeds the
   * threshold, in allocation order, a stock not held counting as zero shares.
   * It only reads the portfolio.
   */
  method SuggestActions(p: Portfolio, prices: PriceTable, total: real, threshold: real) returns (actions: seq<Action>)
    requires total != 0.0 && Priced(p.allocatedStocks, prices)
    ensures actions == Suggest(p.allocatedStocks, p.stocks, prices, total, threshold)
  {
    var alloc := p.allocatedStocks;
    actions := [];
    var i := 0;
    while i < |alloc|
      invariant 0 <= i <= |alloc|
      invariant Priced(alloc[..i], prices)
      invariant actions == Suggest(alloc[..i], p.stocks, prices, total, threshold)
    {
      var (s, pct) := alloc[i];
      var targetValue := (pct / 100.0) * total;
      var currentValue := prices[s] * Held(p.stocks, s);
      var difference := targetValue - currentValue;
      ghost var step: Allocation := [(s, pct)];
      assert step[1..] == [];
      if Abs(difference) / total > threshold {
        var sharesToTrade := difference / prices[s];
        actions := actions + [Action(s, sharesToTrade)];
      }
      SuggestAppend(alloc[..i], step, p.stocks, prices, total, threshold);
      assert alloc[..i + 1] == alloc[..i] + step;
      i := i + 1;
    }
    assert alloc[..i] == alloc;
  }

  /** Computing the suggestions twice without applying them gives the same list. */
  method SuggestionsRepeat(p: Portfolio, prices: PriceTable, total: real, threshold: real) returns (first: seq<Action>, second: seq<Action>)
    requires total != 0.0 && Priced(p.allocatedStocks, prices)
    ensures first == second
  {
    first := SuggestActions(p, prices, total, threshold);
    second := SuggestActions(p, prices, total, threshold);
  }

  /** The apply phase: each trade sets its holding to the current one plus the trade, clamped at zero. */
  method ApplyActions(p: Portfolio, actions: seq<Action>)
    requires p.Valid()
    modifies p
    ensures p.Valid()
    ensures p.stocks == ApplyAll(old(p.stocks), actions)
    ensures p.allocatedStocks == old(p.allocatedStocks)
  {
    var i := 0;
    while i < |actions|
      invariant 0 <= i <= |actions|
      invariant p.stocks == ApplyAll(old(p.stocks), actions[..i])
      invariant p.allocatedStocks == old(p.allocatedStocks)
    {
      var (s, sharesToTrade) := (actions[i].symbol, actions[i].shares);
      var currentShares := Held(p.stocks, s);
      var newShares := currentShares + sharesToTrade;
      if newShares < 0.0 {
        newShares := 0.0;
      }
      p.stocks := p.stocks[s := newShares];
      assert actions[..i + 1][..i] == actions[..i];
      i := i + 1;
    }
    assert actions[..i] == actions;
    ApplyKeepsNonNegative(old(p.stocks), actions);
  }

  /**
   * Rebalances a portfolio: stops on a portfolio worth zero or without an
   * allocation, otherwise suggests trades and applies them only when the answer
   * is "y" (the answer as typed, trimmed and lower-cased).
   */
  method RebalancePortfolio(p: Portfolio, prices: PriceTable, threshold: real, answer: string) returns (outcome: RebalanceOutcome)
    requires p.Valid()
    requires p.stocks.Keys <= prices.Keys
    requires Priced(p.allocatedStocks, prices)
    modifies p
    ensures p.Valid() && p.allocatedStocks == old(p.allocatedStocks)
    ensures SumValue(old(p.stocks), prices) == 0.0 ==> outcome == EmptyPortfolio
    ensures SumValue(old(p.stocks), prices) != 0.0 && p.allocatedStocks == [] ==> outcome == NoAllocation
    ensures SumValue(old(p.stocks), prices) != 0.0 && p.allocatedStocks != [] ==>
      var actions := Suggest(p.allocatedStocks, old(p.stocks), prices, SumValue(old(p.stocks), prices), threshold);
      outcome == if actions == [] then AllWithinThreshold
                 else if answer == "y" then Applied(actions)
                 else Cancelled(actions)
    ensures p.stocks == if outcome.Applied? then ApplyAll(old(p.stocks), outcome.actions) else old(p.stocks)
  {
    var total := p.TotalValue(prices);
    if total == 0.0 {
      return EmptyPortfolio;
    }
    if p.allocatedStocks == [] {
      return NoAllocation;
    }
    var actions := SuggestActions(p, prices, total, threshold);
    if actions == [] {
      return AllWithinThreshold;
    }
    if answer == "y" {
      ApplyActions(p, actions);
      outcome := Applied(actions);
    } else {
      outcome := Cancelled(actions);
    }
  }

  // ---------------------------------------------------------------------------
  // Portfolio directory

  /**
   * The selection after a switch request naming `entered`: none when there are no
   * portfolios, `entered` when it names one, and otherwise the current selection.
   */
  function SelectPortfolio(names: set<string>, current: Option<string>, entered: string): (r: Option<string>)
    ensures (current.Some? ==> current.value in names) ==> (r.Some? ==> r.value in names)
    ensures names == {} ==> r == None
    ensures names != {} && entered in names ==> r == Some(entered)
    ensures names != {} && entered !in names ==> r == current
  {
    if names == {} then None
    else if entered in names then Some(entered)
    else current
  }

  /** The named portfolios and the name of the selected one, if any. */
  class Directory {
    var portfolios: map<string, Portfolio>
    var current: Option<string>

    /** The selection names an existing portfolio, and every portfolio is valid. */
    ghost predicate Valid()
      reads this, portfolios.Values
    {
      (current.Some? ==> current.value in portfolios) &&
      forall n :: n in portfolios ==> portfolios[n].Valid()
    }

    constructor ()
      ensures Valid() && portfolios == map[] && current == None
    {
      portfolios := map[];
      current := None;
    }

    /** Creates an empty portfolio under a new name and selects it; a taken name is refused. */
    method Create(name: string) returns (created: bool)
      requires Valid()
      modifies this
      ensures Valid()
      ensures created <==> name !in old(portfolios)
      ensures !created ==> portfolios == old(portfolios) && current == old(current)
      ensures created ==>
        name in portfolios && fresh(portfolios[name]) &&
        portfolios[name].stocks == map[] && portfolios[name].allocatedStocks == [] &&
        portfolios == old(portfolios)[name := portfolios[name]] &&
        current == Some(name)
    {
      if name in portfolios {
        return false;
      }
      var p := new Portfolio();
      portfolios := portfolios[name := p];
      current := Some(name);
      created := true;
    }

    /** Switches to the portfolio named `entered` when there is one. */
    method Select(entered: string)
      requires Valid()
      modifies this
      ensures Valid() && portfolios == old(portfolios)
      ensures current == SelectPortfolio(old(portfolios).Keys, old(current), entered)
    {
      current := SelectPortfolio(portfolios.Keys, current, entered);
    }

    /**
     * The demonstration portfolio "Demo", replacing any portfolio of that name,
     * becomes the selection.
     */
    method CreateTestData(aapl: int, msft: int, goog: int) returns (name: string)
      requires Valid()
      requires 10 <= aapl <= 50 && 5 <= msft <= 30 && 2 <= goog <= 20
      modifies this
      ensures Valid() && name == "Demo" && current == Some(name)
      ensures name in portfolios && fresh(portfolios[name])
      ensures portfolios == old(portfolios)[name := portfolios[name]]
      ensures portfolios[name].stocks == map["AAPL" := aapl as real, "MSFT" := msft as real, "GOOG" := goog as real]
      ensures portfolios[name].allocatedStocks == [("AAPL", 50.0), ("MSFT", 30.0), ("GOOG", 20.0)]
    {
      name := "Demo";
      var demo := DemoPortfolio(aapl, msft, goog);
      portfolios := portfolios[name := demo];
      current := Some(name);
    }
  }

  /**
   * A new portfolio holding the given numbers of AAPL, MSFT and GOOG shares (drawn
   * at random in the source, within the bounds required here) with a 50/30/20
   * allocation, built through the portfolio's own operations.
   */
  method DemoPortfolio(aapl: int, msft: int, goog: int) returns (demo: Portfolio)
    requires 10 <= aapl <= 50 && 5 <= msft <= 30 && 2 <= goog <= 20
    ensures fresh(demo) && demo.Valid()
    ensures demo.stocks == map["AAPL" := aapl as real, "MSFT" := msft as real, "GOOG" := goog as real]
    ensures demo.allocatedStocks == [("AAPL", 50.0), ("MSFT", 30.0), ("GOOG", 20.0)]
  {
    demo := new Portfolio();
    var added := demo.AddStock("AAPL", aapl as real);
    assert demo.stocks == map["AAPL" := aapl as real];
    added := demo.AddStock("MSFT", msft as real);
    assert demo.stocks == map["AAPL" := aapl as real, "MSFT" := msft as real];
    added := demo.AddStock("GOOG", goog as real);
    assert demo.stocks == map["AAPL" := aapl as real, "MSFT" := msft as real, "GOOG" := goog as real];
    var targets: Allocation := [("AAPL", 50.0), ("MSFT", 30.0), ("GOOG", 20.0)];
    assert targets[1..][1..][1..] == [];
    assert PctSum(targets) == 100.0;
    var allocation := demo.SetAllocation(targets);
    assert allocation == Pass;
  }
}
