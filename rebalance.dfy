/**
 * The rebalance arithmetic shared by the portfolio's own report and by the
 * interactive rebalance: for each allocated stock, its target value, its current
 * value, the gap between them, whether the gap is large enough to act on, and the
 * trade that closes it; then the list of suggested trades and its application.
 */
module Rebalance {
  import opened Wrappers
  import opened Ledger

  function Abs(x: real): real {
    if x < 0.0 then -x else x
  }

  /** A new holding that would be negative is stored as zero instead. */
  function ClampAtZero(x: real): real {
    if x < 0.0 then 0.0 else x
  }

  /** The value a stock with target percentage `pct` should have in a portfolio worth `total`. */
  function TargetValue(pct: real, total: real): real {
    (pct / 100.0) * total
  }

  /** Target value minus current value. */
  function Difference(pct: real, held: real, price: real, total: real): real {
    TargetValue(pct, total) - ValueOf(price, held)
  }

  /** The gap, as a fraction of the total value, strictly exceeds the threshold. */
  predicate NeedsAction(pct: real, held: real, price: real, total: real, threshold: real)
    requires total != 0.0
  {
    Abs(Difference(pct, held, price, total)) / total > threshold
  }

  /** A suggested trade: buy (positive) or sell (negative) `shares` of `symbol`. */
  datatype Action = Action(symbol: string, shares: real)

  datatype Side = Buy | Sell

  /** How a trade is shown: its side and the number of shares, which the side's sign restores. */
  function Label(a: Action): (r: (Side, real))
    ensures r.1 >= 0.0
    ensures r.0 == Buy <==> a.shares > 0.0
    ensures a.shares == if r.0 == Buy then r.1 else -r.1
  {
    (if a.shares > 0.0 then Buy else Sell, Abs(a.shares))
  }

  /** Every allocated stock has a price, and no such price is zero (it is divided by). */
  predicate Priced(alloc: Allocation, prices: PriceTable) {
    forall i :: 0 <= i < |alloc| ==> alloc[i].0 in prices && prices[alloc[i].0] != 0.0
  }

  /** Whether the allocation entry `e` is off target by more than the threshold. */
  predicate EntryNeedsAction(e: (string, real), h: Holdings, prices: PriceTable, total: real, threshold: real)
    requires total != 0.0 && e.0 in prices
  {
    NeedsAction(e.1, Held(h, e.0), prices[e.0], total, threshold)
  }

  /** The trade that closes the gap of entry `e`: the difference divided by the price. */
  function ActionFor(e: (string, real), h: Holdings, prices: PriceTable, total: real): Action
    requires e.0 in prices && prices[e.0] != 0.0
  {
    Action(e.0, Difference(e.1, Held(h, e.0), prices[e.0], total) / prices[e.0])
  }

  // ---------------------------------------------------------------------------
  // The suggestion list of the interactive rebalance

  /**
   * The trades suggested for an allocation, in allocation order: one for each
   * entry whose gap exceeds the threshold, and none for the others. A stock the
   * ledger does not hold counts as holding zero shares.
   */
  function Suggest(alloc: Allocation, h: Holdings, prices: PriceTable, total: real, threshold: real): (r: seq<Action>)
    requires total != 0.0 && Priced(alloc, prices)
    ensures |r| <= |alloc|
    decreases |alloc|
  {
    if alloc == [] then []
    else
      var first := if EntryNeedsAction(alloc[0], h, prices, total, threshold)
        then [ActionFor(alloc[0], h, prices, total)] else [];
      first + Suggest(alloc[1..], h, prices, total, threshold)
  }

  /** Suggesting for two allocations back to back gives their suggestions back to back. */
  lemma {:induction false} SuggestAppend(a: Allocation, b: Allocation, h: Holdings, prices: PriceTable, total: real, threshold: real)
    requires total != 0.0 && Priced(a, prices) && Priced(b, prices)
    ensures Priced(a + b, prices)
    ensures Suggest(a + b, h, prices, total, threshold) == Suggest(a, h, prices, total, threshold) + Suggest(b, h, prices, total, threshold)
    decreases |a|
  {
    if a == [] {
      assert a + b == b;
    } else {
      assert (a + b)[0] == a[0];
      assert (a + b)[1..] == a[1..] + b;
      SuggestAppend(a[1..], b, h, prices, total, threshold);
    }
  }

  /** Every suggested trade is the closing trade of an allocated entry that needs action. */
  lemma {:induction false} SuggestSound(alloc: Allocation, h: Holdings, prices: PriceTable, total: real, threshold: real, a: Action)
    requires total != 0.0 && Priced(alloc, prices)
    requires a in Suggest(alloc, h, prices, total, threshold)
    ensures exists i :: (0 <= i < |alloc| && EntryNeedsAction(alloc[i], h, prices, total, threshold) &&
      a == ActionFor(alloc[i], h, prices, total))
    decreases |alloc|
  {
    var rest := Suggest(alloc[1..], h, prices, total, threshold);
    if a in rest {
      SuggestSound(alloc[1..], h, prices, total, threshold, a);
      var i :| 0 <= i < |alloc[1..]| && EntryNeedsAction(alloc[1..][i], h, prices, total, threshold) &&
        a == ActionFor(alloc[1..][i], h, prices, total);
      assert alloc[1..][i] == alloc[i + 1];
    } else {
      assert EntryNeedsAction(alloc[0], h, prices, total, threshold) && a == ActionFor(alloc[0], h, prices, total);
    }
  }

  /** Every allocated entry that needs action has its closing trade suggested. */
  lemma {:induction false} SuggestComplete(alloc: Allocation, h: Holdings, prices: PriceTable, total: real, threshold: real, i: nat)
    requires total != 0.0 && Priced(alloc, prices)
    requires i < |alloc| && EntryNeedsAction(alloc[i], h, prices, total, threshold)
    ensures ActionFor(alloc[i], h, prices, total) in Suggest(alloc, h, prices, total, threshold)
    decreases i
  {
    if i > 0 {
      assert alloc[1..][i - 1] == alloc[i];
      SuggestComplete(alloc[1..], h, prices, total, threshold, i - 1);
    }
  }

  /** No two trades are for the same symbol. */
  predicate DistinctActions(acts: seq<Action>) {
    forall i, j :: 0 <= i < j < |acts| ==> acts[i].symbol != acts[j].symbol
  }

  /** An allocation without repeated symbols yields at most one trade per symbol. */
  lemma {:induction false} SuggestDistinct(alloc: Allocation, h: Holdings, prices: PriceTable, total: real, threshold: real)
    requires total != 0.0 && Priced(alloc, prices) && DistinctSymbols(alloc)
    ensures DistinctActions(Suggest(alloc, h, prices, total, threshold))
    decreases |alloc|
  {
    if alloc != [] {
      var rest := Suggest(alloc[1..], h, prices, total, threshold);
      SuggestDistinct(alloc[1..], h, prices, total, threshold);
      forall a | a in rest ensures a.symbol != alloc[0].0 {
        SuggestSound(alloc[1..], h, prices, total, threshold, a);
        var i :| 0 <= i < |alloc[1..]| && EntryNeedsAction(alloc[1..][i], h, prices, total, threshold) &&
          a == ActionFor(alloc[1..][i], h, prices, total);
        assert alloc[1..][i] == alloc[i + 1];
      }
      var r := Suggest(alloc, h, prices, total, threshold);
      assert r == rest || r == [ActionFor(alloc[0], h, prices, total)] + rest;
      forall j | 0 < j < |r| ensures r[j] in rest {
        if r != rest { assert r[j] == rest[j - 1]; }
      }
    }
  }

  // ---------------------------------------------------------------------------
  // The portfolio's own report, which looks holdings up without a default

  /** One line of the report: a trade, or no action needed for a symbol. */
  datatype Decision = Trade(action: Action) | NoActionNeeded(symbol: string)

  /** The decision for one allocated entry. */
  function Decide(e: (string, real), h: Holdings, prices: PriceTable, total: real, threshold: real): Decision
    requires total != 0.0 && e.0 in prices && prices[e.0] != 0.0
  {
    if EntryNeedsAction(e, h, prices, total, threshold) then Trade(ActionFor(e, h, prices, total))
    else NoActionNeeded(e.0)
  }

  /**
   * The report, in allocation order, up to the first allocated stock that is not
   * held: the lookup of its holding fails, and the report stops there, naming it.
   */
  function StrictReport(alloc: Allocation, h: Holdings, prices: PriceTable, total: real, threshold: real): (seq<Decision>, Option<string>)
    requires total != 0.0 && Priced(alloc, prices)
    decreases |alloc|
  {
    if alloc == [] then ([], None)
    else if alloc[0].0 !in h then ([], Some(alloc[0].0))
    else
      var rest := StrictReport(alloc[1..], h, prices, total, threshold);
      ([Decide(alloc[0], h, prices, total, threshold)] + rest.0, rest.1)
  }

  /** The trades among a report's lines, in order. */
  function Trades(ds: seq<Decision>): seq<Action>
    decreases |ds|
  {
    if ds == [] then []
    else (if ds[0].Trade? then [ds[0].action] else []) + Trades(ds[1..])
  }

  /**
   * The report fails exactly at the first allocated stock not held. Before that it
   * has one line per allocated stock, and its trades are the interactive
   * rebalance's suggestions for the part of the allocation it covered; when every
   * allocated stock is held, that is the whole allocation.
   */
  lemma {:induction false} StrictReportAgrees(alloc: Allocation, h: Holdings, prices: PriceTable, total: real, threshold: real)
    requires total != 0.0 && Priced(alloc, prices)
    ensures StrictReport(alloc, h, prices, total, threshold).1 == FirstUnheld(alloc, h)
    ensures var k := HeldPrefix(alloc, h);
      Priced(alloc[..k], prices) &&
      |StrictReport(alloc, h, prices, total, threshold).0| == k &&
      Trades(StrictReport(alloc, h, prices, total, threshold).0) == Suggest(alloc[..k], h, prices, total, threshold)
    ensures FirstUnheld(alloc, h).None? ==>
      |StrictReport(alloc, h, prices, total, threshold).0| == |alloc| &&
      Trades(StrictReport(alloc, h, prices, total, threshold).0) == Suggest(alloc, h, prices, total, threshold)
    decreases |alloc|
  {
    var k := HeldPrefix(alloc, h);
    if alloc == [] || alloc[0].0 !in h {
      assert alloc[..k] == [];
    } else {
      var rest := StrictReport(alloc[1..], h, prices, total, threshold);
      StrictReportAgrees(alloc[1..], h, prices, total, threshold);
      var ds := [Decide(alloc[0], h, prices, total, threshold)] + rest.0;
      assert ds[0] == Decide(alloc[0], h, prices, total, threshold);
      assert ds[1..] == rest.0;
      assert alloc[..k][0] == alloc[0];
      assert alloc[..k][1..] == alloc[1..][..k - 1];
    }
    assert alloc[..|alloc|] == alloc;
  }

  // ---------------------------------------------------------------------------
  // Applying the suggested trades

  /** One trade: the holding becomes the old holding plus the trade, clamped at zero. */
  function ApplyAction(h: Holdings, a: Action): Holdings {
    h[a.symbol := ClampAtZero(Held(h, a.symbol) + a.shares)]
  }

  /** The trades, applied one after another in list order. */
  function ApplyAll(h: Holdings, acts: seq<Action>): Holdings
    decreases |acts|
  {
    if acts == [] then h
    else ApplyAction(ApplyAll(h, acts[..|acts| - 1]), acts[|acts| - 1])
  }

  /** A symbol no trade names keeps its entry, or its absence, unchanged. */
  lemma {:induction false} ApplyOthersUnchanged(h: Holdings, acts: seq<Action>, s: string)
    requires forall k :: 0 <= k < |acts| ==> acts[k].symbol != s
    ensures (s in ApplyAll(h, acts) <==> s in h) && Held(ApplyAll(h, acts), s) == Held(h, s)
    decreases |acts|
  {
    if acts != [] {
      ApplyOthersUnchanged(h, acts[..|acts| - 1], s);
    }
  }

  /** With one trade per symbol, each traded holding ends as its old value plus the trade, clamped at zero. */
  lemma {:induction false} ApplyTouched(h: Holdings, acts: seq<Action>, k: nat)
    requires DistinctActions(acts) && k < |acts|
    ensures acts[k].symbol in ApplyAll(h, acts)
    ensures ApplyAll(h, acts)[acts[k].symbol] == ClampAtZero(Held(h, acts[k].symbol) + acts[k].shares)
    decreases |acts|
  {
    var n := |acts| - 1;
    var init := acts[..n];
    if k == n {
      ApplyOthersUnchanged(h, init, acts[k].symbol);
    } else {
      assert init[k] == acts[k];
      ApplyTouched(h, init, k);
    }
  }

  /** Applying trades never stores a negative holding. */
  lemma {:induction false} ApplyKeepsNonNegative(h: Holdings, acts: seq<Action>)
    requires NonNegative(h)
    ensures NonNegative(ApplyAll(h, acts))
    decreases |acts|
  {
    if acts != [] {
      ApplyKeepsNonNegative(h, acts[..|acts| - 1]);
    }
  }

  /** Unlike a sale, applying a trade can leave an entry of exactly zero shares. */
  lemma ApplyCanStoreZero()
    ensures var h := ApplyAll(map["GOOG" := 2.0], [Action("GOOG", -5.0)]);
      "GOOG" in h && h["GOOG"] == 0.0
  {
    assert [Action("GOOG", -5.0)][..0] == [];
  }

  // ---------------------------------------------------------------------------
  // What a confirmed rebalance does to the holdings

  /** Each allocated stock that needs action ends at its old holding plus its trade, clamped at zero. */
  lemma RebalanceSetsTraded(alloc: Allocation, h: Holdings, prices: PriceTable, total: real, threshold: real, i: nat)
    requires total != 0.0 && Priced(alloc, prices) && DistinctSymbols(alloc)
    requires i < |alloc| && EntryNeedsAction(alloc[i], h, prices, total, threshold)
    ensures var h' := ApplyAll(h, Suggest(alloc, h, prices, total, threshold));
      alloc[i].0 in h' &&
      Held(h', alloc[i].0) == ClampAtZero(Held(h, alloc[i].0) + ActionFor(alloc[i], h, prices, total).shares)
  {
    var acts := Suggest(alloc, h, prices, total, threshold);
    SuggestComplete(alloc, h, prices, total, threshold, i);
    SuggestDistinct(alloc, h, prices, total, threshold);
    var k :| 0 <= k < |acts| && acts[k] == ActionFor(alloc[i], h, prices, total);
    ApplyTouched(h, acts, k);
  }

  /** A stock with no trade (not allocated, or within the threshold) keeps its holding. */
  lemma RebalanceKeepsUntraded(alloc: Allocation, h: Holdings, prices: PriceTable, total: real, threshold: real, s: string)
    requires total != 0.0 && Priced(alloc, prices)
    requires forall i :: 0 <= i < |alloc| && alloc[i].0 == s ==> !EntryNeedsAction(alloc[i], h, prices, total, threshold)
    ensures var h' := ApplyAll(h, Suggest(alloc, h, prices, total, threshold));
      (s in h' <==> s in h) && Held(h', s) == Held(h, s)
  {
    var acts := Suggest(alloc, h, prices, total, threshold);
    forall k | 0 <= k < |acts| ensures acts[k].symbol != s {
      SuggestSound(alloc, h, prices, total, threshold, acts[k]);
    }
    ApplyOthersUnchanged(h, acts, s);
  }

  /** Moving a holding by its closing trade makes it worth exactly its target value. */
  lemma ActionForHitsTarget(e: (string, real), h: Holdings, prices: PriceTable, total: real)
    requires e.0 in prices && prices[e.0] != 0.0
    ensures ValueOf(prices[e.0], Held(h, e.0) + ActionFor(e, h, prices, total).shares) == TargetValue(e.1, total)
  {
    var price, held, target := prices[e.0], Held(h, e.0), TargetValue(e.1, total);
    var shares := ActionFor(e, h, prices, total).shares;
    assert price * shares == target - price * held;
    assert price * (held + shares) == price * held + price * shares;
  }

  /**
   * When the trade is not clamped, a traded stock's new value (price times the
   * new holding) is exactly its target value.
   */
  lemma RebalanceHitsTarget(alloc: Allocation, h: Holdings, prices: PriceTable, total: real, threshold: real, i: nat)
    requires total != 0.0 && Priced(alloc, prices) && DistinctSymbols(alloc)
    requires i < |alloc| && EntryNeedsAction(alloc[i], h, prices, total, threshold)
    requires Held(h, alloc[i].0) + ActionFor(alloc[i], h, prices, total).shares >= 0.0
    ensures ValueOf(prices[alloc[i].0], Held(ApplyAll(h, Suggest(alloc, h, prices, total, threshold)), alloc[i].0))
      == TargetValue(alloc[i].1, total)
  {
    RebalanceSetsTraded(alloc, h, prices, total, threshold, i);
    ActionForHitsTarget(alloc[i], h, prices, total);
  }

  // ---------------------------------------------------------------------------
  // A worked example

  /**
   * AAPL 190 x 10, MSFT 320 x 5, GOOG 140 x 2, worth 1900 + 1600 + 280 = 3780,
   * against 50/30/20 at a 1% threshold: AAPL is within the threshold, MSFT is
   * sold, GOOG is bought.
   */
  lemma ExampleSuggestions()
    ensures var alloc := [("AAPL", 50.0), ("MSFT", 30.0), ("GOOG", 20.0)];
      var h := map["AAPL" := 10.0, "MSFT" := 5.0, "GOOG" := 2.0];
      var prices := map["AAPL" := 190.0, "MSFT" := 320.0, "GOOG" := 140.0];
      h.Keys <= prices.Keys && SumValue(h, prices) == 3780.0 &&
      Priced(alloc, prices) &&
      Suggest(alloc, h, prices, 3780.0, 0.01) == [Action("MSFT", -466.0 / 320.0), Action("GOOG", 476.0 / 140.0)]
  {
    var h := map["AAPL" := 10.0, "MSFT" := 5.0, "GOOG" := 2.0];
    var prices := map["AAPL" := 190.0, "MSFT" := 320.0, "GOOG" := 140.0];
    SumValueRemove(h, prices, "AAPL");
    assert h - {"AAPL"} == map["MSFT" := 5.0, "GOOG" := 2.0];
    SumValueRemove(h - {"AAPL"}, prices, "MSFT");
    assert h - {"AAPL"} - {"MSFT"} == map["GOOG" := 2.0];
    SumValueRemove(h - {"AAPL"} - {"MSFT"}, prices, "GOOG");
    assert h - {"AAPL"} - {"MSFT"} - {"GOOG"} == map[];
    var alloc: Allocation := [("AAPL", 50.0), ("MSFT", 30.0), ("GOOG", 20.0)];
    assert alloc[1..] == [("MSFT", 30.0), ("GOOG", 20.0)];
    assert alloc[1..][1..] == [("GOOG", 20.0)];
    assert alloc[1..][1..][1..] == [];
  }

  /** A single-stock allocation gets a trade exactly when its gap exceeds the threshold, never at equality. */
  lemma ThresholdIsStrict(pct: real, held: real, price: real, total: real, threshold: real)
    requires total != 0.0 && price != 0.0
    ensures var gap := Abs(Difference(pct, held, price, total)) / total;
      var prices := map["X" := price];
      var h := map["X" := held];
      Priced([("X", pct)], prices) &&
      (gap == threshold ==> Suggest([("X", pct)], h, prices, total, threshold) == []) &&
      (gap > threshold ==> Suggest([("X", pct)], h, prices, total, threshold) == [ActionFor(("X", pct), h, prices, total)])
  {
    var alloc: Allocation := [("X", pct)];
    assert alloc[1..] == [];
  }
}
